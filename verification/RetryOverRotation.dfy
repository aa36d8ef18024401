// The retry chain of a request on top of the rotator: which proxies one request tries.
module RetryOverRotation {
  import opened Options
  import opened Headers
  import Rotation
  import opened ProxyServer

  // One round of a request: what happened to the active list since the round before, with it takes of
  // this round that missed and were repeated; the take itself; and what becomes of the connection over
  // the proxy it hands out.
  datatype Round = Round(
    before: seq<Rotation.Event>, now: int, sel: Rotation.Selector,
    error: bool, socketError: bool, logFails: bool)

  function Taking(round: Round): Rotation.Event {
    Rotation.Take(round.now, round.sel)
  }

  // Everything that happens to the active list up to the take of round k.
  function EventsBefore(rounds: nat -> Round, k: nat): seq<Rotation.Event> {
    (if k == 0 then [] else EventsBefore(rounds, k - 1) + [Taking(rounds(k - 1))]) + rounds(k).before
  }

  // The rotator when round k takes.
  function StateAt(s: Rotation.State, rounds: nat -> Round, reuse: nat, k: nat): Rotation.State {
    Rotation.Run(s, EventsBefore(rounds, k), reuse)
  }

  // What round k answers the chain: the proxy its take hands out, or a rejection on a miss.
  function Answer(s: Rotation.State, rounds: nat -> Round, reuse: nat, k: nat): Try {
    var choice := Rotation.Choice(StateAt(s, rounds, reuse, k), rounds(k).now, rounds(k).sel);
    if choice.Some? then Tried(choice.value, rounds(k).error, rounds(k).socketError, rounds(k).logFails)
    else Rejected
  }

  function Answers(s: Rotation.State, rounds: nat -> Round, reuse: nat): nat -> Try {
    (k: nat) => Answer(s, rounds, reuse, k)
  }

  // The chain of a request whose every choice is a take of the rotator in state `s`.
  function Compose(
      s: Rotation.State, rounds: nat -> Round, reuse: nat,
      cfg: Config, repeat: int, list: seq<Field>, direct: Direct): Chain
  {
    Connect(cfg, repeat, list, Answers(s, rounds, reuse), 0, direct)
  }

  // ---------------------------------------------------------------- the takes of a request

  lemma StepExtends(s: Rotation.State, ev: Rotation.Event, reuse: nat)
    ensures s.trace <= Rotation.Step(s, ev, reuse).trace
    ensures |Rotation.Step(s, ev, reuse).trace| == |s.trace| + if ev.Take? then 1 else 0
  {
  }

  lemma {:induction false} RunExtends(s: Rotation.State, events: seq<Rotation.Event>, reuse: nat)
    ensures s.trace <= Rotation.Run(s, events, reuse).trace
    ensures (forall ev :: ev in events ==> !ev.Take?) ==> Rotation.Run(s, events, reuse).trace == s.trace
    decreases |events|
  {
    if events != [] {
      StepExtends(s, events[0], reuse);
      RunExtends(Rotation.Step(s, events[0], reuse), events[1..], reuse);
    }
  }

  lemma LongerRunExtends(s: Rotation.State, events: seq<Rotation.Event>, longer: seq<Rotation.Event>, reuse: nat)
    requires events <= longer
    ensures Rotation.Run(s, events, reuse).trace <= Rotation.Run(s, longer, reuse).trace
    ensures (forall ev :: ev in longer[|events|..] ==> !ev.Take?) ==>
      Rotation.Run(s, longer, reuse).trace == Rotation.Run(s, events, reuse).trace
  {
    assert longer == events + longer[|events|..];
    Rotation.RunConcat(s, events, longer[|events|..], reuse);
    RunExtends(Rotation.Run(s, events, reuse), longer[|events|..], reuse);
  }

  // Everything up to and with the take of round k.
  function EventsWith(rounds: nat -> Round, k: nat): seq<Rotation.Event> {
    EventsBefore(rounds, k) + [Taking(rounds(k))]
  }

  lemma {:induction false} LaterEvents(rounds: nat -> Round, j: nat, k: nat)
    requires j < k
    ensures EventsWith(rounds, j) <= EventsBefore(rounds, k)
  {
    assert EventsBefore(rounds, k) == EventsWith(rounds, k - 1) + rounds(k).before;
    if j < k - 1 {
      LaterEvents(rounds, j, k - 1);
    }
  }

  // The rotator right after round k's take.
  function Taken(s: Rotation.State, rounds: nat -> Round, reuse: nat, k: nat): Rotation.State {
    Rotation.Run(s, EventsWith(rounds, k), reuse)
  }

  lemma TakenSteps(s: Rotation.State, rounds: nat -> Round, reuse: nat, k: nat)
    ensures Taken(s, rounds, reuse, k) == Rotation.Step(StateAt(s, rounds, reuse, k), Taking(rounds(k)), reuse)
  {
    var before, take := EventsBefore(rounds, k), Taking(rounds(k));
    Rotation.RunConcat(s, before, [take], reuse);
    Rotation.RunUnfold(Rotation.Run(s, before, reuse), [take], reuse);
    assert [take][1..] == [];
  }

  // The number of takes the rotator had served when round k took.
  function Position(s: Rotation.State, rounds: nat -> Round, reuse: nat, k: nat): nat {
    |StateAt(s, rounds, reuse, k).trace|
  }

  // The take of round k adds its choice to the history.
  lemma TraceAt(s: Rotation.State, rounds: nat -> Round, reuse: nat, k: nat)
    ensures Taken(s, rounds, reuse, k).trace == StateAt(s, rounds, reuse, k).trace
      + [Rotation.Choice(StateAt(s, rounds, reuse, k), rounds(k).now, rounds(k).sel)]
  {
    TakenSteps(s, rounds, reuse, k);
  }

  lemma RoundsGrow(s: Rotation.State, rounds: nat -> Round, reuse: nat, j: nat, k: nat)
    requires j < k
    ensures Taken(s, rounds, reuse, j).trace <= StateAt(s, rounds, reuse, k).trace
    ensures Position(s, rounds, reuse, j) < Position(s, rounds, reuse, k)
  {
    LaterEvents(rounds, j, k);
    LongerRunExtends(s, EventsWith(rounds, j), EventsBefore(rounds, k), reuse);
    TraceAt(s, rounds, reuse, j);
  }

  // Two hits of one request, with fewer than `reuse` other takes between them, are different entries.
  lemma RoundsDiffer(s: Rotation.State, rounds: nat -> Round, reuse: nat, j: nat, k: nat)
    requires reuse >= 1 && Rotation.Inv(s, reuse) && j < k
    requires Position(s, rounds, reuse, k) - Position(s, rounds, reuse, j) <= reuse
    requires Answer(s, rounds, reuse, j).Tried? && Answer(s, rounds, reuse, k).Tried?
    ensures Answer(s, rounds, reuse, j).target != Answer(s, rounds, reuse, k).target
  {
    var t := Taken(s, rounds, reuse, k).trace;
    TraceAt(s, rounds, reuse, j);
    TraceAt(s, rounds, reuse, k);
    RoundsGrow(s, rounds, reuse, j, k);
    Rotation.RunKeepsInv(s, EventsWith(rounds, k), reuse);
    var p, q := Position(s, rounds, reuse, j), Position(s, rounds, reuse, k);
    assert t[p] == Some(Answer(s, rounds, reuse, j).target);
    assert t[q] == Some(Answer(s, rounds, reuse, k).target);
  }

  // ---------------------------------------------------------------- the theorem

  // The k-th proxy the composed chain dials is what round k's take handed out.
  lemma ComposedDials(
      s: Rotation.State, rounds: nat -> Round, reuse: nat,
      cfg: Config, repeat: int, list: seq<Field>, direct: Direct)
    ensures var t := Compose(s, rounds, reuse, cfg, repeat, list, direct).trace;
      && |Dialled(t)| <= Asks(t) && 1 <= Asks(t) <= Left(cfg, repeat) + 1
      && forall k :: 0 <= k < |Dialled(t)| ==>
           Answer(s, rounds, reuse, k).Tried? && Dialled(t)[k] == Answer(s, rounds, reuse, k).target
  {
    var answers := Answers(s, rounds, reuse);
    ConnectCounts(cfg, repeat, list, answers, 0, direct);
    AsksOnce(cfg, repeat, list, answers, 0, direct);
    var dialled := Dialled(Compose(s, rounds, reuse, cfg, repeat, list, direct).trace);
    forall k | 0 <= k < |dialled|
      ensures Answer(s, rounds, reuse, k).Tried? && dialled[k] == Answer(s, rounds, reuse, k).target
    {
      assert answers(k).Tried? && dialled[k - 0] == answers(k).target;
    }
  }

  // The first n rounds take within `reuse` + 1 consecutive takes of the rotator.
  ghost predicate InWindow(s: Rotation.State, rounds: nat -> Round, reuse: nat, n: nat) {
    n >= 1 ==> Position(s, rounds, reuse, n - 1) - Position(s, rounds, reuse, 0) <= reuse
  }

  lemma WithinWindow(s: Rotation.State, rounds: nat -> Round, reuse: nat, n: nat, j: nat, k: nat)
    requires j < k < n && InWindow(s, rounds, reuse, n)
    ensures Position(s, rounds, reuse, k) - Position(s, rounds, reuse, j) <= reuse
  {
    if j > 0 {
      RoundsGrow(s, rounds, reuse, 0, j);
    }
    if k < n - 1 {
      RoundsGrow(s, rounds, reuse, k, n - 1);
    }
  }

  lemma DialsDistinct(
      s: Rotation.State, rounds: nat -> Round, reuse: nat,
      cfg: Config, repeat: int, list: seq<Field>, direct: Direct)
    requires reuse >= 1 && Rotation.Inv(s, reuse)
    requires InWindow(s, rounds, reuse, Asks(Compose(s, rounds, reuse, cfg, repeat, list, direct).trace))
    ensures Distinct(Dialled(Compose(s, rounds, reuse, cfg, repeat, list, direct).trace))
  {
    var t := Compose(s, rounds, reuse, cfg, repeat, list, direct).trace;
    ComposedDials(s, rounds, reuse, cfg, repeat, list, direct);
    forall j, k | 0 <= j < k < |Dialled(t)| ensures Dialled(t)[j] != Dialled(t)[k] {
      WithinWindow(s, rounds, reuse, Asks(t), j, k);
      RoundsDiffer(s, rounds, reuse, j, k);
    }
  }

  ghost predicate Distinct(xs: seq<nat>) {
    forall j, k :: 0 <= j < k < |xs| ==> xs[j] != xs[k]
  }

  // Rotator and retry composed: no active-list entry is tried twice for one request, whatever else the
  // rotator does before and between its rounds, as long as the takes it made lie within `reuse` + 1
  // consecutive takes.
  lemma TriedEntriesDistinct(
      events: seq<Rotation.Event>, rounds: nat -> Round, reuse: nat,
      cfg: Config, repeat: int, list: seq<Field>, direct: Direct)
    requires reuse >= 1
    requires var s := Rotation.Run(Rotation.EMPTY, events, reuse);
      InWindow(s, rounds, reuse, Asks(Compose(s, rounds, reuse, cfg, repeat, list, direct).trace))
    ensures Distinct(Dialled(Compose(Rotation.Run(Rotation.EMPTY, events, reuse), rounds, reuse,
                                     cfg, repeat, list, direct).trace))
  {
    var s := Rotation.Run(Rotation.EMPTY, events, reuse);
    Rotation.RunKeepsInv(Rotation.EMPTY, events, reuse);
    DialsDistinct(s, rounds, reuse, cfg, repeat, list, direct);
  }

  // No other take happens between the first n + 1 rounds.
  ghost predicate Uninterleaved(rounds: nat -> Round, n: nat) {
    forall k: nat, ev :: 0 < k <= n && ev in rounds(k).before ==> !ev.Take?
  }

  lemma {:induction false} UninterleavedPositions(s: Rotation.State, rounds: nat -> Round, reuse: nat, n: nat)
    requires Uninterleaved(rounds, n)
    ensures Position(s, rounds, reuse, n) == Position(s, rounds, reuse, 0) + n
  {
    if n > 0 {
      UninterleavedPositions(s, rounds, reuse, n - 1);
      TraceAt(s, rounds, reuse, n - 1);
      var before, with := EventsBefore(rounds, n), EventsWith(rounds, n - 1);
      assert before == with + rounds(n).before;
      LongerRunExtends(s, with, before, reuse);
    }
  }

  // In particular: with a repeat limit of at most `reuse` and no other take between its rounds, one
  // request over a socket with counter at least 0 tries pairwise distinct entries.
  lemma ConsecutiveTakesDistinct(
      events: seq<Rotation.Event>, rounds: nat -> Round, reuse: nat,
      cfg: Config, repeat: nat, list: seq<Field>, direct: Direct)
    requires reuse >= 1 && cfg.maxRepeats <= reuse
    requires Uninterleaved(rounds, Left(cfg, repeat))
    ensures Distinct(Dialled(Compose(Rotation.Run(Rotation.EMPTY, events, reuse), rounds, reuse,
                                     cfg, repeat, list, direct).trace))
  {
    var s := Rotation.Run(Rotation.EMPTY, events, reuse);
    ComposedDials(s, rounds, reuse, cfg, repeat, list, direct);
    var asks := Asks(Compose(s, rounds, reuse, cfg, repeat, list, direct).trace);
    UninterleavedPositions(s, rounds, reuse, asks - 1);
    TriedEntriesDistinct(events, rounds, reuse, cfg, repeat, list, direct);
  }
}
