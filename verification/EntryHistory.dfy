// What the counters of a listed entry stand for: its candidate's numbers and what happened to it since
// it was admitted.
module EntryHistory {
  import opened Options
  import opened Rotation

  // How many of the events from position `from` on are logs that were credited to `id` with this outcome.
  function Logs(events: seq<Event>, from: nat, id: nat, success: bool): nat {
    if |events| <= from then 0
    else
      var last := events[|events| - 1];
      Logs(events[..|events| - 1], from, id, success)
      + if last.LogDone? && !last.remove && last.id == id && last.success == success then 1 else 0
  }

  // The average the last successful log of `id` brought, or `start`.
  function LastAverage(events: seq<Event>, from: nat, id: nat, start: int): int {
    if |events| <= from then start
    else
      var last := events[|events| - 1];
      if last.LogDone? && !last.remove && last.id == id && last.success then last.avg
      else LastAverage(events[..|events| - 1], from, id, start)
  }

  // Whether the last event of a run is a take that hands out `id`.
  predicate HandsOut(events: seq<Event>, id: nat, reuse: nat)
    requires events != []
  {
    var init, last := events[..|events| - 1], events[|events| - 1];
    last.Take? && Choice(Run(EMPTY, init, reuse), last.now, last.sel) == Some(id)
  }

  function Uses(events: seq<Event>, from: nat, id: nat, reuse: nat): nat {
    if |events| <= from then 0
    else Uses(events[..|events| - 1], from, id, reuse) + if HandsOut(events, id, reuse) then 1 else 0
  }

  // The time of the last take that handed out `id`, or `start`.
  function LastUse(events: seq<Event>, from: nat, id: nat, reuse: nat, start: int): int {
    if |events| <= from then start
    else if HandsOut(events, id, reuse) then events[|events| - 1].now
    else LastUse(events[..|events| - 1], from, id, reuse, start)
  }

  // The k-th event admitted `e`, and everything `e` counts is the candidate's number and what was
  // logged for it or handed out of it since.
  ghost predicate AdmittedAt(events: seq<Event>, reuse: nat, e: Entry, k: nat) {
    && k < |events| && events[k].Admit?
    && e.id == Run(EMPTY, events[..k], reuse).nextId
    && var c := events[k].candidate;
    && (e.ip, e.port, e.dest, e.level, e.duration) == (c.ip, c.port, c.dest, c.level, c.duration)
    && e.success == c.successes + Logs(events, k + 1, e.id, true)
    && e.errors == c.errors + Logs(events, k + 1, e.id, false)
    && e.durationAvg == LastAverage(events, k + 1, e.id, c.durationAvg)
    && e.used == c.inc + Uses(events, k + 1, e.id, reuse)
    && e.updatedAt == LastUse(events, k + 1, e.id, reuse, events[k].now)
  }

  // ---------------------------------------------------------------- one step

  // `y` is what the event makes of `e`, apart from the cool-down counter.
  ghost predicate Follows(s: State, ev: Event, e: Entry, y: Entry) {
    var credited := ev.LogDone? && !ev.remove && ev.id == e.id;
    var taken := ev.Take? && Choice(s, ev.now, ev.sel) == Some(e.id);
    && y.id == e.id
    && (y.ip, y.port, y.dest, y.level, y.duration) == (e.ip, e.port, e.dest, e.level, e.duration)
    && y.success == e.success + (if credited && ev.success then 1 else 0)
    && y.errors == e.errors + (if credited && !ev.success then 1 else 0)
    && y.durationAvg == (if credited && ev.success then ev.avg else e.durationAvg)
    && y.used == e.used + (if taken then 1 else 0)
    && y.updatedAt == if taken then ev.now else e.updatedAt
  }

  lemma TickFollows(s: State, now: int, sel: Selector, reuse: nat, e: Entry)
    ensures Follows(s, Take(now, sel), e, Stamped(TickEntry(e, reuse), Choice(s, now, sel), now))
  {
  }

  lemma TakeOrigin(s: State, now: int, sel: Selector, reuse: nat, y: Entry) returns (e: Entry)
    requires y in TakeStep(s, now, sel, reuse).list
    ensures e in s.list && y == Stamped(TickEntry(e, reuse), Choice(s, now, sel), now)
  {
    var choice, updated := Choice(s, now, sel), UpdateList(s.list, reuse);
    StampedList(updated, choice, now, y);
    var x :| x in updated && y == Stamped(x, choice, now);
    UpdateListMembers(s.list, reuse, x);
    e :| e in s.list && !Useless(e) && x == TickEntry(e, reuse);
  }

  lemma TakeFollows(s: State, now: int, sel: Selector, reuse: nat, y: Entry)
    requires y in TakeStep(s, now, sel, reuse).list
    ensures exists e :: e in s.list && Follows(s, Take(now, sel), e, y)
  {
    var e := TakeOrigin(s, now, sel, reuse, y);
    TickFollows(s, now, sel, reuse, e);
  }

  lemma LogFollows(s: State, ev: Event, reuse: nat, y: Entry)
    requires ev.LogDone? && y in Step(s, ev, reuse).list
    ensures exists e :: e in s.list && Follows(s, ev, e, y)
  {
    if ev.remove {
      assert y in s.list && Follows(s, ev, y, y);
    } else {
      var credited := Credit(s.list, ev.id, ev.success, ev.avg);
      var i :| 0 <= i < |credited| && credited[i] == y;
      assert s.list[i] in s.list && Follows(s, ev, s.list[i], y);
    }
  }

  // Every entry after a step is an old one that followed it, or the one it admitted.
  lemma StepFollows(s: State, ev: Event, reuse: nat, y: Entry)
    requires y in Step(s, ev, reuse).list
    ensures
      || (exists e :: e in s.list && Follows(s, ev, e, y))
      || (ev.Admit? && y == Admitted(ev.candidate, s.nextId, ev.now))
  {
    match ev
    case Take(now, sel) => TakeFollows(s, now, sel, reuse, y);
    case Admit(c, now) =>
      if y in s.list {
        assert Follows(s, ev, y, y);
      }
    case LogDone(_, _, _, _) => LogFollows(s, ev, reuse, y);
    case Expired(_, _) => assert y in s.list && Follows(s, ev, y, y);
    case QueueEmpty => assert y in s.list && Follows(s, ev, y, y);
  }

  // ---------------------------------------------------------------- whole runs

  lemma FollowsAccounts(events: seq<Event>, reuse: nat, e: Entry, y: Entry, k: nat)
    requires events != [] && AdmittedAt(events[..|events| - 1], reuse, e, k)
    requires Follows(Run(EMPTY, events[..|events| - 1], reuse), events[|events| - 1], e, y)
    ensures AdmittedAt(events, reuse, y, k)
  {
    assert events[..|events| - 1][..k] == events[..k];
  }

  lemma NewAccounts(events: seq<Event>, reuse: nat, y: Entry)
    requires events != [] && events[|events| - 1].Admit?
    requires var last := events[|events| - 1];
      y == Admitted(last.candidate, Run(EMPTY, events[..|events| - 1], reuse).nextId, last.now)
    ensures AdmittedAt(events, reuse, y, |events| - 1)
  {
  }

  // In every run, a listed entry's successes and errors are its candidate's plus the logs credited to
  // it since its admission, its average is that of the last successful one, and its use count and
  // time are those of the takes that handed it out since.
  lemma {:induction false} EntryAccounts(events: seq<Event>, reuse: nat, y: Entry)
    requires y in Run(EMPTY, events, reuse).list
    ensures exists k :: AdmittedAt(events, reuse, y, k)
    decreases |events|
  {
    if events != [] {
      var init, last := events[..|events| - 1], events[|events| - 1];
      var s := Run(EMPTY, init, reuse);
      RunLast(events, reuse);
      StepFollows(s, last, reuse, y);
      if e :| e in s.list && Follows(s, last, e, y) {
        EntryAccounts(init, reuse, e);
        var k :| AdmittedAt(init, reuse, e, k);
        FollowsAccounts(events, reuse, e, y, k);
      } else {
        NewAccounts(events, reuse, y);
      }
    }
  }

  // A log leaves every entry in the list that it does not take out, and takes out none but its own.
  lemma LogLaw(s: State, id: nat, remove: bool, success: bool, avg: int, reuse: nat)
    ensures var s' := Step(s, LogDone(id, remove, success, avg), reuse);
      && (remove ==> forall e :: e in s'.list <==> e in s.list && e.id != id)
      && (!remove ==> |s'.list| == |s.list| && forall i :: 0 <= i < |s.list| ==>
            Follows(s, LogDone(id, remove, success, avg), s.list[i], s'.list[i])
            && s'.list[i].odd == s.list[i].odd)
      && s'.trace == s.trace && s'.nextId == s.nextId
  {
  }
}
