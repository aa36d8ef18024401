// The rotator with `reuse` 0. A remainder by 0 is NaN, so every update counts a used entry's counter up
// and none ever resets it.
module WithoutReuse {
  import opened Options
  import opened Protocols
  import opened Rotation

  // ---------------------------------------------------------------- counters without a bound

  const PLAIN_CANDIDATE := Candidate("", 0, Http, 1, 0, 0, 0, 0, 0)

  function Takes(n: nat): seq<Event> {
    if n == 0 then [] else [Take(0, ANY)] + Takes(n - 1)
  }

  lemma CoolingTake(s: State, e: Entry)
    requires s.list == [e] && e.odd > 0 && e.used > 0 && !Useless(e)
    ensures TakeStep(s, 0, ANY, 0).list == [e.(odd := e.odd + 1)]
  {
    assert FirstEligible([e], 0, ANY) == 1;
    SingleUpdate(e, 0);
  }

  lemma {:induction false} TakesCount(s: State, e: Entry, n: nat)
    requires s.list == [e] && e.odd > 0 && e.used > 0 && !Useless(e)
    ensures Run(s, Takes(n), 0).list == [e.(odd := e.odd + n)]
    decreases n
  {
    if n > 0 {
      CoolingTake(s, e);
      TakesCount(TakeStep(s, 0, ANY, 0), e.(odd := e.odd + 1), n - 1);
      assert Takes(n)[1..] == Takes(n - 1);
      RunUnfold(s, Takes(n), 0);
    }
  }

  // With `reuse` 0 a counter can grow to any size.
  lemma CountersGrow(n: nat) returns (events: seq<Event>, e: Entry)
    ensures e in Run(EMPTY, events, 0).list && e.odd > n
  {
    var start := [Admit(PLAIN_CANDIDATE, 0), Take(REST_MS, ANY)];
    var used := UseEntry(Admitted(PLAIN_CANDIDATE, 0, 0), 0, REST_MS);
    FirstTake(PLAIN_CANDIDATE, 0);
    RunConcat(EMPTY, start, Takes(n), 0);
    TakesCount(Run(EMPTY, start, 0), used, n);
    events, e := start + Takes(n), used.(odd := used.odd + n);
  }

  ghost predicate Bounded(reuse: nat, bound: nat) {
    forall events, e :: e in Run(EMPTY, events, reuse).list ==> e.odd <= bound
  }

  // The counters of all runs have a common bound if and only if `reuse` is at least 1, and `reuse`
  // itself is one then.
  lemma BoundNeedsReuse(reuse: nat)
    ensures (exists bound :: Bounded(reuse, bound)) <==> reuse >= 1
    ensures reuse >= 1 ==> Bounded(reuse, reuse)
  {
    if reuse >= 1 {
      forall events, e | e in Run(EMPTY, events, reuse).list ensures e.odd <= reuse {
        CoolDown(events, reuse);
      }
      assert Bounded(reuse, reuse);
    } else {
      forall bound | Bounded(reuse, bound) ensures false {
        var events, e := CountersGrow(bound);
      }
    }
  }

  // What one take does to the list: the chosen entry is stamped, a used one counts on, and an entry that
  // was never used stays idle.
  lemma TakeLawWithoutReuse(s: State, now: int, sel: Selector, y: Entry)
    ensures y in TakeStep(s, now, sel, 0).list <==>
      exists e :: && e in s.list && !(e.used > 99 && e.success * 100 <= 15 * e.used)
                  && y == Counted(e, Choice(s, now, sel), now)
  {
    var choice, list := Choice(s, now, sel), TakeStep(s, now, sel, 0).list;
    StampedList(UpdateList(s.list, 0), choice, now, y);
    if y in list {
      var x :| x in UpdateList(s.list, 0) && y == Stamped(x, choice, now);
      UpdateListMembers(s.list, 0, x);
      var e :| e in s.list && !Useless(e) && x == TickEntry(e, 0);
      CountedIsTicked(e, choice, now);
    }
    forall e | e in s.list && !Useless(e) && y == Counted(e, choice, now) ensures y in list {
      UpdateListMembers(s.list, 0, TickEntry(e, 0));
      CountedIsTicked(e, choice, now);
    }
  }

  function Counted(e: Entry, choice: Option<nat>, now: int): Entry {
    if choice == Some(e.id) then e.(odd := 1, used := e.used + 1, updatedAt := now)
    else if e.used > 0 then e.(odd := e.odd + 1)
    else e.(odd := 0)
  }

  lemma CountedIsTicked(e: Entry, choice: Option<nat>, now: int)
    ensures Stamped(TickEntry(e, 0), choice, now) == Counted(e, choice, now)
  {
  }

  // ---------------------------------------------------------------- no entry comes back

  // No listed entry of this identity can be eligible any more.
  ghost predicate Spent(s: State, id: nat) {
    && id < s.nextId
    && forall e :: e in s.list && e.id == id ==> e.odd > 0 && e.used > 0
  }

  lemma UpdateSpends(list: seq<Entry>, x: Entry)
    requires x in UpdateList(list, 0) && forall e :: e in list && e.id == x.id ==> e.used > 0
    ensures x.odd > 0 && x.used > 0
  {
    UpdateListMembers(list, 0, x);
  }

  lemma UseSpends(list: seq<Entry>, id: nat, now: int, used: nat)
    requires forall e :: e in list && e.id == id ==> e.odd > 0 && e.used > 0
    ensures forall e :: e in Use(list, used, now) && e.id == id ==> e.odd > 0 && e.used > 0
  {
    assert forall i :: 0 <= i < |list| ==> list[i] in list;
  }

  lemma AfterTake(s: State, id: nat, now: int, sel: Selector)
    requires id < s.nextId && forall e :: e in s.list && e.id == id ==> e.used > 0
    ensures Spent(TakeStep(s, now, sel, 0), id)
  {
    var updated := UpdateList(s.list, 0);
    forall x | x in updated && x.id == id ensures x.odd > 0 && x.used > 0 {
      UpdateSpends(s.list, x);
    }
    if Choice(s, now, sel).Some? {
      UseSpends(updated, id, now, Choice(s, now, sel).value);
    }
  }

  // What a take hands out is spent at once.
  lemma TakenIsSpent(s: State, now: int, sel: Selector)
    requires Identified(s) && Choice(s, now, sel).Some?
    ensures Spent(TakeStep(s, now, sel, 0), Choice(s, now, sel).value)
  {
    var id := Choice(s, now, sel).value;
    assert s.list[FirstEligible(s.list, now, sel)] in s.list;
    forall y | y in TakeStep(s, now, sel, 0).list && y.id == id ensures y.odd > 0 && y.used > 0 {
      StampedList(UpdateList(s.list, 0), Some(id), now, y);
    }
  }

  lemma StepSpends(s: State, id: nat, ev: Event)
    requires Spent(s, id)
    ensures Spent(Step(s, ev, 0), id)
    ensures s.trace <= Step(s, ev, 0).trace
    ensures forall j :: |s.trace| <= j < |Step(s, ev, 0).trace| ==> Step(s, ev, 0).trace[j] != Some(id)
  {
    match ev
    case Take(now, sel) =>
      AfterTake(s, id, now, sel);
      assert forall i :: 0 <= i < |s.list| ==> s.list[i] in s.list;
    case Admit(c, now) =>
    case LogDone(other, remove, success, avg) =>
      assert forall i :: 0 <= i < |s.list| ==> s.list[i] in s.list;
    case Expired(now, timeOffset) =>
    case QueueEmpty =>
  }

  lemma {:induction false} RunSpends(s: State, id: nat, events: seq<Event>)
    requires Spent(s, id)
    ensures s.trace <= Run(s, events, 0).trace
    ensures forall j :: |s.trace| <= j < |Run(s, events, 0).trace| ==> Run(s, events, 0).trace[j] != Some(id)
    decreases |events|
  {
    if events != [] {
      StepSpends(s, id, events[0]);
      RunSpends(Step(s, events[0], 0), id, events[1..]);
    }
  }

  // With `reuse` 0 an entry that was used before is not handed out after the next take, whatever
  // happens.
  lemma UsedNeverReturns(s: State, e: Entry, now: int, sel: Selector, events: seq<Event>)
    requires Identified(s) && e in s.list && e.used > 0
    ensures var s1 := TakeStep(s, now, sel, 0);
      var t := Run(s1, events, 0).trace;
      s1.trace <= t && forall j :: |s1.trace| <= j < |t| ==> t[j] != Some(e.id)
  {
    forall x | x in s.list && x.id == e.id ensures x.used > 0 {
      var i :| 0 <= i < |s.list| && s.list[i] == x;
      var j :| 0 <= j < |s.list| && s.list[j] == e;
      assert !(i < j) && !(j < i);
    }
    AfterTake(s, e.id, now, sel);
    RunSpends(TakeStep(s, now, sel, 0), e.id, events);
  }

  ghost predicate AllSpent(s: State) {
    && Identified(s)
    && (forall i :: 0 <= i < |s.trace| && s.trace[i].Some? ==> Spent(s, s.trace[i].value))
    && (forall i, j :: 0 <= i < j < |s.trace| && s.trace[i].Some? ==> s.trace[i] != s.trace[j])
  }

  lemma StepKeepsAllSpent(s: State, ev: Event)
    requires AllSpent(s)
    ensures AllSpent(Step(s, ev, 0))
  {
    var s' := Step(s, ev, 0);
    StepIdentified(s, ev, 0);
    forall i | 0 <= i < |s.trace| && s.trace[i].Some?
      ensures Spent(s', s.trace[i].value)
      ensures forall j :: |s.trace| <= j < |s'.trace| ==> s'.trace[j] != s.trace[i]
    {
      StepSpends(s, s.trace[i].value, ev);
    }
    if ev.Take? && Choice(s, ev.now, ev.sel).Some? {
      TakenIsSpent(s, ev.now, ev.sel);
    }
  }

  lemma {:induction false} RunKeepsAllSpent(s: State, events: seq<Event>)
    requires AllSpent(s)
    ensures AllSpent(Run(s, events, 0))
    decreases |events|
  {
    if events != [] {
      StepKeepsAllSpent(s, events[0]);
      RunKeepsAllSpent(Step(s, events[0], 0), events[1..]);
    }
  }

  // With `reuse` 0 no entry is handed out twice in a whole run.
  lemma HandedOutOnce(events: seq<Event>)
    ensures var t := Run(EMPTY, events, 0).trace;
      forall i, j :: 0 <= i < j < |t| && t[i].Some? ==> t[i] != t[j]
  {
    RunKeepsAllSpent(EMPTY, events);
  }
}
