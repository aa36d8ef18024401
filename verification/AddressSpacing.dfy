// The cool-down seen by address: which admissions keep one address from being handed out twice
// within `reuse` + 1 consecutive takes.
module AddressSpacing {
  import opened Options
  import opened Protocols
  import opened Rotation

  datatype Address = Address(ip: string, port: int, dest: Protocol)

  function AddressOf(e: Entry): Address {
    Address(e.ip, e.port, e.dest)
  }

  function Applicant(c: Candidate): Address {
    Address(c.ip, c.port, c.dest)
  }

  function TakenAddress(s: State, now: int, sel: Selector): Option<Address> {
    var i := FirstEligible(s.list, now, sel);
    if i < |s.list| then Some(AddressOf(s.list[i])) else None
  }

  // The address each take of a run handed out, oldest first; None is a miss.
  function Handed(events: seq<Event>, reuse: nat): seq<Option<Address>> {
    if events == [] then []
    else
      var init, last := events[..|events| - 1], events[|events| - 1];
      Handed(init, reuse)
      + if last.Take? then [TakenAddress(Run(EMPTY, init, reuse), last.now, last.sel)] else []
  }

  // One of the last `reuse` takes handed out the address.
  ghost predicate RecentlyHanded(h: seq<Option<Address>>, a: Address, reuse: nat) {
    exists j :: 0 <= j < |h| && |h| - reuse <= j && h[j] == Some(a)
  }

  // The k-th event does not append an address that one of the last `reuse` takes handed out.
  ghost predicate Rested(events: seq<Event>, k: nat, reuse: nat)
    requires k < |events|
  {
    events[k].Admit? ==>
      var c := events[k].candidate;
      || HasAddress(Run(EMPTY, events[..k], reuse).list, c.ip, c.port, c.dest)
      || !RecentlyHanded(Handed(events[..k], reuse), Applicant(c), reuse)
  }

  ghost predicate AllRested(events: seq<Event>, from: nat, reuse: nat) {
    forall k :: from <= k < |events| ==> Rested(events, k, reuse)
  }

  // ---------------------------------------------------------------- the invariant

  // When a listed entry's address was handed out lately, it was that entry.
  ghost predicate RecentIsListed(s: State, h: seq<Option<Address>>, reuse: nat) {
    && |h| == |s.trace|
    && forall e, i :: e in s.list && 0 <= i < |h| && |h| - reuse <= i && h[i] == Some(AddressOf(e)) ==>
         s.trace[i] == Some(e.id)
  }

  ghost predicate Kept(s: State, h: seq<Option<Address>>, reuse: nat) {
    RecentIsListed(s, h, reuse) && Spaced(h, reuse)
  }

  lemma SameEntry(s: State, a: Entry, b: Entry)
    requires Unique(s.list) && a in s.list && b in s.list && AddressOf(a) == AddressOf(b)
    ensures a == b
  {
    var i :| 0 <= i < |s.list| && s.list[i] == a;
    var j :| 0 <= j < |s.list| && s.list[j] == b;
    assert SameAddress(a, b.ip, b.port, b.dest) && SameAddress(b, a.ip, a.port, a.dest);
    assert !(i < j) && !(j < i);
  }

  lemma TakeSpaced(s: State, h: seq<Option<Address>>, now: int, sel: Selector, reuse: nat)
    requires reuse >= 1 && Inv(s, reuse) && Kept(s, h, reuse)
    ensures Spaced(h + [TakenAddress(s, now, sel)], reuse)
  {
    var i := FirstEligible(s.list, now, sel);
    if i < |s.list| {
      assert s.list[i] in s.list;
      AgeMeaning(s.trace, s.list[i].id, reuse);
    }
  }

  lemma TakeOrigin(s: State, now: int, sel: Selector, reuse: nat, y: Entry) returns (e: Entry)
    requires reuse >= 1 && Inv(s, reuse) && y in TakeStep(s, now, sel, reuse).list
    ensures e in s.list && y.id == e.id && AddressOf(y) == AddressOf(e)
  {
    TakeMoves(s, now, sel, reuse, y);
    var choice := Choice(s, now, sel);
    e :| e in s.list && y == Moved(e, choice, now, reuse);
    MovedKeepsIdentity(e, choice, now, reuse);
  }

  lemma MovedKeepsIdentity(e: Entry, choice: Option<nat>, now: int, reuse: nat)
    ensures Moved(e, choice, now, reuse).id == e.id
    ensures AddressOf(Moved(e, choice, now, reuse)) == AddressOf(e)
  {
  }

  lemma TakeRecent(s: State, h: seq<Option<Address>>, now: int, sel: Selector, reuse: nat)
    requires reuse >= 1 && Inv(s, reuse) && Kept(s, h, reuse)
    ensures RecentIsListed(TakeStep(s, now, sel, reuse), h + [TakenAddress(s, now, sel)], reuse)
  {
    var s', h' := TakeStep(s, now, sel, reuse), h + [TakenAddress(s, now, sel)];
    forall y, i | y in s'.list && 0 <= i < |h'| && |h'| - reuse <= i && h'[i] == Some(AddressOf(y))
      ensures s'.trace[i] == Some(y.id)
    {
      var e := TakeOrigin(s, now, sel, reuse, y);
      if i == |h| {
        SameEntry(s, e, s.list[FirstEligible(s.list, now, sel)]);
      }
    }
  }

  lemma OtherStepsKeep(s: State, h: seq<Option<Address>>, ev: Event, reuse: nat)
    requires !ev.Take? && Kept(s, h, reuse)
    requires ev.Admit? ==>
      var c := ev.candidate;
      HasAddress(s.list, c.ip, c.port, c.dest) || !RecentlyHanded(h, Applicant(c), reuse)
    ensures Kept(Step(s, ev, reuse), h, reuse)
  {
    if ev.LogDone? && !ev.remove {
      var credited := Credit(s.list, ev.id, ev.success, ev.avg);
      forall y, i | y in credited && 0 <= i < |h| && |h| - reuse <= i && h[i] == Some(AddressOf(y))
        ensures s.trace[i] == Some(y.id)
      {
        var k :| 0 <= k < |credited| && credited[k] == y;
        assert s.list[k] in s.list && AddressOf(s.list[k]) == AddressOf(y);
      }
    }
  }

  lemma {:induction false} RunKeeps(events: seq<Event>, reuse: nat)
    requires reuse >= 1 && AllRested(events, 0, reuse)
    ensures Kept(Run(EMPTY, events, reuse), Handed(events, reuse), reuse)
  {
    if events != [] {
      var n := |events| - 1;
      var init, last := events[..n], events[n];
      forall k | 0 <= k < n ensures Rested(init, k, reuse) {
        assert Rested(events, k, reuse) && init[..k] == events[..k];
      }
      RunKeeps(init, reuse);
      RunLast(events, reuse);
      RunKeepsInv(EMPTY, init, reuse);
      var s, h := Run(EMPTY, init, reuse), Handed(init, reuse);
      if last.Take? {
        TakeSpaced(s, h, last.now, last.sel, reuse);
        TakeRecent(s, h, last.now, last.sel, reuse);
      } else {
        assert Rested(events, n, reuse);
        assert h + [] == h;
        OtherStepsKeep(s, h, last, reuse);
      }
    }
  }

  // When no admission brings back an address that one of the last `reuse` takes handed out, no address
  // is handed out twice within `reuse` + 1 consecutive takes.
  lemma AddressesSpaced(events: seq<Event>, reuse: nat)
    requires reuse >= 1
    requires AllRested(events, 0, reuse)
    ensures Spaced(Handed(events, reuse), reuse)
  {
    RunKeeps(events, reuse);
  }

  // ---------------------------------------------------------------- an admission too early

  // A log for every entry of `list` that removes it.
  function Removals(list: seq<Entry>): seq<Event> {
    if list == [] then [] else [LogDone(list[0].id, true, false, 0)] + Removals(list[1..])
  }

  lemma {:induction false} KeepAll(list: seq<Entry>, p: Entry -> bool)
    requires forall e :: e in list ==> p(e)
    ensures Keep(list, p) == list
  {
    if list != [] {
      KeepAll(list[1..], p);
      assert list == [list[0]] + list[1..];
    }
  }

  lemma RemoveFirst(first: Entry, rest: seq<Entry>)
    requires Unique([first] + rest)
    ensures Keep([first] + rest, OtherThan(first.id)) == rest
  {
    var list, p := [first] + rest, OtherThan(first.id);
    forall e | e in rest ensures p(e) {
      var k :| 0 <= k < |rest| && rest[k] == e;
      assert list[k + 1] == e && list[0] == first;
    }
    KeepCons(first, rest, p);
    KeepAll(rest, p);
    assert [] + rest == rest;
  }

  lemma {:induction false} RunRemovals(s: State, others: seq<Entry>, e: Entry, reuse: nat)
    requires s.list == others + [e] && Unique(s.list)
    ensures Run(s, Removals(others), reuse) == s.(list := [e])
    decreases |others|
  {
    if others == [] {
      assert s.list == [e];
    } else {
      var rest := others[1..] + [e];
      assert s.list == [others[0]] + rest;
      RemoveFirst(others[0], rest);
      assert Unique(rest) by {
        assert forall i :: 0 <= i < |rest| ==> rest[i] == s.list[i + 1];
      }
      RunRemovals(s.(list := rest), others[1..], e, reuse);
      RunUnfold(s, Removals(others), reuse);
      assert Removals(others)[1..] == Removals(others[1..]);
    }
  }

  lemma {:induction false} QuietHandsNothing(events: seq<Event>, quiet: seq<Event>, reuse: nat)
    requires forall ev :: ev in quiet ==> !ev.Take?
    ensures Handed(events + quiet, reuse) == Handed(events, reuse)
    decreases |quiet|
  {
    if quiet == [] {
      assert events + quiet == events;
    } else {
      var init, last := quiet[..|quiet| - 1], quiet[|quiet| - 1];
      QuietHandsNothing(events, init, reuse);
      assert last in quiet;
      assert (events + quiet)[..|events + quiet| - 1] == events + init;
      assert Handed(events + init, reuse) + [] == Handed(events + init, reuse);
    }
  }

  lemma {:induction false} RemovalsAreLogs(list: seq<Entry>)
    ensures forall ev :: ev in Removals(list) ==> ev.LogDone?
  {
    if list != [] {
      RemovalsAreLogs(list[1..]);
    }
  }

  // The selector an admitted proxy matches, whatever its level and speed.
  function Fitting(c: Candidate): Selector {
    Selector(0, 0, c.dest == Https)
  }

  // What can follow an admission: all other entries go, and after its rest the new one is taken.
  function Reprise(s: State, c: Candidate, now: int): seq<Event> {
    Removals(s.list) + [Take(now + REST_MS, Fitting(c))]
  }

  lemma ReprisePrepares(events: seq<Event>, c: Candidate, now: int, reuse: nat)
    requires !HasAddress(Run(EMPTY, events, reuse).list, c.ip, c.port, c.dest)
    requires Identified(Run(EMPTY, events, reuse))
    ensures var s := Run(EMPTY, events, reuse);
      Run(EMPTY, events + [Admit(c, now)] + Removals(s.list), reuse).list == [Admitted(c, s.nextId, now)]
  {
    var s := Run(EMPTY, events, reuse);
    var admitted := events + [Admit(c, now)];
    StepIdentified(s, Admit(c, now), reuse);
    assert admitted[..|admitted| - 1] == events;
    RunLast(admitted, reuse);
    RunRemovals(Run(EMPTY, admitted, reuse), s.list, Admitted(c, s.nextId, now), reuse);
    RunConcat(EMPTY, admitted, Removals(s.list), reuse);
  }

  lemma OnlyEntryTaken(s: State, e: Entry, now: int, sel: Selector)
    requires s.list == [e] && Eligible(e, now, sel)
    ensures TakenAddress(s, now, sel) == Some(AddressOf(e))
  {
  }

  lemma TakeHands(events: seq<Event>, now: int, sel: Selector, reuse: nat)
    ensures Handed(events + [Take(now, sel)], reuse)
      == Handed(events, reuse) + [TakenAddress(Run(EMPTY, events, reuse), now, sel)]
  {
    assert (events + [Take(now, sel)])[..|events|] == events;
  }

  lemma RepriseHands(events: seq<Event>, c: Candidate, now: int, reuse: nat)
    requires !HasAddress(Run(EMPTY, events, reuse).list, c.ip, c.port, c.dest)
    requires Identified(Run(EMPTY, events, reuse))
    ensures Handed(events + [Admit(c, now)] + Reprise(Run(EMPTY, events, reuse), c, now), reuse)
      == Handed(events, reuse) + [Some(Applicant(c))]
  {
    var s := Run(EMPTY, events, reuse);
    var admitted, removals := events + [Admit(c, now)], Removals(s.list);
    var cleared := admitted + removals;
    RemovalsAreLogs(s.list);
    QuietHandsNothing(events, [Admit(c, now)], reuse);
    QuietHandsNothing(admitted, removals, reuse);
    ReprisePrepares(events, c, now, reuse);
    OnlyEntryTaken(Run(EMPTY, cleared, reuse), Admitted(c, s.nextId, now), now + REST_MS, Fitting(c));
    TakeHands(cleared, now + REST_MS, Fitting(c), reuse);
    assert admitted + Reprise(s, c, now) == cleared + [Take(now + REST_MS, Fitting(c))];
  }

  // Whatever follows a run, as long as later admissions are rested, its addresses stay spaced.
  ghost predicate StaysSpaced(events: seq<Event>, reuse: nat) {
    forall more :: AllRested(events + more, |events|, reuse) ==> Spaced(Handed(events + more, reuse), reuse)
  }

  // An admission that appends an address is safe if and only if none of the last `reuse` takes handed
  // that address out: otherwise some continuation without further admissions hands it out again too
  // early.
  lemma SafeAdmission(events: seq<Event>, c: Candidate, now: int, reuse: nat)
    requires reuse >= 1
    requires AllRested(events, 0, reuse)
    requires !HasAddress(Run(EMPTY, events, reuse).list, c.ip, c.port, c.dest)
    ensures StaysSpaced(events + [Admit(c, now)], reuse)
      <==> !RecentlyHanded(Handed(events, reuse), Applicant(c), reuse)
  {
    var admitted, h := events + [Admit(c, now)], Handed(events, reuse);
    if RecentlyHanded(h, Applicant(c), reuse) {
      UnsafeAdmission(events, c, now, reuse);
    } else {
      forall more | AllRested(admitted + more, |admitted|, reuse)
        ensures Spaced(Handed(admitted + more, reuse), reuse)
      {
        RestedThroughout(events, c, now, more, reuse);
        AddressesSpaced(admitted + more, reuse);
      }
    }
  }

  lemma RestedInPrefix(events: seq<Event>, more: seq<Event>, k: nat, reuse: nat)
    requires k < |events|
    ensures Rested(events + more, k, reuse) == Rested(events, k, reuse)
  {
    assert (events + more)[..k] == events[..k];
  }

  lemma RestedThroughout(events: seq<Event>, c: Candidate, now: int, more: seq<Event>, reuse: nat)
    requires AllRested(events, 0, reuse)
    requires !RecentlyHanded(Handed(events, reuse), Applicant(c), reuse)
    requires AllRested(events + [Admit(c, now)] + more, |events| + 1, reuse)
    ensures AllRested(events + [Admit(c, now)] + more, 0, reuse)
  {
    var admitted := events + [Admit(c, now)];
    forall k | 0 <= k < |events| + 1 ensures Rested(admitted + more, k, reuse) {
      RestedInPrefix(admitted, more, k, reuse);
      if k < |events| {
        RestedInPrefix(events, [Admit(c, now)], k, reuse);
      } else {
        assert admitted[..k] == events;
      }
    }
  }

  lemma NoAdmissionsRested(events: seq<Event>, more: seq<Event>, reuse: nat)
    requires forall ev :: ev in more ==> !ev.Admit?
    ensures AllRested(events + more, |events|, reuse)
  {
    forall k | |events| <= k < |events + more| ensures Rested(events + more, k, reuse) {
      assert (events + more)[k] == more[k - |events|];
      assert more[k - |events|] in more;
    }
  }

  lemma TooEarly(h: seq<Option<Address>>, a: Address, reuse: nat)
    requires RecentlyHanded(h, a, reuse)
    ensures !Spaced(h + [Some(a)], reuse)
  {
    var h' := h + [Some(a)];
    var j :| 0 <= j < |h| && |h| - reuse <= j && h[j] == Some(a);
    assert h'[j] == h'[|h|];
  }

  lemma UnsafeAdmission(events: seq<Event>, c: Candidate, now: int, reuse: nat)
    requires reuse >= 1
    requires !HasAddress(Run(EMPTY, events, reuse).list, c.ip, c.port, c.dest)
    requires RecentlyHanded(Handed(events, reuse), Applicant(c), reuse)
    ensures !StaysSpaced(events + [Admit(c, now)], reuse)
  {
    var more := Reprise(Run(EMPTY, events, reuse), c, now);
    RunKeepsInv(EMPTY, events, reuse);
    RepriseHands(events, c, now, reuse);
    RemovalsAreLogs(Run(EMPTY, events, reuse).list);
    NoAdmissionsRested(events + [Admit(c, now)], more, reuse);
    TooEarly(Handed(events, reuse), Applicant(c), reuse);
  }
}
