// The active list of the proxy rotator as a value: its entries, the steps that change it and the
// history of what `take` handed out. The class in ProxyRotator.dfy refines these steps.
module Rotation {
  import opened Options
  import opened Protocols

  // One element of the active list. `id` names the JavaScript object, so two admissions of the same
  // proxy are two entries.
  datatype Entry = Entry(
    id: nat, ip: string, port: int, dest: Protocol, level: int, duration: int,
    odd: nat, used: nat, success: nat, errors: nat, updatedAt: int, durationAvg: int)

  // A proxy that passed its test request, as `do` sees it: address and state, with the counters of
  // its rating record (all 0 when there is none).
  datatype Candidate = Candidate(
    ip: string, port: int, dest: Protocol, level: int, duration: int,
    successes: nat, errors: nat, inc: nat, durationAvg: int)

  // `speedLimit` and `level` are 0 when the selector does not set them.
  datatype Selector = Selector(speedLimit: int, level: int, targetSSL: bool)

  // ---------------------------------------------------------------- choosing

  predicate Matches(e: Entry, sel: Selector) {
    && (sel.speedLimit != 0 ==> e.duration <= sel.speedLimit)
    && (sel.level != 0 ==> e.level <= sel.level)
    && e.dest == (if sel.targetSSL then Https else Http)
  }

  const REST_MS := 2000

  predicate Rested(e: Entry, now: int) {
    now - e.updatedAt >= REST_MS
  }

  predicate Eligible(e: Entry, now: int, sel: Selector) {
    e.odd == 0 && Rested(e, now) && Matches(e, sel)
  }

  // Index of the first eligible entry, or |list|.
  function FirstEligible(list: seq<Entry>, now: int, sel: Selector): (i: nat)
    ensures i <= |list|
    ensures i < |list| ==> Eligible(list[i], now, sel)
    ensures forall j :: 0 <= j < i ==> !Eligible(list[j], now, sel)
  {
    if list == [] then 0
    else if Eligible(list[0], now, sel) then 0
    else
      var i := FirstEligible(list[1..], now, sel);
      assert forall j :: 0 < j <= i ==> list[j] == list[1..][j - 1] || j == |list|;
      1 + i
  }

  // ---------------------------------------------------------------- filtering

  // The entries of `list` that satisfy `p`, in order (lodash `remove` with the negated predicate).
  function Keep(list: seq<Entry>, p: Entry -> bool): (r: seq<Entry>)
    ensures forall e :: e in r <==> e in list && p(e)
  {
    if list == [] then []
    else
      var rest := Keep(list[1..], p);
      assert list == [list[0]] + list[1..];
      if p(list[0]) then [list[0]] + rest else rest
  }

  // The cleanup rule, conjunction and all.
  predicate Useless(e: Entry) {
    && e.used > 9 && e.success * 100 <= 15 * e.used
    && e.used > 99 && e.success * 100 <= 30 * e.used
  }

  function Useful(): Entry -> bool {
    (e: Entry) => !Useless(e)
  }

  function Fresh(now: int, timeOffset: int): Entry -> bool {
    (e: Entry) => !(now - e.updatedAt > timeOffset * 1000)
  }

  function OtherThan(id: nat): Entry -> bool {
    (e: Entry) => e.id != id
  }

  function Cleanup(list: seq<Entry>): seq<Entry> {
    Keep(list, Useful())
  }

  // The first half of the rule is idle: an entry goes exactly when it was used over 99 times and its
  // success ratio is at most 15 percent. What stays keeps its order.
  lemma CleanupExact(list: seq<Entry>, e: Entry)
    ensures e in Cleanup(list) <==> e in list && !(e.used > 99 && e.success * 100 <= 15 * e.used)
    ensures multiset(Cleanup(list)) <= multiset(list)
  {
    KeepSub(list, Useful());
  }

  lemma {:induction false} KeepSub(list: seq<Entry>, p: Entry -> bool)
    ensures multiset(Keep(list, p)) <= multiset(list)
  {
    if list != [] {
      KeepSub(list[1..], p);
      assert list == [list[0]] + list[1..];
    }
  }

  // ---------------------------------------------------------------- ordering

  // Sort order of the active list: odd ascending, success descending, average duration ascending.
  // The source's second key `update_at` does not exist on the entries, so it never separates two.
  predicate Le(a: Entry, b: Entry) {
    || a.odd < b.odd
    || (a.odd == b.odd && (a.success > b.success || (a.success == b.success && a.durationAvg <= b.durationAvg)))
  }

  predicate Sorted(list: seq<Entry>) {
    forall i, j :: 0 <= i < j < |list| ==> Le(list[i], list[j])
  }

  function Insert(e: Entry, list: seq<Entry>): (r: seq<Entry>)
    ensures forall x :: x in r <==> x == e || x in list
    ensures |r| == |list| + 1
  {
    if list == [] then [e]
    else
      assert list == [list[0]] + list[1..];
      if Le(e, list[0]) then [e] + list else [list[0]] + Insert(e, list[1..])
  }

  function Sort(list: seq<Entry>): (r: seq<Entry>)
    ensures forall x :: x in r <==> x in list
    ensures |r| == |list|
  {
    if list == [] then []
    else
      assert list == [list[0]] + list[1..];
      Insert(list[0], Sort(list[1..]))
  }

  predicate Tied(a: Entry, b: Entry) {
    a.odd == b.odd && a.success == b.success && a.durationAvg == b.durationAvg
  }

  function TiedTo(e: Entry): Entry -> bool {
    (x: Entry) => Tied(x, e)
  }

  lemma {:induction false} InsertSorted(e: Entry, list: seq<Entry>)
    requires Sorted(list)
    ensures Sorted(Insert(e, list))
  {
    if list != [] && !Le(e, list[0]) {
      InsertSorted(e, list[1..]);
      assert forall x :: x in list[1..] ==> Le(list[0], x);
    }
  }

  lemma {:induction false} KeepCons(e: Entry, list: seq<Entry>, p: Entry -> bool)
    ensures Keep([e] + list, p) == (if p(e) then [e] else []) + Keep(list, p)
  {
    assert ([e] + list)[1..] == list;
  }

  lemma {:induction false} InsertStable(e: Entry, list: seq<Entry>, k: Entry)
    ensures Keep(Insert(e, list), TiedTo(k)) == Keep([e] + list, TiedTo(k))
  {
    var p := TiedTo(k);
    KeepCons(e, list, p);
    if list != [] && !Le(e, list[0]) {
      InsertStable(e, list[1..], k);
      KeepCons(e, list[1..], p);
      KeepCons(list[0], list[1..], p);
      KeepCons(list[0], Insert(e, list[1..]), p);
      assert list == [list[0]] + list[1..];
    }
  }

  lemma {:induction false} SortSorts(list: seq<Entry>)
    ensures Sorted(Sort(list))
  {
    if list != [] {
      SortSorts(list[1..]);
      InsertSorted(list[0], Sort(list[1..]));
    }
  }

  // `Sort` is what lodash promises of `orderBy`: ordered, and entries with equal keys keep their order.
  lemma {:induction false} SortIsStableSort(list: seq<Entry>, k: Entry)
    ensures Sorted(Sort(list))
    ensures Keep(Sort(list), TiedTo(k)) == Keep(list, TiedTo(k))
    ensures multiset(Sort(list)) == multiset(list)
  {
    SortSorts(list);
    if list != [] {
      SortIsStableSort(list[1..], k);
      InsertStable(list[0], Sort(list[1..]), k);
      InsertMultiset(list[0], Sort(list[1..]));
      var p := TiedTo(k);
      KeepCons(list[0], Sort(list[1..]), p);
      KeepCons(list[0], list[1..], p);
      assert list == [list[0]] + list[1..];
    }
  }

  lemma {:induction false} InsertMultiset(e: Entry, list: seq<Entry>)
    ensures multiset(Insert(e, list)) == multiset{e} + multiset(list)
  {
    if list != [] && !Le(e, list[0]) {
      InsertMultiset(e, list[1..]);
      assert list == [list[0]] + list[1..];
    }
  }

  // ---------------------------------------------------------------- the steps

  // JavaScript's `odd % reuse !== 0`: a remainder by 0 is NaN, which is unequal to 0.
  predicate Cooling(odd: nat, reuse: nat) {
    reuse == 0 || odd % reuse != 0
  }

  function TickEntry(e: Entry, reuse: nat): Entry {
    if Cooling(e.odd, reuse) && e.used > 0 then e.(odd := e.odd + 1) else e.(odd := 0)
  }

  function Tick(list: seq<Entry>, reuse: nat): (r: seq<Entry>)
    ensures |r| == |list|
    ensures forall i :: 0 <= i < |list| ==> r[i] == TickEntry(list[i], reuse)
  {
    seq(|list|, i requires 0 <= i < |list| => TickEntry(list[i], reuse))
  }

  function UpdateList(list: seq<Entry>, reuse: nat): seq<Entry> {
    Sort(Tick(Cleanup(list), reuse))
  }

  function UseEntry(e: Entry, id: nat, now: int): Entry {
    if e.id == id then e.(odd := 1, used := e.used + 1, updatedAt := now) else e
  }

  function Use(list: seq<Entry>, id: nat, now: int): (r: seq<Entry>)
    ensures |r| == |list|
    ensures forall i :: 0 <= i < |list| ==> r[i] == UseEntry(list[i], id, now)
  {
    seq(|list|, i requires 0 <= i < |list| => UseEntry(list[i], id, now))
  }

  function CreditEntry(e: Entry, id: nat, success: bool, avg: int): Entry {
    if e.id != id then e
    else if success then e.(success := e.success + 1, durationAvg := avg)
    else e.(errors := e.errors + 1)
  }

  function Credit(list: seq<Entry>, id: nat, success: bool, avg: int): (r: seq<Entry>)
    ensures |r| == |list|
    ensures forall i :: 0 <= i < |list| ==> r[i] == CreditEntry(list[i], id, success, avg)
  {
    seq(|list|, i requires 0 <= i < |list| => CreditEntry(list[i], id, success, avg))
  }

  predicate SameAddress(e: Entry, ip: string, port: int, dest: Protocol) {
    e.ip == ip && e.port == port && e.dest == dest
  }

  predicate HasAddress(list: seq<Entry>, ip: string, port: int, dest: Protocol) {
    exists e :: e in list && SameAddress(e, ip, port, dest)
  }

  function Admitted(c: Candidate, id: nat, now: int): Entry {
    Entry(id, c.ip, c.port, c.dest, c.level, c.duration, 0, c.inc, c.successes, c.errors, now, c.durationAvg)
  }

  // Everything that changes the active list, each atomic in the source: the part of `take` before
  // its first await, the end of a test request in `do`, the end of a log call, the removal timer and
  // the end of a queue run.
  datatype Event =
    | Take(now: int, sel: Selector)
    | Admit(candidate: Candidate, now: int)
    | LogDone(id: nat, remove: bool, success: bool, avg: int)
    | Expired(now: int, timeOffset: int)
    | QueueEmpty

  // `trace` is what every `take` so far handed out, oldest first; None is a miss.
  datatype State = State(list: seq<Entry>, trace: seq<Option<nat>>, nextId: nat)

  const EMPTY := State([], [], 0)

  function Choice(s: State, now: int, sel: Selector): Option<nat> {
    var i := FirstEligible(s.list, now, sel);
    if i < |s.list| then Some(s.list[i].id) else None
  }

  function TakeStep(s: State, now: int, sel: Selector, reuse: nat): State {
    var choice := Choice(s, now, sel);
    var updated := UpdateList(s.list, reuse);
    s.(list := if choice.Some? then Use(updated, choice.value, now) else updated,
       trace := s.trace + [choice])
  }

  function Step(s: State, ev: Event, reuse: nat): State {
    match ev
    case Take(now, sel) => TakeStep(s, now, sel, reuse)
    case Admit(c, now) =>
      if HasAddress(s.list, c.ip, c.port, c.dest) then s
      else s.(list := s.list + [Admitted(c, s.nextId, now)], nextId := s.nextId + 1)
    case LogDone(id, remove, success, avg) =>
      s.(list := if remove then Keep(s.list, OtherThan(id)) else Credit(s.list, id, success, avg))
    case Expired(now, timeOffset) => s.(list := Keep(s.list, Fresh(now, timeOffset)))
    case QueueEmpty => s.(list := Sort(Cleanup(s.list)))
  }

  function Run(s: State, events: seq<Event>, reuse: nat): State
    decreases |events|
  {
    if events == [] then s else Run(Step(s, events[0], reuse), events[1..], reuse)
  }

  // ---------------------------------------------------------------- the cool-down counter

  // How many takes ago `id` was handed out last (1 is the latest take), or 0 when that is more than
  // `reuse` takes ago or never happened.
  function Age(trace: seq<Option<nat>>, id: nat, reuse: nat): nat {
    if trace == [] then 0
    else if trace[|trace| - 1] == Some(id) then 1
    else
      var a := Age(trace[..|trace| - 1], id, reuse);
      if 0 < a < reuse then a + 1 else 0
  }

  predicate Absent(trace: seq<Option<nat>>, id: nat, from: int) {
    forall j :: 0 <= j < |trace| && from <= j ==> trace[j] != Some(id)
  }

  lemma {:induction false} AgeMeaning(trace: seq<Option<nat>>, id: nat, reuse: nat)
    requires reuse >= 1
    ensures var a := Age(trace, id, reuse);
      && a <= reuse
      && (a > 0 ==> a <= |trace| && trace[|trace| - a] == Some(id) && Absent(trace, id, |trace| - a + 1))
      && (a == 0 ==> Absent(trace, id, |trace| - reuse))
  {
    if trace != [] && trace[|trace| - 1] != Some(id) {
      AgeMeaning(trace[..|trace| - 1], id, reuse);
    }
  }

  lemma {:induction false} AgeOfUnseen(trace: seq<Option<nat>>, id: nat, reuse: nat)
    requires Absent(trace, id, 0)
    ensures Age(trace, id, reuse) == 0
  {
    if trace != [] {
      AgeOfUnseen(trace[..|trace| - 1], id, reuse);
    }
  }

  ghost predicate Unique(list: seq<Entry>) {
    forall i, j :: 0 <= i < j < |list| ==>
      list[i].id != list[j].id && !SameAddress(list[i], list[j].ip, list[j].port, list[j].dest)
  }

  // No two entries share identity or address, and identities are given out in order.
  ghost predicate Identified(s: State) {
    && Unique(s.list)
    && forall e :: e in s.list ==> e.id < s.nextId
  }

  // The trace never names one entry twice within reuse + 1 consecutive takes.
  ghost predicate Spaced<T>(trace: seq<Option<T>>, reuse: nat) {
    forall i, j :: 0 <= i < j < |trace| && j - i <= reuse && trace[i].Some? ==> trace[i] != trace[j]
  }

  ghost predicate CounterExact(e: Entry, s: State, reuse: nat) {
    && e.odd == Age(s.trace, e.id, reuse)
    && (e.odd > 0 ==> e.used > 0)
  }

  ghost predicate Inv(s: State, reuse: nat) {
    && Identified(s)
    && (forall e :: e in s.list ==> CounterExact(e, s, reuse))
    && (forall i :: 0 <= i < |s.trace| && s.trace[i].Some? ==> s.trace[i].value < s.nextId)
    && Spaced(s.trace, reuse)
  }

  // ---- uniqueness survives filtering, sorting and entry-wise changes

  lemma UniqueCons(e: Entry, list: seq<Entry>)
    requires Unique(list)
    requires forall x :: x in list ==> Differ(e, x)
    ensures Unique([e] + list)
  {
    var r := [e] + list;
    forall i, j | 0 <= i < j < |r| ensures Differ(r[i], r[j]) {
      assert r[j] == list[j - 1];
    }
  }

  lemma {:induction false} KeepUnique(list: seq<Entry>, p: Entry -> bool)
    requires Unique(list)
    ensures Unique(Keep(list, p))
  {
    if list != [] {
      KeepUnique(list[1..], p);
      HeadDiffers(list);
      if p(list[0]) {
        UniqueCons(list[0], Keep(list[1..], p));
      }
    }
  }

  lemma HeadDiffers(list: seq<Entry>)
    requires Unique(list) && list != []
    ensures forall x :: x in list[1..] ==> Differ(list[0], x)
  {
    forall x | x in list[1..] ensures Differ(list[0], x) {
      var k :| 0 <= k < |list[1..]| && list[1..][k] == x;
      assert list[k + 1] == x;
    }
  }

  predicate Differ(a: Entry, b: Entry) {
    a.id != b.id && !SameAddress(a, b.ip, b.port, b.dest)
  }

  lemma {:induction false} InsertUnique(e: Entry, list: seq<Entry>)
    requires Unique(list)
    requires forall x :: x in list ==> Differ(e, x)
    ensures Unique(Insert(e, list))
  {
    if list == [] || Le(e, list[0]) {
      UniqueCons(e, list);
    } else {
      InsertUnique(e, list[1..]);
      HeadDiffers(list);
      assert Differ(e, list[0]);
      UniqueCons(list[0], Insert(e, list[1..]));
    }
  }

  lemma {:induction false} SortUnique(list: seq<Entry>)
    requires Unique(list)
    ensures Unique(Sort(list))
  {
    if list != [] {
      SortUnique(list[1..]);
      HeadDiffers(list);
      InsertUnique(list[0], Sort(list[1..]));
    }
  }

  lemma UpdateListUnique(list: seq<Entry>, reuse: nat)
    requires Unique(list)
    ensures Unique(UpdateList(list, reuse))
  {
    KeepUnique(list, Useful());
    SortUnique(Tick(Cleanup(list), reuse));
  }

  // The entries after `updateList` are the old ones that were not cleaned up, ticked.
  lemma UpdateListMembers(list: seq<Entry>, reuse: nat, x: Entry)
    ensures x in UpdateList(list, reuse) <==> exists e :: e in list && !Useless(e) && x == TickEntry(e, reuse)
  {
    var cleaned := Cleanup(list);
    var ticked := Tick(cleaned, reuse);
    if x in ticked {
      var i :| 0 <= i < |ticked| && x == ticked[i];
      assert cleaned[i] in cleaned;
    }
    forall e | e in cleaned && x == TickEntry(e, reuse) ensures x in ticked {
      var i :| 0 <= i < |cleaned| && e == cleaned[i];
      assert ticked[i] in ticked;
    }
  }

  lemma UpdateListOrigin(list: seq<Entry>, reuse: nat)
    ensures forall x :: x in UpdateList(list, reuse) ==>
      exists e :: e in list && x == TickEntry(e, reuse)
  {
    forall x | x in UpdateList(list, reuse)
      ensures exists e :: e in list && x == TickEntry(e, reuse)
    {
      UpdateListMembers(list, reuse, x);
    }
  }

  lemma UseIdentified(s: State, id: nat, now: int)
    requires Identified(s)
    ensures Identified(s.(list := Use(s.list, id, now)))
  {
    assert forall i :: 0 <= i < |s.list| ==> s.list[i] in s.list;
  }

  lemma TickIdentified(s: State, reuse: nat)
    requires Identified(s)
    ensures Identified(s.(list := UpdateList(s.list, reuse)))
  {
    UpdateListUnique(s.list, reuse);
    UpdateListOrigin(s.list, reuse);
  }

  lemma TakeIdentified(s: State, now: int, sel: Selector, reuse: nat)
    requires Identified(s)
    ensures Identified(TakeStep(s, now, sel, reuse))
  {
    TickIdentified(s, reuse);
    var choice := Choice(s, now, sel);
    if choice.Some? {
      UseIdentified(s.(list := UpdateList(s.list, reuse)), choice.value, now);
    }
  }

  lemma CreditIdentified(s: State, id: nat, success: bool, avg: int)
    requires Identified(s)
    ensures Identified(s.(list := Credit(s.list, id, success, avg)))
  {
    assert forall i :: 0 <= i < |s.list| ==> s.list[i] in s.list;
  }

  // Identity and uniqueness survive every step, whatever `reuse` is.
  lemma StepIdentified(s: State, ev: Event, reuse: nat)
    requires Identified(s)
    ensures Identified(Step(s, ev, reuse))
  {
    match ev
    case Take(now, sel) => TakeIdentified(s, now, sel, reuse);
    case Admit(c, now) =>
      if !HasAddress(s.list, c.ip, c.port, c.dest) {
        AdmitIdentified(s, c, now);
      }
    case LogDone(id, remove, success, avg) =>
      if remove {
        KeepUnique(s.list, OtherThan(id));
      } else {
        CreditIdentified(s, id, success, avg);
      }
    case Expired(now, timeOffset) => KeepUnique(s.list, Fresh(now, timeOffset));
    case QueueEmpty =>
      KeepUnique(s.list, Useful());
      SortUnique(Cleanup(s.list));
  }

  lemma AdmitIdentified(s: State, c: Candidate, now: int)
    requires Identified(s) && !HasAddress(s.list, c.ip, c.port, c.dest)
    ensures Identified(s.(list := s.list + [Admitted(c, s.nextId, now)], nextId := s.nextId + 1))
  {
    assert forall i :: 0 <= i < |s.list| ==> s.list[i] in s.list;
  }

  // ---- the invariant

  lemma TickValue(e: Entry, reuse: nat)
    requires 1 <= reuse && e.odd <= reuse
    requires e.odd > 0 ==> e.used > 0
    ensures TickEntry(e, reuse) == e.(odd := if 0 < e.odd < reuse then e.odd + 1 else 0)
  {
    if e.odd < reuse {
      SmallRemainder(e.odd, reuse);
    } else {
      assert reuse % reuse == 0;
    }
  }

  lemma SmallRemainder(odd: nat, reuse: nat)
    requires odd < reuse
    ensures odd % reuse == odd
  {
  }

  lemma TickTracksAge(e: Entry, s: State, reuse: nat, choice: Option<nat>, now: int)
    requires reuse >= 1
    requires CounterExact(e, s, reuse)
    requires choice == Some(e.id) ==> e.odd == 0
    ensures var x := TickEntry(e, reuse);
      var y := if choice.Some? then UseEntry(x, choice.value, now) else x;
      CounterExact(y, s.(trace := s.trace + [choice]), reuse)
  {
    AgeMeaning(s.trace, e.id, reuse);
    var t := s.trace + [choice];
    assert t[..|t| - 1] == s.trace;
    TickValue(e, reuse);
  }

  lemma TakeKeepsInv(s: State, now: int, sel: Selector, reuse: nat)
    requires reuse >= 1
    requires Inv(s, reuse)
    ensures Inv(TakeStep(s, now, sel, reuse), reuse)
  {
    TakeIdentified(s, now, sel, reuse);
    TakeKeepsTrace(s, now, sel, reuse);
    var s' := TakeStep(s, now, sel, reuse);
    forall y | y in s'.list ensures CounterExact(y, s', reuse) {
      TakeKeepsCounter(s, now, sel, reuse, y);
    }
  }

  lemma SpacedExtends(trace: seq<Option<nat>>, id: nat, reuse: nat)
    requires Spaced(trace, reuse) && Absent(trace, id, |trace| - reuse)
    ensures Spaced(trace + [Some(id)], reuse)
  {
  }

  lemma SpacedMiss(trace: seq<Option<nat>>, reuse: nat)
    requires Spaced(trace, reuse)
    ensures Spaced(trace + [None], reuse)
  {
  }

  // What a take hands out was not handed out in the `reuse` takes before.
  lemma TakeKeepsTrace(s: State, now: int, sel: Selector, reuse: nat)
    requires reuse >= 1
    requires Inv(s, reuse)
    ensures Spaced(s.trace + [Choice(s, now, sel)], reuse)
    ensures Choice(s, now, sel).Some? ==> Choice(s, now, sel).value < s.nextId
  {
    var i := FirstEligible(s.list, now, sel);
    if i < |s.list| {
      var e := s.list[i];
      assert e in s.list;
      AgeMeaning(s.trace, e.id, reuse);
      SpacedExtends(s.trace, e.id, reuse);
    } else {
      SpacedMiss(s.trace, reuse);
    }
  }

  lemma ChosenIsIdle(s: State, now: int, sel: Selector, e: Entry)
    requires Unique(s.list) && e in s.list
    ensures Choice(s, now, sel) == Some(e.id) ==> e.odd == 0
  {
    var m :| 0 <= m < |s.list| && s.list[m] == e;
    var i := FirstEligible(s.list, now, sel);
    if i < |s.list| && s.list[i].id == e.id {
      assert m == i;
    }
  }

  lemma TakeKeepsCounter(s: State, now: int, sel: Selector, reuse: nat, y: Entry)
    requires reuse >= 1
    requires Inv(s, reuse)
    requires y in TakeStep(s, now, sel, reuse).list
    ensures CounterExact(y, TakeStep(s, now, sel, reuse), reuse)
  {
    var choice, updated := Choice(s, now, sel), UpdateList(s.list, reuse);
    var list := TakeStep(s, now, sel, reuse).list;
    var k :| 0 <= k < |list| && list[k] == y;
    assert updated[k] in updated;
    UpdateListOrigin(s.list, reuse);
    var e :| e in s.list && updated[k] == TickEntry(e, reuse);
    ChosenIsIdle(s, now, sel, e);
    TickTracksAge(e, s, reuse, choice, now);
  }

  // What one take does to the list: all entries stay but the useless ones, the chosen one starts its
  // cool-down, a cooling one moves one step on, and one that has cooled for `reuse` takes is idle again.
  lemma TakeMoves(s: State, now: int, sel: Selector, reuse: nat, y: Entry)
    requires reuse >= 1
    requires Inv(s, reuse)
    ensures y in TakeStep(s, now, sel, reuse).list <==>
      exists e :: e in s.list && !(e.used > 99 && e.success * 100 <= 15 * e.used)
                  && y == Moved(e, Choice(s, now, sel), now, reuse)
  {
    var choice, list := Choice(s, now, sel), TakeStep(s, now, sel, reuse).list;
    StampedList(UpdateList(s.list, reuse), choice, now, y);
    if y in list {
      var x :| x in UpdateList(s.list, reuse) && y == Stamped(x, choice, now);
      UpdateListMembers(s.list, reuse, x);
      var e :| e in s.list && !Useless(e) && x == TickEntry(e, reuse);
      TickedIsMoved(s, e, choice, now, reuse);
    }
    forall e | e in s.list && !Useless(e) && y == Moved(e, choice, now, reuse) ensures y in list {
      UpdateListMembers(s.list, reuse, TickEntry(e, reuse));
      TickedIsMoved(s, e, choice, now, reuse);
    }
  }

  lemma TickedIsMoved(s: State, e: Entry, choice: Option<nat>, now: int, reuse: nat)
    requires reuse >= 1 && CounterExact(e, s, reuse)
    ensures Stamped(TickEntry(e, reuse), choice, now) == Moved(e, choice, now, reuse)
  {
    AgeMeaning(s.trace, e.id, reuse);
    TickValue(e, reuse);
  }

  function Moved(e: Entry, choice: Option<nat>, now: int, reuse: nat): Entry {
    if choice == Some(e.id) then e.(odd := 1, used := e.used + 1, updatedAt := now)
    else if 0 < e.odd < reuse then e.(odd := e.odd + 1)
    else e.(odd := 0)
  }

  function Stamped(e: Entry, choice: Option<nat>, now: int): Entry {
    if choice.Some? then UseEntry(e, choice.value, now) else e
  }

  lemma StampedList(list: seq<Entry>, choice: Option<nat>, now: int, y: Entry)
    ensures y in (if choice.Some? then Use(list, choice.value, now) else list) <==>
      exists x :: x in list && y == Stamped(x, choice, now)
  {
    if choice.Some? {
      var used := Use(list, choice.value, now);
      if y in used {
        var i :| 0 <= i < |used| && used[i] == y;
        assert list[i] in list;
      }
      forall x | x in list && y == Stamped(x, choice, now) ensures y in used {
        var i :| 0 <= i < |list| && list[i] == x;
        assert used[i] in used;
      }
    } else {
      assert forall x :: x in list ==> x == Stamped(x, choice, now);
    }
  }

  // After an admission exactly one entry has the proxy's address, admitted before or just now.
  lemma AdmittedOnce(s: State, c: Candidate, now: int, reuse: nat)
    requires Identified(s)
    ensures var list := Step(s, Admit(c, now), reuse).list;
      && s.list <= list
      && exists i :: && 0 <= i < |list| && SameAddress(list[i], c.ip, c.port, c.dest)
                     && forall j :: 0 <= j < |list| && j != i ==> !SameAddress(list[j], c.ip, c.port, c.dest)
  {
    StepIdentified(s, Admit(c, now), reuse);
    var list := Step(s, Admit(c, now), reuse).list;
    var i := |s.list|;
    if e :| e in s.list && SameAddress(e, c.ip, c.port, c.dest) {
      i :| 0 <= i < |s.list| && s.list[i] == e;
    }
    assert SameAddress(list[i], c.ip, c.port, c.dest);
    forall j | 0 <= j < |list| && j != i ensures !SameAddress(list[j], c.ip, c.port, c.dest) {
      if i < j {
        assert Differ(list[i], list[j]);
      } else {
        assert Differ(list[j], list[i]);
      }
    }
  }

  lemma CreditKeepsCounters(s: State, id: nat, success: bool, avg: int, reuse: nat)
    requires Inv(s, reuse)
    ensures forall y :: y in Credit(s.list, id, success, avg) ==>
      CounterExact(y, s.(list := Credit(s.list, id, success, avg)), reuse)
  {
    var credited := Credit(s.list, id, success, avg);
    forall y | y in credited
      ensures CounterExact(y, s.(list := credited), reuse)
    {
      var k :| 0 <= k < |credited| && credited[k] == y;
      assert s.list[k] in s.list;
    }
  }

  lemma StepKeepsInv(s: State, ev: Event, reuse: nat)
    requires reuse >= 1
    requires Inv(s, reuse)
    ensures Inv(Step(s, ev, reuse), reuse)
  {
    StepIdentified(s, ev, reuse);
    match ev
    case Take(now, sel) => TakeKeepsInv(s, now, sel, reuse);
    case Admit(c, now) =>
      if !HasAddress(s.list, c.ip, c.port, c.dest) {
        AgeOfUnseen(s.trace, s.nextId, reuse);
      }
    case LogDone(id, remove, success, avg) =>
      if !remove {
        CreditKeepsCounters(s, id, success, avg, reuse);
      }
    case Expired(_, _) =>
    case QueueEmpty =>
  }

  lemma {:induction false} RunKeepsInv(s: State, events: seq<Event>, reuse: nat)
    requires reuse >= 1
    requires Inv(s, reuse)
    ensures Inv(Run(s, events, reuse), reuse)
    decreases |events|
  {
    if events != [] {
      StepKeepsInv(s, events[0], reuse);
      RunKeepsInv(Step(s, events[0], reuse), events[1..], reuse);
    }
  }

  // Two entries with the same non-zero counter are the same entry: the counter is a position in the trace.
  lemma OddNamesEntry(s: State, reuse: nat, a: Entry, b: Entry)
    requires reuse >= 1
    requires Inv(s, reuse)
    requires a in s.list && b in s.list && a.odd == b.odd != 0
    ensures a.id == b.id && a.odd <= reuse
  {
    AgeMeaning(s.trace, a.id, reuse);
    AgeMeaning(s.trace, b.id, reuse);
  }

  // Cool-down: whatever takes, admissions, logs, removals and queue ends happen, in any order, no
  // entry is handed out twice within reuse + 1 consecutive takes, every counter stays in 0..reuse,
  // no two entries share a non-zero counter, and no address is listed twice.
  lemma CoolDown(events: seq<Event>, reuse: nat)
    requires reuse >= 1
    ensures var s := Run(EMPTY, events, reuse);
      && Spaced(s.trace, reuse)
      && (forall e :: e in s.list ==> e.odd <= reuse)
      && (forall i, j :: 0 <= i < j < |s.list| && s.list[i].odd != 0 ==> s.list[i].odd != s.list[j].odd)
      && Unique(s.list)
  {
    RunKeepsInv(EMPTY, events, reuse);
    var s := Run(EMPTY, events, reuse);
    forall e | e in s.list ensures e.odd <= reuse {
      AgeMeaning(s.trace, e.id, reuse);
    }
    forall i, j | 0 <= i < j < |s.list| && s.list[i].odd != 0
      ensures s.list[i].odd != s.list[j].odd
    {
      if s.list[i].odd == s.list[j].odd {
        OddNamesEntry(s, reuse, s.list[i], s.list[j]);
      }
    }
  }

  // The counter of a listed entry is exactly its distance from the last take that handed it out.
  lemma CounterIsDistance(events: seq<Event>, reuse: nat, e: Entry)
    requires reuse >= 1
    requires e in Run(EMPTY, events, reuse).list
    ensures var t := Run(EMPTY, events, reuse).trace;
      && (e.odd > 0 ==> e.odd <= |t| && t[|t| - e.odd] == Some(e.id) && Absent(t, e.id, |t| - e.odd + 1))
      && (e.odd == 0 <==> Absent(t, e.id, |t| - reuse))
  {
    RunKeepsInv(EMPTY, events, reuse);
    AgeMeaning(Run(EMPTY, events, reuse).trace, e.id, reuse);
  }

  // The selector of a plain request without wishes.
  const ANY := Selector(0, 0, false)

  // A proxy admitted to an empty list is what the next take hands out once it has rested.
  lemma FirstTake(c: Candidate, reuse: nat)
    requires c.dest == Http && !Useless(Admitted(c, 0, 0))
    requires reuse >= 1 || c.inc == 0
    ensures Run(EMPTY, [Admit(c, 0), Take(REST_MS, ANY)], reuse)
      == State([UseEntry(Admitted(c, 0, 0), 0, REST_MS)], [Some(0)], 1)
  {
    var e := Admitted(c, 0, 0);
    var events := [Admit(c, 0), Take(REST_MS, ANY)];
    assert Step(EMPTY, events[0], reuse) == State([e], [], 1);
    assert events[1..] == [events[1]] && [events[1]][1..] == [];
    SingleTake(e, [], 1, REST_MS, reuse);
    RunUnfold(EMPTY, events, reuse);
    RunUnfold(State([e], [], 1), [events[1]], reuse);
  }

  lemma SingleTake(e: Entry, trace: seq<Option<nat>>, nextId: nat, now: int, reuse: nat)
    requires !Useless(e) && e.odd == 0 && Rested(e, now) && e.dest == Http
    requires reuse >= 1 || e.used == 0
    ensures TakeStep(State([e], trace, nextId), now, ANY, reuse)
      == State([UseEntry(e, e.id, now)], trace + [Some(e.id)], nextId)
  {
    if reuse >= 1 {
      SmallRemainder(0, reuse);
    }
    assert TickEntry(e, reuse) == e;
    SingleUpdate(e, reuse);
    assert FirstEligible([e], now, ANY) == 0;
  }

  // The cool-down is a promise about entries, not addresses: removed and admitted again, a proxy comes
  // back with a fresh counter, at the very next take.
  lemma AddressReturnsAtOnce(c: Candidate, reuse: nat)
    requires reuse >= 1
    requires c.dest == Http && !Useless(Admitted(c, 0, 0))
    ensures Run(EMPTY, [Admit(c, 0), Take(2000, ANY), Expired(3001, 1), Admit(c, 3001), Take(6000, ANY)], reuse).trace
      == [Some(0), Some(1)]
  {
    var used, e1 := UseEntry(Admitted(c, 0, 0), 0, 2000), Admitted(c, 1, 3001);
    var start := [Admit(c, 0), Take(2000, ANY)];
    var rest := [Expired(3001, 1), Admit(c, 3001), Take(6000, ANY)];
    var s2 := State([used], [Some(0)], 1);
    FirstTake(c, reuse);
    RunConcat(EMPTY, start, rest, reuse);
    assert start + rest == [Admit(c, 0), Take(2000, ANY), Expired(3001, 1), Admit(c, 3001), Take(6000, ANY)];
    var s3 := State([], [Some(0)], 1);
    assert Step(s2, rest[0], reuse) == s3 by {
      assert Keep([used], Fresh(3001, 1)) == [];
    }
    var s4 := State([e1], [Some(0)], 2);
    assert Step(s3, rest[1], reuse) == s4;
    SingleTake(e1, [Some(0)], 2, 6000, reuse);
    RunUnfold(s2, rest, reuse);
    RunUnfold(s3, rest[1..], reuse);
    RunUnfold(s4, rest[1..][1..], reuse);
    assert rest[1..][1..][1..] == [];
  }

  lemma {:induction false} RunConcat(s: State, a: seq<Event>, b: seq<Event>, reuse: nat)
    ensures Run(s, a + b, reuse) == Run(Run(s, a, reuse), b, reuse)
    decreases |a|
  {
    if a == [] {
      assert a + b == b;
    } else {
      assert (a + b)[1..] == a[1..] + b;
      RunConcat(Step(s, a[0], reuse), a[1..], b, reuse);
    }
  }

  lemma RunLast(events: seq<Event>, reuse: nat)
    requires events != []
    ensures Run(EMPTY, events, reuse) ==
      Step(Run(EMPTY, events[..|events| - 1], reuse), events[|events| - 1], reuse)
  {
    var init, last := events[..|events| - 1], events[|events| - 1];
    assert events == init + [last];
    RunConcat(EMPTY, init, [last], reuse);
    RunUnfold(Run(EMPTY, init, reuse), [last], reuse);
    assert [last][1..] == [];
  }

  lemma SingleUpdate(e: Entry, reuse: nat)
    requires !Useless(e)
    ensures UpdateList([e], reuse) == [TickEntry(e, reuse)]
  {
    KeepCons(e, [], Useful());
    assert [e] + [] == [e];
    var ticked := Tick([e], reuse);
    assert ticked == [TickEntry(e, reuse)] && ticked[1..] == [];
  }

  lemma RunUnfold(s: State, events: seq<Event>, reuse: nat)
    requires events != []
    ensures Run(s, events, reuse) == Run(Step(s, events[0], reuse), events[1..], reuse)
  {
  }

  // ---------------------------------------------------------------- availability

  lemma {:induction false} Pigeonhole(xs: seq<nat>, n: nat)
    requires forall i :: 0 <= i < |xs| ==> 1 <= xs[i] <= n
    requires forall i, j :: 0 <= i < j < |xs| ==> xs[i] != xs[j]
    ensures |xs| <= n
  {
    if xs != [] {
      assert 1 <= xs[0] <= n;
      if k :| 0 <= k < |xs| && xs[k] == n {
        Pigeonhole(xs[..k] + xs[k + 1..], n - 1);
      } else {
        Pigeonhole(xs, n - 1);
      }
    }
  }

  function Ready(now: int, sel: Selector): Entry -> bool {
    (e: Entry) => Rested(e, now) && Matches(e, sel)
  }

  // Availability: once more than `reuse` listed entries match the selector and have rested, a take hits.
  lemma Availability(events: seq<Event>, reuse: nat, now: int, sel: Selector)
    requires reuse >= 1
    requires |Keep(Run(EMPTY, events, reuse).list, Ready(now, sel))| > reuse
    ensures Choice(Run(EMPTY, events, reuse), now, sel).Some?
  {
    RunKeepsInv(EMPTY, events, reuse);
    var s := Run(EMPTY, events, reuse);
    var ready := Keep(s.list, Ready(now, sel));
    KeepUnique(s.list, Ready(now, sel));
    if Choice(s, now, sel).None? {
      forall e | e in ready ensures 1 <= e.odd <= reuse {
        var k :| 0 <= k < |s.list| && s.list[k] == e;
        AgeMeaning(s.trace, e.id, reuse);
      }
      var odds := seq(|ready|, i requires 0 <= i < |ready| => ready[i].odd);
      forall i | 0 <= i < |odds| ensures 1 <= odds[i] <= reuse {
        assert ready[i] in ready;
      }
      forall i, j | 0 <= i < j < |odds| ensures odds[i] != odds[j] {
        assert ready[i] in ready && ready[j] in ready;
        if odds[i] == odds[j] {
          OddNamesEntry(s, reuse, ready[i], ready[j]);
        }
      }
      Pigeonhole(odds, reuse);
    }
  }

  // ---------------------------------------------------------------- best choice

  // The entries out of cool-down stand in sort order.
  ghost predicate IdleSorted(list: seq<Entry>) {
    forall i, j :: 0 <= i < j < |list| && list[i].odd == 0 && list[j].odd == 0 ==> Le(list[i], list[j])
  }

  lemma TakeSortsIdle(s: State, now: int, sel: Selector, reuse: nat)
    ensures IdleSorted(TakeStep(s, now, sel, reuse).list)
  {
    SortSorts(Tick(Cleanup(s.list), reuse));
  }

  lemma {:induction false} KeepIdleSorted(list: seq<Entry>, p: Entry -> bool)
    requires IdleSorted(list)
    ensures IdleSorted(Keep(list, p))
  {
    if list != [] {
      KeepIdleSorted(list[1..], p);
      var rest := Keep(list[1..], p);
      forall x | x in list[1..] && x.odd == 0 && list[0].odd == 0 ensures Le(list[0], x) {
        var k :| 0 <= k < |list[1..]| && list[1..][k] == x;
        assert list[k + 1] == x;
      }
      assert forall j :: 0 <= j < |rest| ==> rest[j] in list[1..];
    }
  }

  predicate Removal(ev: Event) {
    ev.Expired? || (ev.LogDone? && ev.remove)
  }

  lemma {:induction false} RemovalsKeepIdleSorted(s: State, events: seq<Event>, reuse: nat)
    requires IdleSorted(s.list)
    requires forall ev :: ev in events ==> Removal(ev)
    ensures IdleSorted(Run(s, events, reuse).list)
    decreases |events|
  {
    if events != [] {
      var ev := events[0];
      assert Removal(ev);
      if ev.LogDone? {
        KeepIdleSorted(s.list, OtherThan(ev.id));
      } else {
        KeepIdleSorted(s.list, Fresh(ev.now, ev.timeOffset));
      }
      RemovalsKeepIdleSorted(Step(s, ev, reuse), events[1..], reuse);
    }
  }

  // Best choice: after a take or a queue end, with only removals since, a take hands out the entry
  // that comes first by success descending and average duration ascending among all eligible ones,
  // the one listed earliest on a tie; it misses only when nothing is eligible.
  lemma BestChoice(s: State, last: Event, removals: seq<Event>, reuse: nat, now: int, sel: Selector)
    requires last.Take? || last.QueueEmpty?
    requires forall ev :: ev in removals ==> Removal(ev)
    ensures var s' := Run(Step(s, last, reuse), removals, reuse);
      var i := FirstEligible(s'.list, now, sel);
      && (Choice(s', now, sel).None? <==> forall e :: e in s'.list ==> !Eligible(e, now, sel))
      && (Choice(s', now, sel).Some? ==>
            && Choice(s', now, sel).value == s'.list[i].id
            && forall j :: 0 <= j < |s'.list| && Eligible(s'.list[j], now, sel) && j != i ==>
                 var best, other := s'.list[i], s'.list[j];
                 && i < j
                 && best.success >= other.success
                 && (best.success == other.success ==> best.durationAvg <= other.durationAvg))
  {
    var s1 := Step(s, last, reuse);
    if last.Take? {
      TakeSortsIdle(s, last.now, last.sel, reuse);
    } else {
      SortSorts(Cleanup(s.list));
    }
    RemovalsKeepIdleSorted(s1, removals, reuse);
    var list := Run(s1, removals, reuse).list;
    assert forall j :: 0 <= j < |list| ==> list[j] in list;
  }
}
