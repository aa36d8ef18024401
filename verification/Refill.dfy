// Refilling the active list: one bookkeeping record per query, at most one running fetch per query,
// and one queued test job per fetched proxy. Also the paging of successive fetches.
module Refill {
  // `inc` is -1 when the query is idle.
  datatype Query = Query(inc: int, size: nat, offset: nat)

  const IDLE := Query(-1, 0, 0)

  // ---------------------------------------------------------------- paging

  function Position(q: Query): nat {
    q.offset + q.size
  }

  // SQL `OFFSET from LIMIT limit` over a fixed row order.
  function Page<T>(table: seq<T>, from: nat, limit: nat): seq<T> {
    if from >= |table| then [] else if from + limit <= |table| then table[from..from + limit] else table[from..]
  }

  function FetchPage<T>(q: Query, table: seq<T>, limit: nat): (r: (seq<T>, Query)) {
    var page := Page(table, Position(q), limit);
    if |page| > 0 then (page, q.(size := |page|, offset := Position(q)))
    else (page, q.(size := 0, offset := 0))
  }

  // The pages of successive fetches of one query, and the query afterwards.
  function Fetches<T>(q: Query, table: seq<T>, limits: seq<nat>): (seq<seq<T>>, Query)
    decreases |limits|
  {
    if limits == [] then ([], q)
    else
      var (page, q1) := FetchPage(q, table, limits[0]);
      var (pages, q2) := Fetches(q1, table, limits[1..]);
      ([page] + pages, q2)
  }

  function Flatten<T>(pages: seq<seq<T>>): seq<T> {
    if pages == [] then [] else pages[0] + Flatten(pages[1..])
  }

  function Times<T>(table: seq<T>, n: nat): seq<T> {
    if n == 0 then [] else table + Times(table, n - 1)
  }

  function EmptyPages<T>(pages: seq<seq<T>>): nat {
    if pages == [] then 0 else (if pages[0] == [] then 1 else 0) + EmptyPages(pages[1..])
  }

  // Paging sweep: whatever positive limits are used, the pages fetched so far lay the table end to
  // end, once per empty page, plus the part before the current position. So between two empty pages
  // every row comes exactly once, in order.
  lemma {:induction false} PagingSweep<T>(q: Query, table: seq<T>, limits: seq<nat>)
    requires Position(q) <= |table|
    requires forall i :: 0 <= i < |limits| ==> limits[i] > 0
    ensures var (pages, q') := Fetches(q, table, limits);
      && Position(q') <= |table|
      && table[..Position(q)] + Flatten(pages) == Times(table, EmptyPages(pages)) + table[..Position(q')]
    decreases |limits|
  {
    if limits != [] {
      var (page, q1) := FetchPage(q, table, limits[0]);
      var (pages, q2) := Fetches(q1, table, limits[1..]);
      PagingSweep(q1, table, limits[1..]);
      assert ([page] + pages)[1..] == pages;
      FetchExtends(q, table, limits[0]);
      SweepOne(table, Position(q), page, Position(q1), Flatten(pages), EmptyPages(pages), table[..Position(q2)]);
    }
  }

  // One fetch: either the whole table was read and the position starts over, or the page extends what
  // was read so far.
  lemma FetchExtends<T>(q: Query, table: seq<T>, limit: nat)
    requires limit > 0 && Position(q) <= |table|
    ensures var (page, q1) := FetchPage(q, table, limit);
      && Position(q1) <= |table|
      && (page == [] ==> Position(q) == |table| && Position(q1) == 0)
      && (page != [] ==> table[..Position(q)] + page == table[..Position(q1)])
  {
  }

  lemma SweepOne<T>(table: seq<T>, read: nat, page: seq<T>, next: nat, rest: seq<T>, cycles: nat, tail: seq<T>)
    requires read <= |table| && next <= |table|
    requires page == [] ==> read == |table| && next == 0
    requires page != [] ==> table[..read] + page == table[..next]
    requires table[..next] + rest == Times(table, cycles) + tail
    ensures table[..read] + (page + rest) == Times(table, cycles + if page == [] then 1 else 0) + tail
  {
    if page == [] {
      assert table[..read] + (page + rest) == table + (table[..next] + rest);
      assert table + (Times(table, cycles) + tail) == table + Times(table, cycles) + tail;
    } else {
      assert table[..read] + (page + rest) == table[..read] + page + rest;
    }
  }

  // How many pages of `limit` rows hold n rows.
  function Pages(n: nat, limit: nat): nat
    requires limit > 0
  {
    if n == 0 then 0 else if n <= limit then 1 else 1 + Pages(n - limit, limit)
  }

  function Constant(limit: nat, n: nat): seq<nat> {
    if n == 0 then [] else [limit] + Constant(limit, n - 1)
  }

  lemma PageJoins<T>(q: Query, table: seq<T>, limit: nat)
    requires limit > 0 && Position(q) < |table|
    ensures var (page, q1) := FetchPage(q, table, limit);
      && page != []
      && Position(q) < Position(q1) <= |table|
      && page + table[Position(q1)..] == table[Position(q)..]
  {
  }

  // One cycle with a constant limit: as many non-empty pages as the rest of the table needs, which
  // give exactly that rest; the fetch after them is empty and starts over.
  lemma {:induction false} PagingCycle<T>(q: Query, table: seq<T>, limit: nat)
    requires limit > 0 && Position(q) <= |table|
    ensures var (pages, q') := Fetches(q, table, Constant(limit, Pages(|table| - Position(q), limit)));
      && Flatten(pages) == table[Position(q)..]
      && EmptyPages(pages) == 0
      && Position(q') == |table|
      && FetchPage(q', table, limit) == ([], q'.(size := 0, offset := 0))
    decreases |table| - Position(q)
  {
    var left := |table| - Position(q);
    if left > 0 {
      var (page, q1) := FetchPage(q, table, limit);
      var limits := Constant(limit, Pages(left, limit));
      PagingCycle(q1, table, limit);
      assert limits[1..] == Constant(limit, Pages(|table| - Position(q1), limit));
      PageJoins(q, table, limit);
      assert ([page] + Fetches(q1, table, limits[1..]).0)[1..] == Fetches(q1, table, limits[1..]).0;
    }
  }

  // ---------------------------------------------------------------- the protocol

  datatype Phase = Reading | Loaded(rows: seq<nat>)

  // A call of `doEnqueue` that passed its guard and has not pushed its batch yet.
  datatype Flight = Flight(reqId: string, phase: Phase)

  // The rows one call of `doEnqueue` put into the job queue.
  datatype Batch = Batch(reqId: string, rows: seq<nat>)

  // `jobs` counts the unfinished jobs of every query; `pushed` is what was queued so far, oldest first.
  datatype State = State(
    queries: map<string, Query>, flights: map<nat, Flight>, jobs: multiset<string>, pushed: seq<Batch>,
    nextFlight: nat)

  const EMPTY := State(map[], map[], multiset{}, [], 0)

  // Every stretch of code between two awaits. `closed` tells whether the connection closed without an
  // error after the read; when it did not, the rows are lost but the position has moved.
  datatype Event =
    | CacheQuery(reqId: string)
    | Enqueue(reqId: string)
    | Read(flight: nat, table: seq<nat>, limit: nat, closed: bool)
    | ReadFails(flight: nat)
    | Push(flight: nat)
    | JobDone(reqId: string)

  function SetInc(s: State, reqId: string, inc: int): State
    requires reqId in s.queries
  {
    s.(queries := s.queries[reqId := s.queries[reqId].(inc := inc)])
  }

  predicate IsReading(s: State, f: nat) {
    f in s.flights && s.flights[f].phase.Reading? && s.flights[f].reqId in s.queries
  }

  predicate IsLoaded(s: State, f: nat) {
    f in s.flights && s.flights[f].phase.Loaded? && s.flights[f].reqId in s.queries
  }

  function ReadStep(s: State, f: nat, table: seq<nat>, limit: nat, closed: bool): State
    requires IsReading(s, f)
  {
    var reqId := s.flights[f].reqId;
    var (page, q) := FetchPage(s.queries[reqId], table, limit);
    s.(queries := s.queries[reqId := q],
       flights := s.flights[f := Flight(reqId, Loaded(if closed then page else []))])
  }

  // The counter after a batch of `rows` jobs was counted in.
  function PushedInc(inc: int, rows: nat): int {
    if rows == 0 || inc + rows == 0 then -1 else inc + rows
  }

  function PushStep(s: State, f: nat): State
    requires IsLoaded(s, f)
  {
    var Flight(reqId, Loaded(rows)) := s.flights[f];
    SetInc(s, reqId, PushedInc(s.queries[reqId].inc, |rows|)).(
      flights := s.flights - {f}, jobs := s.jobs[reqId := s.jobs[reqId] + |rows|],
      pushed := s.pushed + [Batch(reqId, rows)])
  }

  function DoneInc(inc: int): int {
    if inc - 1 <= 0 then -1 else inc - 1
  }

  // Events that cannot happen in a state leave it alone.
  function Step(s: State, ev: Event): State {
    match ev
    case CacheQuery(r) => if r in s.queries then s else s.(queries := s.queries[r := IDLE])
    case Enqueue(r) =>
      if r !in s.queries || s.queries[r].inc >= 0 then s
      else SetInc(s, r, 0).(flights := s.flights[s.nextFlight := Flight(r, Reading)], nextFlight := s.nextFlight + 1)
    case Read(f, table, limit, closed) => if IsReading(s, f) then ReadStep(s, f, table, limit, closed) else s
    case ReadFails(f) =>
      if IsReading(s, f) then s.(flights := s.flights[f := Flight(s.flights[f].reqId, Loaded([]))]) else s
    case Push(f) => if IsLoaded(s, f) then PushStep(s, f) else s
    case JobDone(r) =>
      if r in s.jobs && r in s.queries
      then SetInc(s, r, DoneInc(s.queries[r].inc)).(jobs := s.jobs[r := s.jobs[r] - 1])
      else s
  }

  function Run(s: State, events: seq<Event>): State
    decreases |events|
  {
    if events == [] then s else Run(Step(s, events[0]), events[1..])
  }

  // ---------------------------------------------------------------- single flight

  predicate Flying(s: State, r: string) {
    exists f :: f in s.flights && s.flights[f].reqId == r
  }

  // A query's counter says exactly what is outstanding for it.
  ghost predicate CounterExact(s: State, r: string)
    requires r in s.queries
  {
    s.queries[r].inc ==
    if Flying(s, r) then 0 else if s.jobs[r] > 0 then s.jobs[r] else -1
  }

  ghost predicate Inv(s: State) {
    && (forall r :: r in s.queries ==> QueryInv(s, r))
    && (forall f :: f in s.flights ==> f < s.nextFlight && s.flights[f].reqId in s.queries)
    && (forall r :: r in s.jobs ==> r in s.queries)
    && (forall f, g :: f in s.flights && g in s.flights && s.flights[f].reqId == s.flights[g].reqId ==> f == g)
  }

  ghost predicate QueryInv(s: State, r: string)
    requires r in s.queries
  {
    CounterExact(s, r) && (Flying(s, r) ==> s.jobs[r] == 0)
  }

  lemma SameFlights(s: State, s': State, r: string)
    requires forall f :: f in s.flights && s.flights[f].reqId == r <==> f in s'.flights && s'.flights[f].reqId == r
    ensures Flying(s, r) == Flying(s', r)
  {
    if Flying(s, r) {
      var f :| f in s.flights && s.flights[f].reqId == r;
      assert f in s'.flights && s'.flights[f].reqId == r;
    }
    if Flying(s', r) {
      var f :| f in s'.flights && s'.flights[f].reqId == r;
      assert f in s.flights && s.flights[f].reqId == r;
    }
  }

  // A query that a step does not touch keeps its exact counter.
  lemma Untouched(s: State, s': State, r: string)
    requires r in s.queries && r in s'.queries && QueryInv(s, r)
    requires s'.queries[r].inc == s.queries[r].inc && s'.jobs[r] == s.jobs[r]
    requires forall f :: f in s.flights && s.flights[f].reqId == r <==> f in s'.flights && s'.flights[f].reqId == r
    ensures QueryInv(s', r)
  {
    SameFlights(s, s', r);
  }

  lemma CacheKeepsInv(s: State, r: string)
    requires Inv(s)
    ensures Inv(Step(s, CacheQuery(r)))
  {
    var s' := Step(s, CacheQuery(r));
    forall x | x in s'.queries ensures QueryInv(s', x) {
      if x in s.queries {
        Untouched(s, s', x);
      } else {
        assert !Flying(s', x) && s.jobs[x] == 0;
      }
    }
  }

  lemma EnqueueKeepsInv(s: State, r: string)
    requires Inv(s)
    ensures Inv(Step(s, Enqueue(r)))
  {
    var s' := Step(s, Enqueue(r));
    if r in s.queries && s.queries[r].inc < 0 {
      assert QueryInv(s, r);
      assert s.nextFlight in s'.flights && s'.flights[s.nextFlight].reqId == r;
      forall x | x in s'.queries ensures QueryInv(s', x) {
        if x != r {
          Untouched(s, s', x);
        }
      }
    }
  }

  // The invariant does not depend on paging positions or on how far a fetch got.
  lemma PhaseBlind(s: State, s': State)
    requires Inv(s)
    requires s'.queries.Keys == s.queries.Keys && s'.flights.Keys == s.flights.Keys
    requires forall r :: r in s.queries ==> s'.queries[r].inc == s.queries[r].inc
    requires forall f :: f in s.flights ==> s'.flights[f].reqId == s.flights[f].reqId
    requires s'.jobs == s.jobs && s'.nextFlight == s.nextFlight
    ensures Inv(s')
  {
    forall r | r in s'.queries ensures QueryInv(s', r) {
      Untouched(s, s', r);
    }
  }

  lemma PushKeepsInv(s: State, f: nat)
    requires Inv(s) && IsLoaded(s, f)
    ensures Inv(PushStep(s, f))
  {
    var s' := PushStep(s, f);
    var r := s.flights[f].reqId;
    assert Flying(s, r) && QueryInv(s, r);
    assert !Flying(s', r);
    forall x | x in s'.queries ensures QueryInv(s', x) {
      if x != r {
        Untouched(s, s', x);
      }
    }
  }

  lemma JobDoneKeepsInv(s: State, r: string)
    requires Inv(s)
    ensures Inv(Step(s, JobDone(r)))
  {
    var s' := Step(s, JobDone(r));
    if r in s.jobs {
      assert QueryInv(s, r);
      SameFlights(s, s', r);
      forall x | x in s'.queries ensures QueryInv(s', x) {
        if x != r {
          Untouched(s, s', x);
        }
      }
    }
  }

  lemma ReadKeepsInv(s: State, f: nat, table: seq<nat>, limit: nat, closed: bool)
    requires Inv(s) && IsReading(s, f)
    ensures Inv(ReadStep(s, f, table, limit, closed))
  {
    PhaseBlind(s, ReadStep(s, f, table, limit, closed));
  }

  lemma StepKeepsInv(s: State, ev: Event)
    requires Inv(s)
    ensures Inv(Step(s, ev))
  {
    match ev
    case CacheQuery(r) => CacheKeepsInv(s, r);
    case Enqueue(r) => EnqueueKeepsInv(s, r);
    case Read(f, table, limit, closed) =>
      if IsReading(s, f) {
        ReadKeepsInv(s, f, table, limit, closed);
      }
    case ReadFails(f) =>
      if IsReading(s, f) {
        PhaseBlind(s, s.(flights := s.flights[f := Flight(s.flights[f].reqId, Loaded([]))]));
      }
    case Push(f) =>
      if IsLoaded(s, f) {
        PushKeepsInv(s, f);
      }
    case JobDone(r) => JobDoneKeepsInv(s, r);
  }

  lemma {:induction false} RunKeepsInv(s: State, events: seq<Event>)
    requires Inv(s)
    ensures Inv(Run(s, events))
    decreases |events|
  {
    if events != [] {
      StepKeepsInv(s, events[0]);
      RunKeepsInv(Step(s, events[0]), events[1..]);
    }
  }

  // Single flight: in every interleaving a query has at most one running fetch, and its counter is 0
  // exactly while that fetch runs, n exactly while n of its jobs are unfinished and none runs, and -1
  // exactly when nothing is outstanding.
  lemma SingleFlight(events: seq<Event>, r: string)
    requires r in Run(EMPTY, events).queries
    ensures var s := Run(EMPTY, events);
      var inc := s.queries[r].inc;
      && (inc == -1 <==> !Flying(s, r) && s.jobs[r] == 0)
      && (inc == 0 <==> Flying(s, r))
      && (inc > 0 ==> s.jobs[r] == inc && !Flying(s, r))
      && inc >= -1
      && (forall f, g :: f in s.flights && g in s.flights && s.flights[f].reqId == s.flights[g].reqId ==> f == g)
  {
    RunKeepsInv(EMPTY, events);
    assert QueryInv(Run(EMPTY, events), r);
  }

  // A fetch starts exactly when its query is known and nothing of the last batch is outstanding.
  lemma FetchStartsWhenIdle(events: seq<Event>, r: string)
    ensures var s := Run(EMPTY, events);
      Step(s, Enqueue(r)) != s <==> r in s.queries && !Flying(s, r) && s.jobs[r] == 0
  {
    RunKeepsInv(EMPTY, events);
    var s := Run(EMPTY, events);
    if r in s.queries {
      assert QueryInv(s, r);
      if s.queries[r].inc < 0 {
        assert Step(s, Enqueue(r)).nextFlight == s.nextFlight + 1;
      }
    }
  }

  // ---------------------------------------------------------------- the life of a batch

  lemma {:induction false} RunConcat(s: State, a: seq<Event>, b: seq<Event>)
    ensures Run(s, a + b) == Run(Run(s, a), b)
    decreases |a|
  {
    if a == [] {
      assert a + b == b;
    } else {
      assert (a + b)[1..] == a[1..] + b;
      RunConcat(Step(s, a[0]), a[1..], b);
    }
  }

  lemma RunOne(s: State, ev: Event)
    ensures Run(s, [ev]) == Step(s, ev)
  {
    assert [ev][1..] == [];
  }

  predicate EndsRead(ev: Event, f: nat) {
    (ev.Read? || ev.ReadFails?) && ev.flight == f
  }

  predicate ReadEnded(es: seq<Event>, f: nat) {
    exists i :: 0 <= i < |es| && EndsRead(es[i], f)
  }

  lemma FlightStep(s: State, f: nat, ev: Event)
    requires Inv(s) && f in s.flights && ev != Push(f)
    ensures var s' := Step(s, ev);
      && f in s'.flights && s'.flights[f].reqId == s.flights[f].reqId
      && (s'.flights[f].phase.Loaded? <==> s.flights[f].phase.Loaded? || EndsRead(ev, f))
  {
  }

  lemma {:induction false} FlightStays(s: State, f: nat, es: seq<Event>)
    requires Inv(s) && f in s.flights && Push(f) !in es
    ensures var s' := Run(s, es);
      && f in s'.flights && s'.flights[f].reqId == s.flights[f].reqId
      && (s'.flights[f].phase.Loaded? <==> s.flights[f].phase.Loaded? || ReadEnded(es, f))
    decreases |es|
  {
    if es != [] {
      FlightStep(s, f, es[0]);
      StepKeepsInv(s, es[0]);
      FlightStays(Step(s, es[0]), f, es[1..]);
      assert ReadEnded(es, f) <==> EndsRead(es[0], f) || ReadEnded(es[1..], f) by {
        assert forall i :: 0 < i < |es| ==> es[1..][i - 1] == es[i];
      }
    }
  }

  // Until it pushes its batch, a fetch keeps its query at 0 and no other fetch for the query starts,
  // whatever happens; it is ready to push exactly when its read has ended.
  lemma FetchHolds(events: seq<Event>, f: nat, waiting: seq<Event>)
    requires f in Run(EMPTY, events).flights && Push(f) !in waiting
    ensures var r, s := Run(EMPTY, events).flights[f].reqId, Run(EMPTY, events + waiting);
      && f in s.flights && s.flights[f].reqId == r
      && r in s.queries && s.queries[r].inc == 0 && Step(s, Enqueue(r)) == s
      && (IsLoaded(s, f) <==> IsLoaded(Run(EMPTY, events), f) || ReadEnded(waiting, f))
  {
    RunKeepsInv(EMPTY, events);
    RunKeepsInv(EMPTY, events + waiting);
    RunConcat(EMPTY, events, waiting);
    FlightStays(Run(EMPTY, events), f, waiting);
    var s := Run(EMPTY, events + waiting);
    assert Flying(s, s.flights[f].reqId) && QueryInv(s, s.flights[f].reqId);
  }

  // How many jobs of a query the events finish.
  function Done(es: seq<Event>, r: string): nat {
    if es == [] then 0 else (if es[0] == JobDone(r) then 1 else 0) + Done(es[1..], r)
  }

  ghost predicate Working(s: State, r: string, n: nat) {
    Inv(s) && r in s.queries && !Flying(s, r) && s.jobs[r] == n
  }

  lemma WorkingCounter(s: State, r: string, n: nat)
    requires Working(s, r, n)
    ensures s.queries[r].inc == if n == 0 then -1 else n
    ensures n > 0 ==> Step(s, Enqueue(r)) == s
  {
    assert QueryInv(s, r);
  }

  lemma WorkingStep(s: State, r: string, n: nat, ev: Event)
    requires Working(s, r, n) && n > 0
    ensures Working(Step(s, ev), r, if ev == JobDone(r) then n - 1 else n)
  {
    WorkingCounter(s, r, n);
    StepKeepsInv(s, ev);
    SameFlights(s, Step(s, ev), r) by {
      assert forall f :: f in s.flights ==> s.flights[f].reqId != r;
    }
  }

  lemma {:induction false} DrainsInterleaved(s: State, r: string, n: nat, es: seq<Event>)
    requires Working(s, r, n) && Done(es, r) < n
    ensures Working(Run(s, es), r, n - Done(es, r))
    decreases |es|
  {
    if es != [] {
      WorkingStep(s, r, n, es[0]);
      DrainsInterleaved(Step(s, es[0]), r, if es[0] == JobDone(r) then n - 1 else n, es[1..]);
    }
  }

  lemma PushWorks(s: State, f: nat)
    requires Inv(s) && IsLoaded(s, f)
    ensures Working(Step(s, Push(f)), s.flights[f].reqId, |s.flights[f].phase.rows|)
  {
    PushKeepsInv(s, f);
    assert Flying(s, s.flights[f].reqId) && QueryInv(s, s.flights[f].reqId);
  }

  // A pushed batch in any interleaving: while some of its jobs are unfinished, the counter is their
  // number and no fetch for the query runs or can start; the job that finishes last makes the query
  // idle, and so does the push itself when the batch is empty.
  lemma BatchDrains(events: seq<Event>, f: nat, es: seq<Event>)
    requires IsLoaded(Run(EMPTY, events), f)
    ensures var Flight(r, Loaded(rows)) := Run(EMPTY, events).flights[f];
      var s, done := Run(EMPTY, events + [Push(f)] + es), Done(es, r);
      && (done < |rows| ==>
            && r in s.queries && s.queries[r].inc == |rows| - done && s.jobs[r] == |rows| - done
            && !Flying(s, r) && Step(s, Enqueue(r)) == s)
      && (done + 1 == |rows| ==>
            var s' := Step(s, JobDone(r)); r in s'.queries && s'.queries[r].inc == -1)
      && (rows == [] && es == [] ==> r in s.queries && s.queries[r].inc == -1)
  {
    var s0 := Run(EMPTY, events);
    var Flight(r, Loaded(rows)) := s0.flights[f];
    RunKeepsInv(EMPTY, events);
    RunConcat(EMPTY, events, [Push(f)]);
    RunConcat(EMPTY, events + [Push(f)], es);
    RunOne(s0, Push(f));
    PushWorks(s0, f);
    var s1 := Step(s0, Push(f));
    WorkingCounter(s1, r, |rows|);
    if Done(es, r) < |rows| {
      DrainsInterleaved(s1, r, |rows|, es);
      var s := Run(s1, es);
      WorkingCounter(s, r, |rows| - Done(es, r));
      WorkingStep(s, r, |rows| - Done(es, r), JobDone(r));
      WorkingCounter(Step(s, JobDone(r)), r, |rows| - Done(es, r) - 1);
    }
  }

  // From the start of a fetch to its end: once the read ended, the batch was pushed and its last job
  // finished, the query is idle again, whatever else happened on the way.
  lemma BatchReturnsToIdle(events: seq<Event>, f: nat, waiting: seq<Event>, working: seq<Event>)
    requires f in Run(EMPTY, events).flights && Push(f) !in waiting
    requires IsLoaded(Run(EMPTY, events), f) || ReadEnded(waiting, f)
    ensures var s := Run(EMPTY, events + waiting);
      && IsLoaded(s, f)
      && var Flight(r, Loaded(rows)) := s.flights[f];
         r == Run(EMPTY, events).flights[f].reqId
         && (Done(working, r) + 1 == |rows| ==>
               var s' := Run(EMPTY, events + waiting + [Push(f)] + working + [JobDone(r)]);
               r in s'.queries && s'.queries[r].inc == -1)
         && (rows == [] ==>
               var s' := Run(EMPTY, events + waiting + [Push(f)]);
               r in s'.queries && s'.queries[r].inc == -1)
  {
    FetchHolds(events, f, waiting);
    var r := Run(EMPTY, events).flights[f].reqId;
    BatchDrains(events + waiting, f, working);
    BatchDrains(events + waiting, f, []);
    var all := events + waiting + [Push(f)];
    RunConcat(EMPTY, all + working, [JobDone(r)]);
    RunOne(Run(EMPTY, all + working), JobDone(r));
    assert all + [] == all;
  }

  // ---------------------------------------------------------------- the object

  // The rotator's `fetchRequests` with the asynchronous work that refers to it.
  class FetchRequests {
    var fetchRequests: map<string, Query>
    var flights: map<nat, Flight>
    var jobs: multiset<string>
    ghost var pushed: seq<Batch>
    var nextFlight: nat

    ghost function View(): State
      reads this
    {
      State(fetchRequests, flights, jobs, pushed, nextFlight)
    }

    constructor ()
      ensures View() == EMPTY
    {
      fetchRequests, flights, jobs, pushed, nextFlight := map[], map[], multiset{}, [], 0;
    }

    method CacheQuery(reqId: string)
      modifies this
      ensures View() == Step(old(View()), Event.CacheQuery(reqId))
    {
      if reqId !in fetchRequests {
        fetchRequests := fetchRequests[reqId := IDLE];
      }
    }

    // `doEnqueue` up to the start of its fetch. With a name that was never cached the fetch fails
    // before it reads anything, and so does the assignment after it.
    method DoEnqueue(reqId: string) returns (threw: bool)
      modifies this
      ensures View() == Step(old(View()), Enqueue(reqId))
      ensures threw <==> reqId !in old(fetchRequests)
    {
      if reqId !in fetchRequests {
        return true;
      }
      threw := false;
      if fetchRequests[reqId].inc >= 0 {
        return;
      }
      fetchRequests := fetchRequests[reqId := fetchRequests[reqId].(inc := 0)];
      flights := flights[nextFlight := Flight(reqId, Reading)];
      nextFlight := nextFlight + 1;
    }

    // The end of the database read inside `fetch`.
    method FinishRead(flight: nat, table: seq<nat>, limit: nat, closed: bool) returns (page: seq<nat>)
      requires IsReading(View(), flight)
      modifies this
      ensures View() == Step(old(View()), Read(flight, table, limit, closed))
      ensures page == Page(table, Position(old(fetchRequests)[old(flights)[flight].reqId]), limit)
      ensures flights[flight] == Flight(old(flights)[flight].reqId, Loaded(if closed then page else []))
    {
      var reqId := flights[flight].reqId;
      var fetchQuery := fetchRequests[reqId];
      var offset := fetchQuery.offset + fetchQuery.size;
      page := Page(table, offset, limit);
      if |page| > 0 {
        fetchQuery := fetchQuery.(size := |page|);
        fetchQuery := fetchQuery.(offset := offset);
      } else {
        fetchQuery := fetchQuery.(offset := 0);
        fetchQuery := fetchQuery.(size := 0);
      }
      fetchRequests := fetchRequests[reqId := fetchQuery];
      flights := flights[flight := Flight(reqId, Loaded(if closed then page else []))];
    }

    // The synchronous end of `doEnqueue`: count and queue one job per row.
    method PushBatch(flight: nat)
      requires IsLoaded(View(), flight)
      modifies this
      ensures View() == Step(old(View()), Push(flight))
      ensures var Flight(r, Loaded(rows)) := old(flights)[flight];
        jobs[r] == old(jobs)[r] + |rows| && pushed == old(pushed) + [Batch(r, rows)]
    {
      var reqId, rows := flights[flight].reqId, flights[flight].phase.rows;
      ghost var before := View();
      flights := flights - {flight};
      var inc := fetchRequests[reqId].inc;
      var queued := jobs;
      for i := 0 to |rows|
        invariant inc == before.queries[reqId].inc + i
        invariant queued == before.jobs[reqId := before.jobs[reqId] + i]
      {
        inc := inc + 1;
        queued := queued + multiset{reqId};
      }
      jobs := queued;
      pushed := pushed + [Batch(reqId, rows)];
      if rows == [] || inc == 0 {
        inc := -1;
      }
      fetchRequests := fetchRequests[reqId := fetchRequests[reqId].(inc := inc)];
    }

    method FinishJob(reqId: string)
      requires reqId in jobs && reqId in fetchRequests
      modifies this
      ensures View() == Step(old(View()), JobDone(reqId))
    {
      var inc := fetchRequests[reqId].inc - 1;
      if inc <= 0 {
        inc := -1;
      }
      fetchRequests := fetchRequests[reqId := fetchRequests[reqId].(inc := inc)];
      jobs := jobs[reqId := jobs[reqId] - 1];
    }
  }
}
