// Which rows a query's batches hold: every batch is the page its fetch read, so over a fixed table the
// batches sweep the table.
module BatchPages {
  import opened Refill

  // How a fetch of a query ended its read.
  datatype Outcome = Got(table: seq<nat>, limit: nat, page: seq<nat>, closed: bool) | Failed

  // The read of query `r` that an event ends, if any.
  function Ended(s: State, ev: Event, r: string): seq<Outcome> {
    if ev.Read? && IsReading(s, ev.flight) && s.flights[ev.flight].reqId == r then
      [Got(ev.table, ev.limit, Page(ev.table, Position(s.queries[r]), ev.limit), ev.closed)]
    else if ev.ReadFails? && IsReading(s, ev.flight) && s.flights[ev.flight].reqId == r then [Failed]
    else []
  }

  function Outcomes(events: seq<Event>, r: string): seq<Outcome> {
    if events == [] then []
    else
      var init, last := events[..|events| - 1], events[|events| - 1];
      Outcomes(init, r) + Ended(Run(EMPTY, init), last, r)
  }

  // The rows a fetch has to queue: its page, unless the read or the close failed.
  function RowsOf(o: Outcome): seq<nat> {
    if o.Got? && o.closed then o.page else []
  }

  function Batches(os: seq<Outcome>): (r: seq<seq<nat>>)
    ensures |r| == |os|
    ensures forall i :: 0 <= i < |os| ==> r[i] == RowsOf(os[i])
  {
    seq(|os|, i requires 0 <= i < |os| => RowsOf(os[i]))
  }

  // The batches queued for `r` so far.
  function Queued(pushed: seq<Batch>, r: string): seq<seq<nat>> {
    if pushed == [] then []
    else
      var last := pushed[|pushed| - 1];
      Queued(pushed[..|pushed| - 1], r) + if last.reqId == r then [last.rows] else []
  }

  lemma QueuedAppend(pushed: seq<Batch>, b: Batch, r: string)
    ensures Queued(pushed + [b], r) == Queued(pushed, r) + if b.reqId == r then [b.rows] else []
  {
    assert (pushed + [b])[..|pushed|] == pushed;
  }

  ghost predicate HasLoaded(s: State, r: string) {
    exists f :: f in s.flights && s.flights[f].reqId == r && s.flights[f].phase.Loaded?
  }

  // `batches` are the queued ones and, when a fetch of `r` has read but not pushed, its rows.
  ghost predicate Accounted(s: State, r: string, batches: seq<seq<nat>>) {
    && (!HasLoaded(s, r) ==> batches == Queued(s.pushed, r))
    && (forall f :: f in s.flights && s.flights[f].reqId == r && s.flights[f].phase.Loaded? ==>
          batches == Queued(s.pushed, r) + [s.flights[f].phase.rows])
  }

  // ---------------------------------------------------------------- batches are outcomes

  lemma ReadAccounts(s: State, f: nat, rows: seq<nat>, s': State, batches: seq<seq<nat>>)
    requires Inv(s) && IsReading(s, f) && Accounted(s, s.flights[f].reqId, batches)
    requires s'.flights == s.flights[f := Flight(s.flights[f].reqId, Loaded(rows))] && s'.pushed == s.pushed
    ensures Accounted(s', s.flights[f].reqId, batches + [rows])
  {
    assert f in s'.flights && s'.flights[f].phase.Loaded?;
  }

  lemma PushAccounts(s: State, f: nat, batches: seq<seq<nat>>)
    requires Inv(s) && IsLoaded(s, f) && Accounted(s, s.flights[f].reqId, batches)
    ensures Accounted(Step(s, Push(f)), s.flights[f].reqId, batches)
  {
    var Flight(r, Loaded(rows)) := s.flights[f];
    QueuedAppend(s.pushed, Batch(r, rows), r);
  }

  // A step that does not touch the flights of `r` accounts for it as before.
  lemma OthersAccount(s: State, s': State, r: string, batches: seq<seq<nat>>)
    requires Accounted(s, r, batches) && Queued(s'.pushed, r) == Queued(s.pushed, r)
    requires forall f :: f in s'.flights && s'.flights[f].reqId == r && s'.flights[f].phase.Loaded? <==>
      f in s.flights && s.flights[f].reqId == r && s.flights[f].phase.Loaded?
    requires forall f :: f in s.flights && s.flights[f].reqId == r && s.flights[f].phase.Loaded? ==>
      s'.flights[f] == s.flights[f]
    ensures Accounted(s', r, batches)
  {
    if HasLoaded(s, r) {
      var f :| f in s.flights && s.flights[f].reqId == r && s.flights[f].phase.Loaded?;
      assert f in s'.flights && s'.flights[f].reqId == r && s'.flights[f].phase.Loaded?;
    }
  }

  lemma BatchesAppend(os: seq<Outcome>, o: Outcome)
    ensures Batches(os + [o]) == Batches(os) + [RowsOf(o)]
  {
  }

  // An event on a flight of another query.
  lemma OtherReadAccounts(s: State, f: nat, rows: seq<nat>, s': State, r: string, batches: seq<seq<nat>>)
    requires Inv(s) && Accounted(s, r, batches) && f in s.flights && s.flights[f].reqId != r
    requires s'.flights == s.flights[f := Flight(s.flights[f].reqId, Loaded(rows))] && s'.pushed == s.pushed
    ensures Accounted(s', r, batches)
  {
    OthersAccount(s, s', r, batches);
  }

  lemma SameFlightsAccount(s: State, s': State, r: string, batches: seq<seq<nat>>)
    requires Accounted(s, r, batches) && s'.flights == s.flights && s'.pushed == s.pushed
    ensures Accounted(s', r, batches)
  {
    OthersAccount(s, s', r, batches);
  }

  lemma EnqueueAccounts(s: State, q: string, r: string, batches: seq<seq<nat>>)
    requires Inv(s) && Accounted(s, r, batches)
    ensures Accounted(Step(s, Enqueue(q)), r, batches)
  {
    OthersAccount(s, Step(s, Enqueue(q)), r, batches);
  }

  lemma QuietAccounts(s: State, ev: Event, r: string, batches: seq<seq<nat>>)
    requires Inv(s) && Accounted(s, r, batches) && Ended(s, ev, r) == [] && !ev.Push?
    ensures Accounted(Step(s, ev), r, batches)
  {
    match ev
    case CacheQuery(_) => SameFlightsAccount(s, Step(s, ev), r, batches);
    case Enqueue(q) => EnqueueAccounts(s, q, r, batches);
    case Read(f, table, limit, closed) =>
      if IsReading(s, f) {
        var page := Page(table, Position(s.queries[s.flights[f].reqId]), limit);
        OtherReadAccounts(s, f, if closed then page else [], Step(s, ev), r, batches);
      }
    case ReadFails(f) =>
      if IsReading(s, f) {
        OtherReadAccounts(s, f, [], Step(s, ev), r, batches);
      }
    case Push(_) =>
    case JobDone(_) => SameFlightsAccount(s, Step(s, ev), r, batches);
  }

  lemma AnyPushAccounts(s: State, f: nat, r: string, batches: seq<seq<nat>>)
    requires Inv(s) && Accounted(s, r, batches)
    ensures Accounted(Step(s, Push(f)), r, batches)
  {
    if IsLoaded(s, f) {
      var b := Batch(s.flights[f].reqId, s.flights[f].phase.rows);
      if b.reqId == r {
        PushAccounts(s, f, batches);
      } else {
        QueuedAppend(s.pushed, b, r);
        assert Queued(s.pushed, r) + [] == Queued(s.pushed, r);
        OthersAccount(s, Step(s, Push(f)), r, batches);
      }
    }
  }

  lemma StepAccounts(s: State, ev: Event, r: string, os: seq<Outcome>)
    requires Inv(s) && Accounted(s, r, Batches(os))
    ensures Accounted(Step(s, ev), r, Batches(os + Ended(s, ev, r)))
  {
    if Ended(s, ev, r) != [] {
      var o := Ended(s, ev, r)[0];
      BatchesAppend(os, o);
      ReadAccounts(s, ev.flight, RowsOf(o), Step(s, ev), Batches(os));
      assert Ended(s, ev, r) == [o];
    } else {
      assert os + [] == os;
      if ev.Push? {
        AnyPushAccounts(s, ev.flight, r, Batches(os));
      } else {
        QuietAccounts(s, ev, r, Batches(os));
      }
    }
  }

  lemma RunLast(events: seq<Event>)
    requires events != []
    ensures Run(EMPTY, events) == Step(Run(EMPTY, events[..|events| - 1]), events[|events| - 1])
  {
    var init, last := events[..|events| - 1], events[|events| - 1];
    assert events == init + [last];
    RunConcat(EMPTY, init, [last]);
    RunOne(Run(EMPTY, init), last);
  }

  // In every interleaving the batches of a query, with the one its running fetch still holds, are in
  // number and order what its reads brought: the page after a good close, nothing after a failure.
  lemma {:induction false} BatchesAreOutcomes(events: seq<Event>, r: string)
    ensures Accounted(Run(EMPTY, events), r, Batches(Outcomes(events, r)))
    decreases |events|
  {
    if events != [] {
      var init := events[..|events| - 1];
      BatchesAreOutcomes(init, r);
      RunKeepsInv(EMPTY, init);
      StepAccounts(Run(EMPTY, init), events[|events| - 1], r, Outcomes(init, r));
      RunLast(events);
    }
  }

  // ---------------------------------------------------------------- outcomes are pages

  function Limits(os: seq<Outcome>): seq<nat> {
    if os == [] then []
    else
      var last := os[|os| - 1];
      Limits(os[..|os| - 1]) + if last.Got? then [last.limit] else []
  }

  function PagesRead(os: seq<Outcome>): seq<seq<nat>> {
    if os == [] then []
    else
      var last := os[|os| - 1];
      PagesRead(os[..|os| - 1]) + if last.Got? then [last.page] else []
  }

  ghost predicate Over(os: seq<Outcome>, table: seq<nat>) {
    forall o :: o in os && o.Got? ==> o.table == table
  }

  lemma {:induction false} FetchesAppend(q: Query, table: seq<nat>, limits: seq<nat>, limit: nat)
    ensures var (pages, q1) := Fetches(q, table, limits);
      var (page, q2) := FetchPage(q1, table, limit);
      Fetches(q, table, limits + [limit]) == (pages + [page], q2)
    decreases |limits|
  {
    if limits == [] {
      var (page, q2) := FetchPage(q, table, limit);
      assert limits + [limit] == [limit] && [limit][1..] == [];
      assert Fetches(q2, table, []) == ([], q2);
      assert [page] + [] == [] + [page];
    } else {
      var (page, q1) := FetchPage(q, table, limits[0]);
      FetchesAppend(q1, table, limits[1..], limit);
      assert (limits + [limit])[1..] == limits[1..] + [limit];
      var (pages, q2) := Fetches(q1, table, limits[1..]);
      var last := FetchPage(q2, table, limit).0;
      assert [page] + (pages + [last]) == [page] + pages + [last];
    }
  }

  // Paging does not look at the job counter.
  lemma PagingIgnoresInc(q: Query, table: seq<nat>, limit: nat)
    ensures var (page, q1) := FetchPage(q, table, limit);
      FetchPage(q.(inc := -1), table, limit) == (page, q1.(inc := -1))
  {
  }

  lemma OverParts(a: seq<Outcome>, b: seq<Outcome>, table: seq<nat>)
    requires Over(a + b, table)
    ensures Over(a, table) && Over(b, table)
  {
    assert forall o :: o in a || o in b ==> o in a + b;
  }

  // The reads of `r` so far are the pages of one sweep, and its record stands where the sweep stands.
  ghost predicate Swept(s: State, r: string, os: seq<Outcome>, table: seq<nat>) {
    && (r !in s.queries ==> os == [])
    && (r in s.queries ==> Fetches(IDLE, table, Limits(os)) == (PagesRead(os), s.queries[r].(inc := -1)))
  }

  lemma GotAppend(os: seq<Outcome>, o: Outcome)
    ensures Limits(os + [o]) == Limits(os) + if o.Got? then [o.limit] else []
    ensures PagesRead(os + [o]) == PagesRead(os) + if o.Got? then [o.page] else []
  {
    assert (os + [o])[..|os|] == os;
  }

  lemma ReadSweeps(s: State, f: nat, table: seq<nat>, limit: nat, closed: bool, os: seq<Outcome>)
    requires IsReading(s, f) && Swept(s, s.flights[f].reqId, os, table)
    ensures var r := s.flights[f].reqId;
      var o := Got(table, limit, Page(table, Position(s.queries[r]), limit), closed);
      Swept(ReadStep(s, f, table, limit, closed), r, os + [o], table)
  {
    var r := s.flights[f].reqId;
    var o := Got(table, limit, Page(table, Position(s.queries[r]), limit), closed);
    var limits, pages := Limits(os), PagesRead(os);
    FetchesAppend(IDLE, table, limits, limit);
    PagingIgnoresInc(s.queries[r], table, limit);
    GotAppend(os, o);
    assert Fetches(IDLE, table, limits + [limit]).0 == pages + [o.page];
  }

  // A step that ends no read of `r` leaves its position alone.
  lemma QuietSweeps(s: State, ev: Event, r: string, os: seq<Outcome>, table: seq<nat>)
    requires Swept(s, r, os, table) && Ended(s, ev, r) == []
    ensures Swept(Step(s, ev), r, os, table)
  {
    QuietKeepsPosition(s, ev, r);
    if r !in s.queries {
      assert Fetches(IDLE, table, Limits(os)) == (PagesRead(os), IDLE);
    }
  }

  lemma QuietKeepsPosition(s: State, ev: Event, r: string)
    requires Ended(s, ev, r) == []
    ensures r in s.queries ==>
      r in Step(s, ev).queries && Step(s, ev).queries[r].(inc := -1) == s.queries[r].(inc := -1)
    ensures r !in s.queries && r in Step(s, ev).queries ==> Step(s, ev).queries[r] == IDLE
  {
  }

  lemma FailedSweeps(s: State, f: nat, r: string, os: seq<Outcome>, table: seq<nat>)
    requires Swept(s, r, os, table) && IsReading(s, f) && s.flights[f].reqId == r
    ensures Swept(Step(s, ReadFails(f)), r, os + [Failed], table)
  {
    GotAppend(os, Failed);
    assert Limits(os) + [] == Limits(os) && PagesRead(os) + [] == PagesRead(os);
  }

  lemma StepSweeps(s: State, ev: Event, r: string, os: seq<Outcome>, table: seq<nat>)
    requires Swept(s, r, os, table) && Over(Ended(s, ev, r), table)
    ensures Swept(Step(s, ev), r, os + Ended(s, ev, r), table)
  {
    if Ended(s, ev, r) == [] {
      assert os + [] == os;
      QuietSweeps(s, ev, r, os, table);
    } else if ev.Read? {
      assert Ended(s, ev, r)[0] in Ended(s, ev, r);
      ReadSweeps(s, ev.flight, table, ev.limit, ev.closed, os);
    } else {
      FailedSweeps(s, ev.flight, r, os, table);
    }
  }

  // Over a fixed table the pages a query's fetches read are, in any interleaving, those of one sweep
  // that starts at row 0 when the query is cached.
  lemma {:induction false} OutcomesAreSweep(events: seq<Event>, r: string, table: seq<nat>)
    requires Over(Outcomes(events, r), table)
    ensures Swept(Run(EMPTY, events), r, Outcomes(events, r), table)
    decreases |events|
  {
    if events != [] {
      var init := events[..|events| - 1];
      var last := events[|events| - 1];
      OverParts(Outcomes(init, r), Ended(Run(EMPTY, init), last, r), table);
      OutcomesAreSweep(init, r, table);
      StepSweeps(Run(EMPTY, init), last, r, Outcomes(init, r), table);
      RunLast(events);
    }
  }

  // ---------------------------------------------------------------- the two together

  lemma {:induction false} GoodOutcomes(os: seq<Outcome>)
    requires forall o :: o in os ==> o.Got? && o.closed && o.limit > 0
    ensures Batches(os) == PagesRead(os)
    ensures forall i :: 0 <= i < |Limits(os)| ==> Limits(os)[i] > 0
  {
    if os != [] {
      var n := |os| - 1;
      assert os[n] in os;
      GoodOutcomes(os[..n]);
      assert Batches(os) == Batches(os[..n]) + [os[n].page];
    }
  }

  // What a sweep has laid end to end: whole tables, one per empty page, and the rows before its position.
  ghost predicate LaidOut(table: seq<nat>, pages: seq<seq<nat>>, position: nat) {
    position <= |table| && Flatten(pages) == Times(table, EmptyPages(pages)) + table[..position]
  }

  lemma SweepFromStart(table: seq<nat>, limits: seq<nat>)
    requires forall i :: 0 <= i < |limits| ==> limits[i] > 0
    ensures var (pages, q) := Fetches(IDLE, table, limits);
      LaidOut(table, pages, Position(q))
  {
    PagingSweep(IDLE, table, limits);
    NothingBefore(table, Flatten(Fetches(IDLE, table, limits).0));
  }

  lemma NothingBefore(table: seq<nat>, rest: seq<nat>)
    ensures table[..0] + rest == rest
  {
  }

  // Nothing is lost and nothing comes twice: while reads and closes succeed, the batches of a query over
  // a fixed table, laid end to end in any interleaving, are the whole table once per empty batch and
  // the rows before the current position.
  lemma BatchesSweepTable(events: seq<Event>, r: string, table: seq<nat>)
    requires r in Run(EMPTY, events).queries && Over(Outcomes(events, r), table)
    requires forall o :: o in Outcomes(events, r) ==> o.Got? && o.closed && o.limit > 0
    ensures Accounted(Run(EMPTY, events), r, Batches(Outcomes(events, r)))
    ensures LaidOut(table, Batches(Outcomes(events, r)), Position(Run(EMPTY, events).queries[r]))
  {
    BatchesAreOutcomes(events, r);
    OutcomesAreSweep(events, r, table);
    GoodSweep(Run(EMPTY, events), r, Outcomes(events, r), table);
  }

  lemma GoodSweep(s: State, r: string, os: seq<Outcome>, table: seq<nat>)
    requires r in s.queries && Swept(s, r, os, table)
    requires forall o :: o in os ==> o.Got? && o.closed && o.limit > 0
    ensures LaidOut(table, Batches(os), Position(s.queries[r]))
  {
    GoodOutcomes(os);
    SweepFromStart(table, Limits(os));
  }

  // ---------------------------------------------------------------- one batch

  lemma LoadedStep(s: State, f: nat, ev: Event)
    requires Inv(s) && f in s.flights && s.flights[f].phase.Loaded? && ev != Push(f)
    ensures f in Step(s, ev).flights && Step(s, ev).flights[f] == s.flights[f]
  {
  }

  lemma {:induction false} LoadedStays(s: State, f: nat, es: seq<Event>)
    requires Inv(s) && f in s.flights && s.flights[f].phase.Loaded? && Push(f) !in es
    ensures f in Run(s, es).flights && Run(s, es).flights[f] == s.flights[f]
    decreases |es|
  {
    if es != [] {
      LoadedStep(s, f, es[0]);
      StepKeepsInv(s, es[0]);
      LoadedStays(Step(s, es[0]), f, es[1..]);
    }
  }

  // What a loaded fetch pushes, whatever happens before it does: its rows, one new job for each.
  lemma PushLaw(events: seq<Event>, f: nat, waiting: seq<Event>)
    requires IsLoaded(Run(EMPTY, events), f) && Push(f) !in waiting
    ensures var Flight(r, Loaded(rows)) := Run(EMPTY, events).flights[f];
      var s := Run(EMPTY, events + waiting);
      var s' := Step(s, Push(f));
      && s.jobs[r] == 0 && s'.jobs[r] == |rows|
      && s'.pushed == s.pushed + [Batch(r, rows)]
  {
    RunKeepsInv(EMPTY, events);
    LoadedStays(Run(EMPTY, events), f, waiting);
    RunConcat(EMPTY, events, waiting);
    RunKeepsInv(EMPTY, events + waiting);
    var s := Run(EMPTY, events + waiting);
    var r := s.flights[f].reqId;
    assert Flying(s, r) && QueryInv(s, r);
  }

  // A fetch that reads, closes well and pushes queues one job for every row of the table from its
  // query's position on, up to the limit, in the table's order; one whose close fails queues none.
  lemma ReadLaw(events: seq<Event>, f: nat, table: seq<nat>, limit: nat, closed: bool, waiting: seq<Event>)
    requires IsReading(Run(EMPTY, events), f) && Push(f) !in waiting
    ensures var r := Run(EMPTY, events).flights[f].reqId;
      var q := Run(EMPTY, events).queries[r];
      var from := q.offset + q.size;
      var s := Run(EMPTY, events + [Read(f, table, limit, closed)] + waiting);
      var s' := Step(s, Push(f));
      && s.jobs[r] == 0
      && |s'.pushed| == |s.pushed| + 1 && s'.pushed[..|s.pushed|] == s.pushed
      && s'.pushed[|s.pushed|].reqId == r
      && var rows := s'.pushed[|s.pushed|].rows;
      && s'.jobs[r] == |rows|
      && |rows| == (if !closed || from >= |table| then 0 else if from + limit <= |table| then limit else |table| - from)
      && forall i :: 0 <= i < |rows| ==> rows[i] == table[from + i]
  {
    var s0, read := Run(EMPTY, events), Read(f, table, limit, closed);
    RunConcat(EMPTY, events, [read]);
    RunOne(s0, read);
    PushLaw(events + [read], f, waiting);
  }

  // A fetch whose read fails queues nothing, and its query keeps its position.
  lemma FailedReadLaw(events: seq<Event>, f: nat, waiting: seq<Event>)
    requires IsReading(Run(EMPTY, events), f) && Push(f) !in waiting
    ensures var r := Run(EMPTY, events).flights[f].reqId;
      var s := Run(EMPTY, events + [ReadFails(f)] + waiting);
      && Step(s, Push(f)).jobs[r] == 0
      && Step(s, Push(f)).pushed == s.pushed + [Batch(r, [])]
      && Run(EMPTY, events + [ReadFails(f)]).queries == Run(EMPTY, events).queries
  {
    var s0 := Run(EMPTY, events);
    RunConcat(EMPTY, events, [ReadFails(f)]);
    RunOne(s0, ReadFails(f));
    PushLaw(events + [ReadFails(f)], f, waiting);
  }
}
