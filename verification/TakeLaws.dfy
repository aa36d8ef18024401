// What a take, a removal and the sort order promise, in the terms of the entries' own fields.
module TakeLaws {
  import opened Options
  import opened Protocols
  import opened Rotation

  // A hit is a listed entry that is out of cool-down, rested for two seconds and meets the wishes of
  // the selector; a take misses if and only if no listed entry is all of that.
  lemma TakeLaw(s: State, now: int, sel: Selector)
    ensures Choice(s, now, sel).Some? ==> exists e ::
      && e in s.list && e.id == Choice(s, now, sel).value
      && e.odd == 0 && now - e.updatedAt >= 2000
      && (sel.level == 0 || e.level <= sel.level)
      && (sel.speedLimit == 0 || e.duration <= sel.speedLimit)
      && (sel.targetSSL <==> e.dest == Https)
    ensures Choice(s, now, sel).None? <==> forall e :: e in s.list ==>
      || e.odd != 0 || now - e.updatedAt < 2000
      || (sel.level != 0 && e.level > sel.level)
      || (sel.speedLimit != 0 && e.duration > sel.speedLimit)
      || (sel.targetSSL <==> e.dest == Http)
  {
    var i := FirstEligible(s.list, now, sel);
    if i < |s.list| {
      assert s.list[i] in s.list;
    }
  }

  // `wider` asks for the same kind of destination and for nothing more than `sel`.
  predicate Wider(wider: Selector, sel: Selector) {
    && wider.targetSSL == sel.targetSSL
    && (wider.level == 0 || (sel.level != 0 && sel.level <= wider.level))
    && (wider.speedLimit == 0 || (sel.speedLimit != 0 && sel.speedLimit <= wider.speedLimit))
  }

  // Widening a wish never turns a hit into a miss.
  lemma WiderWishHits(s: State, now: int, sel: Selector, wider: Selector)
    requires Wider(wider, sel) && Choice(s, now, sel).Some?
    ensures Choice(s, now, wider).Some?
  {
    TakeLaw(s, now, sel);
    TakeLaw(s, now, wider);
  }

  // Entries that wait longer stay takeable: a hit stays a hit later.
  lemma LaterTakeHits(s: State, now: int, later: int, sel: Selector)
    requires now <= later && Choice(s, now, sel).Some?
    ensures Choice(s, later, sel).Some?
  {
    TakeLaw(s, now, sel);
    TakeLaw(s, later, sel);
  }

  // ---------------------------------------------------------------- order

  // The list's order by its fields: idle entries first, in the order of the counters, then most
  // successes first, then the least average duration.
  ghost predicate InOrder(list: seq<Entry>) {
    forall i, j :: 0 <= i < j < |list| ==>
      && list[i].odd <= list[j].odd
      && (list[i].odd == list[j].odd ==> list[i].success >= list[j].success)
      && (list[i].odd == list[j].odd && list[i].success == list[j].success ==>
            list[i].durationAvg <= list[j].durationAvg)
  }

  lemma SortOrders(list: seq<Entry>)
    ensures InOrder(Sort(list))
  {
    SortSorts(list);
  }

  // The end of a queue run leaves exactly the entries that were not used over 99 times with a success
  // ratio of at most 15 percent, as they were, in order.
  lemma QueueEndLaw(s: State, reuse: nat, e: Entry)
    ensures e in Step(s, QueueEmpty, reuse).list <==>
      e in s.list && !(e.used > 99 && e.success * 100 <= 15 * e.used)
    ensures InOrder(Step(s, QueueEmpty, reuse).list)
  {
    CleanupExact(s.list, e);
    SortOrders(Cleanup(s.list));
  }

  // The removal timer takes out exactly the entries untouched for longer than the offset, in seconds.
  lemma RemovalLaw(s: State, now: int, timeOffset: int, reuse: nat, e: Entry)
    ensures e in Step(s, Expired(now, timeOffset), reuse).list <==>
      e in s.list && now - e.updatedAt <= timeOffset * 1000
    ensures multiset(Step(s, Expired(now, timeOffset), reuse).list) <= multiset(s.list)
  {
    KeepSub(s.list, Fresh(now, timeOffset));
  }
}
