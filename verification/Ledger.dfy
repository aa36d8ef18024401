// The rating ledger: what a log call does to the rating record of a proxy and when it blocks the
// address, next to the filter a record must pass to be fetched.
module Ledger {
  import opened Protocols

  datatype Record = Record(
    inc: nat, used: nat, successes: nat, errors: nat, duration: nat, durationAverage: nat)

  const BLANK := Record(0, 0, 0, 0, 0, 0)

  // One finished use of a proxy, duration in milliseconds.
  datatype Use = Use(success: bool, duration: nat)

  function CeilDiv(a: nat, b: nat): (c: nat)
    requires b > 0
    ensures (c - 1) * b < a <= c * b
  {
    (a + b - 1) / b
  }

  function LogStep(r: Record, u: Use): Record {
    var inc := r.inc + 1;
    var r1 := r.(inc := inc, used := if inc % 10 == 0 then 0 else r.used + 1);
    if u.success then
      var duration, successes := r1.duration + u.duration, r1.successes + 1;
      r1.(duration := duration, successes := successes,
          durationAverage := if duration > 0 then CeilDiv(duration, successes) else r1.durationAverage)
    else
      r1.(errors := r1.errors + 1)
  }

  function LogAll(r: Record, history: seq<Use>): Record
    decreases |history|
  {
    if history == [] then r else LogAll(LogStep(r, history[0]), history[1..])
  }

  class IpRotate {
    var inc: nat
    var used: nat
    var successes: nat
    var errors: nat
    var duration: nat
    var durationAverage: nat

    function View(): Record
      reads this
    {
      Record(inc, used, successes, errors, duration, durationAverage)
    }

    constructor ()
      ensures View() == BLANK
    {
      inc, used, successes, errors, duration, durationAverage := 0, 0, 0, 0, 0, 0;
    }

    // The body of `_doLog` on the record it found or made.
    method DoLog(u: Use)
      modifies this
      ensures View() == LogStep(old(View()), u)
    {
      inc := inc + 1;
      if inc % 10 == 0 {
        used := 0;
      } else {
        used := used + 1;
      }
      if u.success {
        duration := duration + u.duration;
        successes := successes + 1;
        if duration > 0 && successes > 0 {
          durationAverage := CeilDiv(duration, successes);
        }
      } else {
        errors := errors + 1;
      }
    }
  }

  // ---------------------------------------------------------------- what the record means

  function SuccessfulDurations(history: seq<Use>): seq<nat> {
    if history == [] then []
    else
      var u := history[|history| - 1];
      SuccessfulDurations(history[..|history| - 1]) + if u.success then [u.duration] else []
  }

  function Sum(xs: seq<nat>): nat {
    if xs == [] then 0 else Sum(xs[..|xs| - 1]) + xs[|xs| - 1]
  }

  lemma {:induction false} LogAllLast(r: Record, history: seq<Use>)
    requires history != []
    ensures LogAll(r, history) ==
      LogStep(LogAll(r, history[..|history| - 1]), history[|history| - 1])
    decreases |history|
  {
    if |history| > 1 {
      LogAllLast(LogStep(r, history[0]), history[1..]);
      assert history[..|history| - 1][1..] == history[1..][..|history| - 2];
    }
  }

  ghost predicate Summarises(r: Record, n: nat, ds: seq<nat>) {
    && r.inc == n
    && r.successes == |ds|
    && r.inc == r.successes + r.errors
    && r.used == r.inc % 10
    && r.duration == Sum(ds)
    && r.durationAverage == if ds == [] then 0 else CeilDiv(Sum(ds), |ds|)
  }

  lemma LogKeepsSummary(r: Record, n: nat, ds: seq<nat>, u: Use)
    requires Summarises(r, n, ds)
    ensures Summarises(LogStep(r, u), n + 1, ds + if u.success then [u.duration] else [])
  {
    NextRemainder(r.inc);
    if u.success {
      SumLast(ds, u.duration);
      if r.duration + u.duration == 0 {
        CeilOfZero(|ds| + 1);
        if ds != [] {
          CeilOfZero(|ds|);
        }
      }
    } else {
      assert ds + [] == ds;
    }
  }

  lemma NextRemainder(n: nat)
    ensures (n + 1) % 10 == if n % 10 == 9 then 0 else n % 10 + 1
  {
  }

  lemma SumLast(xs: seq<nat>, x: nat)
    ensures Sum(xs + [x]) == Sum(xs) + x
  {
    assert (xs + [x])[..|xs|] == xs;
  }

  // Ledger refinement: the record is a summary of the history of uses.
  lemma {:induction false} LedgerSummarises(history: seq<Use>)
    ensures Summarises(LogAll(BLANK, history), |history|, SuccessfulDurations(history))
  {
    if history != [] {
      var n := |history| - 1;
      LedgerSummarises(history[..n]);
      LogAllLast(BLANK, history);
      LogKeepsSummary(LogAll(BLANK, history[..n]), n, SuccessfulDurations(history[..n]), history[n]);
    }
  }

  lemma CeilOfZero(n: nat)
    requires n > 0
    ensures CeilDiv(0, n) == 0
  {
    assert (n - 1) / n == 0;
  }

  lemma {:induction false} SumBounds(xs: seq<nat>, lo: nat, hi: nat)
    requires forall i :: 0 <= i < |xs| ==> lo <= xs[i] <= hi
    ensures lo * |xs| <= Sum(xs) <= hi * |xs|
  {
    if xs != [] {
      var n := |xs| - 1;
      SumBounds(xs[..n], lo, hi);
      NextMultiple(n, lo);
      NextMultiple(n, hi);
      assert lo <= xs[n] <= hi;
    }
  }

  // Once there was a success, the average lies between the shortest and the longest successful use.
  lemma AverageBetween(history: seq<Use>, lo: nat, hi: nat)
    requires SuccessfulDurations(history) != []
    requires var ds := SuccessfulDurations(history); forall i :: 0 <= i < |ds| ==> lo <= ds[i] <= hi
    ensures lo <= LogAll(BLANK, history).durationAverage <= hi
  {
    LedgerSummarises(history);
    var ds := SuccessfulDurations(history);
    SumBounds(ds, lo, hi);
    CeilBetween(Sum(ds), |ds|, lo, hi);
  }

  lemma CeilBetween(sum: nat, n: nat, lo: nat, hi: nat)
    requires n > 0 && lo * n <= sum <= hi * n
    ensures lo <= CeilDiv(sum, n) <= hi
  {
    var c := CeilDiv(sum, n);
    NextMultiple(c, n);
    NextMultiple(hi, n);
    Cancel(c, hi + 1, n);
    Cancel(lo, c + 1, n);
  }

  lemma MulOrder(a: int, b: int, n: nat)
    requires a <= b
    ensures a * n <= b * n
  {
  }

  lemma NextMultiple(a: int, n: int)
    ensures (a + 1) * n == a * n + n && (a - 1) * n == a * n - n
  {
  }

  lemma Cancel(a: int, b: int, n: nat)
    requires a * n < b * n
    ensures a < b
  {
    if a >= b {
      MulOrder(b, a, n);
    }
  }

  // ---------------------------------------------------------------- blocking and fetching

  predicate Blocks(r: Record) {
    r.inc > 100 && r.successes * 100 < 15 * r.inc
  }

  predicate Deletes(r: Record) {
    Blocks(r) && r.successes == 0
  }

  // The fetch filter on a rating record; the database divides integers.
  predicate PassesFilter(r: Record) {
    || (r.inc >= 100 && r.successes * 100 / r.inc > 33)
    || (10 < r.inc < 100 && r.successes * 100 / r.inc > 15)
    || r.inc <= 10
  }

  // The same filter where the database divides exactly.
  predicate PassesExactFilter(r: Record) {
    || (r.inc >= 100 && r.successes * 100 > 33 * r.inc)
    || (10 < r.inc < 100 && r.successes * 100 > 15 * r.inc)
    || r.inc <= 10
  }

  // The filter in whole numbers, where the percentage is rounded down: at least 34 percent from 100 uses
  // on, at least 16 percent from 11 uses on, and no demand before.
  lemma FilterLaw(r: Record)
    ensures PassesFilter(r) <==>
      || r.inc <= 10
      || (r.inc < 100 && r.successes * 100 >= 16 * r.inc)
      || (r.inc >= 100 && r.successes * 100 >= 34 * r.inc)
  {
    if r.inc > 10 {
      QuotientAtLeast(r.successes * 100, r.inc, if r.inc >= 100 then 34 else 16);
    }
  }

  lemma QuotientAtLeast(a: nat, b: nat, limit: nat)
    requires b > 0
    ensures a / b >= limit <==> a >= limit * b
  {
    assert a == (a / b) * b + a % b;
    if a / b >= limit {
      MulOrder(limit, a / b, b);
    } else {
      MulOrder(a / b + 1, limit, b);
      assert (a / b + 1) * b == (a / b) * b + b;
    }
  }

  lemma QuotientAbove(a: nat, b: nat, limit: nat)
    requires b > 0 && a / b > limit
    ensures a > limit * b
  {
    assert a == (a / b) * b + a % b;
    MulOrder(limit + 1, a / b, b);
    assert (limit + 1) * b == limit * b + b;
  }

  lemma IntegerFilterIsStricter(r: Record)
    requires PassesFilter(r)
    ensures PassesExactFilter(r)
  {
    if r.inc >= 100 {
      QuotientAbove(r.successes * 100, r.inc, 33);
    } else if r.inc > 10 {
      QuotientAbove(r.successes * 100, r.inc, 15);
    }
  }

  lemma {:induction false} LogAllGrows(r: Record, uses: seq<Use>)
    ensures LogAll(r, uses).inc == r.inc + |uses|
    ensures LogAll(r, uses).successes >= r.successes
    decreases |uses|
  {
    if uses != [] {
      LogAllGrows(LogStep(r, uses[0]), uses[1..]);
    }
  }

  // Hysteresis: a record that passes the filter is not blocked by its next log, and once it has 100
  // logs it takes more than 6/5 as many further logs as it has before one of them can block it.
  lemma Hysteresis(r: Record, u: Use, uses: seq<Use>)
    requires PassesExactFilter(r)
    ensures !Blocks(LogStep(r, u))
    ensures r.inc >= 100 && Blocks(LogAll(r, uses)) ==> 5 * |uses| > 6 * r.inc
  {
    LogAllGrows(r, uses);
  }

  // ---------------------------------------------------------------- an address over its life

  datatype Address = Address(records: map<Protocol, Record>, blocked: bool, toDelete: bool)

  const NEW_ADDRESS := Address(map[], false, false)

  function RecordOf(a: Address, p: Protocol): Record {
    if p in a.records then a.records[p] else BLANK
  }

  // `doLog` for a use of the address over source protocol `p`.
  function AddressLog(a: Address, p: Protocol, u: Use): Address {
    var r := LogStep(RecordOf(a, p), u);
    Address(a.records[p := r], a.blocked || Blocks(r), a.toDelete || Deletes(r))
  }

  function AddressLogs(a: Address, logs: seq<(Protocol, Use)>): Address {
    if logs == [] then a
    else
      var n := |logs| - 1;
      AddressLog(AddressLogs(a, logs[..n]), logs[n].0, logs[n].1)
  }

  predicate Fetchable(a: Address, p: Protocol) {
    !a.toDelete && !a.blocked && (p in a.records ==> PassesFilter(a.records[p]))
  }

  function UsesOver(logs: seq<(Protocol, Use)>, p: Protocol): seq<Use> {
    if logs == [] then []
    else
      var n := |logs| - 1;
      UsesOver(logs[..n], p) + if logs[n].0 == p then [logs[n].1] else []
  }

  lemma {:induction false} RecordsAreHistories(logs: seq<(Protocol, Use)>, p: Protocol)
    ensures RecordOf(AddressLogs(NEW_ADDRESS, logs), p) == LogAll(BLANK, UsesOver(logs, p))
  {
    if logs != [] {
      var n := |logs| - 1;
      RecordsAreHistories(logs[..n], p);
      if logs[n].0 == p {
        var uses := UsesOver(logs, p);
        LogAllLast(BLANK, uses);
        assert uses == UsesOver(logs[..n], p) + [logs[n].1];
        assert uses[..|uses| - 1] == UsesOver(logs[..n], p);
      } else {
        assert UsesOver(logs, p) == UsesOver(logs[..n], p);
      }
    }
  }

  // An address is blocked exactly when, after one of its logs, the record of that log's protocol had
  // over 100 uses with less than 15 percent successes; it is marked for deletion exactly when such a
  // record had no success at all.
  lemma {:induction false} BlockedWhen(logs: seq<(Protocol, Use)>)
    ensures AddressLogs(NEW_ADDRESS, logs).blocked <==> exists k :: 0 <= k < |logs| && BlockedAt(logs, k)
    ensures AddressLogs(NEW_ADDRESS, logs).toDelete <==> exists k :: 0 <= k < |logs| && DeletedAt(logs, k)
  {
    if logs != [] {
      var n := |logs| - 1;
      BlockedWhen(logs[..n]);
      LastLogBlocks(logs);
      forall k | 0 <= k < n ensures BlockedAt(logs[..n], k) == BlockedAt(logs, k) {
        OnlyPrefixCounts(logs, n, k);
      }
      forall k | 0 <= k < n ensures DeletedAt(logs[..n], k) == DeletedAt(logs, k) {
        OnlyPrefixCounts(logs, n, k);
      }
    }
  }

  lemma OnlyPrefixCounts(logs: seq<(Protocol, Use)>, n: nat, k: nat)
    requires k < n <= |logs|
    ensures BlockedAt(logs[..n], k) == BlockedAt(logs, k)
    ensures DeletedAt(logs[..n], k) == DeletedAt(logs, k)
  {
    assert logs[..n][..k + 1] == logs[..k + 1];
  }

  lemma LastLogBlocks(logs: seq<(Protocol, Use)>)
    requires logs != []
    ensures var n := |logs| - 1;
      var before, after := AddressLogs(NEW_ADDRESS, logs[..n]), AddressLogs(NEW_ADDRESS, logs);
      && (after.blocked <==> before.blocked || BlockedAt(logs, n))
      && (after.toDelete <==> before.toDelete || DeletedAt(logs, n))
  {
    var n := |logs| - 1;
    RecordsAreHistories(logs, logs[n].0);
    LedgerSummarises(UsesOver(logs, logs[n].0));
    assert logs[..n + 1] == logs;
  }

  predicate BlockedAt(logs: seq<(Protocol, Use)>, k: nat)
    requires k < |logs|
  {
    var uses := UsesOver(logs[..k + 1], logs[k].0);
    |uses| > 100 && |SuccessfulDurations(uses)| * 100 < 15 * |uses|
  }

  predicate DeletedAt(logs: seq<(Protocol, Use)>, k: nat)
    requires k < |logs|
  {
    var uses := UsesOver(logs[..k + 1], logs[k].0);
    |uses| > 100 && SuccessfulDurations(uses) == []
  }

  // What an address may be fetched for, from its life: neither blocked nor marked by any log, and the
  // protocol's uses few or often enough successful.
  lemma FetchLaw(logs: seq<(Protocol, Use)>, p: Protocol)
    ensures var uses, a := UsesOver(logs, p), AddressLogs(NEW_ADDRESS, logs);
      var good := |SuccessfulDurations(uses)|;
      Fetchable(a, p) <==>
        && !a.blocked && !a.toDelete
        && (|| |uses| <= 10
            || (|uses| < 100 && good * 100 >= 16 * |uses|)
            || (|uses| >= 100 && good * 100 >= 34 * |uses|))
  {
    RecordsAreHistories(logs, p);
    LedgerSummarises(UsesOver(logs, p));
    FilterLaw(RecordOf(AddressLogs(NEW_ADDRESS, logs), p));
  }

  // A blocked address is never fetched again, whatever is logged afterwards.
  lemma BlockedForGood(a: Address, logs: seq<(Protocol, Use)>, p: Protocol)
    requires a.blocked
    ensures !Fetchable(AddressLogs(a, logs), p)
  {
    StaysBlocked(a, logs);
  }

  lemma {:induction false} StaysBlocked(a: Address, logs: seq<(Protocol, Use)>)
    requires a.blocked
    ensures AddressLogs(a, logs).blocked
  {
    if logs != [] {
      StaysBlocked(a, logs[..|logs| - 1]);
    }
  }
}
