// Recording validation results: version-stamped states, streak counters and protocol masks.
module ProxyValidator {
  import opened Options
  import opened Protocols
  import opened Entities

  type Key = (string, int)

  datatype JudgeResult = JudgeResult(hasError: bool, level: int, from: Protocol, to: Protocol)

  datatype AddrState = AddrState(
    addr: Key, validationId: nat, level: int, protocolSrc: Protocol, protocolDest: Protocol, enabled: bool)

  predicate Enabled(res: JudgeResult) {
    !res.hasError && res.level > -1
  }

  function StateOf(addr: Key, validationId: nat, res: JudgeResult): AddrState {
    AddrState(addr, validationId, res.level, res.from, res.to, Enabled(res))
  }

  function StatesOf(addr: Key, validationId: nat, results: seq<JudgeResult>): seq<AddrState> {
    if results == [] then []
    else
      var n := |results| - 1;
      StatesOf(addr, validationId, results[..n]) + [StateOf(addr, validationId, results[n])]
  }

  predicate AnyEnabled(results: seq<JudgeResult>) {
    exists i :: 0 <= i < |results| && Enabled(results[i])
  }

  function MaskSrc(mask: ProtocolMask, results: seq<JudgeResult>): ProtocolMask {
    if results == [] then mask
    else
      var n := |results| - 1;
      var m := MaskSrc(mask, results[..n]);
      if Enabled(results[n]) then WithBit(m, results[n].from) else m
  }

  function MaskDest(mask: ProtocolMask, results: seq<JudgeResult>): ProtocolMask {
    if results == [] then mask
    else
      var n := |results| - 1;
      var m := MaskDest(mask, results[..n]);
      if Enabled(results[n]) then WithBit(m, results[n].to) else m
  }

  function Since(previous: Option<int>, now: int): Option<int> {
    if previous.None? then Some(now) else previous
  }

  // The streak part of a store with results.
  function Streak(row: Row, good: bool, now: int): Row {
    if good then
      row.(countSuccess := row.countSuccess + 1, countErrors := 0,
           errorsSinceAt := None, successSinceAt := Since(row.successSinceAt, now))
    else
      row.(countSuccess := 0, countErrors := row.countErrors + 1,
           successSinceAt := None, errorsSinceAt := Since(row.errorsSinceAt, now))
  }

  datatype Table = Table(rows: map<Key, Row>, states: seq<AddrState>)

  const EMPTY := Table(map[], [])

  // One call of `store`; without results only the version and the check time move.
  datatype Store = Store(addr: Key, now: int, results: Option<seq<JudgeResult>>)

  function RowOf(t: Table, addr: Key): Row {
    if addr in t.rows then t.rows[addr] else NEW_ROW
  }

  function StoredRow(row: Row, s: Store): Row {
    var row1 := row.(validationId := row.validationId + 1, lastCheckedAt := Some(s.now));
    if s.results.None? then row1
    else
      Streak(row1, AnyEnabled(s.results.value), s.now).(
        protocolsSrc := MaskSrc(row.protocolsSrc, s.results.value),
        protocolsDest := MaskDest(row.protocolsDest, s.results.value))
  }

  function NewStates(validationId: nat, s: Store): seq<AddrState> {
    if s.results.None? then [] else StatesOf(s.addr, validationId, s.results.value)
  }

  function Step(t: Table, s: Store): Table {
    var row := StoredRow(RowOf(t, s.addr), s);
    Table(t.rows[s.addr := row], t.states + NewStates(row.validationId, s))
  }

  function Run(history: seq<Store>): Table {
    if history == [] then EMPTY else Step(Run(history[..|history| - 1]), history[|history| - 1])
  }

  class ProxyValidator {
    var addrs: map<Key, Row>
    var states: seq<AddrState>

    function View(): Table
      reads this
    {
      Table(addrs, states)
    }

    constructor ()
      ensures View() == EMPTY
    {
      addrs, states := map[], [];
    }

    // Fills a state and marks the protocols of an enabled one on the address.
    static method BuildState(addr: IpAddr, res: JudgeResult) returns (state: AddrState)
      modifies addr`protocolsSrc, addr`protocolsDest
      ensures state == StateOf((addr.ip, addr.port), addr.validationId, res)
      ensures state.addr == (addr.ip, addr.port) && state.validationId == addr.validationId
      ensures state.level == res.level && state.protocolSrc == res.from && state.protocolDest == res.to
      ensures state.enabled <==> !res.hasError && res.level >= 0
      ensures forall p :: Supports(addr.protocolsSrc, p) <==>
        Supports(old(addr.protocolsSrc), p) || (state.enabled && p == res.from)
      ensures forall p :: Supports(addr.protocolsDest, p) <==>
        Supports(old(addr.protocolsDest), p) || (state.enabled && p == res.to)
      ensures addr.protocolsSrc == if Enabled(res) then WithBit(old(addr.protocolsSrc), res.from) else old(addr.protocolsSrc)
      ensures addr.protocolsDest == if Enabled(res) then WithBit(old(addr.protocolsDest), res.to) else old(addr.protocolsDest)
    {
      var enabled := false;
      if !res.hasError {
        if res.level > -1 {
          enabled := true;
        }
      }
      state := AddrState((addr.ip, addr.port), addr.validationId, res.level, res.from, res.to, enabled);
      forall p
        ensures Supports(WithBit(addr.protocolsSrc, res.from), p) <==> Supports(addr.protocolsSrc, p) || p == res.from
        ensures Supports(WithBit(addr.protocolsDest, res.to), p) <==> Supports(addr.protocolsDest, p) || p == res.to
      {
        MaskIsSet(addr.protocolsSrc, res.from, p);
        MaskIsSet(addr.protocolsDest, res.to, p);
      }
      if enabled {
        addr.AddSourceProtocol(res.from);
        addr.AddProtocol(res.to);
      }
    }

    // Store calls for one address do not overlap.
    method StoreResults(s: Store)
      modifies this
      ensures View() == Step(old(View()), s)
    {
      ghost var before := View();
      var row := if s.addr in addrs then addrs[s.addr] else NEW_ROW;
      var ipAddr := new IpAddr(s.addr.0, s.addr.1, row, UNMEASURED);
      ipAddr.validationId := ipAddr.validationId + 1;
      ipAddr.lastCheckedAt := Some(s.now);
      addrs := addrs[s.addr := ipAddr.Columns()];
      assert ipAddr.Columns() == row.(validationId := row.validationId + 1, lastCheckedAt := Some(s.now));
      if s.results.Some? {
        var built := StoreStates(ipAddr, s.results.value, s.now);
        states := states + built;
        addrs := addrs[s.addr := ipAddr.Columns()];
      }
      StepParts(before, s, addrs, states);
    }

    static method StoreStates(ipAddr: IpAddr, results: seq<JudgeResult>, now: int) returns (built: seq<AddrState>)
      modifies ipAddr
      ensures built == StatesOf((ipAddr.ip, ipAddr.port), old(ipAddr.validationId), results)
      ensures ipAddr.Columns() == Streak(old(ipAddr.Columns()), AnyEnabled(results), now).(
        protocolsSrc := MaskSrc(old(ipAddr.protocolsSrc), results),
        protocolsDest := MaskDest(old(ipAddr.protocolsDest), results))
    {
      var enabled;
      built, enabled := BuildStates(ipAddr, results);
      NoteOutcome(ipAddr, enabled, now);
    }

    static method NoteOutcome(ipAddr: IpAddr, enabled: bool, now: int)
      modifies ipAddr
      ensures ipAddr.Columns() == Streak(old(ipAddr.Columns()), enabled, now)
    {
      if enabled {
        ipAddr.countSuccess := ipAddr.countSuccess + 1;
        ipAddr.countErrors := 0;
        ipAddr.errorsSinceAt := None;
        if ipAddr.successSinceAt.None? {
          ipAddr.successSinceAt := Some(now);
        }
      } else {
        ipAddr.countSuccess := 0;
        ipAddr.countErrors := ipAddr.countErrors + 1;
        ipAddr.successSinceAt := None;
        if ipAddr.errorsSinceAt.None? {
          ipAddr.errorsSinceAt := Some(now);
        }
      }
    }

    static method BuildStates(ipAddr: IpAddr, results: seq<JudgeResult>) returns (built: seq<AddrState>, enabled: bool)
      modifies ipAddr`protocolsSrc, ipAddr`protocolsDest
      ensures built == StatesOf((ipAddr.ip, ipAddr.port), ipAddr.validationId, results)
      ensures enabled == AnyEnabled(results)
      ensures ipAddr.protocolsSrc == MaskSrc(old(ipAddr.protocolsSrc), results)
      ensures ipAddr.protocolsDest == MaskDest(old(ipAddr.protocolsDest), results)
    {
      built, enabled := [], false;
      for i := 0 to |results|
        invariant built == StatesOf((ipAddr.ip, ipAddr.port), ipAddr.validationId, results[..i])
        invariant enabled == AnyEnabled(results[..i])
        invariant ipAddr.protocolsSrc == MaskSrc(old(ipAddr.protocolsSrc), results[..i])
        invariant ipAddr.protocolsDest == MaskDest(old(ipAddr.protocolsDest), results[..i])
      {
        assert results[..i + 1][..i] == results[..i] && results[..i + 1][i] == results[i];
        var state := BuildState(ipAddr, results[i]);
        enabled := enabled || state.enabled;
        built := built + [state];
        AnyEnabledLast(results[..i + 1]);
      }
      assert results[..|results|] == results;
    }
  }

  lemma AnyEnabledLast(results: seq<JudgeResult>)
    requires results != []
    ensures var n := |results| - 1;
      AnyEnabled(results) <==> AnyEnabled(results[..n]) || Enabled(results[n])
  {
    var n := |results| - 1;
    if AnyEnabled(results) && !Enabled(results[n]) {
      var i :| 0 <= i < |results| && Enabled(results[i]);
      assert results[..n][i] == results[i];
    }
  }

  // ---------------------------------------------------------------- version stamps

  // The join the rotator fetches by: the states of an address with the address's own version.
  function JoinedBy(states: seq<AddrState>, addr: Key, validationId: nat): seq<AddrState> {
    if states == [] then []
    else
      var n := |states| - 1;
      var s := states[n];
      JoinedBy(states[..n], addr, validationId) + if s.addr == addr && s.validationId == validationId then [s] else []
  }

  function Joined(t: Table, addr: Key): seq<AddrState> {
    JoinedBy(t.states, addr, RowOf(t, addr).validationId)
  }

  ghost predicate Stamped(t: Table) {
    forall s :: s in t.states ==> 1 <= s.validationId <= RowOf(t, s.addr).validationId
  }

  lemma {:induction false} JoinedAppend(a: seq<AddrState>, b: seq<AddrState>, addr: Key, v: nat)
    ensures JoinedBy(a + b, addr, v) == JoinedBy(a, addr, v) + JoinedBy(b, addr, v)
  {
    if b == [] {
      assert a + b == a;
    } else {
      var n := |b| - 1;
      JoinedAppend(a, b[..n], addr, v);
      assert (a + b)[..|a + b| - 1] == a + b[..n];
    }
  }

  lemma {:induction false} JoinedNone(states: seq<AddrState>, addr: Key, v: nat)
    requires forall s :: s in states ==> s.addr != addr || s.validationId != v
    ensures JoinedBy(states, addr, v) == []
  {
    if states != [] {
      var n := |states| - 1;
      assert states[n] in states;
      assert forall s :: s in states[..n] ==> s in states;
      JoinedNone(states[..n], addr, v);
    }
  }

  lemma {:induction false} StatesOfJoined(addr: Key, v: nat, results: seq<JudgeResult>)
    ensures forall s :: s in StatesOf(addr, v, results) ==> s.addr == addr && s.validationId == v
    ensures JoinedBy(StatesOf(addr, v, results), addr, v) == StatesOf(addr, v, results)
  {
    if results != [] {
      var n := |results| - 1;
      StatesOfJoined(addr, v, results[..n]);
      var init, last := StatesOf(addr, v, results[..n]), StateOf(addr, v, results[n]);
      assert (init + [last])[..|init|] == init;
    }
  }

  lemma NewStatesStamped(v: nat, s: Store)
    ensures forall x :: x in NewStates(v, s) ==> x.addr == s.addr && x.validationId == v
    ensures JoinedBy(NewStates(v, s), s.addr, v) == NewStates(v, s)
  {
    if s.results.Some? {
      StatesOfJoined(s.addr, v, s.results.value);
    }
  }

  lemma StepVersion(t: Table, s: Store, addr: Key)
    ensures RowOf(Step(t, s), addr).validationId == RowOf(t, addr).validationId + if addr == s.addr then 1 else 0
    ensures Step(t, s).states == t.states + NewStates(RowOf(t, s.addr).validationId + 1, s)
  {
    StepRow(t, s, addr);
    StoredVersion(RowOf(t, s.addr), s);
  }

  lemma StepParts(t: Table, s: Store, rows: map<Key, Row>, states: seq<AddrState>)
    requires rows == t.rows[s.addr := StoredRow(RowOf(t, s.addr), s)]
    requires states == t.states + NewStates(RowOf(t, s.addr).validationId + 1, s)
    ensures Table(rows, states) == Step(t, s)
  {
    StoredVersion(RowOf(t, s.addr), s);
  }

  lemma StepRow(t: Table, s: Store, addr: Key)
    ensures RowOf(Step(t, s), addr) == if addr == s.addr then StoredRow(RowOf(t, addr), s) else RowOf(t, addr)
  {
  }

  lemma StoredVersion(row: Row, s: Store)
    ensures StoredRow(row, s).validationId == row.validationId + 1
  {
  }

  lemma StepStamped(t: Table, s: Store)
    requires Stamped(t)
    ensures Stamped(Step(t, s))
  {
    var t', v := Step(t, s), RowOf(t, s.addr).validationId + 1;
    NewStatesStamped(v, s);
    StepVersion(t, s, s.addr);
    forall x | x in t'.states ensures 1 <= x.validationId <= RowOf(t', x.addr).validationId {
      StepVersion(t, s, x.addr);
    }
  }

  lemma StepJoined(t: Table, s: Store, addr: Key)
    requires Stamped(t)
    ensures Joined(Step(t, s), addr) ==
      if addr == s.addr then NewStates(RowOf(t, addr).validationId + 1, s) else Joined(t, addr)
  {
    var v := RowOf(t, s.addr).validationId + 1;
    var w := RowOf(t, addr).validationId + if addr == s.addr then 1 else 0;
    var new' := NewStates(v, s);
    NewStatesStamped(v, s);
    StepVersion(t, s, addr);
    JoinedAppend(t.states, new', addr, w);
    if addr == s.addr {
      JoinedNone(t.states, addr, w);
    } else {
      JoinedNone(new', addr, w);
    }
  }

  function StoresOf(history: seq<Store>, addr: Key): seq<Store> {
    if history == [] then []
    else
      var n := |history| - 1;
      StoresOf(history[..n], addr) + if history[n].addr == addr then [history[n]] else []
  }

  // Version stamping: whatever was stored, an address's version counts its stores, no state is newer
  // than its address, and the join yields exactly the states of the address's latest store.
  lemma {:induction false} VersionStamping(history: seq<Store>, addr: Key)
    ensures Stamped(Run(history))
    ensures RowOf(Run(history), addr).validationId == |StoresOf(history, addr)|
    ensures Joined(Run(history), addr) == LatestStates(StoresOf(history, addr))
  {
    if history != [] {
      var n := |history| - 1;
      VersionStamping(history[..n], addr);
      StepStamped(Run(history[..n]), history[n]);
      StepVersion(Run(history[..n]), history[n], addr);
      StepJoined(Run(history[..n]), history[n], addr);
      if history[n].addr != addr {
        assert StoresOf(history, addr) == StoresOf(history[..n], addr);
      }
    }
  }

  // The i-th result of an address's latest store is its i-th joined state: same level and protocols, and
  // enabled exactly for a result without error whose level was determined.
  lemma JoinedLaw(history: seq<Store>, addr: Key, i: nat)
    requires StoresOf(history, addr) != []
    requires var last := StoresOf(history, addr)[|StoresOf(history, addr)| - 1];
      last.results.Some? && i < |last.results.value|
    ensures var stores := StoresOf(history, addr);
      var results, joined := stores[|stores| - 1].results.value, Joined(Run(history), addr);
      && |joined| == |results|
      && joined[i].addr == addr && joined[i].validationId == |stores|
      && joined[i].level == results[i].level
      && joined[i].protocolSrc == results[i].from && joined[i].protocolDest == results[i].to
      && (joined[i].enabled <==> !results[i].hasError && results[i].level >= 0)
  {
    var stores := StoresOf(history, addr);
    VersionStamping(history, addr);
    StoresAreOf(history, addr);
    StatesAt(addr, |stores|, stores[|stores| - 1].results.value, i);
  }

  lemma {:induction false} StoresAreOf(history: seq<Store>, addr: Key)
    ensures forall i :: 0 <= i < |StoresOf(history, addr)| ==> StoresOf(history, addr)[i].addr == addr
  {
    if history != [] {
      StoresAreOf(history[..|history| - 1], addr);
    }
  }

  lemma {:induction false} StatesAt(addr: Key, v: nat, results: seq<JudgeResult>, i: nat)
    requires i < |results|
    ensures |StatesOf(addr, v, results)| == |results|
    ensures StatesOf(addr, v, results)[i] == StateOf(addr, v, results[i])
    decreases |results|
  {
    var n := |results| - 1;
    if n > 0 {
      StatesAt(addr, v, results[..n], if i < n then i else 0);
    }
  }

  // The time of the last check is that of the latest store, with or without results.
  lemma {:induction false} LastCheckedLaw(history: seq<Store>, addr: Key)
    ensures var stores := StoresOf(history, addr);
      RowOf(Run(history), addr).lastCheckedAt == if stores == [] then None else Some(stores[|stores| - 1].now)
  {
    if history != [] {
      var n := |history| - 1;
      LastCheckedLaw(history[..n], addr);
      StepRow(Run(history[..n]), history[n], addr);
      StoredTime(RowOf(Run(history[..n]), addr), history[n]);
    }
  }

  lemma StoredTime(row: Row, s: Store)
    ensures StoredRow(row, s).lastCheckedAt == Some(s.now)
  {
  }

  // A check counts as good exactly when one of its results has no error and a determined level.
  lemma GoodLaw(results: seq<JudgeResult>)
    ensures AnyEnabled(results) <==> exists i :: 0 <= i < |results| && !results[i].hasError && results[i].level >= 0
  {
    if AnyEnabled(results) {
      var i :| 0 <= i < |results| && Enabled(results[i]);
      assert !results[i].hasError && results[i].level >= 0;
    }
    if i :| 0 <= i < |results| && !results[i].hasError && results[i].level >= 0 {
      assert Enabled(results[i]);
    }
  }

  // The states the last of an address's stores wrote.
  function LatestStates(stores: seq<Store>): seq<AddrState> {
    if stores == [] then [] else NewStates(|stores|, stores[|stores| - 1])
  }

  // ---------------------------------------------------------------- streaks

  // The check one store adds for an address when it brings results: whether one was enabled, and when.
  function NewCheck(s: Store, addr: Key): seq<(bool, int)> {
    if s.addr == addr && s.results.Some? then [(AnyEnabled(s.results.value), s.now)] else []
  }

  // All checks of an address, oldest first.
  function Checks(history: seq<Store>, addr: Key): seq<(bool, int)> {
    if history == [] then []
    else
      var n := |history| - 1;
      Checks(history[..n], addr) + NewCheck(history[n], addr)
  }

  // Length of the longest tail of checks with the given outcome.
  function Tail(checks: seq<(bool, int)>, good: bool): (r: nat)
    ensures r <= |checks|
    ensures forall i :: |checks| - r <= i < |checks| ==> checks[i].0 == good
    ensures r < |checks| ==> checks[|checks| - r - 1].0 != good
  {
    if checks == [] || checks[|checks| - 1].0 != good then 0
    else 1 + Tail(checks[..|checks| - 1], good)
  }

  function TailStart(checks: seq<(bool, int)>, good: bool): Option<int> {
    var r := Tail(checks, good);
    if r == 0 then None else Some(checks[|checks| - r].1)
  }

  ghost predicate StreakExact(row: Row, checks: seq<(bool, int)>) {
    && row.countSuccess == Tail(checks, true)
    && row.countErrors == Tail(checks, false)
    && row.successSinceAt == TailStart(checks, true)
    && row.errorsSinceAt == TailStart(checks, false)
  }

  lemma StreakKeepsExact(row: Row, checks: seq<(bool, int)>, good: bool, now: int)
    requires StreakExact(row, checks)
    ensures StreakExact(Streak(row, good, now), checks + [(good, now)])
  {
    var c := checks + [(good, now)];
    assert c[..|c| - 1] == checks;
  }

  // Streak refinement: the counters are the lengths of the trailing good and bad runs, each start
  // time is the time its run began, and after the first check exactly one run is not empty.
  lemma {:induction false} StreaksAreRuns(history: seq<Store>, addr: Key)
    ensures StreakExact(RowOf(Run(history), addr), Checks(history, addr))
    ensures Checks(history, addr) != [] ==>
      (RowOf(Run(history), addr).countSuccess > 0) != (RowOf(Run(history), addr).countErrors > 0)
  {
    if history != [] {
      var n := |history| - 1;
      StreaksAreRuns(history[..n], addr);
      StepStreak(Run(history[..n]), Checks(history[..n], addr), history[n], addr);
      if Checks(history, addr) != [] {
        OneRunOnly(Checks(history, addr));
      }
    }
  }

  lemma StepStreak(t: Table, checks: seq<(bool, int)>, s: Store, addr: Key)
    requires StreakExact(RowOf(t, addr), checks)
    ensures StreakExact(RowOf(Step(t, s), addr), checks + NewCheck(s, addr))
  {
    StepRow(t, s, addr);
    if s.addr == addr {
      StoredStreak(RowOf(t, addr), checks, s);
    } else {
      assert checks + [] == checks;
    }
  }

  lemma StoredStreak(row: Row, checks: seq<(bool, int)>, s: Store)
    requires StreakExact(row, checks)
    ensures StreakExact(StoredRow(row, s), checks + NewCheck(s, s.addr))
  {
    var row1 := row.(validationId := row.validationId + 1, lastCheckedAt := Some(s.now));
    if s.results.Some? {
      StreakKeepsExact(row1, checks, AnyEnabled(s.results.value), s.now);
    } else {
      assert checks + [] == checks;
    }
  }

  lemma OneRunOnly(checks: seq<(bool, int)>)
    requires checks != []
    ensures (Tail(checks, true) > 0) != (Tail(checks, false) > 0)
  {
  }

  // ---------------------------------------------------------------- protocol masks

  ghost predicate EnabledFrom(results: seq<JudgeResult>, p: Protocol) {
    exists i :: 0 <= i < |results| && Enabled(results[i]) && results[i].from == p
  }

  ghost predicate EnabledTo(results: seq<JudgeResult>, p: Protocol) {
    exists i :: 0 <= i < |results| && Enabled(results[i]) && results[i].to == p
  }

  function AllResults(history: seq<Store>, addr: Key): seq<JudgeResult> {
    if history == [] then []
    else
      var n := |history| - 1;
      var s := history[n];
      AllResults(history[..n], addr) + if s.addr == addr && s.results.Some? then s.results.value else []
  }

  lemma {:induction false} MaskMeaning(mask: ProtocolMask, results: seq<JudgeResult>, p: Protocol)
    ensures Supports(MaskSrc(mask, results), p) <==> Supports(mask, p) || EnabledFrom(results, p)
    ensures Supports(MaskDest(mask, results), p) <==> Supports(mask, p) || EnabledTo(results, p)
  {
    if results != [] {
      var n := |results| - 1;
      var init, last := results[..n], results[n];
      MaskMeaning(mask, init, p);
      MaskIsSet(MaskSrc(mask, init), last.from, p);
      MaskIsSet(MaskDest(mask, init), last.to, p);
      EnabledUnfolds(results, p);
    }
  }

  lemma EnabledUnfolds(results: seq<JudgeResult>, p: Protocol)
    requires results != []
    ensures EnabledFrom(results, p) <==>
      EnabledFrom(results[..|results| - 1], p) || (Enabled(results[|results| - 1]) && results[|results| - 1].from == p)
    ensures EnabledTo(results, p) <==>
      EnabledTo(results[..|results| - 1], p) || (Enabled(results[|results| - 1]) && results[|results| - 1].to == p)
  {
    var n := |results| - 1;
    assert forall i :: 0 <= i < n ==> results[..n][i] == results[i];
  }

  lemma EnabledConcat(a: seq<JudgeResult>, b: seq<JudgeResult>, p: Protocol)
    ensures EnabledFrom(a + b, p) <==> EnabledFrom(a, p) || EnabledFrom(b, p)
    ensures EnabledTo(a + b, p) <==> EnabledTo(a, p) || EnabledTo(b, p)
  {
    var c := a + b;
    assert forall i :: 0 <= i < |a| ==> c[i] == a[i];
    assert forall i :: 0 <= i < |b| ==> c[|a| + i] == b[i];
    assert forall i :: |a| <= i < |c| ==> c[i] == b[i - |a|];
  }

  // The masks are the protocols of all enabled results ever stored for the address.
  lemma {:induction false} MasksAreUnions(history: seq<Store>, addr: Key, p: Protocol)
    ensures Supports(RowOf(Run(history), addr).protocolsSrc, p) <==> EnabledFrom(AllResults(history, addr), p)
    ensures Supports(RowOf(Run(history), addr).protocolsDest, p) <==> EnabledTo(AllResults(history, addr), p)
  {
    if history == [] {
      MaskIsSet(0, p, p);
    } else {
      var n := |history| - 1;
      var s := history[n];
      MasksAreUnions(history[..n], addr, p);
      if s.addr == addr && s.results.Some? {
        var row := RowOf(Run(history[..n]), addr);
        MaskMeaning(row.protocolsSrc, s.results.value, p);
        MaskMeaning(row.protocolsDest, s.results.value, p);
        EnabledConcat(AllResults(history[..n], addr), s.results.value, p);
      } else {
        assert AllResults(history, addr) == AllResults(history[..n], addr);
      }
    }
  }
}
