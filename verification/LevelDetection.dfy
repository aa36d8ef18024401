// Judging the anonymity level of a proxy from the headers a request arrives with. The address
// patterns are global regular expressions, which remember where their last match ended.
module LevelDetection {
  import opened Options
  import opened Text

  // ---------------------------------------------------------------- the address pattern

  // One alternative: the address, in any case, followed by white space, a colon or the end. The
  // result is the position after the match.
  function AltEnd(alt: string, s: string, p: nat): Option<nat> {
    var q := p + |alt|;
    if q > |s| || Lower(s[p..q]) != Lower(alt) then None
    else if q == |s| then Some(q)
    else if IsSpace(s[q]) || s[q] == ':' then Some(q + 1)
    else None
  }

  function MatchEnd(alts: seq<string>, s: string, p: nat): Option<nat> {
    if alts == [] then None
    else if AltEnd(alts[0], s, p).Some? then AltEnd(alts[0], s, p)
    else MatchEnd(alts[1..], s, p)
  }

  predicate MatchesAt(alts: seq<string>, s: string, p: nat) {
    MatchEnd(alts, s, p).Some?
  }

  // Where the leftmost match at or after `from` ends.
  function Search(alts: seq<string>, s: string, from: nat): (r: Option<nat>)
    requires from <= |s|
    ensures r.Some? <==> exists p :: from <= p <= |s| && MatchesAt(alts, s, p)
    ensures r.Some? ==> exists p :: && from <= p <= |s| && MatchEnd(alts, s, p) == r
                                    && forall q :: from <= q < p ==> !MatchesAt(alts, s, q)
    decreases |s| - from
  {
    if MatchesAt(alts, s, from) then MatchEnd(alts, s, from)
    else if from == |s| then None
    else Search(alts, s, from + 1)
  }

  predicate Matches(alts: seq<string>, s: string) {
    exists p :: 0 <= p <= |s| && MatchesAt(alts, s, p)
  }

  // `test` of a global regular expression (section 21.2.5.2.2 of ECMA-262 2015): the search starts
  // at `lastIndex`, which becomes the end of the match, or 0 when there is none.
  function Exec(alts: seq<string>, s: string, lastIndex: nat): (bool, nat) {
    if lastIndex > |s| then (false, 0)
    else
      var r := Search(alts, s, lastIndex);
      if r.Some? then (true, r.value) else (false, 0)
  }

  class GlobalRegex {
    const alts: seq<string>
    var lastIndex: nat

    constructor (alts: seq<string>)
      ensures this.alts == alts && lastIndex == 0
    {
      this.alts, lastIndex := alts, 0;
    }

    method Test(s: string) returns (found: bool)
      modifies this
      ensures (found, lastIndex) == Exec(alts, s, old(lastIndex))
    {
      if lastIndex > |s| {
        lastIndex := 0;
        return false;
      }
      var r := Search(alts, s, lastIndex);
      found := r.Some?;
      lastIndex := if r.Some? then r.value else 0;
    }
  }

  // ---------------------------------------------------------------- the detector

  const FORWARD_HEADERS := [
    "forwarded-for", "http-x-forwarded-for", "http-client-ip", "x-client-ip", "x-http-forwarded-for",
    "forwarded", "http-forwarded", "accproxyws", "cdn-src-ip", "client-ip", "cuda_cliip", "forwarded",
    "forwarded-for", "remote-host", "x-client-ip", "x-coming-from", "x-forwarded", "x-forwarded-for",
    "x-forwarded-for-ip", "x-forwarded-host", "x-forwarded-server", "x-host", "x-network-info",
    "x-nokia-remotesocket", "x-proxyuser-ip", "x-qihoo-ip", "x-real-ip", "xcnool_forwarded_for",
    "xcnool_remote_addr"]

  const VIA_HEADERS := [
    "http-via", "proxy-connection", "mt-proxy-id", "proxy-agent", "surrogate-capability", "via",
    "x-authenticated-user", "x-bluecoat-via", "x-cache", "x-cid-hash", "x-content-opt", "x-d-forwarder",
    "x-fikker", "x-forwarded-proto", "x-imforwards", "x-loop-control", "x-mato-param", "x-nai-id",
    "x-nokia-gateway-id", "x-nokia-localsocket", "x-proxy-id", "x-roaming", "x-turbopage", "x-varnish",
    "x-via", "x-wap-profile", "x-wrproxy-id", "x-xff-0", "xroxy-connection"]

  predicate Listed(key: string, names: seq<string>) {
    names != [] && (names[0] == key || Listed(key, names[1..]))
  }

  lemma {:induction false} ListedAt(key: string, names: seq<string>)
    ensures Listed(key, names) <==> key in names
  {
    if names != [] {
      ListedAt(key, names[1..]);
    }
  }

  predicate Forwards(key: string) {
    Listed(Lower(key), FORWARD_HEADERS)
  }

  predicate IsVia(key: string) {
    Listed(Lower(key), VIA_HEADERS)
  }

  datatype Pair = Pair(key: string, value: string)

  datatype Flags = Flags(local: bool, proxy: bool, via: bool, forward: bool)

  datatype Header = Header(pair: Pair, flags: Flags)

  datatype Stats = Stats(local: nat, proxy: nat, via: nat, forward: nat)

  datatype Patterns = Patterns(local: seq<string>, proxy: seq<string>)

  datatype Detector = Detector(
    headers: seq<Header>, stats: Stats, localIndex: nat, proxyIndex: nat, level: int)

  const FRESH := Detector([], Stats(0, 0, 0, 0), 0, 0, -1)

  const NO_FLAGS := Flags(false, false, false, false)

  function Received(pairs: seq<Pair>): seq<Header> {
    if pairs == [] then []
    else (if pairs[0].key == "host" then [] else [Header(pairs[0], NO_FLAGS)]) + Received(pairs[1..])
  }

  function Add(d: Detector, pairs: seq<Pair>): Detector {
    d.(headers := d.headers + Received(pairs))
  }

  function One(b: bool): nat {
    if b then 1 else 0
  }

  function Count(stats: Stats, f: Flags): Stats {
    Stats(stats.local + One(f.local), stats.proxy + One(f.proxy), stats.via + One(f.via), stats.forward + One(f.forward))
  }

  // The loop body of `detect`; flags are only ever set.
  function DetectOne(d: Detector, i: nat, pats: Patterns): Detector
    requires i < |d.headers|
  {
    var Header(pair, flags) := d.headers[i];
    var (isLocal, localIndex) := Exec(pats.local, pair.value, d.localIndex);
    var (isProxy, proxyIndex) := Exec(pats.proxy, pair.value, d.proxyIndex);
    var f := Flags(flags.local || isLocal, flags.proxy || isProxy,
                   flags.via || IsVia(pair.key), flags.forward || Forwards(pair.key));
    d.(headers := d.headers[i := Header(pair, f)], stats := Count(d.stats, f),
       localIndex := localIndex, proxyIndex := proxyIndex)
  }

  function DetectFrom(d: Detector, i: nat, pats: Patterns): (r: Detector)
    requires i <= |d.headers|
    ensures |r.headers| == |d.headers|
    decreases |d.headers| - i
  {
    if i == |d.headers| then d else DetectFrom(DetectOne(d, i, pats), i + 1, pats)
  }

  function LevelOf(stats: Stats): int {
    if stats.local == 0 && stats.proxy == 0 && stats.via == 0 && stats.forward == 0 then 1
    else if stats.local == 0 then 2
    else 3
  }

  function Detect(d: Detector, pats: Patterns): Detector {
    var r := DetectFrom(d, 0, pats);
    r.(level := LevelOf(r.stats))
  }

  class LevelDetection {
    const localRegex: GlobalRegex
    const proxyRegex: GlobalRegex
    var recvHeaders: seq<Header>
    var stats: Stats
    var level: int

    ghost function Pats(): Patterns {
      Patterns(localRegex.alts, proxyRegex.alts)
    }

    ghost function View(): Detector
      reads this, localRegex, proxyRegex
    {
      Detector(recvHeaders, stats, localRegex.lastIndex, proxyRegex.lastIndex, level)
    }

    ghost predicate Valid() {
      localRegex != proxyRegex
    }

    constructor (localAlts: seq<string>, proxyAlts: seq<string>)
      ensures Valid() && View() == FRESH && Pats() == Patterns(localAlts, proxyAlts)
      ensures fresh(localRegex) && fresh(proxyRegex)
    {
      localRegex := new GlobalRegex(localAlts);
      proxyRegex := new GlobalRegex(proxyAlts);
      recvHeaders, stats, level := [], Stats(0, 0, 0, 0), -1;
    }

    method AddRecvHeader(pairs: seq<Pair>)
      modifies this
      ensures View() == Add(old(View()), pairs)
    {
      ghost var before := recvHeaders;
      assert pairs[0..] == pairs;
      for i := 0 to |pairs|
        invariant recvHeaders + Received(pairs[i..]) == before + Received(pairs)
        invariant View() == old(View()).(headers := recvHeaders)
      {
        assert pairs[i..][1..] == pairs[i + 1..];
        if pairs[i].key != "host" {
          recvHeaders := recvHeaders + [Header(pairs[i], NO_FLAGS)];
        }
      }
    }

    method DetectLevel()
      requires Valid()
      modifies this, localRegex, proxyRegex
      ensures View() == Detect(old(View()), Pats())
    {
      ghost var before := View();
      for i := 0 to |recvHeaders|
        invariant |recvHeaders| == |before.headers|
        invariant DetectFrom(View(), i, Pats()) == DetectFrom(before, 0, Pats())
      {
        CheckHeader(i);
      }
      if !HasLocalIP() && !HasProxyIP() && !HasViaHeader() && !HasForwardHeader() {
        level := 1;
      } else if !HasLocalIP() {
        level := 2;
      } else {
        level := 3;
      }
    }

    method CheckHeader(i: nat)
      requires Valid() && i < |recvHeaders|
      modifies this, localRegex, proxyRegex
      ensures View() == DetectOne(old(View()), i, Pats())
    {
      var header := recvHeaders[i];
      var flags := header.flags;
      var isLocal := localRegex.Test(header.pair.value);
      if isLocal {
        flags := flags.(local := true);
      }
      var isProxy := proxyRegex.Test(header.pair.value);
      if isProxy {
        flags := flags.(proxy := true);
      }
      if Forwards(header.pair.key) {
        flags := flags.(forward := true);
      }
      if IsVia(header.pair.key) {
        flags := flags.(via := true);
      }
      recvHeaders := recvHeaders[i := Header(header.pair, flags)];
      stats := Count(stats, flags);
    }

    predicate HasForwardHeader()
      reads this
    {
      stats.forward > 0
    }

    predicate HasViaHeader()
      reads this
    {
      stats.via > 0
    }

    predicate HasProxyIP()
      reads this
    {
      stats.proxy > 0
    }

    predicate HasLocalIP()
      reads this
    {
      stats.local > 0
    }
  }

  // ---------------------------------------------------------------- the stateless verdict

  predicate AnyLocal(pairs: seq<Pair>, pats: Patterns) {
    exists i :: 0 <= i < |pairs| && Matches(pats.local, pairs[i].value)
  }

  predicate AnyProxy(pairs: seq<Pair>, pats: Patterns) {
    exists i :: 0 <= i < |pairs| && Matches(pats.proxy, pairs[i].value)
  }

  predicate AnyVia(pairs: seq<Pair>) {
    exists i :: 0 <= i < |pairs| && IsVia(pairs[i].key)
  }

  predicate AnyForward(pairs: seq<Pair>) {
    exists i :: 0 <= i < |pairs| && Forwards(pairs[i].key)
  }

  // The level by the definition of the levels, each header matched on its own.
  function Verdict(pairs: seq<Pair>, pats: Patterns): int {
    if AnyLocal(pairs, pats) then 3
    else if AnyProxy(pairs, pats) || AnyVia(pairs) || AnyForward(pairs) then 2
    else 1
  }

  // The headers the detector holds.
  ghost predicate Holds(d: Detector, ps: seq<Pair>) {
    |d.headers| == |ps| && forall i :: 0 <= i < |ps| ==> d.headers[i].pair == ps[i]
  }

  // ---------------------------------------------------------------- exactness

  // A statistic is positive only for a reason, and for every reason among the first n headers; a
  // pattern that stands in the middle of a value has already counted a match.
  ghost predicate Sound(d: Detector, ps: seq<Pair>, pats: Patterns) {
    && Holds(d, ps)
    && (forall i :: 0 <= i < |ps| ==> FlagsSound(d.headers[i], pats))
    && (d.stats.local > 0 ==> AnyLocal(ps, pats))
    && (d.stats.proxy > 0 ==> AnyProxy(ps, pats))
    && (d.stats.via > 0 ==> AnyVia(ps))
    && (d.stats.forward > 0 ==> AnyForward(ps))
    && (d.localIndex != 0 ==> d.stats.local > 0)
    && (d.proxyIndex != 0 ==> d.stats.proxy > 0)
  }

  ghost predicate FlagsSound(h: Header, pats: Patterns) {
    && (h.flags.local ==> Matches(pats.local, h.pair.value))
    && (h.flags.proxy ==> Matches(pats.proxy, h.pair.value))
    && (h.flags.via ==> IsVia(h.pair.key))
    && (h.flags.forward ==> Forwards(h.pair.key))
  }

  ghost predicate Counted(p: Pair, stats: Stats, pats: Patterns) {
    && (Matches(pats.local, p.value) ==> stats.local > 0)
    && (Matches(pats.proxy, p.value) ==> stats.proxy > 0)
    && (IsVia(p.key) ==> stats.via > 0)
    && (Forwards(p.key) ==> stats.forward > 0)
  }

  // A found match is a match; a pattern at the start finds every match.
  lemma ExecExact(alts: seq<string>, s: string, lastIndex: nat)
    ensures Exec(alts, s, lastIndex).0 ==> Matches(alts, s)
    ensures lastIndex == 0 && Matches(alts, s) ==> Exec(alts, s, lastIndex).0
    ensures Exec(alts, s, lastIndex).1 != 0 ==> Exec(alts, s, lastIndex).0
  {
  }

  lemma DetectOneCounts(d: Detector, i: nat, pats: Patterns)
    requires i < |d.headers| && FlagsSound(d.headers[i], pats)
    requires d.localIndex != 0 ==> d.stats.local > 0
    requires d.proxyIndex != 0 ==> d.stats.proxy > 0
    ensures FlagsSound(DetectOne(d, i, pats).headers[i], pats)
    ensures Counted(d.headers[i].pair, DetectOne(d, i, pats).stats, pats)
    ensures DetectOne(d, i, pats).localIndex != 0 ==> DetectOne(d, i, pats).stats.local > 0
    ensures DetectOne(d, i, pats).proxyIndex != 0 ==> DetectOne(d, i, pats).stats.proxy > 0
  {
    ExecExact(pats.local, d.headers[i].pair.value, d.localIndex);
    ExecExact(pats.proxy, d.headers[i].pair.value, d.proxyIndex);
  }

  // `next` is `d` after header i was looked at: its flags were updated and counted.
  ghost predicate LookedAt(d: Detector, next: Detector, i: nat) {
    && i < |d.headers| == |next.headers|
    && next.headers[i].pair == d.headers[i].pair
    && next.stats == Count(d.stats, next.headers[i].flags)
    && forall k :: 0 <= k < |d.headers| && k != i ==> next.headers[k] == d.headers[k]
  }

  lemma DetectOneLooks(d: Detector, i: nat, pats: Patterns)
    requires i < |d.headers|
    ensures LookedAt(d, DetectOne(d, i, pats), i)
  {
  }

  lemma SoundAfterLook(d: Detector, next: Detector, i: nat, ps: seq<Pair>, pats: Patterns)
    requires Sound(d, ps, pats) && LookedAt(d, next, i) && FlagsSound(next.headers[i], pats)
    requires next.localIndex != 0 ==> next.stats.local > 0
    requires next.proxyIndex != 0 ==> next.stats.proxy > 0
    ensures Sound(next, ps, pats)
  {
    assert ps[i] == next.headers[i].pair;
  }

  lemma DetectOneExact(d: Detector, i: nat, ps: seq<Pair>, pats: Patterns)
    requires i < |d.headers| && Sound(d, ps, pats)
    ensures Sound(DetectOne(d, i, pats), ps, pats)
    ensures Counted(ps[i], DetectOne(d, i, pats).stats, pats)
  {
    DetectOneCounts(d, i, pats);
    DetectOneLooks(d, i, pats);
    SoundAfterLook(d, DetectOne(d, i, pats), i, ps, pats);
  }

  ghost predicate CountedUpTo(ps: seq<Pair>, n: nat, stats: Stats, pats: Patterns)
    requires n <= |ps|
  {
    forall i :: 0 <= i < n ==> Counted(ps[i], stats, pats)
  }

  ghost predicate ExactUpTo(d: Detector, ps: seq<Pair>, n: nat, pats: Patterns) {
    n <= |ps| && Sound(d, ps, pats) && CountedUpTo(ps, n, d.stats, pats)
  }

  lemma ExactNext(d: Detector, i: nat, ps: seq<Pair>, pats: Patterns)
    requires i < |d.headers| && ExactUpTo(d, ps, i, pats)
    ensures ExactUpTo(DetectOne(d, i, pats), ps, i + 1, pats)
  {
    DetectOneExact(d, i, ps, pats);
    StatsGrow(d, i, pats);
    MoreCounted(ps, i, d.stats, DetectOne(d, i, pats).stats, pats);
  }

  lemma StatsGrow(d: Detector, i: nat, pats: Patterns)
    requires i < |d.headers|
    ensures NoLess(d.stats, DetectOne(d, i, pats).stats)
  {
  }

  predicate NoLess(a: Stats, b: Stats) {
    a.local <= b.local && a.proxy <= b.proxy && a.via <= b.via && a.forward <= b.forward
  }

  lemma MoreCounted(ps: seq<Pair>, n: nat, a: Stats, b: Stats, pats: Patterns)
    requires n <= |ps| && CountedUpTo(ps, n, a, pats) && NoLess(a, b)
    ensures CountedUpTo(ps, n, b, pats)
  {
    forall i | 0 <= i < n ensures Counted(ps[i], b, pats) {
      assert Counted(ps[i], a, pats);
    }
  }

  lemma {:induction false} DetectFromExact(d: Detector, i: nat, ps: seq<Pair>, pats: Patterns)
    requires i <= |d.headers| && ExactUpTo(d, ps, i, pats)
    ensures ExactUpTo(DetectFrom(d, i, pats), ps, |ps|, pats)
    decreases |d.headers| - i
  {
    if i < |d.headers| {
      var next := DetectOne(d, i, pats);
      ExactNext(d, i, ps, pats);
      DetectFromExact(next, i + 1, ps, pats);
      assert DetectFrom(d, i, pats) == DetectFrom(next, i + 1, pats);
    } else {
      ExactLength(d, ps, i, pats);
      assert DetectFrom(d, i, pats) == d;
    }
  }

  lemma ExactLength(d: Detector, ps: seq<Pair>, n: nat, pats: Patterns)
    requires ExactUpTo(d, ps, n, pats)
    ensures |d.headers| == |ps|
  {
  }

  lemma LevelFromStats(d: Detector, ps: seq<Pair>, pats: Patterns)
    requires ExactUpTo(d, ps, |ps|, pats)
    ensures LevelOf(d.stats) == Verdict(ps, pats)
  {
    assert forall i :: 0 <= i < |ps| ==> Counted(ps[i], d.stats, pats);
  }

  lemma DetectExact(d: Detector, ps: seq<Pair>, pats: Patterns)
    requires Sound(d, ps, pats)
    ensures Sound(Detect(d, pats), ps, pats)
    ensures Detect(d, pats).level == Verdict(ps, pats)
  {
    DetectFromExact(d, 0, ps, pats);
    LevelFromStats(DetectFrom(d, 0, pats), ps, pats);
  }

  lemma AnyInMore(ps: seq<Pair>, more: seq<Pair>, pats: Patterns)
    ensures AnyLocal(ps, pats) ==> AnyLocal(ps + more, pats)
    ensures AnyProxy(ps, pats) ==> AnyProxy(ps + more, pats)
    ensures AnyVia(ps) ==> AnyVia(ps + more)
    ensures AnyForward(ps) ==> AnyForward(ps + more)
  {
    assert forall i :: 0 <= i < |ps| ==> (ps + more)[i] == ps[i];
  }

  lemma AddSound(d: Detector, ps: seq<Pair>, pairs: seq<Pair>, pats: Patterns)
    requires Sound(d, ps, pats)
    ensures Sound(Add(d, pairs), ps + Relevant(pairs), pats)
  {
    ReceivedIsRelevant(pairs);
    AnyInMore(ps, Relevant(pairs), pats);
  }

  function Relevant(pairs: seq<Pair>): seq<Pair> {
    if pairs == [] then []
    else (if pairs[0].key == "host" then [] else [pairs[0]]) + Relevant(pairs[1..])
  }

  // The headers of `ps`, none looked at yet.
  ghost predicate Unseen(headers: seq<Header>, ps: seq<Pair>) {
    && |headers| == |ps|
    && forall i :: 0 <= i < |ps| ==> headers[i] == Header(ps[i], NO_FLAGS)
  }

  lemma UnseenCons(p: Pair, headers: seq<Header>, ps: seq<Pair>)
    requires Unseen(headers, ps)
    ensures Unseen([Header(p, NO_FLAGS)] + headers, [p] + ps)
  {
  }

  lemma {:induction false} ReceivedIsRelevant(pairs: seq<Pair>)
    ensures Unseen(Received(pairs), Relevant(pairs))
  {
    if pairs != [] {
      ReceivedIsRelevant(pairs[1..]);
      UnseenCons(pairs[0], Received(pairs[1..]), Relevant(pairs[1..]));
      assert [] + Relevant(pairs[1..]) == Relevant(pairs[1..]);
      assert [] + Received(pairs[1..]) == Received(pairs[1..]);
    }
  }

  // ---------------------------------------------------------------- rounds

  datatype Command = AddHeaders(pairs: seq<Pair>) | DetectNow

  function Apply(d: Detector, c: Command, pats: Patterns): Detector {
    match c
    case AddHeaders(pairs) => Add(d, pairs)
    case DetectNow => Detect(d, pats)
  }

  function Rounds(cs: seq<Command>, pats: Patterns): Detector {
    if cs == [] then FRESH else Apply(Rounds(cs[..|cs| - 1], pats), cs[|cs| - 1], pats)
  }

  function AllPairs(cs: seq<Command>): seq<Pair> {
    if cs == [] then []
    else
      var last := cs[|cs| - 1];
      AllPairs(cs[..|cs| - 1]) + if last.AddHeaders? then Relevant(last.pairs) else []
  }

  lemma {:induction false} RoundsSound(cs: seq<Command>, pats: Patterns)
    ensures Sound(Rounds(cs, pats), AllPairs(cs), pats)
  {
    if cs != [] {
      var init, last := cs[..|cs| - 1], cs[|cs| - 1];
      RoundsSound(init, pats);
      if last.AddHeaders? {
        AddSound(Rounds(init, pats), AllPairs(init), last.pairs, pats);
      } else {
        DetectExact(Rounds(init, pats), AllPairs(init), pats);
        assert AllPairs(cs) == AllPairs(init);
      }
    }
  }

  // Level exactness: after any rounds of adding and detecting, `detect` yields the level a stateless
  // matcher gives for all headers received so far.
  lemma LevelExact(cs: seq<Command>, pats: Patterns)
    ensures Rounds(cs + [DetectNow], pats).level == Verdict(AllPairs(cs), pats)
  {
    assert (cs + [DetectNow])[..|cs|] == cs;
    RoundsSound(cs, pats);
    DetectExact(Rounds(cs, pats), AllPairs(cs), pats);
  }

  // The verdict depends only on which headers were received and never drops as more are added.
  lemma VerdictMonotone(a: seq<Pair>, b: seq<Pair>, pats: Patterns)
    requires forall p :: p in a ==> p in b
    ensures Verdict(a, pats) <= Verdict(b, pats)
    ensures (forall p :: p in b ==> p in a) ==> Verdict(a, pats) == Verdict(b, pats)
  {
    VerdictBelow(a, b, pats);
    if forall p :: p in b ==> p in a {
      VerdictBelow(b, a, pats);
    }
  }

  lemma VerdictBelow(a: seq<Pair>, b: seq<Pair>, pats: Patterns)
    requires forall p :: p in a ==> p in b
    ensures Verdict(a, pats) <= Verdict(b, pats)
  {
    forall i | 0 <= i < |a| ensures exists j :: 0 <= j < |b| && a[i] == b[j] {
      assert a[i] in a;
    }
  }

  // ---------------------------------------------------------------- the flags of single headers

  // The pattern's `lastIndex` before header i, when a pass over the headers' values starts with `start`.
  function IndexAt(alts: seq<string>, values: seq<string>, start: nat, i: nat): nat
    requires i <= |values|
  {
    if i == 0 then start else Exec(alts, values[i - 1], IndexAt(alts, values, start, i - 1)).1
  }

  predicate Hit(alts: seq<string>, values: seq<string>, start: nat, i: nat)
    requires i < |values|
  {
    Exec(alts, values[i], IndexAt(alts, values, start, i)).0
  }

  function Values(headers: seq<Header>): (r: seq<string>)
    ensures |r| == |headers|
    ensures forall i :: 0 <= i < |headers| ==> r[i] == headers[i].pair.value
  {
    seq(|headers|, i requires 0 <= i < |headers| => headers[i].pair.value)
  }

  function Checked(h: Header, isLocal: bool, isProxy: bool): Header {
    Header(h.pair, Flags(h.flags.local || isLocal, h.flags.proxy || isProxy,
                         h.flags.via || IsVia(h.pair.key), h.flags.forward || Forwards(h.pair.key)))
  }

  lemma DetectOneHeaders(d: Detector, k: nat, pats: Patterns)
    requires k < |d.headers|
    ensures var h := d.headers[k];
      var (isLocal, localIndex) := Exec(pats.local, h.pair.value, d.localIndex);
      var (isProxy, proxyIndex) := Exec(pats.proxy, h.pair.value, d.proxyIndex);
      var next := DetectOne(d, k, pats);
      && next.headers == d.headers[k := Checked(h, isLocal, isProxy)]
      && next.localIndex == localIndex && next.proxyIndex == proxyIndex
  {
  }

  lemma {:induction false} PassFlags(
      d: Detector, k: nat, pats: Patterns, values: seq<string>, l: nat, p: nat, i: nat)
    requires k <= |d.headers| && i < |d.headers| && |values| == |d.headers|
    requires forall j :: 0 <= j < |values| ==> values[j] == d.headers[j].pair.value
    requires d.localIndex == IndexAt(pats.local, values, l, k)
    requires d.proxyIndex == IndexAt(pats.proxy, values, p, k)
    ensures DetectFrom(d, k, pats).headers[i] ==
      if i < k then d.headers[i]
      else Checked(d.headers[i], Hit(pats.local, values, l, i), Hit(pats.proxy, values, p, i))
    decreases |d.headers| - k
  {
    if k < |d.headers| {
      var next := DetectOne(d, k, pats);
      DetectOneHeaders(d, k, pats);
      PassFlags(next, k + 1, pats, values, l, p, i);
    }
  }

  // The loop of `detect` in closed form, header by header.
  lemma DetectFlags(d: Detector, pats: Patterns, i: nat)
    requires i < |d.headers|
    ensures Detect(d, pats).headers[i] ==
      Checked(d.headers[i], Hit(pats.local, Values(d.headers), d.localIndex, i),
              Hit(pats.proxy, Values(d.headers), d.proxyIndex, i))
  {
    PassFlags(d, 0, pats, Values(d.headers), d.localIndex, d.proxyIndex, i);
  }

  // A match that the pattern, starting where the values before left it, can still find.
  ghost predicate InReach(alts: seq<string>, values: seq<string>, start: nat, i: nat)
    requires i < |values|
  {
    var from := IndexAt(alts, values, start, i);
    from <= |values[i]| && exists p :: from <= p <= |values[i]| && MatchesAt(alts, values[i], p)
  }

  lemma HitExact(alts: seq<string>, values: seq<string>, start: nat, i: nat)
    requires i < |values|
    ensures Hit(alts, values, start, i) <==> InReach(alts, values, start, i)
    ensures Hit(alts, values, start, i) ==> Matches(alts, values[i])
  {
  }

  ghost predicate FlagsExact(h: Header, pats: Patterns) {
    && (h.flags.local <==> Matches(pats.local, h.pair.value))
    && (h.flags.proxy <==> Matches(pats.proxy, h.pair.value))
    && (h.flags.via <==> IsVia(h.pair.key))
    && (h.flags.forward <==> Forwards(h.pair.key))
  }

  // Nothing that a header matches is overlooked: it is flagged already or still in reach.
  ghost predicate NotOverlooked(d: Detector, pats: Patterns, i: nat)
    requires i < |d.headers|
  {
    var h, values := d.headers[i], Values(d.headers);
    && (Matches(pats.local, h.pair.value) ==> h.flags.local || InReach(pats.local, values, d.localIndex, i))
    && (Matches(pats.proxy, h.pair.value) ==> h.flags.proxy || InReach(pats.proxy, values, d.proxyIndex, i))
  }

  // The flags of one header after `detect` are those of a stateless matcher if and only if none of its
  // matches starts before the place where the headers before it left the pattern.
  lemma FlagsExactWhen(d: Detector, pats: Patterns, i: nat)
    requires i < |d.headers| && FlagsSound(d.headers[i], pats)
    ensures FlagsExact(Detect(d, pats).headers[i], pats) <==> NotOverlooked(d, pats, i)
  {
    DetectFlags(d, pats, i);
    HitExact(pats.local, Values(d.headers), d.localIndex, i);
    HitExact(pats.proxy, Values(d.headers), d.proxyIndex, i);
  }

  lemma AllFlagsExactWhen(d: Detector, ps: seq<Pair>, pats: Patterns)
    requires Sound(d, ps, pats)
    ensures (forall i :: 0 <= i < |ps| ==> FlagsExact(Detect(d, pats).headers[i], pats))
      <==> (forall i :: 0 <= i < |ps| ==> NotOverlooked(d, pats, i))
  {
    forall i | 0 <= i < |ps|
      ensures FlagsExact(Detect(d, pats).headers[i], pats) <==> NotOverlooked(d, pats, i)
    {
      FlagsExactWhen(d, pats, i);
    }
  }

  // Where a match used up the whole value, the same value in the next header is overlooked.
  lemma SecondMatchIsMissed(pats: Patterns, value: string, key1: string, key2: string)
    requires value != "" && Search(pats.local, value, 0) == Some(|value|)
    requires !MatchesAt(pats.local, value, |value|)
    requires key1 != "host" && key2 != "host"
    ensures var headers := Detect(Add(FRESH, [Pair(key1, value), Pair(key2, value)]), pats).headers;
      && |headers| == 2
      && headers[0].flags.local && headers[0].pair == Pair(key1, value)
      && !headers[1].flags.local && headers[1].pair == Pair(key2, value)
      && Matches(pats.local, value)
  {
    var pairs := [Pair(key1, value), Pair(key2, value)];
    var d := Add(FRESH, pairs);
    TwoReceived(pairs[0], pairs[1]);
    assert d.headers == [Header(pairs[0], NO_FLAGS), Header(pairs[1], NO_FLAGS)];
    DetectFlags(d, pats, 0);
    DetectFlags(d, pats, 1);
    SecondOutOfReach(pats.local, Values(d.headers));
    HitExact(pats.local, Values(d.headers), 0, 0);
  }

  lemma SecondOutOfReach(alts: seq<string>, values: seq<string>)
    requires |values| == 2 && values[0] == values[1]
    requires Search(alts, values[0], 0) == Some(|values[0]|)
    requires !MatchesAt(alts, values[0], |values[0]|)
    ensures Hit(alts, values, 0, 0) && !Hit(alts, values, 0, 1)
  {
    assert IndexAt(alts, values, 0, 0) == 0;
    assert IndexAt(alts, values, 0, 1) == |values[0]|;
  }

  lemma TwoReceived(p: Pair, q: Pair)
    requires p.key != "host" && q.key != "host"
    ensures Received([p, q]) == [Header(p, NO_FLAGS), Header(q, NO_FLAGS)]
  {
    assert [p, q][1..] == [q] && [q][1..] == [];
    assert Received([q]) == [Header(q, NO_FLAGS)] + Received([]);
    assert Received([p, q]) == [Header(p, NO_FLAGS)] + Received([q]);
  }

  // That happens for every address: two headers that consist of the client's address are received, and
  // only the first is flagged.
  lemma AddressTwiceIsMissed(ip: string, proxy: seq<string>)
    requires ip != ""
    ensures var headers := Detect(Add(FRESH, [Pair("x-a", ip), Pair("x-b", ip)]), Patterns([ip], proxy)).headers;
      |headers| == 2 && headers[0].flags.local && !headers[1].flags.local && Matches([ip], headers[1].pair.value)
  {
    assert ip[0..0 + |ip|] == ip;
    assert AltEnd(ip, ip, 0) == Some(|ip|);
    assert MatchEnd([ip], ip, 0) == Some(|ip|);
    assert [ip][1..] == [] && AltEnd(ip, ip, |ip|) == None;
    assert MatchEnd([], ip, |ip|) == None;
    assert !MatchesAt([ip], ip, |ip|);
    assert "x-a"[0] != "host"[0] && "x-b"[0] != "host"[0];
    SecondMatchIsMissed(Patterns([ip], proxy), ip, "x-a", "x-b");
  }
}
