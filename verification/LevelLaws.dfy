// What the judge's levels mean, in the terms of the headers received.
module LevelLaws {
  import opened Options
  import opened Text
  import opened LevelDetection

  // The address stands in the value at position p, in any case.
  ghost predicate Stands(ip: string, value: string, p: nat) {
    p + |ip| <= |value| && forall k :: 0 <= k < |ip| ==> SameLetter(value[p + k], ip[k])
  }

  // There the value ends, or white space or a colon follows.
  ghost predicate Carries(ip: string, value: string, p: nat) {
    && Stands(ip, value, p)
    && (p + |ip| == |value| || value[p + |ip|] in " \t\n\r" || value[p + |ip|] as int in {11, 12}
        || value[p + |ip|] == ':')
  }

  // Equal up to ASCII case.
  ghost predicate SameLetter(a: char, b: char) {
    || a == b
    || ('A' <= a <= 'Z' && b as int == a as int + 32)
    || ('A' <= b <= 'Z' && a as int == b as int + 32)
  }

  // Some address of the list stands somewhere in the value.
  ghost predicate Shows(alts: seq<string>, value: string) {
    exists i, p :: 0 <= i < |alts| && Carries(alts[i], value, p)
  }

  // ---------------------------------------------------------------- the pattern

  lemma LowerMeans(a: char, b: char)
    ensures LowerChar(a) == LowerChar(b) <==> SameLetter(a, b)
  {
  }

  lemma LowerEquals(s: string, t: string)
    requires |s| == |t|
    ensures Lower(s) == Lower(t) <==> forall k :: 0 <= k < |t| ==> SameLetter(s[k], t[k])
  {
    forall k | 0 <= k < |t| ensures LowerChar(s[k]) == LowerChar(t[k]) <==> SameLetter(s[k], t[k]) {
      LowerMeans(s[k], t[k]);
    }
    if Lower(s) == Lower(t) {
      assert forall k :: 0 <= k < |t| ==> Lower(s)[k] == Lower(t)[k];
    }
  }

  lemma SpaceMeans(c: char)
    ensures IsSpace(c) <==> c in " \t\n\r" || c as int in {11, 12}
  {
    assert IsSpace(c) <==> c as int == 32 || 9 <= c as int <= 13;
    assert (c in " \t\n\r") <==> c == ' ' || c == '\t' || c == '\n' || c == '\r';
  }

  // An alternative matches at p exactly when the value carries the address there; the match takes the
  // character after it along, if there is one.
  lemma AltMeans(alt: string, s: string, p: nat)
    ensures AltEnd(alt, s, p).Some? <==> Carries(alt, s, p)
    ensures AltEnd(alt, s, p).Some? ==>
      AltEnd(alt, s, p).value == if p + |alt| == |s| then |s| else p + |alt| + 1
  {
    var q := p + |alt|;
    if q <= |s| {
      LowerEquals(s[p..q], alt);
      assert forall k :: 0 <= k < |alt| ==> s[p..q][k] == s[p + k];
      if q < |s| {
        SpaceMeans(s[q]);
      }
    }
  }

  // A list of alternatives matches at p exactly when one of them does, and ends like the first that does.
  lemma {:induction false} AlternativesMean(alts: seq<string>, s: string, p: nat)
    ensures MatchesAt(alts, s, p) <==> exists i :: 0 <= i < |alts| && Carries(alts[i], s, p)
    ensures forall i :: 0 <= i < |alts| && FirstCarried(alts, s, p, i) ==>
      MatchEnd(alts, s, p) == Some(if p + |alts[i]| == |s| then |s| else p + |alts[i]| + 1)
  {
    if alts != [] {
      AltMeans(alts[0], s, p);
      AlternativesMean(alts[1..], s, p);
      assert forall i :: 0 < i < |alts| ==> alts[1..][i - 1] == alts[i];
      forall i | 0 < i < |alts| && FirstCarried(alts, s, p, i) ensures FirstCarried(alts[1..], s, p, i - 1) {
        assert forall j :: 0 <= j < i - 1 ==> alts[1..][j] == alts[j + 1];
      }
    }
  }

  // Of the addresses carried at p, the i-th is the first.
  ghost predicate FirstCarried(alts: seq<string>, s: string, p: nat, i: nat)
    requires i < |alts|
  {
    Carries(alts[i], s, p) && forall j :: 0 <= j < i ==> !Carries(alts[j], s, p)
  }

  // The address pattern matches a value if and only if one of its addresses stands in it, followed by
  // the end, white space or a colon.
  lemma MatchLaw(alts: seq<string>, value: string)
    ensures Matches(alts, value) <==> Shows(alts, value)
  {
    if Matches(alts, value) {
      var p :| 0 <= p <= |value| && MatchesAt(alts, value, p);
      AlternativesMean(alts, value, p);
    }
    if Shows(alts, value) {
      var i, p :| 0 <= i < |alts| && Carries(alts[i], value, p);
      AlternativesMean(alts, value, p);
    }
  }

  // A search from `from` finds the leftmost such place and ends after the address there, or after the
  // white space or colon that follows it; of several addresses at that place the first counts.
  lemma SearchLaw(alts: seq<string>, value: string, from: nat, i: nat, p: nat)
    requires from <= p && i < |alts| && FirstCarried(alts, value, p, i)
    requires forall j, q :: 0 <= j < |alts| && from <= q < p ==> !Carries(alts[j], value, q)
    ensures from <= |value|
    ensures Search(alts, value, from) ==
      Some(if p + |alts[i]| == |value| then |value| else p + |alts[i]| + 1)
  {
    AlternativesMean(alts, value, p);
    forall q | from <= q < p ensures !MatchesAt(alts, value, q) {
      AlternativesMean(alts, value, q);
    }
    assert MatchesAt(alts, value, p);
    var r := Search(alts, value, from);
    var q :| from <= q <= |value| && MatchEnd(alts, value, q) == r
             && forall k :: from <= k < q ==> !MatchesAt(alts, value, k);
    assert MatchesAt(alts, value, q);
    assert !(q < p) && !(p < q);
  }

  // ---------------------------------------------------------------- the headers received

  // A header the judge looks at arrived in one of the rounds.
  ghost predicate Arrived(cs: seq<Command>, p: Pair) {
    exists c :: c in cs && c.AddHeaders? && p in c.pairs && p.key != "host"
  }

  lemma {:induction false} RelevantMeans(pairs: seq<Pair>, p: Pair)
    ensures p in Relevant(pairs) <==> p in pairs && p.key != "host"
  {
    if pairs != [] {
      RelevantMeans(pairs[1..], p);
      assert pairs == [pairs[0]] + pairs[1..];
    }
  }

  lemma {:induction false} ArrivedMeans(cs: seq<Command>, p: Pair)
    ensures p in AllPairs(cs) <==> Arrived(cs, p)
  {
    if cs != [] {
      var n := |cs| - 1;
      ArrivedMeans(cs[..n], p);
      assert cs == cs[..n] + [cs[n]];
      if cs[n].AddHeaders? {
        RelevantMeans(cs[n].pairs, p);
      }
      assert Arrived(cs, p) <==> Arrived(cs[..n], p) || (cs[n].AddHeaders? && p in cs[n].pairs && p.key != "host");
    }
  }

  lemma ForwardsMeans(key: string)
    ensures Forwards(key) <==> Lower(key) in FORWARD_HEADERS
    ensures IsVia(key) <==> Lower(key) in VIA_HEADERS
  {
    ListedAt(Lower(key), FORWARD_HEADERS);
    ListedAt(Lower(key), VIA_HEADERS);
  }

  // A header that gives the client away.
  ghost predicate Transparent(p: Pair, pats: Patterns) {
    Shows(pats.local, p.value)
  }

  // A header that gives the proxy away.
  ghost predicate Telltale(p: Pair, pats: Patterns) {
    Shows(pats.proxy, p.value) || Lower(p.key) in VIA_HEADERS || Lower(p.key) in FORWARD_HEADERS
  }

  lemma VerdictMeans(ps: seq<Pair>, pats: Patterns)
    ensures Verdict(ps, pats) == 3 <==> exists p :: p in ps && Transparent(p, pats)
    ensures Verdict(ps, pats) == 1 <==> forall p :: p in ps ==> !Transparent(p, pats) && !Telltale(p, pats)
    ensures 1 <= Verdict(ps, pats) <= 3
  {
    forall i | 0 <= i < |ps|
      ensures Matches(pats.local, ps[i].value) <==> Transparent(ps[i], pats)
      ensures Matches(pats.proxy, ps[i].value) || IsVia(ps[i].key) || Forwards(ps[i].key) <==> Telltale(ps[i], pats)
    {
      MatchLaw(pats.local, ps[i].value);
      MatchLaw(pats.proxy, ps[i].value);
      ForwardsMeans(ps[i].key);
    }
    assert forall i :: 0 <= i < |ps| ==> ps[i] in ps;
  }

  // After any rounds of adding and detecting, the next detection reports 3 if and only if a header other
  // than host arrived with the client's address in its value, 1 if and only if none arrived that
  // gives client or proxy away, and otherwise 2.
  lemma LevelLaw(cs: seq<Command>, pats: Patterns)
    ensures var level := Rounds(cs + [DetectNow], pats).level;
      && (level == 3 <==> exists p :: Arrived(cs, p) && Transparent(p, pats))
      && (level == 1 <==> forall p :: Arrived(cs, p) ==> !Transparent(p, pats) && !Telltale(p, pats))
      && 1 <= level <= 3
  {
    LevelExact(cs, pats);
    VerdictMeans(AllPairs(cs), pats);
    forall p ensures p in AllPairs(cs) <==> Arrived(cs, p) {
      ArrivedMeans(cs, p);
    }
  }

  // A value that ends with the client's address and a port always gives it away, in whatever header and
  // round it came.
  lemma AddressWithPortIsSeen(
      cs: seq<Command>, pats: Patterns, i: nat, key: string, prefix: string, port: string)
    requires i < |pats.local| && key != "host"
    requires Arrived(cs, Pair(key, prefix + pats.local[i] + ":" + port))
    ensures Rounds(cs + [DetectNow], pats).level == 3
  {
    var ip := pats.local[i];
    var value := prefix + ip + ":" + port;
    assert forall k :: 0 <= k < |ip| ==> value[|prefix| + k] == ip[k];
    assert value[|prefix| + |ip|] == ':';
    assert Carries(ip, value, |prefix|);
    assert Transparent(Pair(key, value), pats);
    LevelLaw(cs, pats);
  }

  // Values in which every address of the client is followed by another character never make it 3.
  lemma LongerAddressIsNotSeen(cs: seq<Command>, pats: Patterns)
    requires forall p, i, q: nat ::
      Arrived(cs, p) && 0 <= i < |pats.local| && Stands(pats.local[i], p.value, q) ==>
        && q + |pats.local[i]| < |p.value|
        && var c := p.value[q + |pats.local[i]|]; c != ':' && c != ' ' && !(9 <= c as int <= 13)
    ensures Rounds(cs + [DetectNow], pats).level != 3
  {
    LevelLaw(cs, pats);
    forall p | Arrived(cs, p) ensures !Transparent(p, pats) {
      forall i, q: nat | 0 <= i < |pats.local| ensures !Carries(pats.local[i], p.value, q) {
      }
    }
  }
}
