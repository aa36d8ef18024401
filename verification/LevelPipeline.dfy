// A judge request through the proxy server: the level the server is set to against the level the
// judge detects.
module LevelPipeline {
  import opened Options
  import opened Text
  import opened Headers
  import opened ProxyServer
  import opened LevelDetection

  // The header list as the judge's server delivers it: names in lower case.
  function Delivered(list: seq<Field>): seq<Pair> {
    if list == [] then [] else [Pair(list[0].key, list[0].value)] + Delivered(list[1..])
  }

  // A request that says nothing about proxies or addresses.
  ghost predicate Innocent(list: seq<Field>, pats: Patterns) {
    forall f :: f in list ==>
      !IsVia(f.key) && !Forwards(f.key) && !Matches(pats.local, f.value) && !Matches(pats.proxy, f.value)
  }

  lemma {:induction false} DeliveredContents(list: seq<Field>, p: Pair)
    ensures p in Delivered(list) <==> exists f :: f in list && p == Pair(f.key, f.value)
  {
    if list != [] {
      DeliveredContents(list[1..], p);
      assert list == [list[0]] + list[1..];
      if p in Delivered(list[1..]) {
        var f :| f in list[1..] && p == Pair(f.key, f.value);
        assert f in list;
      }
    }
  }

  lemma {:induction false} RelevantContents(pairs: seq<Pair>, p: Pair)
    ensures p in Relevant(pairs) <==> p in pairs && p.key != "host"
  {
    if pairs != [] {
      RelevantContents(pairs[1..], p);
      assert pairs == [pairs[0]] + pairs[1..];
    }
  }

  // What the judge sees of a header list.
  function Seen(list: seq<Field>): seq<Pair> {
    Relevant(Delivered(list))
  }

  lemma SeenContents(list: seq<Field>, p: Pair)
    ensures p in Seen(list) <==> p.key != "host" && exists f :: f in list && p == Pair(f.key, f.value)
  {
    RelevantContents(Delivered(list), p);
    DeliveredContents(list, p);
  }

  lemma ViaIsVia()
    ensures IsVia(Lower(VIA)) && Lower(VIA) != "host"
  {
    var l := Lower(VIA);
    assert l == "via";
    assert Lower("via") == "via";
    assert VIA_HEADERS[5] == "via";
    ListedAt("via", VIA_HEADERS);
    assert |l| == 3;
  }

  lemma ForwardedForForwards()
    ensures Lower(FORWARDED_FOR) != "host" && Lower(FORWARDED_FOR) != Lower(VIA)
  {
    assert |Lower(FORWARDED_FOR)| == 15 && |Lower(VIA)| == 3;
  }

  // What the proxy's edit adds to an innocent request, as the judge sees it.
  lemma EditedContents(list: seq<Field>, level: int, sender: string, via: string, f: Field)
    ensures f in Edited(list, level, sender, via) ==>
      || f in list
      || (level in {2, 3} && f == MakeField(VIA, via))
      || (level == 3 && f == MakeField(FORWARDED_FOR, sender))
    ensures level in {2, 3} ==> MakeField(VIA, via) in Edited(list, level, sender, via)
    ensures level == 3 ==> MakeField(FORWARDED_FOR, sender) in Edited(list, level, sender, via)
  {
    ForwardedForForwards();
  }

  // Level pipeline: an innocent request through a server at level L is judged L. At level 1 always; at
  // level 2 if and only if the server's Via text does not show the client's address; at level 3 if and
  // only if the sender's address or the Via text does.
  lemma PipelineLevel(list: seq<Field>, level: int, sender: string, via: string, pats: Patterns)
    requires Innocent(list, pats) && 1 <= level <= 3
    ensures var verdict := Verdict(Seen(Edited(list, level, sender, via)), pats);
      && (level == 1 ==> verdict == 1)
      && (level == 2 ==> (verdict == 2 <==> !Matches(pats.local, via)))
      && (level == 3 ==> (verdict == 3 <==> Matches(pats.local, sender) || Matches(pats.local, via)))
  {
    var edited := Edited(list, level, sender, via);
    var seen := Seen(edited);
    LocalOrigin(list, level, sender, via, pats);
    if level == 1 {
      forall i | 0 <= i < |seen| ensures !IsVia(seen[i].key) && !Forwards(seen[i].key) && !Matches(pats.proxy, seen[i].value) {
        assert seen[i] in seen;
        SeenContents(edited, seen[i]);
        var f :| f in edited && seen[i] == Pair(f.key, f.value);
        EditedContents(list, level, sender, via, f);
      }
    } else {
      ViaSeen(list, level, sender, via);
    }
  }

  lemma ViaSeen(list: seq<Field>, level: int, sender: string, via: string)
    requires level == 2 || level == 3
    ensures AnyVia(Seen(Edited(list, level, sender, via)))
  {
    var edited, f := Edited(list, level, sender, via), MakeField(VIA, via);
    ViaIsVia();
    EditedContents(list, level, sender, via, f);
    SeenContents(edited, Pair(f.key, f.value));
    var i :| 0 <= i < |Seen(edited)| && Seen(edited)[i] == Pair(f.key, f.value);
    assert IsVia(Seen(edited)[i].key);
  }

  // The client's address reaches the judge exactly through what the proxy adds.
  lemma LocalOrigin(list: seq<Field>, level: int, sender: string, via: string, pats: Patterns)
    requires Innocent(list, pats) && 1 <= level <= 3
    ensures AnyLocal(Seen(Edited(list, level, sender, via)), pats) <==>
      || (level >= 2 && Matches(pats.local, via))
      || (level == 3 && Matches(pats.local, sender))
  {
    var edited := Edited(list, level, sender, via);
    var seen := Seen(edited);
    if AnyLocal(seen, pats) {
      var i :| 0 <= i < |seen| && Matches(pats.local, seen[i].value);
      assert seen[i] in seen;
      SeenContents(edited, seen[i]);
      var f :| f in edited && seen[i] == Pair(f.key, f.value);
      EditedContents(list, level, sender, via, f);
    }
    ViaIsVia();
    ForwardedForForwards();
    if level >= 2 && Matches(pats.local, via) {
      FieldSeen(edited, MakeField(VIA, via), pats) by {
        EditedContents(list, level, sender, via, MakeField(VIA, via));
      }
    }
    if level == 3 && Matches(pats.local, sender) {
      FieldSeen(edited, MakeField(FORWARDED_FOR, sender), pats) by {
        EditedContents(list, level, sender, via, MakeField(FORWARDED_FOR, sender));
      }
    }
  }

  lemma FieldSeen(list: seq<Field>, f: Field, pats: Patterns)
    requires f in list && f.key != "host" && Matches(pats.local, f.value)
    ensures AnyLocal(Seen(list), pats)
  {
    SeenContents(list, Pair(f.key, f.value));
    var i :| 0 <= i < |Seen(list)| && Seen(list)[i] == Pair(f.key, f.value);
    assert Matches(pats.local, Seen(list)[i].value);
  }

  // A round that brings the judge no header to look at.
  predicate Idle(c: Command) {
    c.AddHeaders? ==> Relevant(c.pairs) == []
  }

  lemma {:induction false} IdleRoundsBringNothing(cs: seq<Command>)
    requires forall c :: c in cs ==> Idle(c)
    ensures AllPairs(cs) == []
  {
    if cs != [] {
      var n := |cs| - 1;
      assert cs[n] in cs && Idle(cs[n]);
      IdleRoundsBringNothing(cs[..n]);
    }
  }

  // Through the real detector: after any earlier rounds that brought no headers, one round with the
  // delivered headers yields that level.
  lemma PipelineDetected(
      earlier: seq<Command>, list: seq<Field>, level: int, sender: string, via: string, pats: Patterns)
    requires forall c :: c in earlier ==> Idle(c)
    requires Innocent(list, pats) && 1 <= level <= 3
    requires level == 2 ==> !Matches(pats.local, via)
    requires level == 3 ==> Matches(pats.local, sender)
    ensures Rounds(earlier + [AddHeaders(Delivered(Edited(list, level, sender, via))), DetectNow], pats).level == level
  {
    var pairs := Delivered(Edited(list, level, sender, via));
    var cs := earlier + [AddHeaders(pairs)];
    assert cs + [DetectNow] == earlier + [AddHeaders(pairs), DetectNow];
    LevelExact(cs, pats);
    assert cs[..|earlier|] == earlier;
    IdleRoundsBringNothing(earlier);
    assert AllPairs(cs) == Relevant(pairs);
    VerdictIs(list, level, sender, via, pats);
  }

  lemma VerdictIs(list: seq<Field>, level: int, sender: string, via: string, pats: Patterns)
    requires Innocent(list, pats) && 1 <= level <= 3
    requires level == 2 ==> !Matches(pats.local, via)
    requires level == 3 ==> Matches(pats.local, sender)
    ensures Verdict(Seen(Edited(list, level, sender, via)), pats) == level
  {
    PipelineLevel(list, level, sender, via, pats);
  }

  // The client's own address matches the pattern made of it.
  lemma OwnAddressMatches(ip: string, others: seq<string>)
    ensures Matches([ip] + others, ip)
  {
    assert ip[0..0 + |ip|] == ip;
    assert AltEnd(ip, ip, 0) == Some(|ip|);
    assert ([ip] + others)[0] == ip;
    assert MatchesAt([ip] + others, ip, 0);
  }
}
