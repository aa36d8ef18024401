// Buffers and header text: one character per byte, so that for ASCII data a buffer and its
// `toString()` are the same value. First occurrences, splitting, joining, trimming and case folding.
module Text {
  type Buffer = string

  const CRLF := "\r\n"
  const BLANK_LINE := "\r\n\r\n"

  function Concat(chunks: seq<Buffer>): string {
    if chunks == [] then "" else Concat(chunks[..|chunks| - 1]) + chunks[|chunks| - 1]
  }

  // ---------------------------------------------------------------- first occurrences

  predicate At(s: string, pat: string, k: int) {
    0 <= k && k + |pat| <= |s| && s[k..k + |pat|] == pat
  }

  // JavaScript's `indexOf`: the first occurrence of `pat` at or after `from`, or -1.
  function Find(s: string, pat: string, from: nat): (r: int)
    requires from <= |s|
    ensures r == -1 || (from <= r && At(s, pat, r))
    ensures forall k :: from <= k < (if r == -1 then |s| + 1 else r) ==> !At(s, pat, k)
    decreases |s| - from
  {
    if At(s, pat, from) then from
    else if from == |s| then -1
    else Find(s, pat, from + 1)
  }

  function IndexOf(s: string, pat: string): int {
    Find(s, pat, 0)
  }

  predicate Contains(s: string, pat: string) {
    IndexOf(s, pat) >= 0
  }

  // Whatever occurs first at `k` is what `indexOf` returns.
  lemma FirstAt(s: string, pat: string, k: nat)
    requires At(s, pat, k)
    requires forall j :: 0 <= j < k ==> !At(s, pat, j)
    ensures IndexOf(s, pat) == k
  {
  }

  lemma AtAppended(s: string, t: string, pat: string, k: int)
    requires k + |pat| <= |s|
    ensures At(s, pat, k) == At(s + t, pat, k)
  {
    if 0 <= k {
      assert (s + t)[k..k + |pat|] == s[k..k + |pat|];
    }
  }

  // More text after it does not move a first occurrence.
  lemma FindExtends(s: string, t: string, pat: string)
    requires Contains(s, pat)
    ensures IndexOf(s + t, pat) == IndexOf(s, pat)
  {
    var k := IndexOf(s, pat);
    AtAppended(s, t, pat, k);
    forall j | 0 <= j < k ensures !At(s + t, pat, j) {
      AtAppended(s, t, pat, j);
    }
    FirstAt(s + t, pat, k);
  }

  lemma CrlfChars(s: string, k: int)
    ensures At(s, CRLF, k) <==> 0 <= k && k + 1 < |s| && s[k] == '\r' && s[k + 1] == '\n'
  {
    if 0 <= k && k + 2 <= |s| {
      assert s[k..k + 2] == [s[k], s[k + 1]];
    }
  }

  lemma BlankLineChars(s: string, k: int)
    ensures At(s, BLANK_LINE, k) <==>
      0 <= k && k + 3 < |s| && s[k] == '\r' && s[k + 1] == '\n' && s[k + 2] == '\r' && s[k + 3] == '\n'
  {
    if 0 <= k && k + 4 <= |s| {
      assert s[k..k + 4] == [s[k], s[k + 1], s[k + 2], s[k + 3]];
    }
  }

  lemma ColonChars(s: string, k: int)
    ensures At(s, ":", k) <==> 0 <= k < |s| && s[k] == ':'
  {
    if 0 <= k < |s| {
      assert s[k..k + 1] == [s[k]];
    }
  }

  lemma AtPart(s: string, i: nat, j: nat, pat: string, k: nat)
    requires i <= j <= |s| && i + k + |pat| <= j
    ensures At(s[i..j], pat, k) == At(s, pat, i + k)
  {
    var a, b := s[i..j][k..k + |pat|], s[i + k..i + k + |pat|];
    assert |a| == |b|;
    assert forall n :: 0 <= n < |pat| ==> a[n] == b[n];
    assert a == b;
  }

  lemma PartLacks(s: string, i: nat, j: nat, pat: string)
    requires i <= j <= |s| && !Contains(s, pat)
    ensures !Contains(s[i..j], pat)
  {
    var k := IndexOf(s[i..j], pat);
    if k != -1 {
      AtPart(s, i, j, pat, k);
    }
  }

  // ---------------------------------------------------------------- lines

  function Split(s: string, sep: string): (r: seq<string>)
    requires sep != ""
    ensures |r| > 0
    decreases |s|
  {
    var k := IndexOf(s, sep);
    if k == -1 then [s] else [s[..k]] + Split(s[k + |sep|..], sep)
  }

  function Join(parts: seq<string>, sep: string): string {
    if parts == [] then ""
    else if |parts| == 1 then parts[0]
    else parts[0] + sep + Join(parts[1..], sep)
  }

  lemma SplitUnfolds(s: string, sep: string)
    requires sep != "" && Contains(s, sep)
    ensures 0 <= IndexOf(s, sep) && IndexOf(s, sep) + |sep| <= |s|
    ensures Split(s, sep) == [s[..IndexOf(s, sep)]] + Split(s[IndexOf(s, sep) + |sep|..], sep)
    ensures s == s[..IndexOf(s, sep)] + sep + s[IndexOf(s, sep) + |sep|..]
  {
    var k := IndexOf(s, sep);
    assert s == s[..k] + s[k..k + |sep|] + s[k + |sep|..];
  }

  lemma JoinCons(part: string, parts: seq<string>, sep: string)
    requires parts != []
    ensures Join([part] + parts, sep) == part + sep + Join(parts, sep)
  {
    assert ([part] + parts)[1..] == parts;
  }

  lemma {:induction false} JoinSplit(s: string, sep: string)
    requires sep != ""
    ensures Join(Split(s, sep), sep) == s
    decreases |s|
  {
    if Contains(s, sep) {
      var k := IndexOf(s, sep);
      SplitUnfolds(s, sep);
      JoinSplit(s[k + |sep|..], sep);
      JoinCons(s[..k], Split(s[k + |sep|..], sep), sep);
    }
  }

  ghost predicate Lines(parts: seq<string>) {
    forall p :: p in parts ==> !Contains(p, CRLF)
  }

  // The first CRLF after a line without one is the one appended to it.
  lemma LineEnd(line: string, rest: string)
    requires !Contains(line, CRLF)
    ensures IndexOf(line + CRLF + rest, CRLF) == |line|
  {
    var s := line + CRLF + rest;
    CrlfChars(s, |line|);
    forall j | 0 <= j < |line| ensures !At(s, CRLF, j) {
      CrlfChars(s, j);
      CrlfChars(line, j);
    }
    FirstAt(s, CRLF, |line|);
  }

  lemma {:induction false} SplitJoin(parts: seq<string>)
    requires parts != [] && Lines(parts)
    ensures Split(Join(parts, CRLF), CRLF) == parts
    decreases |parts|
  {
    assert parts[0] in parts;
    if |parts| > 1 {
      assert forall p :: p in parts[1..] ==> p in parts;
      SplitJoin(parts[1..]);
      var rest := Join(parts[1..], CRLF);
      LineEnd(parts[0], rest);
      var s := parts[0] + CRLF + rest;
      assert s[..|parts[0]|] == parts[0];
      assert s[|parts[0]| + 2..] == rest;
    }
  }

  lemma {:induction false} SplitLines(s: string)
    ensures Lines(Split(s, CRLF))
    decreases |s|
  {
    var k := IndexOf(s, CRLF);
    if k != -1 {
      SplitLines(s[k + 2..]);
      assert s[..k] + s[k..] == s;
      forall j | 0 <= j <= k ensures !At(s[..k], CRLF, j) {
        if j + 2 <= k {
          AtAppended(s[..k], s[k..], CRLF, j);
        }
      }
    }
  }

  // ---------------------------------------------------------------- white space and case

  predicate IsSpace(c: char) {
    c == ' ' || '\t' <= c <= '\r'
  }

  function TrimLeft(s: string): (r: string)
    ensures r == "" || !IsSpace(r[0])
  {
    if s != "" && IsSpace(s[0]) then TrimLeft(s[1..]) else s
  }

  lemma {:induction false} TrimLeftIsSuffix(s: string) returns (i: nat)
    ensures i <= |s| && TrimLeft(s) == s[i..]
  {
    if s != "" && IsSpace(s[0]) {
      var k := TrimLeftIsSuffix(s[1..]);
      i := k + 1;
      assert s[1..][k..] == s[i..];
    } else {
      i := 0;
    }
  }

  function TrimRight(s: string): (r: string)
    ensures r <= s
    ensures r == "" || !IsSpace(r[|r| - 1])
  {
    if s != "" && IsSpace(s[|s| - 1]) then TrimRight(s[..|s| - 1]) else s
  }

  function Trim(s: string): string {
    TrimRight(TrimLeft(s))
  }

  predicate Trimmed(s: string) {
    s == "" || (!IsSpace(s[0]) && !IsSpace(s[|s| - 1]))
  }

  lemma TrimIsTrimmed(s: string)
    ensures Trimmed(Trim(s))
  {
    var l := TrimLeft(s);
    var r := TrimRight(l);
    assert r != "" ==> r[0] == l[0];
  }

  lemma TrimIsPart(s: string) returns (i: nat, j: nat)
    ensures i <= j <= |s| && Trim(s) == s[i..j]
  {
    i := TrimLeftIsSuffix(s);
    var r := TrimRight(s[i..]);
    j := i + |r|;
    PrefixOfSuffix(s, i, r);
  }

  lemma PrefixOfSuffix(s: string, i: nat, r: string)
    requires i <= |s| && r <= s[i..]
    ensures r == s[i..i + |r|]
  {
  }

  lemma TrimmedPart(s: string, pat: string)
    requires !Contains(s, pat)
    ensures Trimmed(Trim(s)) && !Contains(Trim(s), pat)
  {
    TrimIsTrimmed(s);
    var i, j := TrimIsPart(s);
    PartLacks(s, i, j, pat);
  }

  lemma TrimOfTrimmed(s: string)
    requires Trimmed(s)
    ensures Trim(s) == s
  {
  }

  lemma TrimOfPadded(s: string)
    requires Trimmed(s)
    ensures Trim(" " + s) == s
  {
    assert (" " + s)[1..] == s;
    assert TrimLeft(s) == s;
    assert TrimLeft(" " + s) == s;
  }

  function LowerChar(c: char): char {
    if 'A' <= c <= 'Z' then c + ('a' - 'A') else c
  }

  // Lower case over ASCII.
  function Lower(s: string): (r: string)
    ensures |r| == |s|
    ensures forall i :: 0 <= i < |s| ==> r[i] == LowerChar(s[i])
  {
    seq(|s|, i requires 0 <= i < |s| => LowerChar(s[i]))
  }

  predicate IsDigit(c: char) {
    '0' <= c <= '9'
  }

  function DigitValue(c: char): nat
    requires IsDigit(c)
  {
    (c - '0') as nat
  }

  // The number written by three digits.
  function ThreeDigits(s: string): nat
    requires |s| == 3 && IsDigit(s[0]) && IsDigit(s[1]) && IsDigit(s[2])
  {
    100 * DigitValue(s[0]) + 10 * DigitValue(s[1]) + DigitValue(s[2])
  }
}
