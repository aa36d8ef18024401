// What reading the head of a message yields, in the terms of its characters: TLS markers, status codes,
// header lines, and the judge's status check.
module HeadLaws {
  import opened Options
  import opened Text
  import opened Headers
  import opened RequestHelper
  import opened HeaderMerge
  import Handles = SocketHandle
  import Monitors = ResponseMonitor

  // ---------------------------------------------------------------- TLS

  // A chunk starts like TLS by its first byte: a handshake record, an SSLv2 hello or zero.
  ghost predicate StartsLikeTls(chunk: Buffer) {
    chunk != "" && chunk[0] as int in {0x16, 0x80, 0x00}
  }

  lemma TlsMeans(chunk: Buffer)
    ensures IsSecured(chunk) <==> StartsLikeTls(chunk)
  {
  }

  // The handle takes the connection for TLS exactly when some chunk starts like TLS.
  lemma TlsLaw(chunks: seq<Buffer>)
    ensures Handles.ReceiveAll(chunks).sslDetect <==> exists i :: 0 <= i < |chunks| && StartsLikeTls(chunks[i])
  {
    Handles.BufferInvariant(chunks);
    forall i | 0 <= i < |chunks| ensures IsSecured(chunks[i]) <==> StartsLikeTls(chunks[i]) {
      TlsMeans(chunks[i]);
    }
  }

  // ---------------------------------------------------------------- status codes

  // Three digits between two blanks at position k, and the number they write.
  ghost predicate HasCode(line: string, k: nat) {
    && k + 4 < |line| && line[k] == ' ' && line[k + 4] == ' '
    && '0' <= line[k + 1] <= '9' && '0' <= line[k + 2] <= '9' && '0' <= line[k + 3] <= '9'
  }

  ghost function CodeAt(line: string, k: nat): int
    requires HasCode(line, k)
  {
    100 * (line[k + 1] as int - 48) + 10 * (line[k + 2] as int - 48) + (line[k + 3] as int - 48)
  }

  lemma CodeMeans(line: string, k: nat)
    ensures StatusAt(line, k) <==> HasCode(line, k)
    ensures HasCode(line, k) ==> ThreeDigits(line[k + 1..k + 4]) == CodeAt(line, k)
  {
    if HasCode(line, k) {
      var d := line[k + 1..k + 4];
      assert d[0] == line[k + 1] && d[1] == line[k + 2] && d[2] == line[k + 3];
    }
  }

  ghost predicate FirstCode(line: string, k: nat) {
    HasCode(line, k) && forall j: nat :: j < k ==> !HasCode(line, j)
  }

  // The status code of a first line is the first number of three digits between blanks, if any.
  lemma StatusLaw(line: string)
    ensures StatusOf(line).None? <==> forall k: nat :: !HasCode(line, k)
    ensures StatusOf(line).Some? ==>
      exists k: nat :: FirstCode(line, k) && CodeAt(line, k) == StatusOf(line).value
  {
    forall k: nat ensures StatusAt(line, k) <==> HasCode(line, k) {
      CodeMeans(line, k);
    }
    if StatusOf(line).Some? {
      var k :| && 0 <= k && StatusAt(line, k) && StatusOf(line).value == ThreeDigits(line[k + 1..k + 4])
               && forall j :: 0 <= j < k ==> !StatusAt(line, j);
      CodeMeans(line, k);
      assert FirstCode(line, k);
    }
  }

  lemma FirstCodeUnique(line: string, j: nat, k: nat)
    requires FirstCode(line, j) && FirstCode(line, k)
    ensures j == k
  {
  }

  // The first line reports a failure: its status code is at least 400.
  ghost predicate ReportsFailure(line: string) {
    exists k: nat :: FirstCode(line, k) && CodeAt(line, k) >= 400
  }

  // A response counts as failed exactly when its first line has a status code of at least 400.
  lemma FailureLaw(data: Buffer)
    requires !IsSecured(data) && Framed(data)
    ensures Parse(data).query.Some? && (Parse(data).failed <==> ReportsFailure(Parse(data).query.value))
  {
    FramedGap(data);
    var line := Parse(data).query.value;
    StatusLaw(line);
    if StatusOf(line).Some? {
      var k: nat :| FirstCode(line, k) && CodeAt(line, k) == StatusOf(line).value;
      forall j: nat | FirstCode(line, j) ensures j == k {
        FirstCodeUnique(line, j, k);
      }
    }
  }

  // ---------------------------------------------------------------- the lines of a handle

  lemma SplitFew(line: string)
    ensures |Split(line, ":")| < 2 <==> !Contains(line, ":")
  {
  }

  lemma {:induction false} AllReadMeans(lines: seq<string>)
    ensures Handles.AllReadable(lines) <==> forall l :: l in lines ==> Contains(l, ":")
  {
    Handles.ParseLinesAt(lines);
    Handles.UntilNoneIsPrefix(Handles.ParseLines(lines));
    forall i | 0 <= i < |lines| ensures Handles.ReadField(lines[i]).Some? <==> Contains(lines[i], ":") {
      SplitFew(lines[i]);
    }
    if Handles.AllReadable(lines) {
      forall l | l in lines ensures Contains(l, ":") {
        var i :| 0 <= i < |lines| && lines[i] == l;
        assert Handles.ParseLines(lines)[i] == Some(Handles.ReadFields(lines)[i]);
      }
    } else {
      var n := |Handles.ReadFields(lines)|;
      assert Handles.ParseLines(lines)[n].None?;
      assert lines[n] in lines;
    }
  }

  // A fresh handle has an error after its first chunk exactly when the chunk is a complete head in the
  // clear whose header lines all have a colon and whose status code is at least 400; it throws
  // exactly when one of the lines has no colon.
  lemma FirstChunkLaw(chunk: Buffer)
    ensures var (s, threw) := Handles.Receive(Handles.FRESH, chunk);
      var head := !StartsLikeTls(chunk) && Framed(chunk);
      && (threw <==> head && exists l :: l in Split(Parse(chunk).headers.value, CRLF) && !Contains(l, ":"))
      && (s.error <==> head && !threw && ReportsFailure(Parse(chunk).query.value))
      && s.statusCode == if head && !threw then StatusOf(Parse(chunk).query.value) else None
  {
    TlsMeans(chunk);
    if !IsSecured(chunk) && Framed(chunk) {
      FramedGap(chunk);
      FailureLaw(chunk);
      AllReadMeans(Split(Parse(chunk).headers.value, CRLF));
    }
  }

  // ---------------------------------------------------------------- merged header lines

  // The overrides that are merged are all but host and connection, as often as given and in order.
  lemma {:induction false} KeptLaw(overrides: seq<Field>, f: Field)
    ensures f in Kept(overrides) <==> f in overrides && f.key != "host" && f.key != "connection"
    ensures multiset(Kept(overrides))[f] ==
      if f.key == "host" || f.key == "connection" then 0 else multiset(overrides)[f]
  {
    if overrides != [] {
      var n := |overrides| - 1;
      KeptLaw(overrides[..n], f);
      assert overrides == overrides[..n] + [overrides[n]];
    }
  }

  // One override more is merged after those before it, unless it is host or connection.
  lemma KeptGrows(overrides: seq<Field>, f: Field)
    ensures Kept([]) == []
    ensures Kept(overrides + [f]) == Kept(overrides) + if f.key == "host" || f.key == "connection" then [] else [f]
  {
    assert (overrides + [f])[..|overrides|] == overrides;
  }

  // A header line `name : value`, with any white space around the name's end and the value, is read as
  // that name and the trimmed value, colons in the value included.
  lemma LineLaw(name: string, blanks: string, value: string)
    requires name != "" && Trimmed(name) && !Contains(name, ":")
    requires forall i :: 0 <= i < |blanks| ==> IsSpace(blanks[i])
    ensures ReadLine(name + blanks + ":" + value) == MakeField(name, Trim(value))
  {
    SpacesLackColon(name, blanks);
    BeforeColonPrinted(name + blanks, value);
    TrimPadding(name, blanks);
    AfterPaddedName(name, blanks, value);
  }

  // A line without a colon is read as its own name and value.
  lemma NoColonLaw(line: string)
    requires !Contains(line, ":")
    ensures ReadLine(line) == MakeField(Trim(line), Trim(line))
  {
    var name := Trim(line);
    if name <= line {
      var rest := TrimLeft(line[|name|..]);
      var i := TrimLeftIsSuffix(line[|name|..]);
      if rest != "" && rest[0] == ':' {
        ColonChars(line, |name| + i);
        assert false;
      }
    }
  }

  lemma AfterPaddedName(name: string, blanks: string, value: string)
    requires forall i :: 0 <= i < |blanks| ==> IsSpace(blanks[i])
    ensures AfterName(name + blanks + ":" + value, name) == value
  {
    var line := name + blanks + ":" + value;
    assert line[|name|..] == blanks + (":" + value);
    SkipSpaces(blanks, ":" + value);
    assert (":" + value)[1..] == value;
  }

  lemma SpacesLackColon(name: string, blanks: string)
    requires !Contains(name, ":") && forall i :: 0 <= i < |blanks| ==> IsSpace(blanks[i])
    ensures !Contains(name + blanks, ":")
  {
    forall k | 0 <= k ensures !At(name + blanks, ":", k) {
      ColonChars(name + blanks, k);
      ColonChars(name, k);
    }
  }

  lemma {:induction false} SkipSpaces(blanks: string, rest: string)
    requires forall i :: 0 <= i < |blanks| ==> IsSpace(blanks[i])
    requires rest != "" && !IsSpace(rest[0])
    ensures TrimLeft(blanks + rest) == rest
    decreases |blanks|
  {
    if blanks == "" {
      assert blanks + rest == rest;
    } else {
      assert (blanks + rest)[1..] == blanks[1..] + rest;
      SkipSpaces(blanks[1..], rest);
    }
  }

  lemma {:induction false} DropSpaces(s: string, blanks: string)
    requires s != "" && !IsSpace(s[|s| - 1])
    requires forall i :: 0 <= i < |blanks| ==> IsSpace(blanks[i])
    ensures TrimRight(s + blanks) == s
    decreases |blanks|
  {
    if blanks == "" {
      assert s + blanks == s;
    } else {
      var n := |blanks| - 1;
      assert (s + blanks)[..|s + blanks| - 1] == s + blanks[..n];
      DropSpaces(s, blanks[..n]);
    }
  }

  lemma TrimPadding(name: string, blanks: string)
    requires name != "" && Trimmed(name)
    requires forall i :: 0 <= i < |blanks| ==> IsSpace(blanks[i])
    ensures Trim(name + blanks) == name
  {
    assert TrimLeft(name + blanks) == name + blanks;
    DropSpaces(name, blanks);
  }

  // ---------------------------------------------------------------- the judge's status check

  lemma SplitAtBlank(a: string, rest: string)
    requires !Contains(a, " ")
    ensures Split(a + " " + rest, " ") == [a] + Split(rest, " ")
  {
    var s := a + " " + rest;
    forall j | 0 <= j < |a| ensures !At(s, " ", j) {
      BlankChars(s, j);
      BlankChars(a, j);
    }
    BlankChars(s, |a|);
    FirstAt(s, " ", |a|);
    assert s[..|a|] == a && s[|a| + 1..] == rest;
  }

  lemma BlankChars(s: string, k: int)
    ensures At(s, " ", k) <==> 0 <= k < |s| && s[k] == ' '
  {
    if 0 <= k < |s| {
      assert s[k..k + 1] == [s[k]];
    }
  }

  // A head whose first line is `word code rest` closes the judge's socket exactly when the code has
  // three digits and is not in the two hundreds.
  lemma BadStatusLaw(word: string, code: string, rest: string, more: string)
    requires !Contains(word, " ") && !Contains(code, " ")
    requires !Contains(word + " " + code + " " + rest, "\n")
    ensures Monitors.BadStatus(word + " " + code + " " + rest + "\n" + more) <==>
      && |code| == 3 && '0' <= code[0] <= '9' && '0' <= code[1] <= '9' && '0' <= code[2] <= '9'
      && code[0] != '2'
  {
    var line := word + " " + code + " " + rest;
    FirstLine(line, more);
    ThreeWords(word, code, rest);
    if |code| == 3 && IsDigit(code[0]) && IsDigit(code[1]) && IsDigit(code[2]) {
      CodeRange(code);
    }
  }

  lemma ThreeWords(word: string, code: string, rest: string)
    requires !Contains(word, " ") && !Contains(code, " ")
    ensures |Monitors.Words(word + " " + code + " " + rest)| >= 3
    ensures Monitors.Words(word + " " + code + " " + rest)[1] == code
  {
    LineGroups(word, code, rest);
    SplitAtBlank(word, code + " " + rest);
    SplitAtBlank(code, rest);
    SecondOf(word, code, Split(rest, " "));
  }

  lemma LineGroups(word: string, code: string, rest: string)
    ensures word + " " + code + " " + rest == word + " " + (code + " " + rest)
  {
  }

  lemma SecondOf(word: string, code: string, words: seq<string>)
    requires words != []
    ensures |[word] + ([code] + words)| >= 3 && ([word] + ([code] + words))[1] == code
  {
  }

  lemma CodeRange(code: string)
    requires |code| == 3 && '0' <= code[0] <= '9' && '0' <= code[1] <= '9' && '0' <= code[2] <= '9'
    ensures code[0] == '2' <==> 200 <= ThreeDigits(code) < 300
  {
  }

  lemma FirstLine(line: string, more: string)
    requires !Contains(line, "\n")
    ensures Split(line + "\n" + more, "\n")[0] == line
  {
    var s := line + "\n" + more;
    forall j | 0 <= j < |line| ensures !At(s, "\n", j) {
      NewlineChars(s, j);
      NewlineChars(line, j);
    }
    NewlineChars(s, |line|);
    FirstAt(s, "\n", |line|);
    assert s[..|line|] == line;
  }

  lemma NewlineChars(s: string, k: int)
    ensures At(s, "\n", k) <==> 0 <= k < |s| && s[k] == '\n'
  {
    if 0 <= k < |s| {
      assert s[k..k + 1] == [s[k]];
    }
  }

  // A first line of fewer than three words closes nothing.
  lemma ShortStatusLaw(word: string, code: string, more: string)
    requires !Contains(word, " ") && !Contains(code, " ")
    requires !Contains(word, "\n") && !Contains(word + " " + code, "\n")
    ensures !Monitors.BadStatus(word + "\n" + more)
    ensures !Monitors.BadStatus(word + " " + code + "\n" + more)
  {
    FirstLine(word, more);
    FirstLine(word + " " + code, more);
    SplitAtBlank(word, code);
  }
}
