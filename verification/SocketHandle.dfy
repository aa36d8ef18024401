// The handle the proxy keeps on every socket: what it buffers, how it reads the head of the first
// chunk into a header list, and how it prints the request again.
module SocketHandle {
  import opened Options
  import opened Text
  import opened Headers
  import opened RequestHelper

  datatype Socket = Socket(
    data: Option<Buffer>, query: Option<Buffer>, headers: Option<Buffer>, body: Option<Buffer>,
    headersList: seq<Field>, sslDetect: bool, statusCode: Option<nat>, error: bool)

  const FRESH := Socket(None, None, None, None, [], false, None, false)

  // `split(':', 2)`: name and value are the parts before the first and second colon. None stands for
  // the exception on a line without a colon.
  function ReadField(line: string): Option<Field> {
    var parts := Split(line, ":");
    if |parts| < 2 then None else Some(MakeField(Trim(parts[0]), Trim(parts[1])))
  }

  function ParseLines(lines: seq<string>): seq<Option<Field>> {
    if lines == [] then [] else [ReadField(lines[0])] + ParseLines(lines[1..])
  }

  // The fields before the first line that throws.
  function UntilNone(xs: seq<Option<Field>>): seq<Field> {
    if xs == [] || xs[0].None? then [] else [xs[0].value] + UntilNone(xs[1..])
  }

  lemma {:induction false} ParseLinesAt(lines: seq<string>)
    ensures |ParseLines(lines)| == |lines|
    ensures forall i :: 0 <= i < |lines| ==> ParseLines(lines)[i] == ReadField(lines[i])
  {
    if lines != [] {
      ParseLinesAt(lines[1..]);
    }
  }

  lemma {:induction false} UntilNoneIsPrefix(xs: seq<Option<Field>>)
    ensures |UntilNone(xs)| <= |xs|
    ensures forall i :: 0 <= i < |UntilNone(xs)| ==> xs[i] == Some(UntilNone(xs)[i])
    ensures |UntilNone(xs)| < |xs| ==> xs[|UntilNone(xs)|].None?
  {
    if xs != [] && xs[0].Some? {
      UntilNoneIsPrefix(xs[1..]);
    }
  }

  function ReadFields(lines: seq<string>): seq<Field> {
    UntilNone(ParseLines(lines))
  }

  predicate AllReadable(lines: seq<string>) {
    |ReadFields(lines)| == |lines|
  }

  // The first chunk: its head, if complete, is read. The second result tells whether the handler threw.
  function ReceiveFirst(s: Socket, data: Buffer): (Socket, bool) {
    ReadHead(s.(data := Some(data)), Parse(data))
  }

  function ReadHead(s: Socket, req: RequestData): (Socket, bool) {
    if req.query.None? || req.headers.None? then (s, false)
    else
      var lines := Split(req.headers.value, CRLF);
      var s2 := s.(query := req.query, headers := req.headers, body := req.body,
                    headersList := s.headersList + ReadFields(lines));
      if !AllReadable(lines) then (s2, true)
      else
        (s2.(statusCode := if req.statusCode.Some? then req.statusCode else s.statusCode,
             error := s.error || req.failed), false)
  }

  // One 'data' event.
  function Receive(s: Socket, data: Buffer): (Socket, bool) {
    if s.sslDetect || IsSecured(data) then (s.(sslDetect := true), false)
    else if s.data.Some? then
      (s.(data := Some(s.data.value + data),
          body := if s.body.Some? then Some(s.body.value + data) else None), false)
    else ReceiveFirst(s, data)
  }

  function ReceiveAll(chunks: seq<Buffer>): Socket {
    if chunks == [] then FRESH
    else Receive(ReceiveAll(chunks[..|chunks| - 1]), chunks[|chunks| - 1]).0
  }

  // What `build` returns: the printed request, or the raw data when no head was read or TLS was seen.
  function Rebuild(s: Socket): Option<Buffer> {
    if s.query.None? || s.sslDetect || s.body.None? then s.data
    else Some(Printed(s.query.value, Join(PrintFields(s.headersList), CRLF), s.body.value))
  }

  class SocketHandle {
    var data: Option<Buffer>
    var query: Option<Buffer>
    var headers: Option<Buffer>
    var body: Option<Buffer>
    var headersList: seq<Field>
    var sslDetect: bool
    var statusCode: Option<nat>
    var error: bool
    // `meta.repeat`: proxies retried so far over this client socket.
    var repeat: int

    function View(): Socket
      reads this
    {
      Socket(data, query, headers, body, headersList, sslDetect, statusCode, error)
    }

    constructor ()
      ensures View() == FRESH && repeat == 0
    {
      data, query, headers, body := None, None, None, None;
      headersList, sslDetect, statusCode, error, repeat := [], false, None, false, 0;
    }

    method OnData(chunk: Buffer) returns (threw: bool)
      modifies this
      ensures (View(), threw) == Receive(old(View()), chunk)
      ensures repeat == old(repeat)
    {
      threw := false;
      if sslDetect || IsSecured(chunk) {
        sslDetect := true;
      } else if data.Some? {
        data := Some(data.value + chunk);
        if body.Some? {
          body := Some(body.value + chunk);
        }
      } else {
        threw := OnFirstChunk(chunk);
      }
    }

    method OnFirstChunk(chunk: Buffer) returns (threw: bool)
      requires !IsSecured(chunk)
      modifies this
      ensures (View(), threw) == ReceiveFirst(old(View()), chunk)
      ensures repeat == old(repeat)
    {
      data := Some(chunk);
      // The source repeats the splitting code of `RequestHelper.parse` here.
      threw := ReadParsed(Parse(chunk));
    }

    method ReadParsed(req: RequestData) returns (threw: bool)
      modifies this
      ensures (View(), threw) == ReadHead(old(View()), req)
      ensures repeat == old(repeat)
    {
      threw := false;
      if req.query.Some? && req.headers.Some? {
        query, headers, body := req.query, req.headers, req.body;
        threw := ReadHeaderLines(Split(req.headers.value, CRLF));
        if !threw {
          if req.statusCode.Some? {
            statusCode := req.statusCode;
          }
          if req.failed {
            error := true;
          }
        }
      }
    }

    method ReadHeaderLines(lines: seq<string>) returns (threw: bool)
      modifies this`headersList
      ensures headersList == old(headersList) + ReadFields(lines)
      ensures threw <==> !AllReadable(lines)
    {
      threw := false;
      ghost var parsed := ParseLines(lines);
      ParseLinesAt(lines);
      assert parsed[0..] == parsed;
      for i := 0 to |lines|
        invariant headersList + UntilNone(parsed[i..]) == old(headersList) + UntilNone(parsed)
        invariant |headersList| == |old(headersList)| + i
      {
        var f := ReadField(lines[i]);
        assert parsed[i..][0] == f && parsed[i..][1..] == parsed[i + 1..];
        if f.None? {
          return true;
        }
        headersList := headersList + [f.value];
      }
    }

    method RemoveHeader(key: string)
      modifies this`headersList
      ensures headersList == RemoveKey(old(headersList), Lower(key))
      ensures Thinned(headersList, old(headersList))
      ensures forall f :: multiset(headersList)[f] == if f.key == Lower(key) then 0 else multiset(old(headersList))[f]
    {
      RemoveKeyThins(headersList, Lower(key));
      forall f
        ensures multiset(RemoveKey(headersList, Lower(key)))[f]
          == if f.key == Lower(key) then 0 else multiset(headersList)[f]
      {
        RemoveKeyCounts(headersList, Lower(key), f);
      }
      headersList := RemoveKey(headersList, Lower(key));
    }

    method SetHeader(orgKey: string, value: string)
      modifies this`headersList
      ensures headersList == SetField(old(headersList), orgKey, value)
      ensures var n := |headersList| - 1;
        && headersList[n] == MakeField(orgKey, value)
        && Thinned(headersList[..n], old(headersList))
        && forall f :: multiset(headersList[..n])[f] == if f.key == Lower(orgKey) then 0 else multiset(old(headersList))[f]
    {
      RemoveHeader(orgKey);
      ghost var others := headersList;
      headersList := headersList + [MakeField(orgKey, value)];
      assert headersList[..|headersList| - 1] == others;
    }

    // Printing also overwrites the `headers` buffer.
    method Build() returns (buffer: Option<Buffer>)
      modifies this`headers
      ensures buffer == Rebuild(old(View()))
      ensures query.None? || sslDetect || body.None? ==> headers == old(headers)
    {
      if query.None? || sslDetect || body.None? {
        return data;
      }
      var strEntries := Join(PrintFields(headersList), CRLF);
      headers := Some(strEntries);
      buffer := Some(query.value + CRLF + strEntries + CRLF + CRLF + body.value);
      assert CRLF + CRLF == BLANK_LINE;
      assert query.value + CRLF + strEntries + CRLF + CRLF + body.value
          == query.value + CRLF + strEntries + BLANK_LINE + body.value;
    }
  }

  // ---------------------------------------------------------------- the buffer

  predicate SawTls(chunks: seq<Buffer>) {
    exists i :: 0 <= i < |chunks| && IsSecured(chunks[i])
  }

  // The chunks before the first one that starts like TLS.
  function Accepted(chunks: seq<Buffer>): seq<Buffer> {
    if chunks == [] then []
    else
      var n := |chunks| - 1;
      if SawTls(chunks) then Accepted(chunks[..n]) else Accepted(chunks[..n]) + [chunks[n]]
  }

  ghost predicate BufferExact(s: Socket, accepted: seq<Buffer>) {
    && (accepted == [] ==> s == FRESH.(sslDetect := s.sslDetect))
    && (accepted != [] ==> s.data == Some(Concat(accepted)))
    && (s.query.Some? <==> accepted != [] && Framed(accepted[0]) && !IsSecured(accepted[0]))
    && (s.query.Some? ==>
          && s.headers.Some? && s.body.Some?
          && s.query == Parse(accepted[0]).query
          && s.headers == Parse(accepted[0]).headers
          && s.headers.value != ""
          && s.headersList == ReadFields(Split(s.headers.value, CRLF))
          && s.data.value == Printed(s.query.value, s.headers.value, s.body.value))
    && (s.query.None? ==> s.body.None? && s.headersList == [])
  }

  lemma FirstChunkExact(data: Buffer)
    requires !IsSecured(data)
    ensures BufferExact(Receive(FRESH, data).0, [data])
  {
    assert [data][..0] == [];
    assert Concat([data]) == "" + data == data;
    if Framed(data) {
      FramedGap(data);
      BuildAfterParse(data);
      var req := Parse(data);
      assert Build(req).value == Printed(req.query.value, req.headers.value, req.body.value) by {
        PrintedIsBuilt(req);
      }
      assert [] + ReadFields(Split(req.headers.value, CRLF)) == ReadFields(Split(req.headers.value, CRLF));
    }
  }

  lemma PrintedIsBuilt(req: RequestData)
    requires req.query.Some? && req.headers.Some? && req.body.Some?
    ensures Build(req) == Some(Printed(req.query.value, req.headers.value, req.body.value))
  {
    var q, h, b := req.query.value, req.headers.value, req.body.value;
    assert q + CRLF + (h + CRLF + CRLF) + b == q + CRLF + h + BLANK_LINE + b;
  }

  lemma LaterChunkExact(s: Socket, accepted: seq<Buffer>, data: Buffer)
    requires BufferExact(s, accepted) && accepted != [] && !s.sslDetect && !IsSecured(data)
    ensures BufferExact(Receive(s, data).0, accepted + [data])
  {
    assert (accepted + [data])[..|accepted|] == accepted;
    if s.query.Some? {
      var q, h, b := s.query.value, s.headers.value, s.body.value;
      assert Printed(q, h, b) + data == Printed(q, h, b + data);
    }
  }

  // Whatever chunks arrive: the buffer is all of them up to the first that starts like TLS, and once
  // the head was read the buffer is first line, raw header block and body laid end to end.
  lemma {:induction false} BufferInvariant(chunks: seq<Buffer>)
    ensures BufferExact(ReceiveAll(chunks), Accepted(chunks))
    ensures ReceiveAll(chunks).sslDetect == SawTls(chunks)
  {
    if chunks != [] {
      var n := |chunks| - 1;
      BufferInvariant(chunks[..n]);
      var s, accepted := ReceiveAll(chunks[..n]), Accepted(chunks[..n]);
      assert SawTls(chunks) <==> SawTls(chunks[..n]) || IsSecured(chunks[n]) by {
        assert forall i :: 0 <= i < n ==> chunks[..n][i] == chunks[i];
      }
      if !SawTls(chunks) {
        if accepted == [] {
          FirstChunkExact(chunks[n]);
          assert accepted + [chunks[n]] == [chunks[n]];
        } else {
          LaterChunkExact(s, accepted, chunks[n]);
        }
      }
    }
  }

  // ---------------------------------------------------------------- printing the request again

  // A field that `split(':', 2)` reads back from its own print.
  ghost predicate PlainField(f: Field) {
    && !Contains(f.orgKey, ":") && Trimmed(f.orgKey)
    && !Contains(f.value, ":") && Trimmed(f.value)
  }

  // `Name: value`, both trimmed and without a colon.
  ghost predicate Canonical(line: string) {
    exists f :: PlainField(f) && line == PrintField(f)
  }

  lemma SplitAtColon(a: string, rest: string)
    requires !Contains(a, ":")
    ensures Split(a + ":" + rest, ":") == [a] + Split(rest, ":")
  {
    var s := a + ":" + rest;
    ColonChars(s, |a|);
    forall j | 0 <= j < |a| ensures !At(s, ":", j) {
      ColonChars(s, j);
      ColonChars(a, j);
    }
    FirstAt(s, ":", |a|);
    assert s[..|a|] == a && s[|a| + 1..] == rest;
  }

  lemma PaddedLacksColon(s: string)
    requires !Contains(s, ":")
    ensures !Contains(" " + s, ":")
  {
    forall j | 0 <= j ensures !At(" " + s, ":", j) {
      ColonChars(" " + s, j);
      ColonChars(s, j - 1);
    }
  }

  lemma ReadOfPrint(f: Field)
    requires PlainField(f)
    ensures ReadField(PrintField(f)) == Some(MakeField(f.orgKey, f.value))
  {
    assert PrintField(f) == f.orgKey + ":" + (" " + f.value);
    SplitAtColon(f.orgKey, " " + f.value);
    PaddedLacksColon(f.value);
    assert Split(" " + f.value, ":") == [" " + f.value];
    TrimOfTrimmed(f.orgKey);
    TrimOfPadded(f.value);
  }

  lemma {:induction false} PartsLackColon(s: string)
    ensures forall p :: p in Split(s, ":") ==> !Contains(p, ":")
    decreases |s|
  {
    var k := IndexOf(s, ":");
    if k != -1 {
      PartsLackColon(s[k + 1..]);
      forall j | 0 <= j ensures !At(s[..k], ":", j) {
        ColonChars(s[..k], j);
        ColonChars(s, j);
      }
    }
  }

  lemma ReadIsPlain(line: string)
    requires ReadField(line).Some?
    ensures PlainField(ReadField(line).value)
  {
    PartsLackColon(line);
    var parts := Split(line, ":");
    assert parts[0] in parts && parts[1] in parts;
    TrimmedPart(parts[0], ":");
    TrimmedPart(parts[1], ":");
  }

  // A header line survives reading and printing exactly when it is canonical.
  lemma LineSurvives(line: string)
    ensures ReadField(line).Some? && PrintField(ReadField(line).value) == line <==> Canonical(line)
  {
    if Canonical(line) {
      var f :| PlainField(f) && line == PrintField(f);
      ReadOfPrint(f);
    }
    if ReadField(line).Some? {
      ReadIsPlain(line);
    }
  }

  lemma {:induction false} SplitPartLacks(s: string, sep: string, i: nat, pat: string)
    requires sep != "" && !Contains(s, pat)
    requires i < |Split(s, sep)|
    ensures !Contains(Split(s, sep)[i], pat)
    decreases |s|
  {
    if Contains(s, sep) {
      SplitUnfolds(s, sep);
      if i > 0 {
        RestLacks(s, IndexOf(s, sep) + |sep|, pat);
        SplitPartLacks(s[IndexOf(s, sep) + |sep|..], sep, i - 1, pat);
      } else {
        var k := IndexOf(s, sep);
        PartLacks(s, 0, k, pat);
        assert s[0..k] == s[..k];
      }
    }
  }

  lemma RestLacks(s: string, k: nat, pat: string)
    requires k <= |s| && !Contains(s, pat)
    ensures !Contains(s[k..], pat)
  {
    PartLacks(s, k, |s|, pat);
    assert s[k..|s|] == s[k..];
  }

  lemma ReadLacksCrlf(line: string)
    requires !Contains(line, CRLF) && ReadField(line).Some?
    ensures var f := ReadField(line).value; !Contains(f.orgKey, CRLF) && !Contains(f.value, CRLF)
    ensures Trimmed(ReadField(line).value.orgKey) && Trimmed(ReadField(line).value.value)
  {
    var parts := Split(line, ":");
    SplitPartLacks(line, ":", 0, CRLF);
    SplitPartLacks(line, ":", 1, CRLF);
    TrimmedPart(parts[0], CRLF);
    TrimmedPart(parts[1], CRLF);
  }

  lemma BlockSurvives(headers: Buffer)
    requires headers != ""
    ensures Join(PrintFields(ReadFields(Split(headers, CRLF))), CRLF) == headers
      <==> forall l :: l in Split(headers, CRLF) ==> Canonical(l)
  {
    var lines := Split(headers, CRLF);
    JoinSplit(headers, CRLF);
    SplitLines(headers);
    LinesSurvive(lines);
    if Join(PrintFields(ReadFields(lines)), CRLF) == headers {
      ReadFieldsAreLines(lines);
      SplitJoin(PrintFields(ReadFields(lines)));
    }
  }

  lemma ReadFieldsAt(lines: seq<string>)
    ensures |ReadFields(lines)| <= |lines|
    ensures forall i :: 0 <= i < |ReadFields(lines)| ==> ReadField(lines[i]) == Some(ReadFields(lines)[i])
    ensures |ReadFields(lines)| < |lines| ==> ReadField(lines[|ReadFields(lines)|]).None?
  {
    ParseLinesAt(lines);
    UntilNoneIsPrefix(ParseLines(lines));
  }

  lemma ReadFieldsAreLines(lines: seq<string>)
    requires Lines(lines)
    ensures Lines(PrintFields(ReadFields(lines)))
  {
    var fields := ReadFields(lines);
    ReadFieldsAt(lines);
    forall i | 0 <= i < |fields| ensures !Contains(PrintField(fields[i]), CRLF) {
      assert lines[i] in lines;
      ReadLacksCrlf(lines[i]);
      PrintLacksCrlf(fields[i]);
    }
  }

  lemma LinesSurvive(lines: seq<string>)
    ensures PrintFields(ReadFields(lines)) == lines <==> forall l :: l in lines ==> Canonical(l)
  {
    var fields := ReadFields(lines);
    ReadFieldsAt(lines);
    if forall l :: l in lines ==> Canonical(l) {
      forall i | 0 <= i < |lines| ensures ReadField(lines[i]).Some? && PrintField(ReadField(lines[i]).value) == lines[i] {
        assert lines[i] in lines;
        LineSurvives(lines[i]);
      }
    }
    if PrintFields(fields) == lines {
      forall l | l in lines ensures Canonical(l) {
        var i :| 0 <= i < |lines| && lines[i] == l;
        assert PrintField(fields[i]) == l;
        LineSurvives(l);
      }
    }
  }

  // With a head read and no TLS seen, `build` on an unedited handle gives the received bytes back if
  // and only if every header line is `Name: value`, trimmed, with no colon in the value.
  lemma RebuildExact(chunks: seq<Buffer>)
    requires ReceiveAll(chunks).query.Some? && !SawTls(chunks)
    ensures var s := ReceiveAll(chunks);
      && s.headers.Some?
      && (Rebuild(s) == s.data <==> forall l :: l in Split(s.headers.value, CRLF) ==> Canonical(l))
  {
    BufferInvariant(chunks);
    var s := ReceiveAll(chunks);
    BlockSurvives(s.headers.value);
    var printed := Join(PrintFields(s.headersList), CRLF);
    if Printed(s.query.value, printed, s.body.value) == Printed(s.query.value, s.headers.value, s.body.value) {
      PrintedInjective(s.query.value, printed, s.headers.value, s.body.value);
    }
  }

  lemma PrintedInjective(query: Buffer, a: Buffer, b: Buffer, body: Buffer)
    requires Printed(query, a, body) == Printed(query, b, body)
    ensures a == b
  {
    var n := |query| + 2;
    assert |Printed(query, a, body)| == n + |a| + 4 + |body|;
    assert Printed(query, a, body)[n..n + |a|] == a;
    assert Printed(query, b, body)[n..n + |b|] == b;
  }

  // Without a head, or once TLS was seen, nothing is printed anew: the buffered bytes go out as they came.
  lemma RebuildRaw(chunks: seq<Buffer>)
    requires ReceiveAll(chunks).query.None? || SawTls(chunks)
    ensures Rebuild(ReceiveAll(chunks)) == if Accepted(chunks) == [] then None else Some(Concat(Accepted(chunks)))
  {
    BufferInvariant(chunks);
  }

  lemma LineWithPort(name: string, host: string, port: string)
    ensures name + ": " + host + ":" + port == name + ":" + (" " + host + ":" + port)
  {
  }

  // The common line that does not survive: a host with a port is printed again without the port.
  lemma PortIsLost(name: string, host: string, port: string)
    requires !Contains(name, ":") && Trimmed(name) && !Contains(host, ":") && Trimmed(host)
    ensures ReadField(name + ": " + host + ":" + port) == Some(MakeField(name, host))
  {
    var rest := " " + host + ":" + port;
    LineWithPort(name, host, port);
    SplitAtColon(name, rest);
    PaddedLacksColon(host);
    SplitAtColon(" " + host, port);
    TrimOfTrimmed(name);
    TrimOfPadded(host);
  }
}
