// Splitting a request or response buffer into first line, header block and body, and printing it back.
module RequestHelper {
  import opened Options
  import opened Text

  datatype RequestData = RequestData(
    secured: bool, query: Option<Buffer>, headers: Option<Buffer>, body: Option<Buffer>,
    statusCode: Option<nat>, failed: bool)

  const PLAIN := RequestData(false, None, None, None, None, false)

  // First byte of a TLS record, an SSLv2 hello, or zero.
  predicate IsSecured(data: Buffer) {
    data != "" && (data[0] == '\U{16}' || data[0] == '\U{80}' || data[0] == '\0')
  }

  // The head is recognised only when some CRLF comes before the blank line.
  predicate Framed(data: Buffer) {
    IndexOf(data, CRLF) < IndexOf(data, BLANK_LINE) && IndexOf(data, BLANK_LINE) > 0
  }

  // In a framed buffer the three parts have non-negative lengths.
  lemma FramedGap(data: Buffer)
    requires Framed(data)
    ensures 0 <= IndexOf(data, CRLF)
    ensures IndexOf(data, CRLF) + 2 < IndexOf(data, BLANK_LINE)
    ensures IndexOf(data, BLANK_LINE) + 4 <= |data|
  {
    var e, h := IndexOf(data, CRLF), IndexOf(data, BLANK_LINE);
    BlankLineChars(data, h);
    CrlfChars(data, h);
    CrlfChars(data, e);
    if e + 2 == h {
      BlankLineChars(data, e);
    }
  }

  // A status code is a run of three digits between two blanks.
  predicate StatusAt(line: string, k: int) {
    && 0 <= k && k + 4 < |line|
    && line[k] == ' ' && line[k + 4] == ' '
    && IsDigit(line[k + 1]) && IsDigit(line[k + 2]) && IsDigit(line[k + 3])
  }

  function StatusFrom(line: string, from: nat): (r: Option<nat>)
    requires from <= |line|
    ensures r.None? <==> forall k :: from <= k ==> !StatusAt(line, k)
    ensures r.Some? ==> (exists k :: && from <= k && StatusAt(line, k)
                                       && r.value == ThreeDigits(line[k + 1..k + 4])
                                       && forall j :: from <= j < k ==> !StatusAt(line, j))
    decreases |line| - from
  {
    if StatusAt(line, from) then Some(ThreeDigits(line[from + 1..from + 4]))
    else if from == |line| then None
    else StatusFrom(line, from + 1)
  }

  function StatusOf(line: string): Option<nat> {
    StatusFrom(line, 0)
  }

  predicate IsError(status: Option<nat>) {
    status.Some? && status.value >= 400
  }

  function Parse(data: Buffer): RequestData {
    if IsSecured(data) then PLAIN.(secured := true)
    else if Framed(data) then
      FramedGap(data);
      var e, h := IndexOf(data, CRLF), IndexOf(data, BLANK_LINE);
      var query := data[..e];
      RequestData(false, Some(query), Some(data[e + 2..h]), Some(data[h + 4..]),
                  StatusOf(query), IsError(StatusOf(query)))
    else PLAIN
  }

  // None stands for the thrown 'empty query'.
  function Build(req: RequestData): Option<Buffer> {
    if req.query.None? then None
    else Some(
      req.query.value + CRLF
      + (if req.headers.Some? then req.headers.value + CRLF + CRLF else "")
      + (if req.body.Some? then req.body.value else ""))
  }

  lemma FivePieces(data: Buffer, e: nat, h: nat)
    requires e + 2 < h && h + 4 <= |data|
    requires data[e..e + 2] == CRLF && data[h..h + 4] == BLANK_LINE
    ensures data[..e] + CRLF + (data[e + 2..h] + CRLF + CRLF) + data[h + 4..] == data
  {
    assert data == data[..e] + data[e..e + 2] + data[e + 2..h] + data[h..h + 4] + data[h + 4..];
    assert CRLF + CRLF == BLANK_LINE;
  }

  // Printing what was parsed gives the buffer back exactly when the buffer is plain and framed; for
  // any other buffer there is nothing to print.
  lemma BuildAfterParse(data: Buffer)
    ensures !IsSecured(data) && Framed(data) ==> Build(Parse(data)) == Some(data)
    ensures IsSecured(data) || !Framed(data) ==> Build(Parse(data)) == None
  {
    if !IsSecured(data) && Framed(data) {
      FramedGap(data);
      var e, h := IndexOf(data, CRLF), IndexOf(data, BLANK_LINE);
      FivePieces(data, e, h);
    }
  }

  // ---------------------------------------------------------------- printing, then parsing

  function Printed(query: Buffer, headers: Buffer, body: Buffer): Buffer {
    query + CRLF + headers + BLANK_LINE + body
  }

  predicate CleanHeaders(headers: Buffer) {
    && headers != ""
    && !Contains(headers, BLANK_LINE)
    && !At(headers, CRLF, 0)
    && !At(headers, CRLF, |headers| - 2)
  }

  lemma PrintedChars(query: Buffer, headers: Buffer, body: Buffer)
    ensures var s, m := Printed(query, headers, body), |query| + 2 + |headers|;
      && |s| == m + 4 + |body|
      && (forall i :: 0 <= i < |query| ==> s[i] == query[i])
      && s[|query|] == '\r' && s[|query| + 1] == '\n'
      && (forall i :: |query| + 2 <= i < m ==> s[i] == headers[i - |query| - 2])
      && s[m] == '\r' && s[m + 1] == '\n' && s[m + 2] == '\r' && s[m + 3] == '\n'
  {
  }

  lemma FirstCrlf(query: Buffer, headers: Buffer, body: Buffer)
    ensures IndexOf(Printed(query, headers, body), CRLF) == |query| <==> !Contains(query, CRLF)
    ensures 0 <= IndexOf(Printed(query, headers, body), CRLF) <= |query|
  {
    var rest := headers + BLANK_LINE + body;
    assert Printed(query, headers, body) == query + CRLF + rest;
    FirstCrlfBefore(query, rest);
  }

  lemma FirstCrlfBefore(query: Buffer, rest: Buffer)
    ensures IndexOf(query + CRLF + rest, CRLF) == |query| <==> !Contains(query, CRLF)
    ensures 0 <= IndexOf(query + CRLF + rest, CRLF) <= |query|
  {
    if Contains(query, CRLF) {
      FindExtends(query, CRLF + rest, CRLF);
      assert query + (CRLF + rest) == query + CRLF + rest;
    } else {
      LineEnd(query, rest);
    }
  }

  lemma FirstBlankLine(query: Buffer, headers: Buffer, body: Buffer)
    requires !Contains(query, CRLF)
    ensures IndexOf(Printed(query, headers, body), BLANK_LINE) == |query| + 2 + |headers| <==> CleanHeaders(headers)
    ensures 0 <= IndexOf(Printed(query, headers, body), BLANK_LINE) <= |query| + 2 + |headers|
  {
    var s, m := Printed(query, headers, body), |query| + 2 + |headers|;
    PrintedChars(query, headers, body);
    BlankLineChars(s, m);
    if CleanHeaders(headers) {
      forall j | 0 <= j < m ensures !At(s, BLANK_LINE, j) {
        NoEarlyBlankLine(query, headers, body, j);
      }
      FirstAt(s, BLANK_LINE, m);
    } else {
      EarlyBlankLine(query, headers, body);
    }
  }

  lemma NoEarlyBlankLine(query: Buffer, headers: Buffer, body: Buffer, j: nat)
    requires !Contains(query, CRLF) && CleanHeaders(headers) && j < |query| + 2 + |headers|
    ensures !At(Printed(query, headers, body), BLANK_LINE, j)
  {
    var s := Printed(query, headers, body);
    PrintedChars(query, headers, body);
    BlankLineChars(s, j);
    CrlfChars(query, j);
    CrlfChars(headers, 0);
    CrlfChars(headers, |headers| - 2);
    BlankLineChars(headers, j - |query| - 2);
  }

  // Headers that are not clean let a blank line end the head too early.
  lemma EarlyBlankLine(query: Buffer, headers: Buffer, body: Buffer)
    requires !CleanHeaders(headers)
    ensures exists j :: 0 <= j < |query| + 2 + |headers| && At(Printed(query, headers, body), BLANK_LINE, j)
  {
    var s, n := Printed(query, headers, body), |query|;
    PrintedChars(query, headers, body);
    BlankLineChars(s, n);
    CrlfChars(headers, 0);
    CrlfChars(headers, |headers| - 2);
    if headers == "" || At(headers, CRLF, 0) {
      assert At(s, BLANK_LINE, n);
    } else if At(headers, CRLF, |headers| - 2) {
      BlankLineChars(s, n + |headers|);
    } else {
      var k := IndexOf(headers, BLANK_LINE);
      BlankLineChars(headers, k);
      BlankLineChars(s, n + 2 + k);
    }
  }

  // Parsing what was printed gives the three parts back if and only if the first line is not taken
  // for TLS and holds no CRLF, and the header block is non-empty, holds no blank line and neither
  // starts nor ends with CRLF.
  lemma ParseAfterBuild(query: Buffer, headers: Buffer, body: Buffer)
    ensures var req := PLAIN.(query := Some(query), headers := Some(headers), body := Some(body));
      var back := Parse(Build(req).value);
      (back.query == req.query && back.headers == req.headers && back.body == req.body)
      <==> (!IsSecured(query) && !Contains(query, CRLF) && CleanHeaders(headers))
  {
    var req := PLAIN.(query := Some(query), headers := Some(headers), body := Some(body));
    var s := Printed(query, headers, body);
    assert Build(req).value == s;
    PrintedChars(query, headers, body);
    FirstCrlf(query, headers, body);
    var e, h := IndexOf(s, CRLF), IndexOf(s, BLANK_LINE);
    if !Contains(query, CRLF) {
      FirstBlankLine(query, headers, body);
      if CleanHeaders(headers) {
        assert s[..e] == query && s[e + 2..h] == headers && s[h + 4..] == body;
      }
    }
    assert IsSecured(s) == IsSecured(query);
    if !IsSecured(s) && Framed(s) {
      FramedGap(s);
    }
  }
}
