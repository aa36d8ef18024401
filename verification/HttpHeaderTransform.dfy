// The stream transform that merges override headers into the head of a connection's first chunk.
module HttpHeaderTransform {
  import opened Options
  import opened Text
  import opened Headers
  import opened RequestHelper
  import opened HeaderMerge

  // `ssl` is unset until the first chunk; `headers` may be absent.
  datatype Transform = Transform(ssl: Option<bool>, headers: Option<seq<Field>>)

  // The chunk with merged headers, or the chunk itself when there is no head to print.
  function Rewrite(chunk: Buffer, overrides: seq<Field>): Buffer {
    var req := Parse(chunk);
    if req.secured then chunk
    else
      var built := Build(req.(headers := Some(Merged(req.headers, overrides))));
      if built.Some? then built.value else chunk
  }

  function Step(t: Transform, chunk: Buffer): (Transform, Buffer) {
    if t.headers.None? || t.ssl.Some? then (t, chunk)
    else (t.(ssl := Some(IsSecured(chunk))), Rewrite(chunk, t.headers.value))
  }

  function Stream(t: Transform, chunks: seq<Buffer>): seq<Buffer>
    decreases |chunks|
  {
    if chunks == [] then []
    else
      var (t', out) := Step(t, chunks[0]);
      [out] + Stream(t', chunks[1..])
  }

  class HeaderTransform {
    var ssl: Option<bool>
    const headers: Option<seq<Field>>

    function View(): Transform
      reads this
    {
      Transform(ssl, headers)
    }

    constructor (headers: Option<seq<Field>>)
      ensures View() == Transform(None, headers)
    {
      this.ssl, this.headers := None, headers;
    }

    method TransformChunk(chunk: Buffer) returns (out: Buffer)
      modifies this
      ensures (View(), out) == Step(old(View()), chunk)
    {
      out := chunk;
      if headers.Some? {
        var requestData := Parse(chunk);
        if ssl.None? {
          ssl := Some(requestData.secured);
          if !requestData.secured {
            var merged := AddHeaders(requestData, headers.value);
            var built := Build(merged);
            if built.Some? {
              out := built.value;
            }
          }
        }
      }
    }
  }

  // ---------------------------------------------------------------- the stream

  lemma {:induction false} PassThrough(t: Transform, chunks: seq<Buffer>)
    requires t.headers.None? || t.ssl.Some?
    ensures Stream(t, chunks) == chunks
    decreases |chunks|
  {
    if chunks != [] {
      PassThrough(t, chunks[1..]);
    }
  }

  // Only the first chunk of a stream is ever rewritten, and none without override headers.
  lemma OnlyFirstChunk(headers: Option<seq<Field>>, chunks: seq<Buffer>)
    requires chunks != []
    ensures Stream(Transform(None, headers), chunks) ==
      [if headers.Some? then Rewrite(chunks[0], headers.value) else chunks[0]] + chunks[1..]
  {
    if headers.None? {
      PassThrough(Transform(None, headers), chunks);
    } else {
      PassThrough(Step(Transform(None, headers), chunks[0]).0, chunks[1..]);
    }
  }

  // ---------------------------------------------------------------- the rewritten head

  // Header blocks that end where they seem to: joining two keeps a blank line out exactly when neither
  // has one nor starts or ends with CRLF.
  lemma JoinedClean(a: string, b: string)
    ensures CleanHeaders(a + CRLF + b) <==> CleanHeaders(a) && CleanHeaders(b)
  {
    var s, n := a + CRLF + b, |a|;
    JoinedEdges(a, b);
    if CleanHeaders(a) && CleanHeaders(b) {
      forall j | 0 <= j ensures !At(s, BLANK_LINE, j) {
        NoBlankLineAt(a, b, j);
      }
    } else if Contains(a, BLANK_LINE) {
      BlankLineInside(s, 0, a);
    } else if Contains(b, BLANK_LINE) {
      BlankLineInside(s, n + 2, b);
    }
  }

  lemma BlankLineInside(s: string, from: nat, part: string)
    requires from + |part| <= |s| && s[from..from + |part|] == part && Contains(part, BLANK_LINE)
    ensures Contains(s, BLANK_LINE)
  {
    var k := IndexOf(part, BLANK_LINE);
    AtPart(s, from, from + |part|, BLANK_LINE, k);
  }

  lemma NoBlankLineAt(a: string, b: string, j: nat)
    requires CleanHeaders(a) && CleanHeaders(b)
    ensures !At(a + CRLF + b, BLANK_LINE, j)
  {
    var s := a + CRLF + b;
    BlankLineChars(s, j);
    BlankLineChars(a, j);
    CrlfChars(a, |a| - 2);
    CrlfChars(b, 0);
    BlankLineChars(b, j - |a| - 2);
  }

  // What goes wrong at the two ends of the parts shows in the whole.
  lemma JoinedEdges(a: string, b: string)
    ensures var s := a + CRLF + b;
      && (At(s, CRLF, 0) <==> a == "" || At(a, CRLF, 0))
      && (At(s, CRLF, |s| - 2) <==> b == "" || At(b, CRLF, |b| - 2))
      && (At(a, CRLF, |a| - 2) || At(b, CRLF, 0) ==> Contains(s, BLANK_LINE))
  {
    var s, n := a + CRLF + b, |a|;
    CrlfChars(s, 0);
    CrlfChars(a, 0);
    CrlfChars(s, |s| - 2);
    CrlfChars(b, |b| - 2);
    CrlfChars(a, n - 2);
    CrlfChars(b, 0);
    BlankLineChars(s, n - 2);
    BlankLineChars(s, n);
  }

  lemma {:induction false} JoinedLinesClean(parts: seq<string>)
    requires parts != []
    ensures CleanHeaders(Join(parts, CRLF)) <==> forall p :: p in parts ==> CleanHeaders(p)
    decreases |parts|
  {
    if |parts| == 1 {
      assert parts == [parts[0]];
    } else {
      var rest := parts[1..];
      JoinedLinesClean(rest);
      JoinedClean(parts[0], Join(rest, CRLF));
      assert parts == [parts[0]] + rest;
    }
  }

  lemma LineIsClean(s: string)
    requires s != "" && !Contains(s, CRLF)
    ensures CleanHeaders(s)
  {
    var k := IndexOf(s, BLANK_LINE);
    if k != -1 {
      BlankLineChars(s, k);
      CrlfChars(s, k);
    }
  }

  // An override whose line, printed into the header block, does not break it.
  predicate Harmless(f: Field) {
    CleanHeaders(PrintField(f))
  }

  lemma OwnLineHarmless(headers: Buffer, overrides: seq<Field>, f: Field)
    requires f in Merge(Some(headers), overrides) && f !in Kept(overrides)
    ensures Harmless(f)
  {
    var lines := Split(headers, CRLF);
    SplitLines(headers);
    MergeContents(Some(headers), overrides, f);
    var fs := ReadLines(lines);
    var i :| 0 <= i < |fs| && Speaks(Kept(overrides), fs, i) && fs[i] == f;
    assert lines[i] in lines;
    ReadIsClean(lines[i]);
    PrintLacksCrlf(f);
    LineIsClean(PrintField(f));
  }

  // The merged block ends where it seems to if and only if every override that is merged is harmless.
  lemma MergedIsClean(headers: Buffer, overrides: seq<Field>)
    ensures CleanHeaders(Merged(Some(headers), overrides)) <==> forall f :: f in Kept(overrides) ==> Harmless(f)
  {
    var x := Merge(Some(headers), overrides);
    BlockMergesNonEmpty(headers, overrides);
    JoinedLinesClean(PrintFields(x));
    MergeExtends(Some(headers), overrides);
    PrintedClean(x);
    if forall f :: f in Kept(overrides) ==> Harmless(f) {
      forall f | f in x ensures Harmless(f) {
        if f !in Kept(overrides) {
          OwnLineHarmless(headers, overrides, f);
        }
      }
    }
  }

  lemma PrintedClean(x: seq<Field>)
    ensures (forall p :: p in PrintFields(x) ==> CleanHeaders(p)) <==> forall f :: f in x ==> Harmless(f)
  {
    var ps := PrintFields(x);
    if forall p :: p in ps ==> CleanHeaders(p) {
      forall f | f in x ensures Harmless(f) {
        var i :| 0 <= i < |x| && x[i] == f;
        assert ps[i] in ps;
      }
    }
    if forall f :: f in x ==> Harmless(f) {
      forall p | p in ps ensures CleanHeaders(p) {
        var i :| 0 <= i < |ps| && ps[i] == p;
        assert x[i] in x && Harmless(x[i]);
      }
    }
  }

  // A TLS or incomplete chunk goes through unchanged, whatever the overrides.
  lemma RewritePasses(chunk: Buffer, overrides: seq<Field>)
    requires IsSecured(chunk) || !Framed(chunk)
    ensures Rewrite(chunk, overrides) == chunk
  {
  }

  // Any other chunk keeps its first line and body and gets the merge as its header block, so that
  // parsing the output yields exactly those three parts, if and only if every override that is merged
  // is harmless: its line has no blank line and neither starts nor ends with CRLF.
  lemma RewriteReplacesHeaders(chunk: Buffer, overrides: seq<Field>)
    requires !IsSecured(chunk) && Framed(chunk)
    ensures var before, after := Parse(chunk), Parse(Rewrite(chunk, overrides));
      (after.query == before.query && after.body == before.body
       && after.headers == Some(Merged(before.headers, overrides)))
      <==> forall f :: f in Kept(overrides) ==> Harmless(f)
  {
    var req := Parse(chunk);
    FramedGap(chunk);
    QueryLacksCrlf(chunk);
    MergedIsClean(req.headers.value, overrides);
    ParseAfterBuild(req.query.value, Merged(req.headers, overrides), req.body.value);
  }

  lemma QueryLacksCrlf(data: Buffer)
    requires Framed(data)
    ensures 0 <= IndexOf(data, CRLF) <= |data| && !Contains(data[..IndexOf(data, CRLF)], CRLF)
  {
    FramedGap(data);
    var e := IndexOf(data, CRLF);
    var k := IndexOf(data[..e], CRLF);
    if k != -1 {
      assert data[0..e] == data[..e];
      AtPart(data, 0, e, CRLF, k);
    }
  }
}
