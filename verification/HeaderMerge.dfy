// `addHeaders`: override headers merged into the header block of a parsed request.
module HeaderMerge {
  import opened Options
  import opened Text
  import opened Headers
  import opened RequestHelper

  // ---------------------------------------------------------------- reading one line

  function BeforeColon(line: string): string {
    var k := IndexOf(line, ":");
    if k == -1 then line else line[..k]
  }

  // The line without a leading `name :`, or the whole line when it does not start with the name. The
  // source builds a regular expression from the name, so names are plain letters, digits and hyphens.
  function AfterName(line: string, name: string): string {
    if name <= line then
      var rest := TrimLeft(line[|name|..]);
      if rest != "" && rest[0] == ':' then rest[1..] else line
    else line
  }

  function ReadLine(line: string): Field {
    var name := Trim(BeforeColon(line));
    MakeField(name, Trim(AfterName(line, name)))
  }

  function ReadLines(lines: seq<string>): (r: seq<Field>)
    ensures |r| == |lines|
    ensures forall i :: 0 <= i < |lines| ==> r[i] == ReadLine(lines[i])
  {
    seq(|lines|, i requires 0 <= i < |lines| => ReadLine(lines[i]))
  }

  function LinesOf(headers: Option<Buffer>): seq<string> {
    if headers.Some? then Split(headers.value, CRLF) else []
  }

  // ---------------------------------------------------------------- merging

  // Overrides for `host` and `connection` are dropped.
  predicate Allowed(f: Field) {
    f.key != "host" && f.key != "connection"
  }

  function Kept(overrides: seq<Field>): (r: seq<Field>)
    ensures forall f :: f in r <==> f in overrides && Allowed(f)
  {
    if overrides == [] then []
    else
      var last := overrides[|overrides| - 1];
      assert overrides == overrides[..|overrides| - 1] + [last];
      Kept(overrides[..|overrides| - 1]) + if Allowed(last) then [last] else []
  }

  function Merge(headers: Option<Buffer>, overrides: seq<Field>): seq<Field> {
    AddFields(Kept(overrides), ReadLines(LinesOf(headers)))
  }

  function Merged(headers: Option<Buffer>, overrides: seq<Field>): Buffer {
    Join(PrintFields(Merge(headers, overrides)), CRLF)
  }

  // `overrides` are the keys and values of the headers object, in order.
  method AddHeaders(req: RequestData, overrides: seq<Field>) returns (r: RequestData)
    ensures r == req.(headers := Some(Merged(req.headers, overrides)))
  {
    var x := [];
    for i := 0 to |overrides|
      invariant x == Kept(overrides[..i])
    {
      assert overrides[..i + 1][..i] == overrides[..i];
      if Allowed(overrides[i]) {
        x := x + [overrides[i]];
      }
    }
    assert overrides[..|overrides|] == overrides;
    x := MergeLines(x, LinesOf(req.headers));
    r := req.(headers := Some(Join(PrintFields(x), CRLF)));
  }

  method MergeLines(start: seq<Field>, lines: seq<string>) returns (x: seq<Field>)
    ensures x == AddFields(start, ReadLines(lines))
  {
    x := start;
    ghost var fs := ReadLines(lines);
    assert fs[0..] == fs;
    for i := 0 to |lines|
      invariant AddFields(x, fs[i..]) == AddFields(start, fs)
    {
      var f := ReadLine(lines[i]);
      assert fs[i..][0] == f && fs[i..][1..] == fs[i + 1..];
      if !Named(x, f.key) {
        x := x + [f];
      }
    }
  }

  lemma MergeExtends(headers: Option<Buffer>, overrides: seq<Field>)
    ensures Kept(overrides) <= Merge(headers, overrides)
    ensures NewNames(Merge(headers, overrides), |Kept(overrides)|)
  {
    AddFieldsExtends(Kept(overrides), ReadLines(LinesOf(headers)), |Kept(overrides)|);
  }

  // The merged list starts with the overrides other than host and connection; after them comes, for
  // every name they do not have, the first line with that name, and nothing else. Names are unique
  // exactly when the overrides' names are.
  lemma MergeContents(headers: Option<Buffer>, overrides: seq<Field>, f: Field)
    ensures var x, kept := Merge(headers, overrides), Kept(overrides);
      && kept <= x
      && (f in x <==> f in kept || Speaker(kept, ReadLines(LinesOf(headers)), f))
      && NewNames(x, |kept|)
      && (UniqueNames(x) <==> UniqueNames(kept))
  {
    AddFieldsExtends(Kept(overrides), ReadLines(LinesOf(headers)), |Kept(overrides)|);
    AddFieldsContents(Kept(overrides), ReadLines(LinesOf(headers)), f);
  }

  // An override for host or connection never reaches the merge; the request's first such line does,
  // and no other.
  lemma HostStays(headers: Option<Buffer>, overrides: seq<Field>, i: nat, f: Field)
    requires i < |LinesOf(headers)|
    requires var fs := ReadLines(LinesOf(headers));
      !Allowed(fs[i]) && forall j :: 0 <= j < i ==> fs[j].key != fs[i].key
    ensures var own := ReadLine(LinesOf(headers)[i]);
      && own in Merge(headers, overrides)
      && (f in Merge(headers, overrides) && f.key == own.key ==> f == own)
  {
    var fs, kept := ReadLines(LinesOf(headers)), Kept(overrides);
    assert forall k :: 0 <= k < |kept| ==> kept[k] in kept && Allowed(kept[k]);
    SpeakerStays(kept, fs, i, f);
  }

  // ---------------------------------------------------------------- reading what was printed

  // A field that survives being printed and read.
  ghost predicate Clean(f: Field) {
    && !Contains(f.orgKey, ":") && Trimmed(f.orgKey) && !Contains(f.orgKey, CRLF)
    && Trimmed(f.value) && !Contains(f.value, CRLF)
    && f.key == Lower(f.orgKey)
  }

  ghost predicate AllClean(x: seq<Field>) {
    forall f :: f in x ==> Clean(f)
  }

  lemma BeforeColonPrinted(key: string, rest: string)
    requires !Contains(key, ":")
    ensures BeforeColon(key + ":" + rest) == key
  {
    var s := key + ":" + rest;
    ColonChars(s, |key|);
    forall j | 0 <= j < |key| ensures !At(s, ":", j) {
      ColonChars(s, j);
      ColonChars(key, j);
    }
    FirstAt(s, ":", |key|);
    assert s[..|key|] == key;
  }

  lemma AfterNamePrinted(key: string, rest: string)
    ensures AfterName(key + ":" + rest, key) == rest
  {
    var s := key + ":" + rest;
    assert s[|key|..] == ":" + rest;
    assert (":" + rest)[1..] == rest;
  }

  lemma ReadPrinted(f: Field)
    requires Clean(f)
    ensures ReadLine(PrintField(f)) == f
  {
    var rest := " " + f.value;
    assert PrintField(f) == f.orgKey + ":" + rest;
    BeforeColonPrinted(f.orgKey, rest);
    TrimOfTrimmed(f.orgKey);
    AfterNamePrinted(f.orgKey, rest);
    TrimOfPadded(f.value);
  }

  lemma NameIsClean(line: string)
    ensures !Contains(BeforeColon(line), ":")
    ensures BeforeColon(line) <= line
  {
    var head := BeforeColon(line);
    forall j | 0 <= j ensures !At(head, ":", j) {
      ColonChars(head, j);
      ColonChars(line, j);
    }
  }

  lemma AfterNameIsPart(line: string, name: string) returns (i: nat)
    ensures i <= |line| && AfterName(line, name) == line[i..]
  {
    i := 0;
    if name <= line {
      var k := TrimLeftIsSuffix(line[|name|..]);
      var rest := TrimLeft(line[|name|..]);
      if rest != "" && rest[0] == ':' {
        i := |name| + k + 1;
      }
    }
  }

  lemma ReadIsClean(line: string)
    requires !Contains(line, CRLF)
    ensures Clean(ReadLine(line))
  {
    var head := BeforeColon(line);
    NameIsClean(line);
    PartLacks(line, 0, |head|, CRLF);
    TrimmedPart(head, ":");
    TrimmedPart(head, CRLF);
    var after := AfterName(line, Trim(head));
    var i := AfterNameIsPart(line, Trim(head));
    PartLacks(line, i, |line|, CRLF);
    assert after == line[i..|line|];
    TrimmedPart(after, CRLF);
  }

  lemma PrintedLines(x: seq<Field>)
    requires AllClean(x)
    ensures Lines(PrintFields(x))
    ensures ReadLines(PrintFields(x)) == x
  {
    forall i | 0 <= i < |x| ensures !Contains(PrintFields(x)[i], CRLF) && ReadLines(PrintFields(x))[i] == x[i] {
      assert x[i] in x;
      PrintLacksCrlf(x[i]);
      ReadPrinted(x[i]);
    }
  }

  // ---------------------------------------------------------------- merging twice

  lemma MergeIsClean(headers: Option<Buffer>, overrides: seq<Field>)
    requires AllClean(overrides)
    ensures AllClean(Merge(headers, overrides))
  {
    var lines, x := LinesOf(headers), Merge(headers, overrides);
    if headers.Some? {
      SplitLines(headers.value);
    }
    forall f | f in x ensures Clean(f) {
      MergeContents(headers, overrides, f);
      if f !in Kept(overrides) {
        var fs := ReadLines(lines);
        var i :| 0 <= i < |fs| && Speaks(Kept(overrides), fs, i) && fs[i] == f;
        assert lines[i] in lines;
        ReadIsClean(lines[i]);
      }
    }
  }

  // The merged block is read back as the merged list.
  lemma MergedReadsBack(headers: Option<Buffer>, overrides: seq<Field>)
    requires AllClean(overrides) && Merge(headers, overrides) != []
    ensures ReadLines(Split(Merged(headers, overrides), CRLF)) == Merge(headers, overrides)
  {
    var x := Merge(headers, overrides);
    MergeIsClean(headers, overrides);
    PrintedLines(x);
    SplitJoin(PrintFields(x));
  }

  lemma MergeAgain(headers: Option<Buffer>, overrides: seq<Field>)
    requires AllClean(overrides) && Merge(headers, overrides) != []
    ensures Merge(Some(Merged(headers, overrides)), overrides) == Merge(headers, overrides)
  {
    MergedReadsBack(headers, overrides);
    MergeExtends(headers, overrides);
    Restore(Kept(overrides), Merge(headers, overrides));
  }

  // With a header block there is at least one line, so the merge is never empty.
  lemma BlockMergesNonEmpty(headers: Buffer, overrides: seq<Field>)
    ensures Merge(Some(headers), overrides) != []
  {
    var kept, fs := Kept(overrides), ReadLines(Split(headers, CRLF));
    AddFieldsExtends(kept, fs, |kept|);
    if kept == [] {
      assert Speaks(kept, fs, 0);
      AddFieldsContents(kept, fs, fs[0]);
    }
  }

  // Idempotence: merging the same clean overrides again changes nothing if and only if there was a
  // header block or an override to add. Otherwise the empty result is read back as one empty line,
  // which is printed as ": ".
  lemma MergeIdempotent(headers: Option<Buffer>, overrides: seq<Field>)
    requires AllClean(overrides)
    ensures Merged(Some(Merged(headers, overrides)), overrides) == Merged(headers, overrides)
      <==> headers.Some? || Kept(overrides) != []
  {
    if headers.Some? || Kept(overrides) != [] {
      if headers.Some? {
        BlockMergesNonEmpty(headers.value, overrides);
      }
      MergeAgain(headers, overrides);
    } else {
      assert Merged(headers, overrides) == "";
      EmptyBlockPrints(overrides);
    }
  }

  lemma EmptyBlockPrints(overrides: seq<Field>)
    requires Kept(overrides) == []
    ensures Merged(Some(""), overrides) != ""
  {
    BlockMergesNonEmpty("", overrides);
    PrintsNonEmpty(PrintFields(Merge(Some(""), overrides)));
  }

  lemma PrintsNonEmpty(parts: seq<string>)
    requires parts != [] && parts[0] != ""
    ensures Join(parts, CRLF) != ""
  {
  }
}
