// Header fields as the proxy keeps them, and lists in which the first field of a name wins.
module Headers {
  import opened Text

  // `key` is the lower case of `orgKey`.
  datatype Field = Field(key: string, orgKey: string, value: string)

  function MakeField(orgKey: string, value: string): Field {
    Field(Lower(orgKey), orgKey, value)
  }

  function PrintField(f: Field): string {
    f.orgKey + ": " + f.value
  }

  function PrintFields(x: seq<Field>): (r: seq<string>)
    ensures |r| == |x|
    ensures forall i :: 0 <= i < |x| ==> r[i] == PrintField(x[i])
  {
    seq(|x|, i requires 0 <= i < |x| => PrintField(x[i]))
  }

  lemma PrintLacksCrlf(f: Field)
    requires !Contains(f.orgKey, CRLF) && !Contains(f.value, CRLF)
    requires Trimmed(f.orgKey) && Trimmed(f.value)
    ensures !Contains(PrintField(f), CRLF)
  {
    var s := PrintField(f);
    forall k | 0 <= k ensures !At(s, CRLF, k) {
      CrlfChars(s, k);
      CrlfChars(f.orgKey, k);
      CrlfChars(f.value, k - |f.orgKey| - 2);
    }
  }

  // ---------------------------------------------------------------- first field wins

  predicate Named(x: seq<Field>, key: string) {
    exists i :: 0 <= i < |x| && x[i].key == key
  }

  function AddField(x: seq<Field>, f: Field): seq<Field> {
    if Named(x, f.key) then x else x + [f]
  }

  function AddFields(x: seq<Field>, fs: seq<Field>): seq<Field>
    decreases |fs|
  {
    if fs == [] then x else AddFields(AddField(x, fs[0]), fs[1..])
  }

  ghost predicate UniqueNames(x: seq<Field>) {
    forall i, j :: 0 <= i < j < |x| ==> x[i].key != x[j].key
  }

  // From position n on, no field has the name of an earlier one.
  ghost predicate NewNames(x: seq<Field>, n: nat) {
    forall i, j :: 0 <= i < j < |x| && n <= j ==> x[i].key != x[j].key
  }

  lemma {:induction false} AddFieldsExtends(x: seq<Field>, fs: seq<Field>, n: nat)
    requires n <= |x| && NewNames(x, n)
    ensures x <= AddFields(x, fs) && NewNames(AddFields(x, fs), n)
    ensures UniqueNames(AddFields(x, fs)) <==> UniqueNames(x)
    decreases |fs|
  {
    if fs != [] {
      var y := AddField(x, fs[0]);
      assert UniqueNames(y) <==> UniqueNames(x) by {
        assert forall i :: 0 <= i < |x| ==> y[i] == x[i];
      }
      AddFieldsExtends(y, fs[1..], n);
    }
  }

  // The field that speaks for its name: neither `x` nor an earlier field has that name.
  ghost predicate Speaks(x: seq<Field>, fs: seq<Field>, i: nat)
    requires i < |fs|
  {
    && !Named(x, fs[i].key)
    && forall j :: 0 <= j < i ==> fs[j].key != fs[i].key
  }

  ghost predicate Speaker(x: seq<Field>, fs: seq<Field>, f: Field) {
    exists i :: 0 <= i < |fs| && Speaks(x, fs, i) && fs[i] == f
  }

  lemma NamedAfterAdd(x: seq<Field>, f: Field, key: string)
    ensures Named(AddField(x, f), key) <==> Named(x, key) || f.key == key
  {
    var y := AddField(x, f);
    if !Named(x, f.key) {
      assert y[|x|] == f;
      assert forall k :: 0 <= k < |x| ==> y[k] == x[k];
    }
  }

  lemma SpeaksLater(x: seq<Field>, fs: seq<Field>, i: nat)
    requires i + 1 < |fs|
    ensures Speaks(AddField(x, fs[0]), fs[1..], i) <==> Speaks(x, fs, i + 1)
  {
    NamedAfterAdd(x, fs[0], fs[i + 1].key);
    assert forall j :: 0 < j < |fs| ==> fs[1..][j - 1] == fs[j];
  }

  lemma SpeakerLater(x: seq<Field>, fs: seq<Field>, f: Field)
    requires fs != []
    ensures Speaker(x, fs, f) <==>
      (!Named(x, fs[0].key) && f == fs[0]) || Speaker(AddField(x, fs[0]), fs[1..], f)
  {
    var y, rest := AddField(x, fs[0]), fs[1..];
    if Speaker(x, fs, f) {
      var i :| 0 <= i < |fs| && Speaks(x, fs, i) && fs[i] == f;
      if i > 0 {
        SpeaksLater(x, fs, i - 1);
        assert rest[i - 1] == f;
      }
    }
    if Speaker(y, rest, f) {
      var i :| 0 <= i < |rest| && Speaks(y, rest, i) && rest[i] == f;
      SpeaksLater(x, fs, i);
      assert fs[i + 1] == f;
    }
    if !Named(x, fs[0].key) && f == fs[0] {
      assert Speaks(x, fs, 0);
    }
  }

  // What adding fields to a list gives: the list, and every field that speaks for its name.
  lemma {:induction false} AddFieldsContents(x: seq<Field>, fs: seq<Field>, f: Field)
    ensures f in AddFields(x, fs) <==> f in x || Speaker(x, fs, f)
    decreases |fs|
  {
    if fs != [] {
      SpeakerLater(x, fs, f);
      AddFieldsContents(AddField(x, fs[0]), fs[1..], f);
    }
  }

  // A field that speaks for its name is the only one of that name in the result.
  lemma SpeakerStays(x: seq<Field>, fs: seq<Field>, i: nat, f: Field)
    requires i < |fs| && Speaks(x, fs, i)
    ensures fs[i] in AddFields(x, fs)
    ensures f in AddFields(x, fs) && f.key == fs[i].key ==> f == fs[i]
  {
    AddFieldsContents(x, fs, fs[i]);
    AddFieldsContents(x, fs, f);
    if Speaker(x, fs, f) && f.key == fs[i].key {
      var k :| 0 <= k < |fs| && Speaks(x, fs, k) && fs[k] == f;
      assert !(i < k) && !(k < i);
    }
  }

  lemma Restore(prefix: seq<Field>, x: seq<Field>)
    requires prefix <= x && NewNames(x, |prefix|)
    ensures AddFields(prefix, x) == x
  {
    AddOwnFields(x, |prefix|, 0);
    assert x[0..] == x && x[..|prefix|] == prefix;
  }

  // Adding a list's own fields to a prefix of it restores the list, when the fields after the prefix
  // have new names.
  lemma {:induction false} AddOwnFields(x: seq<Field>, n: nat, done: nat)
    requires n <= |x| && done <= |x| && NewNames(x, n)
    ensures AddFields(x[..if done < n then n else done], x[done..]) == x
    decreases |x| - done
  {
    var from := if done < n then n else done;
    if done == |x| {
      assert x[..from] == x;
    } else {
      assert x[done..][1..] == x[done + 1..];
      if done < n {
        assert x[..from][done] == x[done];
      } else {
        assert !Named(x[..from], x[done].key);
        assert x[..from] + [x[done]] == x[..from + 1];
      }
      AddOwnFields(x, n, done + 1);
    }
  }

  // ---------------------------------------------------------------- editing a header list

  // The list without the fields of one name.
  function RemoveKey(list: seq<Field>, key: string): (r: seq<Field>)
    ensures forall f :: f in r <==> f in list && f.key != key
  {
    if list == [] then []
    else
      assert list == [list[0]] + list[1..];
      (if list[0].key == key then [] else [list[0]]) + RemoveKey(list[1..], key)
  }

  function SetField(list: seq<Field>, orgKey: string, value: string): seq<Field> {
    RemoveKey(list, Lower(orgKey)) + [MakeField(orgKey, value)]
  }

  // `r` is `list` with some fields left out and the others in their order.
  predicate Thinned(r: seq<Field>, list: seq<Field>)
    decreases |list|
  {
    if list == [] then r == []
    else Thinned(r, list[1..]) || (r != [] && r[0] == list[0] && Thinned(r[1..], list[1..]))
  }

  // Removing a name takes out nothing but the fields of that name, every one of them, and moves none.
  lemma {:induction false} RemoveKeyThins(list: seq<Field>, key: string)
    ensures Thinned(RemoveKey(list, key), list)
  {
    if list != [] {
      var rest := RemoveKey(list[1..], key);
      RemoveKeyThins(list[1..], key);
      if list[0].key == key {
        assert [] + rest == rest;
      } else {
        ThinnedCons(list[0], rest, list[1..]);
        assert [list[0]] + list[1..] == list;
      }
    }
  }

  lemma ThinnedCons(f: Field, r: seq<Field>, list: seq<Field>)
    requires Thinned(r, list)
    ensures Thinned([f] + r, [f] + list)
  {
    assert ([f] + r)[1..] == r && ([f] + list)[1..] == list;
  }

  lemma {:induction false} RemoveKeyCounts(list: seq<Field>, key: string, f: Field)
    ensures multiset(RemoveKey(list, key))[f] == if f.key == key then 0 else multiset(list)[f]
  {
    if list != [] {
      RemoveKeyCounts(list[1..], key, f);
      assert list == [list[0]] + list[1..];
    }
  }
}
