/** JSON values as the CLI sees them after parsing, and the object operations it uses on them. */
module Json {

  datatype Option<+T> = None | Some(value: T)

  /** A number is kept as its canonical printed text; an object is the list of its members in iteration order. */
  datatype Json =
    | Null
    | Bool(b: bool)
    | Number(text: string)
    | Str(s: string)
    | Arr(items: seq<Json>)
    | Obj(fields: seq<Field>)

  datatype Field = Field(key: string, value: Json)

  // ----- objects -----

  function Lookup(fs: seq<Field>, k: string): Option<Json> {
    if fs == [] then None
    else if fs[|fs| - 1].key == k then Some(fs[|fs| - 1].value)
    else Lookup(fs[..|fs| - 1], k)
  }

  predicate Has(fs: seq<Field>, k: string) {
    Lookup(fs, k).Some?
  }

  /** Map insertion: an existing member is overwritten in place, a new one goes to the end. */
  function Put(fs: seq<Field>, k: string, v: Json): seq<Field> {
    if Has(fs, k) then Overwrite(fs, k, v) else fs + [Field(k, v)]
  }

  function Overwrite(fs: seq<Field>, k: string, v: Json): seq<Field>
    requires Has(fs, k)
  {
    var init, last := fs[..|fs| - 1], fs[|fs| - 1];
    if last.key == k then init + [Field(k, v)] else Overwrite(init, k, v) + [last]
  }

  /** Map removal. */
  function Remove(fs: seq<Field>, k: string): seq<Field> {
    if fs == [] then []
    else
      var init, last := fs[..|fs| - 1], fs[|fs| - 1];
      Remove(init, k) + (if last.key == k then [] else [last])
  }

  /** Inserts every member of `more` into `fs`, in order. */
  function PutAll(fs: seq<Field>, more: seq<Field>): seq<Field> {
    if more == [] then fs
    else
      var last := more[|more| - 1];
      Put(PutAll(fs, more[..|more| - 1]), last.key, last.value)
  }

  /** Inserts the members of `more` that `fs` does not have yet: `entry(k).or_insert(v)` for each, in order. */
  function FillGaps(fs: seq<Field>, more: seq<Field>): seq<Field> {
    if more == [] then fs
    else
      var r := FillGaps(fs, more[..|more| - 1]);
      var last := more[|more| - 1];
      if Has(r, last.key) then r else Put(r, last.key, last.value)
  }

  // ----- what a lookup sees after an update -----

  lemma {:induction false} LookupOverwrite(fs: seq<Field>, k: string, v: Json, j: string)
    requires Has(fs, k)
    ensures Lookup(Overwrite(fs, k, v), j) == if j == k then Some(v) else Lookup(fs, j)
  {
    var init, last := fs[..|fs| - 1], fs[|fs| - 1];
    var r := Overwrite(fs, k, v);
    if last.key == k {
      assert r[..|r| - 1] == init;
    } else {
      LookupOverwrite(init, k, v, j);
      assert r[..|r| - 1] == Overwrite(init, k, v);
    }
  }

  lemma LookupPut(fs: seq<Field>, k: string, v: Json, j: string)
    ensures Lookup(Put(fs, k, v), j) == if j == k then Some(v) else Lookup(fs, j)
  {
    if Has(fs, k) {
      LookupOverwrite(fs, k, v, j);
    } else {
      assert (fs + [Field(k, v)])[..|fs|] == fs;
    }
  }

  lemma {:induction false} LookupRemove(fs: seq<Field>, k: string, j: string)
    ensures Lookup(Remove(fs, k), j) == if j == k then None else Lookup(fs, j)
  {
    if fs != [] {
      var init, last := fs[..|fs| - 1], fs[|fs| - 1];
      LookupRemove(init, k, j);
      if last.key == k {
        assert Remove(fs, k) == Remove(init, k);
      } else {
        assert Remove(fs, k)[..|Remove(fs, k)| - 1] == Remove(init, k);
      }
    }
  }

  lemma {:induction false} LookupPutAll(fs: seq<Field>, more: seq<Field>, j: string)
    ensures Lookup(PutAll(fs, more), j) == if Has(more, j) then Lookup(more, j) else Lookup(fs, j)
  {
    if more != [] {
      var init, last := more[..|more| - 1], more[|more| - 1];
      LookupPutAll(fs, init, j);
      LookupPut(PutAll(fs, init), last.key, last.value, j);
    }
  }

  /** With distinct keys a member that fills a gap is found with its own value. */
  lemma {:induction false} LookupFillGaps(fs: seq<Field>, more: seq<Field>, j: string)
    requires DistinctKeys(more)
    ensures Lookup(FillGaps(fs, more), j) == if Has(fs, j) then Lookup(fs, j) else Lookup(more, j)
  {
    if more != [] {
      var init, last := more[..|more| - 1], more[|more| - 1];
      LookupFillGaps(fs, init, j);
      LookupFillGaps(fs, init, last.key);
      LookupIsMember(init, last.key);
      LookupPut(FillGaps(fs, init), last.key, last.value, j);
    }
  }

  // ----- arrays and strings inside values -----

  /** `v.as_object()`, with an empty list for anything else. */
  function FieldsOf(v: Option<Json>): seq<Field> {
    if v.Some? && v.value.Obj? then v.value.fields else []
  }

  /** `v.as_array()`, with an empty list for anything else. */
  function ItemsOf(v: Option<Json>): seq<Json> {
    if v.Some? && v.value.Arr? then v.value.items else []
  }

  // ----- well-formedness: a parsed object never repeats a key -----

  predicate DistinctKeys(fs: seq<Field>) {
    forall i, j :: 0 <= i < j < |fs| ==> fs[i].key != fs[j].key
  }

  predicate WellFormed(v: Json)
  {
    match v
    case Obj(fields) => DistinctKeys(fields) && forall f | f in fields :: WellFormed(f.value)
    case Arr(items) => forall x | x in items :: WellFormed(x)
    case _ => true
  }

  lemma LookupIsMember(fs: seq<Field>, k: string)
    ensures Lookup(fs, k).Some? ==> Field(k, Lookup(fs, k).value) in fs
    ensures Lookup(fs, k).None? ==> forall f :: f in fs ==> f.key != k
  {
    if fs != [] {
      assert fs == fs[..|fs| - 1] + [fs[|fs| - 1]];
      LookupIsMember(fs[..|fs| - 1], k);
    }
  }

  lemma LookupInThree(a: Field, b: Field, c: Field, k: string)
    ensures Lookup([a, b, c], k) ==
            if c.key == k then Some(c.value) else if b.key == k then Some(b.value)
            else if a.key == k then Some(a.value) else None
  {
    assert [a, b, c][..2] == [a, b] && [a, b][..1] == [a] && [a][..0] == [];
    assert Lookup([a, b], k) == if b.key == k then Some(b.value) else Lookup([a], k);
  }

  lemma LookupDistinct(fs: seq<Field>, f: Field)
    requires DistinctKeys(fs) && f in fs
    ensures Lookup(fs, f.key) == Some(f.value)
  {
    if fs[|fs| - 1] != f {
      assert f in fs[..|fs| - 1];
      LookupDistinct(fs[..|fs| - 1], f);
    }
  }

  // ----- size: the termination measure of the recursions over values -----

  ghost function Size(v: Json): nat
    decreases v, 0
  {
    match v
    case Obj(fields) => 1 + SizeFields(fields)
    case Arr(items) => 1 + SizeItems(items)
    case _ => 1
  }

  ghost function SizeItems(items: seq<Json>): nat
    decreases items, 1
  {
    if items == [] then 0 else SizeItems(items[..|items| - 1]) + 1 + Size(items[|items| - 1])
  }

  ghost function SizeFields(fs: seq<Field>): nat
    decreases fs, 1
  {
    if fs == [] then 0 else SizeFields(fs[..|fs| - 1]) + 1 + Size(fs[|fs| - 1].value)
  }

  function Values(fs: seq<Field>): seq<Json> {
    seq(|fs|, i requires 0 <= i < |fs| => fs[i].value)
  }

  lemma SizeOfValues(fs: seq<Field>)
    ensures SizeItems(Values(fs)) == SizeFields(fs)
  {
    if fs != [] {
      SizeOfValues(fs[..|fs| - 1]);
      assert Values(fs)[..|fs| - 1] == Values(fs[..|fs| - 1]);
    }
  }

  lemma SizeOfMember(fs: seq<Field>, k: string)
    ensures Has(fs, k) ==> Size(Lookup(fs, k).value) < SizeFields(fs)
  {
  }

  lemma SizeOfItem(items: seq<Json>, x: Json)
    requires x in items
    ensures Size(x) < SizeItems(items)
  {
    if items[|items| - 1] != x {
      assert x in items[..|items| - 1];
      SizeOfItem(items[..|items| - 1], x);
    }
  }
}
