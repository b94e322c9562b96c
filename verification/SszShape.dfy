/** What a dump looks like, and what the reader accepts, told without the functions that do it. */
module SszShape {
  import opened Wrappers
  import opened Numbers
  import opened SszValues
  import opened SszRoundTrip

  // ---------------------------------------------------------------- text of bytes

  /** "0x", and then the two digits of each byte. */
  ghost predicate IsHexText(d: Data, bytes: seq<byte>) {
    && d.Str? && |d.s| == 2 + 2 * |bytes| && d.s[..2] == "0x"
    && forall i :: 0 <= i < |bytes| ==> TwoDigits(d.s[2 + 2 * i], d.s[3 + 2 * i], bytes[i])
  }

  ghost predicate TwoDigits(high: char, low: char, b: byte) {
    high == "0123456789abcdef"[b / 16] && low == "0123456789abcdef"[b % 16]
  }

  lemma DigitIsLower(n: nat)
    requires n < 16
    ensures HexDigit(n) == "0123456789abcdef"[n]
  {
  }

  lemma {:induction false} HexDigits(bytes: seq<byte>)
    ensures |Hex(bytes)| == 2 * |bytes|
    ensures forall i :: 0 <= i < |bytes| ==> TwoDigits(Hex(bytes)[2 * i], Hex(bytes)[2 * i + 1], bytes[i])
  {
    if bytes != [] {
      var rest := bytes[1..];
      HexDigits(rest);
      DigitIsLower(bytes[0] / 16);
      DigitIsLower(bytes[0] % 16);
      forall i | 0 <= i < |bytes| ensures TwoDigits(Hex(bytes)[2 * i], Hex(bytes)[2 * i + 1], bytes[i]) {
        if i > 0 {
          assert TwoDigits(Hex(rest)[2 * (i - 1)], Hex(rest)[2 * (i - 1) + 1], rest[i - 1]);
        }
      }
    }
  }

  lemma PrefixedIsHexText(bytes: seq<byte>)
    ensures IsHexText(Prefixed(bytes), bytes)
  {
    HexDigits(bytes);
    var s := Prefixed(bytes).s;
    forall i | 0 <= i < |bytes| ensures TwoDigits(s[2 + 2 * i], s[3 + 2 * i], bytes[i]) {
      assert TwoDigits(Hex(bytes)[2 * i], Hex(bytes)[2 * i + 1], bytes[i]);
    }
  }

  lemma HexTextIsPrefixed(d: Data, bytes: seq<byte>)
    requires IsHexText(d, bytes)
    ensures d == Prefixed(bytes)
  {
    PrefixedIsHexText(bytes);
    var s := Prefixed(bytes).s;
    forall k | 0 <= k < |s| ensures s[k] == d.s[k] {
      if k < 2 {
        assert s[..2][k] == d.s[..2][k];
      } else {
        var i := (k - 2) / 2;
        assert TwoDigits(s[2 + 2 * i], s[3 + 2 * i], bytes[i]) && TwoDigits(d.s[2 + 2 * i], d.s[3 + 2 * i], bytes[i]);
      }
    }
  }

  // ---------------------------------------------------------------- the shape of a dump

  /** What is filed under this name at field `i` is not replaced later on. */
  ghost predicate Stays(name: string, fields: seq<Field>, i: nat, roots: bool) {
    && !(roots && name == "hash_tree_root")
    && forall j :: i < j < |fields| ==>
         fields[j].name != name && (roots ==> fields[j].name + "_hash_tree_root" != name)
  }

  /** The keys are the names of the fields and, with roots, those of their roots and that of the whole. */
  ghost predicate HasKeys(entries: map<string, Data>, fields: seq<Field>, roots: bool) {
    && (forall i :: 0 <= i < |fields| ==>
         fields[i].name in entries && (roots ==> fields[i].name + "_hash_tree_root" in entries))
    && (roots ==> "hash_tree_root" in entries)
    && forall name :: name in entries ==>
         || (roots && name == "hash_tree_root")
         || exists i :: 0 <= i < |fields|
              && (name == fields[i].name || (roots && name == fields[i].name + "_hash_tree_root"))
  }

  /** The roots of the fields and of the whole. */
  ghost predicate HasRoots(entries: map<string, Data>, v: Value, t: Type, root: RootOf)
    requires t.Container? && v.Fields? && |v.values| == |t.fields| && HasKeys(entries, t.fields, true)
  {
    && IsHexText(entries["hash_tree_root"], root(v, t))
    && forall i :: 0 <= i < |t.fields| && Stays(t.fields[i].name + "_hash_tree_root", t.fields, i, true) ==>
         IsHexText(entries[t.fields[i].name + "_hash_tree_root"], root(v.values[i], t.fields[i].typ))
  }

  /** What a value is dumped to. Of several things filed under one name in a container, the last one
      stays. */
  ghost predicate Shape(d: Data, v: Value, t: Type, roots: bool, root: RootOf)
    requires Typed(v, t)
    decreases t
  {
    match t
    case Uint(_) => d == Int(v.n)
    case Boolean => d == Bool(v.b)
    case ByteVector(_) => IsHexText(d, v.bytes)
    case ByteList(_) => IsHexText(d, v.bytes)
    case Vector(element, _) =>
      && d.Array? && |d.items| == |v.items|
      && forall i :: 0 <= i < |v.items| ==> Shape(d.items[i], v.items[i], element, roots, root)
    case List(element, _) =>
      && d.Array? && |d.items| == |v.items|
      && forall i :: 0 <= i < |v.items| ==> Shape(d.items[i], v.items[i], element, roots, root)
    case Container(fields) =>
      && d.Dict? && HasKeys(d.entries, fields, roots)
      && (roots ==> HasRoots(d.entries, v, t, root))
      && forall i :: 0 <= i < |fields| && Stays(fields[i].name, fields, i, roots) ==>
           Shape(d.entries[fields[i].name], v.values[i], fields[i].typ, roots, root)
    case Union(options) =>
      && d.Dict? && d.entries.Keys == {"selector", "value"} && d.entries["selector"] == Int(v.selector)
      && match v.value
         case None => d.entries["value"] == Null
         case Some(inner) => Shape(d.entries["value"], inner, options[v.selector].value, roots, root)
  }

  // ---------------------------------------------------------------- every dump has that shape

  /** What is filed under `name` at field `i` is still there after the first `k` fields. */
  ghost predicate Kept(name: string, fields: seq<Field>, i: nat, k: nat, roots: bool)
    requires k <= |fields|
  {
    forall j :: i < j < k ==> fields[j].name != name && (roots ==> fields[j].name + SUFFIX != name)
  }

  ghost predicate Filed(entries: map<string, Data>, name: string, d: Data) {
    name in entries && entries[name] == d
  }

  /** What the first `k` fields leave of field `i`. */
  ghost predicate FieldFiled(entries: map<string, Data>, v: Value, t: Type, i: nat, k: nat, roots: bool, root: RootOf)
    requires t.Container? && Typed(v, t) && i < k <= |t.fields|
  {
    var f := t.fields[i];
    && f.name in entries && (roots ==> f.name + SUFFIX in entries)
    && (Kept(f.name, t.fields, i, k, roots) ==> Filed(entries, f.name, Encode(v.values[i], f.typ, roots, root)))
    && (roots && Kept(f.name + SUFFIX, t.fields, i, k, roots) ==>
         Filed(entries, f.name + SUFFIX, Prefixed(root(v.values[i], f.typ))))
  }

  lemma FileStep(
    before: map<string, Data>, v: Value, t: Type, i: nat, k: nat, roots: bool, root: RootOf, entry: Data)
    requires t.Container? && Typed(v, t) && i <= k < |t.fields|
    requires entry == Encode(v.values[k], t.fields[k].typ, roots, root)
    requires i < k ==> FieldFiled(before, v, t, i, k, roots, root)
    ensures
      var f := t.fields[k];
      FieldFiled(AddEntry(before, f.name, entry, Prefixed(root(v.values[k], f.typ)), roots), v, t, i, k + 1, roots,
        root)
  {
    hide Encode, Prefixed, Typed;
    var f := t.fields[k];
    SuffixIsLonger(f.name);
    if i < k {
      assert Kept(t.fields[i].name, t.fields, i, k + 1, roots) ==>
        Kept(t.fields[i].name, t.fields, i, k, roots) && f.name != t.fields[i].name
          && (roots ==> f.name + SUFFIX != t.fields[i].name);
      var name := t.fields[i].name + SUFFIX;
      assert Kept(name, t.fields, i, k + 1, roots) ==>
        Kept(name, t.fields, i, k, roots) && f.name != name && (roots ==> f.name + SUFFIX != name);
    }
  }

  lemma {:induction false} FieldsFiled(v: Value, t: Type, k: nat, roots: bool, root: RootOf)
    requires t.Container? && Typed(v, t) && k <= |t.fields|
    ensures
      var entries := EncodeFields(v, t, k, roots, root);
      && (forall i :: 0 <= i < k ==> FieldFiled(entries, v, t, i, k, roots, root))
      && (forall name :: name in entries ==> FromField(name, t.fields, k, roots))
  {
    hide FieldFiled, Encode, AddEntry, Prefixed, FromField;
    if k > 0 {
      FieldsFiled(v, t, k - 1, roots, root);
      FieldsUnroll(v, t, k, roots, root);
      var f, entry := t.fields[k - 1], Encode(v.values[k - 1], t.fields[k - 1].typ, roots, root);
      var before := EncodeFields(v, t, k - 1, roots, root);
      hide EncodeFields;
      var after := AddEntry(before, f.name, entry, Prefixed(root(v.values[k - 1], f.typ)), roots);
      forall i | 0 <= i < k ensures FieldFiled(after, v, t, i, k, roots, root) {
        FileStep(before, v, t, i, k - 1, roots, root, entry);
      }
      forall name | name in after ensures FromField(name, t.fields, k, roots) {
        EntryStep(before, v, t, k - 1, roots, root, name);
      }
    }
  }

  /** What the dump of a container holds. */
  ghost predicate AllFiled(entries: map<string, Data>, v: Value, t: Type, roots: bool, root: RootOf)
    requires t.Container? && Typed(v, t)
  {
    && HasKeys(entries, t.fields, roots)
    && (roots ==> Filed(entries, WHOLE, Prefixed(root(v, t))))
    && forall i :: 0 <= i < |t.fields| ==> FieldStays(entries, v, t, i, roots, root)
  }

  ghost predicate FieldStays(entries: map<string, Data>, v: Value, t: Type, i: nat, roots: bool, root: RootOf)
    requires t.Container? && Typed(v, t) && i < |t.fields|
  {
    var f := t.fields[i];
    && (Stays(f.name, t.fields, i, roots) ==> Filed(entries, f.name, Encode(v.values[i], f.typ, roots, root)))
    && (roots && Stays(f.name + SUFFIX, t.fields, i, roots) ==>
         Filed(entries, f.name + SUFFIX, Prefixed(root(v.values[i], f.typ))))
  }

  lemma ContainerFiled(v: Value, t: Type, roots: bool, root: RootOf)
    requires t.Container? && Typed(v, t)
    ensures AllFiled(Encode(v, t, roots, root).entries, v, t, roots, root)
  {
    hide AllFiled, FromField, Kept, Filed;
    var n := |t.fields|;
    var fields := EncodeFields(v, t, n, roots, root);
    FieldsFiled(v, t, n, roots, root);
    assert forall i :: 0 <= i < n ==> FieldFiled(EncodeFields(v, t, n, roots, root), v, t, i, n, roots, root);
    WholeFiled(fields, v, t, roots, root);
  }

  lemma WholeFiled(fields: map<string, Data>, v: Value, t: Type, roots: bool, root: RootOf)
    requires t.Container? && Typed(v, t)
    requires forall i :: 0 <= i < |t.fields| ==> FieldFiled(fields, v, t, i, |t.fields|, roots, root)
    requires forall name :: name in fields ==> FromField(name, t.fields, |t.fields|, roots)
    ensures AllFiled(if roots then fields[WHOLE := Prefixed(root(v, t))] else fields, v, t, roots, root)
  {
    hide Encode, Prefixed, Typed, FieldFiled, FieldStays, FromField, HasKeys;
    var entries := if roots then fields[WHOLE := Prefixed(root(v, t))] else fields;
    forall i | 0 <= i < |t.fields| ensures FieldStays(entries, v, t, i, roots, root) {
      FiledStays(fields, v, t, i, roots, root);
    }
    FiledKeys(fields, v, t, roots, root);
  }

  lemma FiledStays(fields: map<string, Data>, v: Value, t: Type, i: nat, roots: bool, root: RootOf)
    requires t.Container? && Typed(v, t) && i < |t.fields| && FieldFiled(fields, v, t, i, |t.fields|, roots, root)
    ensures FieldStays(if roots then fields[WHOLE := Prefixed(root(v, t))] else fields, v, t, i, roots, root)
  {
    hide Encode, Prefixed, Typed;
  }

  lemma FiledKeys(fields: map<string, Data>, v: Value, t: Type, roots: bool, root: RootOf)
    requires t.Container? && Typed(v, t)
    requires forall i :: 0 <= i < |t.fields| ==> FieldFiled(fields, v, t, i, |t.fields|, roots, root)
    requires forall name :: name in fields ==> FromField(name, t.fields, |t.fields|, roots)
    ensures HasKeys(if roots then fields[WHOLE := Prefixed(root(v, t))] else fields, t.fields, roots)
  {
    hide Encode, Prefixed, Typed, Kept, Filed;
    forall i | 0 <= i < |t.fields|
      ensures t.fields[i].name in fields && (roots ==> t.fields[i].name + SUFFIX in fields)
    {
      assert FieldFiled(fields, v, t, i, |t.fields|, roots, root);
    }
  }

  /** For every value, with and without roots, and whatever the names of its fields: the dump has the shape
      told above. */
  lemma {:induction false} DumpHasShape(v: Value, t: Type, roots: bool, root: RootOf)
    requires Typed(v, t)
    ensures Shape(Encode(v, t, roots, root), v, t, roots, root)
    decreases t
  {
    match t
    case Uint(_) =>
    case Boolean =>
    case ByteVector(_) => PrefixedIsHexText(v.bytes);
    case ByteList(_) => PrefixedIsHexText(v.bytes);
    case Vector(element, _) =>
      forall i | 0 <= i < |v.items|
        ensures Shape(Encode(v.items[i], element, roots, root), v.items[i], element, roots, root)
      {
        DumpHasShape(v.items[i], element, roots, root);
      }
    case List(element, _) =>
      forall i | 0 <= i < |v.items|
        ensures Shape(Encode(v.items[i], element, roots, root), v.items[i], element, roots, root)
      {
        DumpHasShape(v.items[i], element, roots, root);
      }
    case Container(fields) =>
      forall i | 0 <= i < |fields|
        ensures Shape(Encode(v.values[i], fields[i].typ, roots, root), v.values[i], fields[i].typ, roots, root)
      {
        DumpHasShape(v.values[i], fields[i].typ, roots, root);
      }
      ContainerHasShape(v, t, roots, root);
    case Union(options) =>
      if v.value.Some? {
        DumpHasShape(v.value.value, options[v.selector].value, roots, root);
      }
  }

  lemma ContainerHasShape(v: Value, t: Type, roots: bool, root: RootOf)
    requires t.Container? && Typed(v, t)
    requires forall i :: 0 <= i < |t.fields| ==>
      Shape(Encode(v.values[i], t.fields[i].typ, roots, root), v.values[i], t.fields[i].typ, roots, root)
    ensures Shape(Encode(v, t, roots, root), v, t, roots, root)
  {
    ContainerFiled(v, t, roots, root);
    var d := Encode(v, t, roots, root);
    assert d.Dict?;
    hide Encode, Prefixed, Stays, IsHexText;
    forall i | 0 <= i < |t.fields|
      ensures Stays(t.fields[i].name, t.fields, i, roots) ==>
        Shape(d.entries[t.fields[i].name], v.values[i], t.fields[i].typ, roots, root)
      ensures roots && Stays(t.fields[i].name + SUFFIX, t.fields, i, roots) ==>
        IsHexText(d.entries[t.fields[i].name + SUFFIX], root(v.values[i], t.fields[i].typ))
    {
      assert FieldStays(d.entries, v, t, i, roots, root);
      PrefixedIsHexText(root(v.values[i], t.fields[i].typ));
    }
    PrefixedIsHexText(root(v, t));
  }

  // ---------------------------------------------------------------- nothing else has it

  ghost predicate Files(name: string, f: Field, roots: bool) {
    name == f.name || (roots && name == f.name + "_hash_tree_root")
  }

  /** Of the fields that file something under a name there is a last one. */
  lemma {:induction false} LastField(name: string, fields: seq<Field>, k: nat, i: nat, roots: bool) returns (last: nat)
    requires i < k <= |fields| && Files(name, fields[i], roots)
    ensures last < k && Files(name, fields[last], roots)
    ensures forall j :: last < j < k ==> !Files(name, fields[j], roots)
  {
    if Files(name, fields[k - 1], roots) {
      last := k - 1;
    } else {
      last := LastField(name, fields, k - 1, i, roots);
    }
  }

  /** A value has only one dump. */
  lemma {:induction false} ShapeIsUnique(d: Data, e: Data, v: Value, t: Type, roots: bool, root: RootOf)
    requires Typed(v, t) && Shape(d, v, t, roots, root) && Shape(e, v, t, roots, root)
    ensures d == e
    decreases t
  {
    match t
    case Uint(_) =>
    case Boolean =>
    case ByteVector(_) =>
      HexTextIsPrefixed(d, v.bytes);
      HexTextIsPrefixed(e, v.bytes);
    case ByteList(_) =>
      HexTextIsPrefixed(d, v.bytes);
      HexTextIsPrefixed(e, v.bytes);
    case Vector(element, _) =>
      forall i | 0 <= i < |v.items| ensures d.items[i] == e.items[i] {
        ShapeIsUnique(d.items[i], e.items[i], v.items[i], element, roots, root);
      }
    case List(element, _) =>
      forall i | 0 <= i < |v.items| ensures d.items[i] == e.items[i] {
        ShapeIsUnique(d.items[i], e.items[i], v.items[i], element, roots, root);
      }
    case Container(fields) =>
      forall i | 0 <= i < |fields| && Stays(fields[i].name, fields, i, roots)
        ensures d.entries[fields[i].name] == e.entries[fields[i].name]
      {
        ShapeIsUnique(d.entries[fields[i].name], e.entries[fields[i].name], v.values[i], fields[i].typ, roots, root);
      }
      ContainerIsUnique(d.entries, e.entries, v, t, roots, root);
    case Union(options) =>
      if v.value.Some? {
        ShapeIsUnique(d.entries["value"], e.entries["value"], v.value.value, options[v.selector].value, roots, root);
      }
      assert d.entries == map["selector" := d.entries["selector"], "value" := d.entries["value"]];
      assert e.entries == map["selector" := e.entries["selector"], "value" := e.entries["value"]];
  }

  lemma ContainerIsUnique(
    d: map<string, Data>, e: map<string, Data>, v: Value, t: Type, roots: bool, root: RootOf)
    requires t.Container? && v.Fields? && |v.values| == |t.fields|
    requires HasKeys(d, t.fields, roots) && HasKeys(e, t.fields, roots)
    requires roots ==> HasRoots(d, v, t, root) && HasRoots(e, v, t, root)
    requires forall i :: 0 <= i < |t.fields| && Stays(t.fields[i].name, t.fields, i, roots) ==>
      d[t.fields[i].name] == e[t.fields[i].name]
    ensures d == e
  {
    SameKeys(d, e, t.fields, roots);
    forall name | name in d ensures name in e && d[name] == e[name] {
      SameEntry(d, e, v, t, roots, root, name);
    }
  }

  lemma SameKeys(d: map<string, Data>, e: map<string, Data>, fields: seq<Field>, roots: bool)
    requires HasKeys(d, fields, roots) && HasKeys(e, fields, roots)
    ensures d.Keys == e.Keys
  {
  }

  lemma SameEntry(
    d: map<string, Data>, e: map<string, Data>, v: Value, t: Type, roots: bool, root: RootOf, name: string)
    requires t.Container? && v.Fields? && |v.values| == |t.fields| && name in d && name in e
    requires HasKeys(d, t.fields, roots) && HasKeys(e, t.fields, roots)
    requires roots ==> HasRoots(d, v, t, root) && HasRoots(e, v, t, root)
    requires forall i :: 0 <= i < |t.fields| && Stays(t.fields[i].name, t.fields, i, roots) ==>
      d[t.fields[i].name] == e[t.fields[i].name]
    ensures d[name] == e[name]
  {
    hide IsHexText;
    if roots && name == WHOLE {
      HexTextIsPrefixed(d[WHOLE], root(v, t));
      HexTextIsPrefixed(e[WHOLE], root(v, t));
    } else {
      var i :| 0 <= i < |t.fields| && Files(name, t.fields[i], roots);
      var last := LastField(name, t.fields, |t.fields|, i, roots);
      hide HasKeys;
      assert Stays(name, t.fields, last, roots) by {
        forall j | last < j < |t.fields|
          ensures t.fields[j].name != name && (roots ==> t.fields[j].name + "_hash_tree_root" != name)
        {
          assert !Files(name, t.fields[j], roots);
        }
      }
      if name != t.fields[last].name {
        HexTextIsPrefixed(d[name], root(v.values[last], t.fields[last].typ));
        HexTextIsPrefixed(e[name], root(v.values[last], t.fields[last].typ));
      }
    }
  }

  /** So the shape says all there is to say of a dump. */
  lemma DumpIffShape(d: Data, v: Value, t: Type, roots: bool, root: RootOf)
    requires Typed(v, t)
    ensures d == Encode(v, t, roots, root) <==> Shape(d, v, t, roots, root)
  {
    hide Encode, Shape;
    DumpHasShape(v, t, roots, root);
    if Shape(d, v, t, roots, root) {
      ShapeIsUnique(d, Encode(v, t, roots, root), v, t, roots, root);
    }
  }
}
