/** Dumping an SSZ value and reading it back. */
module SszRoundTrip {
  import opened Wrappers
  import opened SszValues

  /** The names of a container are distinct, and none can be taken for that of an added root. */
  ghost predicate NamesApart(fields: seq<Field>) {
    && (forall i, j :: 0 <= i < j < |fields| ==> fields[i].name != fields[j].name)
    && (forall i :: 0 <= i < |fields| ==> fields[i].name != WHOLE)
    && (forall i, j :: 0 <= i < |fields| && 0 <= j < |fields| ==> fields[i].name != fields[j].name + SUFFIX)
  }

  ghost predicate NamesDistinct(fields: seq<Field>) {
    forall i, j :: 0 <= i < j < |fields| ==> fields[i].name != fields[j].name
  }

  /** Apart as far as a dump with or without roots needs it. */
  ghost predicate Separate(fields: seq<Field>, roots: bool) {
    NamesDistinct(fields) && (roots ==> NamesApart(fields))
  }

  /** Every container inside the type has its names apart. */
  ghost predicate Unambiguous(t: Type)
    decreases t
  {
    match t
    case Vector(element, _) => Unambiguous(element)
    case List(element, _) => Unambiguous(element)
    case Container(fields) => NamesApart(fields) && forall i :: 0 <= i < |fields| ==> Unambiguous(fields[i].typ)
    case Union(options) => forall i :: 0 <= i < |options| && options[i].Some? ==> Unambiguous(options[i].value)
    case _ => true
  }

  // ---------------------------------------------------------------- names

  lemma SuffixCancels(a: string, b: string)
    requires a + SUFFIX == b + SUFFIX
    ensures a == b
  {
    assert |a| == |b|;
    assert a == (a + SUFFIX)[..|a|] && b == (b + SUFFIX)[..|b|];
  }

  lemma SuffixedIsNotWhole(a: string)
    ensures a + SUFFIX != WHOLE
  {
    assert |SUFFIX| == 15 && |WHOLE| == 14;
  }

  /** What the first `k` fields put into the dictionary. */
  ghost predicate Filled(entries: map<string, Data>, v: Value, t: Type, k: nat, roots: bool, root: RootOf)
    requires t.Container? && Typed(v, t) && k <= |t.fields|
  {
    && (forall i :: 0 <= i < k ==> HasField(entries, v, t, i, roots, root))
    && (forall name :: name in entries ==> FromField(name, t.fields, k, roots))
  }

  ghost predicate HasField(entries: map<string, Data>, v: Value, t: Type, i: nat, roots: bool, root: RootOf)
    requires t.Container? && Typed(v, t) && i < |t.fields|
  {
    var f := t.fields[i];
    && f.name in entries && entries[f.name] == Encode(v.values[i], f.typ, roots, root)
    && (roots ==> f.name + SUFFIX in entries && entries[f.name + SUFFIX] == Prefixed(root(v.values[i], f.typ)))
  }

  ghost predicate FromField(name: string, fields: seq<Field>, k: nat, roots: bool)
    requires k <= |fields|
  {
    exists i :: 0 <= i < k && (name == fields[i].name || (roots && name == fields[i].name + SUFFIX))
  }

  lemma {:induction false} FieldsFill(v: Value, t: Type, k: nat, roots: bool, root: RootOf)
    requires t.Container? && Typed(v, t) && k <= |t.fields| && Separate(t.fields, roots)
    ensures Filled(EncodeFields(v, t, k, roots, root), v, t, k, roots, root)
  {
    hide Filled, EncodeFields, Encode, Separate, AddEntry, Prefixed, Typed;
    if k == 0 {
      NothingFilled(v, t, roots, root);
    } else {
      FieldsFill(v, t, k - 1, roots, root);
      FillNext(EncodeFields(v, t, k - 1, roots, root), EncodeFields(v, t, k, roots, root), v, t, k, roots, root);
    }
  }

  lemma NothingFilled(v: Value, t: Type, roots: bool, root: RootOf)
    requires t.Container? && Typed(v, t)
    ensures Filled(EncodeFields(v, t, 0, roots, root), v, t, 0, roots, root)
  {
  }

  lemma FillNext(
    before: map<string, Data>, after: map<string, Data>, v: Value, t: Type, k: nat, roots: bool, root: RootOf)
    requires t.Container? && Typed(v, t) && 0 < k <= |t.fields| && Separate(t.fields, roots)
    requires before == EncodeFields(v, t, k - 1, roots, root) && after == EncodeFields(v, t, k, roots, root)
    requires Filled(before, v, t, k - 1, roots, root)
    ensures Filled(after, v, t, k, roots, root)
  {
    hide Filled, Encode, Separate, AddEntry, Prefixed;
    FieldsUnroll(v, t, k, roots, root);
    hide EncodeFields;
    FillOne(before, v, t, k - 1, roots, root);
  }

  lemma FieldsUnroll(v: Value, t: Type, k: nat, roots: bool, root: RootOf)
    requires t.Container? && Typed(v, t) && 0 < k <= |t.fields|
    ensures
      var f := t.fields[k - 1];
      var entry := Encode(v.values[k - 1], f.typ, roots, root);
      EncodeFields(v, t, k, roots, root)
        == AddEntry(EncodeFields(v, t, k - 1, roots, root), f.name, entry, Prefixed(root(v.values[k - 1], f.typ)),
          roots)
  {
    hide AddEntry, Prefixed;
  }

  lemma FillOne(before: map<string, Data>, v: Value, t: Type, k: nat, roots: bool, root: RootOf)
    requires t.Container? && Typed(v, t) && k < |t.fields| && Separate(t.fields, roots)
    requires Filled(before, v, t, k, roots, root)
    ensures
      var f := t.fields[k];
      var entry := Encode(v.values[k], f.typ, roots, root);
      Filled(AddEntry(before, f.name, entry, Prefixed(root(v.values[k], f.typ)), roots), v, t, k + 1, roots, root)
  {
    hide Encode, Prefixed, HasField, FromField, Separate, AddEntry;
    var f := t.fields[k];
    var entries :=
      AddEntry(before, f.name, Encode(v.values[k], f.typ, roots, root), Prefixed(root(v.values[k], f.typ)), roots);
    forall i | 0 <= i < k + 1 ensures HasField(entries, v, t, i, roots, root) {
      FillStep(before, v, t, k, roots, root, i);
    }
    forall name | name in entries ensures FromField(name, t.fields, k + 1, roots) {
      EntryStep(before, v, t, k, roots, root, name);
    }
  }

  /** One more field keeps the entries of the fields before it. */
  lemma FillStep(before: map<string, Data>, v: Value, t: Type, k: nat, roots: bool, root: RootOf, i: nat)
    requires t.Container? && Typed(v, t) && i <= k < |t.fields| && Separate(t.fields, roots)
    requires i < k ==> HasField(before, v, t, i, roots, root)
    ensures
      var f := t.fields[k];
      var entry := Encode(v.values[k], f.typ, roots, root);
      HasField(AddEntry(before, f.name, entry, Prefixed(root(v.values[k], f.typ)), roots), v, t, i, roots, root)
  {
    hide Encode, Prefixed, NamesApart;
    if i < k {
      if roots {
        KeepsField(t.fields, i, k);
      }
    } else {
      SuffixIsLonger(t.fields[k].name);
    }
  }

  lemma EntryStep(before: map<string, Data>, v: Value, t: Type, k: nat, roots: bool, root: RootOf, name: string)
    requires t.Container? && Typed(v, t) && k < |t.fields|
    requires name in before ==> FromField(name, t.fields, k, roots)
    requires var f := t.fields[k];
      name in AddEntry(before, f.name, Encode(v.values[k], f.typ, roots, root), Prefixed(root(v.values[k], f.typ)),
        roots)
    ensures FromField(name, t.fields, k + 1, roots)
  {
    hide Encode, Prefixed;
    if name !in before {
      assert name == t.fields[k].name || (roots && name == t.fields[k].name + SUFFIX);
    }
  }

  lemma SuffixIsLonger(a: string)
    ensures a + SUFFIX != a
  {
    assert |a + SUFFIX| == |a| + 15;
  }

  lemma KeepsField(fields: seq<Field>, i: nat, j: nat)
    requires NamesApart(fields) && i < j < |fields|
    ensures fields[i].name != fields[j].name && fields[i].name != fields[j].name + SUFFIX
    ensures fields[i].name + SUFFIX != fields[j].name && fields[i].name + SUFFIX != fields[j].name + SUFFIX
  {
    if fields[i].name + SUFFIX == fields[j].name + SUFFIX {
      SuffixCancels(fields[i].name, fields[j].name);
    }
  }

  lemma Apart(fields: seq<Field>, i: nat)
    requires NamesApart(fields) && i < |fields|
    ensures !FromField(fields[i].name + SUFFIX, fields, |fields|, false)
    ensures !FromField(WHOLE, fields, |fields|, false) && !FromField(WHOLE, fields, |fields|, true)
  {
    forall j | 0 <= j < |fields| ensures fields[j].name + SUFFIX != WHOLE {
      SuffixedIsNotWhole(fields[j].name);
    }
  }

  // ---------------------------------------------------------------- the round trip

  /** For every type of small integers, Booleans, byte strings, vectors, lists, unambiguous containers
      and unions, and with or without roots: reading a dump back gives the value, and every root
      check passes. */
  lemma {:induction false} RoundTrip(v: Value, t: Type, roots: bool, root: RootOf)
    requires Typed(v, t) && Unambiguous(t)
    ensures Decode(Encode(v, t, roots, root), t, root) == Success(v)
    decreases t, 1, 0
  {
    match t
    case Uint(_) =>
    case Boolean =>
    case ByteVector(_) => BytesRoundTrip(v.bytes);
    case ByteList(_) => BytesRoundTrip(v.bytes);
    case Vector(element, _) =>
      forall i | 0 <= i < |v.items|
        ensures Decode(Encode(v.items[i], element, roots, root), element, root) == Success(v.items[i])
      {
        RoundTrip(v.items[i], element, roots, root);
      }
      ItemsRead(EncodeItems(v.items, element, roots, root), v.items, element, root);
    case List(element, _) =>
      forall i | 0 <= i < |v.items|
        ensures Decode(Encode(v.items[i], element, roots, root), element, root) == Success(v.items[i])
      {
        RoundTrip(v.items[i], element, roots, root);
      }
      ItemsRead(EncodeItems(v.items, element, roots, root), v.items, element, root);
    case Container(fields) =>
      forall i | 0 <= i < |fields|
        ensures Decode(Encode(v.values[i], fields[i].typ, roots, root), fields[i].typ, root) == Success(v.values[i])
      {
        RoundTrip(v.values[i], fields[i].typ, roots, root);
      }
      ContainerRoundTrip(v, t, roots, root);
    case Union(options) =>
      if v.value.Some? {
        RoundTrip(v.value.value, options[v.selector].value, roots, root);
      }
  }

  lemma BytesRoundTrip(bytes: seq<byte>)
    ensures DecodeBytes(Prefixed(bytes)) == Some(bytes)
    ensures RootMatches(Prefixed(bytes), bytes)
  {
    HexRoundTrip(bytes);
    assert ("0x" + Hex(bytes))[2..] == Hex(bytes);
  }

  ghost function EncodeItems(items: seq<Value>, element: Type, roots: bool, root: RootOf): seq<Data>
    requires forall i :: 0 <= i < |items| ==> Typed(items[i], element)
  {
    seq(|items|, i requires 0 <= i < |items| => Encode(items[i], element, roots, root))
  }

  /** A list is read if each of its items is. */
  lemma {:induction false} ItemsRead(data: seq<Data>, items: seq<Value>, element: Type, root: RootOf)
    requires |data| == |items| && forall i :: 0 <= i < |items| ==> Decode(data[i], element, root) == Success(items[i])
    ensures DecodeItems(data, element, root) == Success(items)
    decreases |items|
  {
    hide Decode;
    if items != [] {
      var n := |items| - 1;
      ItemsRead(data[..n], items[..n], element, root);
      assert items[..n] + [items[n]] == items;
    }
  }

  lemma ContainerRoundTrip(v: Value, t: Type, roots: bool, root: RootOf)
    requires t.Container? && Typed(v, t) && NamesApart(t.fields)
    requires forall i :: 0 <= i < |t.fields| ==>
      Decode(Encode(v.values[i], t.fields[i].typ, roots, root), t.fields[i].typ, root) == Success(v.values[i])
    ensures Decode(Encode(v, t, roots, root), t, root) == Success(v)
  {
    var n := |t.fields|;
    var entries := Encode(v, t, roots, root).entries;
    AddWhole(v, t, roots, root);
    forall i | 0 <= i < n ensures FieldRead(entries, t.fields[i], v.values[i], root) {
      FieldIsRead(entries, v, t, i, roots, root);
    }
    FieldsRead(entries, t, n, v.values, root);
    assert v.values[..n] == v.values;
    BytesRoundTrip(root(v, t));
  }

  lemma FieldIsRead(entries: map<string, Data>, v: Value, t: Type, i: nat, roots: bool, root: RootOf)
    requires t.Container? && Typed(v, t) && i < |t.fields| && HasField(entries, v, t, i, roots, root)
    requires !roots ==> t.fields[i].name + SUFFIX !in entries
    requires Decode(Encode(v.values[i], t.fields[i].typ, roots, root), t.fields[i].typ, root) == Success(v.values[i])
    ensures FieldRead(entries, t.fields[i], v.values[i], root)
  {
    hide Encode, Decode, Prefixed, RootMatches;
    BytesRoundTrip(root(v.values[i], t.fields[i].typ));
  }

  /** A field as read: present, read from its entry, and in agreement with its root if there is one. */
  ghost predicate FieldRead(entries: map<string, Data>, f: Field, value: Value, root: RootOf) {
    && f.name in entries && Decode(entries[f.name], f.typ, root) == Success(value)
    && (f.name + SUFFIX in entries ==> RootMatches(entries[f.name + SUFFIX], root(value, f.typ)))
  }

  /** The fields of a container are read if each of them is. */
  lemma {:induction false} FieldsRead(entries: map<string, Data>, t: Type, k: nat, values: seq<Value>, root: RootOf)
    requires t.Container? && k <= |t.fields| == |values|
    requires forall i :: 0 <= i < k ==> FieldRead(entries, t.fields[i], values[i], root)
    ensures DecodeFields(entries, t, k, root) == Success(values[..k])
    decreases k
  {
    hide Decode, RootMatches;
    if k > 0 {
      FieldsRead(entries, t, k - 1, values, root);
      assert FieldRead(entries, t.fields[k - 1], values[k - 1], root);
      assert values[..k - 1] + [values[k - 1]] == values[..k];
    }
  }

  /** The entry for the whole container leaves those of the fields alone. */
  lemma AddWhole(v: Value, t: Type, roots: bool, root: RootOf)
    requires t.Container? && Typed(v, t) && NamesApart(t.fields)
    ensures
      var entries := Encode(v, t, roots, root).entries;
      && (forall i :: 0 <= i < |t.fields| ==> HasField(entries, v, t, i, roots, root))
      && (forall i :: 0 <= i < |t.fields| && !roots ==> t.fields[i].name + SUFFIX !in entries)
      && (WHOLE in entries <==> roots)
      && (roots ==> entries[WHOLE] == Prefixed(root(v, t)))
  {
    var n := |t.fields|;
    var fields, entries := EncodeFields(v, t, n, roots, root), Encode(v, t, roots, root).entries;
    FieldsFill(v, t, n, roots, root);
    forall i | 0 <= i < n
      ensures HasField(entries, v, t, i, roots, root) && (!roots ==> t.fields[i].name + SUFFIX !in entries)
    {
      assert HasField(fields, v, t, i, roots, root);
      SuffixedIsNotWhole(t.fields[i].name);
      Apart(t.fields, i);
    }
    if n > 0 {
      Apart(t.fields, 0);
    }
  }

  /** Different values have different dumps. */
  lemma EncodeInjective(v: Value, w: Value, t: Type, roots: bool, root: RootOf)
    requires Typed(v, t) && Typed(w, t) && Unambiguous(t)
    requires Encode(v, t, roots, root) == Encode(w, t, roots, root)
    ensures v == w
  {
    RoundTrip(v, t, roots, root);
    RoundTrip(w, t, roots, root);
  }

  // ---------------------------------------------------------------- what decoding guarantees

  /** Whatever is read is a value of the type. */
  lemma {:induction false} DecodeTyped(d: Data, t: Type, root: RootOf)
    ensures var r := Decode(d, t, root); r.Success? ==> Typed(r.value, t)
    decreases t, 1, 0
  {
    match t
    case Uint(_) =>
    case Boolean =>
    case ByteVector(_) =>
    case ByteList(_) =>
    case Vector(element, _) =>
      if d.Array? {
        ItemsTyped(d.items, element, root);
      }
    case List(element, _) =>
      if d.Array? {
        ItemsTyped(d.items, element, root);
      }
    case Container(fields) =>
      if d.Dict? {
        FieldsTyped(d.entries, t, |fields|, root);
      }
    case Union(options) =>
      if d.Dict? && "value" in d.entries && "selector" in d.entries {
        var selector := AsInt(d.entries["selector"]);
        if selector.Some? && 0 <= selector.value < |options| && options[selector.value].Some? {
          DecodeTyped(d.entries["value"], options[selector.value].value, root);
        }
      }
  }

  lemma {:induction false} ItemsTyped(items: seq<Data>, element: Type, root: RootOf)
    ensures
      var r := DecodeItems(items, element, root);
      r.Success? ==> |r.value| == |items| && forall i :: 0 <= i < |r.value| ==> Typed(r.value[i], element)
    decreases element, 2, |items|
  {
    if items != [] {
      ItemsTyped(items[..|items| - 1], element, root);
      DecodeTyped(items[|items| - 1], element, root);
      hide Decode, Typed;
    }
  }

  lemma {:induction false} FieldsTyped(entries: map<string, Data>, t: Type, k: nat, root: RootOf)
    requires t.Container? && k <= |t.fields|
    ensures
      var r := DecodeFields(entries, t, k, root);
      r.Success? ==>
        && |r.value| == k
        && forall i ::
          0 <= i < k ==> FieldRead(entries, t.fields[i], r.value[i], root) && Typed(r.value[i], t.fields[i].typ)
    decreases t, 0, k
  {
    if k > 0 {
      FieldsTyped(entries, t, k - 1, root);
      var f := t.fields[k - 1];
      if f.name in entries {
        DecodeTyped(entries[f.name], f.typ, root);
      }
      hide Decode, Typed;
    }
  }

  /** A container is only read when every root in the data is the root of what was read: a dump with a
      root altered, of a field or of the whole, is refused. */
  lemma RootsAreChecked(entries: map<string, Data>, t: Type, root: RootOf)
    requires t.Container? && Decode(Dict(entries), t, root).Success?
    ensures
      var v := Decode(Dict(entries), t, root).value;
      && v.Fields? && |v.values| == |t.fields|
      && (forall i :: 0 <= i < |t.fields| ==> FieldRead(entries, t.fields[i], v.values[i], root))
      && (WHOLE in entries ==> RootMatches(entries[WHOLE], root(v, t)))
  {
    FieldsTyped(entries, t, |t.fields|, root);
  }

  /** Two roots never match the same text. */
  lemma RootIsDetermined(d: Data, a: seq<byte>, b: seq<byte>)
    requires RootMatches(d, a) && RootMatches(d, b)
    ensures a == b
  {
    HexRoundTrip(a);
    HexRoundTrip(b);
  }
}
