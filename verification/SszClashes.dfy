/** Containers whose field names clash with those of added roots: exactly when a dump reads back. */
module SszClashes {
  import opened Wrappers
  import opened SszValues
  import opened SszRoundTrip

  /** Every container inside the type has distinct names, as every class has. */
  ghost predicate Distinct(t: Type)
    decreases t
  {
    match t
    case Vector(element, _) => Distinct(element)
    case List(element, _) => Distinct(element)
    case Container(fields) => NamesDistinct(fields) && forall i :: 0 <= i < |fields| ==> Distinct(fields[i].typ)
    case Union(options) => forall i :: 0 <= i < |options| && options[i].Some? ==> Distinct(options[i].value)
    case _ => true
  }

  /** The entry of field `i`, standing under the name of the root of field `j`, is that root. */
  ghost predicate ClashAgrees(v: Value, t: Type, i: nat, j: nat, root: RootOf)
    requires t.Container? && Typed(v, t) && i < |t.fields| && j < |t.fields|
  {
    t.fields[i].name == t.fields[j].name + SUFFIX ==>
      RootMatches(Encode(v.values[i], t.fields[i].typ, false, root), root(v.values[j], t.fields[j].typ))
  }

  ghost predicate WholeAgrees(v: Value, t: Type, i: nat, root: RootOf)
    requires t.Container? && Typed(v, t) && i < |t.fields|
  {
    t.fields[i].name == WHOLE ==> RootMatches(Encode(v.values[i], t.fields[i].typ, false, root), root(v, t))
  }

  /** Every field anywhere in the value that has the name of a root holds that root. */
  ghost predicate ClashesAgree(v: Value, t: Type, root: RootOf)
    requires Typed(v, t)
    decreases t
  {
    match t
    case Vector(element, _) => forall i :: 0 <= i < |v.items| ==> ClashesAgree(v.items[i], element, root)
    case List(element, _) => forall i :: 0 <= i < |v.items| ==> ClashesAgree(v.items[i], element, root)
    case Container(fields) =>
      && (forall i :: 0 <= i < |fields| ==> ClashesAgree(v.values[i], fields[i].typ, root))
      && (forall i, j :: 0 <= i < |fields| && 0 <= j < |fields| ==> ClashAgrees(v, t, i, j, root))
      && (forall i :: 0 <= i < |fields| ==> WholeAgrees(v, t, i, root))
    case Union(options) => v.value.Some? ==> ClashesAgree(v.value.value, options[v.selector].value, root)
    case _ => true
  }

  ghost predicate ReadsBack(v: Value, t: Type, roots: bool, root: RootOf)
    requires Typed(v, t)
  {
    Decode(Encode(v, t, roots, root), t, root) == Success(v)
  }

  /** A dump without roots reads back exactly when every field with the name of a root holds that
      root. */
  lemma {:induction false} PlainReadsBackIff(v: Value, t: Type, root: RootOf)
    requires Typed(v, t) && Distinct(t)
    ensures ReadsBack(v, t, false, root) <==> ClashesAgree(v, t, root)
    decreases t
  {
    match t
    case Uint(_) =>
    case Boolean =>
    case ByteVector(_) => BytesRoundTrip(v.bytes);
    case ByteList(_) => BytesRoundTrip(v.bytes);
    case Vector(element, _) =>
      forall i | 0 <= i < |v.items|
        ensures ReadsBack(v.items[i], element, false, root) <==> ClashesAgree(v.items[i], element, root)
      {
        PlainReadsBackIff(v.items[i], element, root);
      }
      ItemsReadIff(EncodeItems(v.items, element, false, root), v.items, element, root);
    case List(element, _) =>
      forall i | 0 <= i < |v.items|
        ensures ReadsBack(v.items[i], element, false, root) <==> ClashesAgree(v.items[i], element, root)
      {
        PlainReadsBackIff(v.items[i], element, root);
      }
      ItemsReadIff(EncodeItems(v.items, element, false, root), v.items, element, root);
    case Container(fields) =>
      forall i | 0 <= i < |fields|
        ensures ReadsBack(v.values[i], fields[i].typ, false, root) <==> ClashesAgree(v.values[i], fields[i].typ, root)
      {
        PlainReadsBackIff(v.values[i], fields[i].typ, root);
      }
      ContainerReadsBackIff(v, t, root);
    case Union(options) =>
      if v.value.Some? {
        PlainReadsBackIff(v.value.value, options[v.selector].value, root);
      }
  }

  /** A list is read as given exactly when each of its items is. */
  lemma {:induction false} ItemsReadIff(data: seq<Data>, items: seq<Value>, element: Type, root: RootOf)
    requires |data| == |items|
    ensures DecodeItems(data, element, root) == Success(items)
       <==> forall i :: 0 <= i < |items| ==> Decode(data[i], element, root) == Success(items[i])
    decreases |items|
  {
    hide Decode;
    if items != [] {
      var n := |items| - 1;
      ItemsReadIff(data[..n], items[..n], element, root);
      assert items[..n] + [items[n]] == items;
      if DecodeItems(data, element, root) == Success(items) {
        var front := DecodeItems(data[..n], element, root).value;
        assert front == (front + [items[n]])[..n];
      }
    }
  }

  /** A container reads back exactly when its fields do and none of them stands for a root that it
      is not. */
  lemma ContainerReadsBackIff(v: Value, t: Type, root: RootOf)
    requires t.Container? && Typed(v, t) && NamesDistinct(t.fields)
    ensures ReadsBack(v, t, false, root) <==>
      && (forall i :: 0 <= i < |t.fields| ==> ReadsBack(v.values[i], t.fields[i].typ, false, root))
      && (forall i, j :: 0 <= i < |t.fields| && 0 <= j < |t.fields| ==> ClashAgrees(v, t, i, j, root))
      && (forall i :: 0 <= i < |t.fields| ==> WholeAgrees(v, t, i, root))
  {
    var n := |t.fields|;
    var entries := EncodeFields(v, t, n, false, root);
    FieldsFill(v, t, n, false, root);
    DictionaryReadsBack(v, t, root);
    hide Decode, Encode, EncodeFields, ReadsBack, ClashAgrees, WholeAgrees, FieldRead, Filled, RootMatches;
    FieldsReadIff(entries, t, n, v.values, root);
    assert v.values[..n] == v.values;
    forall i | 0 <= i < n
      ensures FieldRead(entries, t.fields[i], v.values[i], root) <==>
        && ReadsBack(v.values[i], t.fields[i].typ, false, root)
        && forall j :: 0 <= j < n ==> ClashAgrees(v, t, j, i, root)
    {
      FieldReadIff(entries, v, t, i, root);
    }
    WholeReadIff(entries, v, t, root);
  }

  lemma DictionaryReadsBack(v: Value, t: Type, root: RootOf)
    requires t.Container? && Typed(v, t)
    ensures
      var entries := EncodeFields(v, t, |t.fields|, false, root);
      ReadsBack(v, t, false, root) <==>
        && DecodeFields(entries, t, |t.fields|, root) == Success(v.values)
        && (WHOLE in entries ==> RootMatches(entries[WHOLE], root(v, t)))
  {
    hide RootMatches, EncodeFields, DecodeFields;
    assert v == Fields(v.values);
  }

  lemma {:induction false} FieldsReadIff(entries: map<string, Data>, t: Type, k: nat, values: seq<Value>, root: RootOf)
    requires t.Container? && k <= |t.fields| == |values|
    ensures DecodeFields(entries, t, k, root) == Success(values[..k])
       <==> forall i :: 0 <= i < k ==> FieldRead(entries, t.fields[i], values[i], root)
    decreases k
  {
    hide Decode, RootMatches;
    if k > 0 {
      FieldsReadIff(entries, t, k - 1, values, root);
      assert values[..k - 1] + [values[k - 1]] == values[..k];
      if DecodeFields(entries, t, k, root) == Success(values[..k]) {
        LastOfEqual(DecodeFields(entries, t, k - 1, root).value,
          Decode(entries[t.fields[k - 1].name], t.fields[k - 1].typ, root).value,
          values[..k - 1], values[k - 1]);
      }
    }
  }

  lemma LastOfEqual<T>(a: seq<T>, x: T, b: seq<T>, y: T)
    requires a + [x] == b + [y]
    ensures a == b && x == y
  {
    assert |a| == |b|;
    assert a == (a + [x])[..|a|] && b == (b + [y])[..|b|];
    assert x == (a + [x])[|a|] && y == (b + [y])[|b|];
  }

  lemma FieldReadIff(entries: map<string, Data>, v: Value, t: Type, i: nat, root: RootOf)
    requires t.Container? && Typed(v, t) && i < |t.fields| && Filled(entries, v, t, |t.fields|, false, root)
    ensures FieldRead(entries, t.fields[i], v.values[i], root) <==>
      && ReadsBack(v.values[i], t.fields[i].typ, false, root)
      && forall j :: 0 <= j < |t.fields| ==> ClashAgrees(v, t, j, i, root)
  {
    hide Decode, Encode, RootMatches;
    var name := t.fields[i].name + SUFFIX;
    assert HasField(entries, v, t, i, false, root);
    if name in entries {
      var j :| 0 <= j < |t.fields| && name == t.fields[j].name;
      assert HasField(entries, v, t, j, false, root);
      assert ClashAgrees(v, t, j, i, root) <==> RootMatches(entries[name], root(v.values[i], t.fields[i].typ));
    }
    forall j | 0 <= j < |t.fields|
      ensures t.fields[j].name in entries
      ensures ClashAgrees(v, t, j, i, root)
        <==> (t.fields[j].name == name ==> RootMatches(entries[name], root(v.values[i], t.fields[i].typ)))
    {
      assert HasField(entries, v, t, j, false, root);
    }
    assert ReadsBack(v.values[i], t.fields[i].typ, false, root)
      <==> Decode(entries[t.fields[i].name], t.fields[i].typ, root) == Success(v.values[i]);
    assert (name in entries ==> RootMatches(entries[name], root(v.values[i], t.fields[i].typ)))
      <==> forall j :: 0 <= j < |t.fields| ==> ClashAgrees(v, t, j, i, root);
  }

  lemma WholeReadIff(entries: map<string, Data>, v: Value, t: Type, root: RootOf)
    requires t.Container? && Typed(v, t) && Filled(entries, v, t, |t.fields|, false, root)
    ensures (WHOLE in entries ==> RootMatches(entries[WHOLE], root(v, t)))
       <==> forall i :: 0 <= i < |t.fields| ==> WholeAgrees(v, t, i, root)
  {
    hide Encode, RootMatches;
    forall i | 0 <= i < |t.fields|
      ensures t.fields[i].name in entries
      ensures WholeAgrees(v, t, i, root) <==> (t.fields[i].name == WHOLE ==> RootMatches(entries[WHOLE], root(v, t)))
    {
      assert HasField(entries, v, t, i, false, root);
    }
    if WHOLE in entries {
      var i :| 0 <= i < |t.fields| && WHOLE == t.fields[i].name;
      assert WholeAgrees(v, t, i, root) <==> RootMatches(entries[WHOLE], root(v, t));
    }
  }

  // ---------------------------------------------------------------- types without clashes

  lemma {:induction false} PlainDumpIgnoresRoots(v: Value, t: Type, a: RootOf, b: RootOf)
    requires Typed(v, t)
    ensures Encode(v, t, false, a) == Encode(v, t, false, b)
    decreases t, 1, 0
  {
    match t
    case Uint(_) =>
    case Boolean =>
    case ByteVector(_) =>
    case ByteList(_) =>
    case Vector(element, _) =>
      forall i | 0 <= i < |v.items|
        ensures Encode(v.items[i], element, false, a) == Encode(v.items[i], element, false, b)
      {
        PlainDumpIgnoresRoots(v.items[i], element, a, b);
      }
    case List(element, _) =>
      forall i | 0 <= i < |v.items|
        ensures Encode(v.items[i], element, false, a) == Encode(v.items[i], element, false, b)
      {
        PlainDumpIgnoresRoots(v.items[i], element, a, b);
      }
    case Container(fields) => PlainFieldsIgnoreRoots(v, t, |fields|, a, b);
    case Union(options) =>
      if v.value.Some? {
        PlainDumpIgnoresRoots(v.value.value, options[v.selector].value, a, b);
      }
  }

  lemma {:induction false} PlainFieldsIgnoreRoots(v: Value, t: Type, k: nat, a: RootOf, b: RootOf)
    requires t.Container? && Typed(v, t) && k <= |t.fields|
    ensures EncodeFields(v, t, k, false, a) == EncodeFields(v, t, k, false, b)
    decreases t, 0, k
  {
    if k > 0 {
      PlainFieldsIgnoreRoots(v, t, k - 1, a, b);
      PlainDumpIgnoresRoots(v.values[k - 1], t.fields[k - 1].typ, a, b);
    }
  }

  lemma {:induction false} UnambiguousIsDistinct(t: Type)
    requires Unambiguous(t)
    ensures Distinct(t)
    decreases t
  {
    match t
    case Vector(element, _) => UnambiguousIsDistinct(element);
    case List(element, _) => UnambiguousIsDistinct(element);
    case Container(fields) =>
      forall i | 0 <= i < |fields| ensures Distinct(fields[i].typ) {
        UnambiguousIsDistinct(fields[i].typ);
      }
    case Union(options) =>
      forall i | 0 <= i < |options| && options[i].Some? ensures Distinct(options[i].value) {
        UnambiguousIsDistinct(options[i].value);
      }
    case _ =>
  }

  /** Every value reads back, with and without roots, whatever the hash. */
  ghost predicate AllReadBack(t: Type) {
    forall v: Value, roots: bool, root: RootOf {:trigger ReadsBack(v, t, roots, root)} ::
      Typed(v, t) ==> ReadsBack(v, t, roots, root)
  }

  /** A container of unambiguous fields, with any value at all, reads back always exactly when its
      names are apart. */
  lemma NamesApartIff(fields: seq<Field>, sample: Value)
    requires NamesDistinct(fields) && forall i :: 0 <= i < |fields| ==> Unambiguous(fields[i].typ)
    requires Typed(sample, Container(fields))
    ensures NamesApart(fields) <==> AllReadBack(Container(fields))
  {
    var t := Container(fields);
    if NamesApart(fields) {
      forall v: Value, roots: bool, root: RootOf | Typed(v, t) ensures ReadsBack(v, t, roots, root) {
        RoundTrip(v, t, roots, root);
      }
    } else {
      var a: RootOf, b: RootOf := (_, _) => [0], (_, _) => [1];
      forall i | 0 <= i < |fields| ensures Distinct(fields[i].typ) {
        UnambiguousIsDistinct(fields[i].typ);
      }
      PlainReadsBackIff(sample, t, a);
      PlainReadsBackIff(sample, t, b);
      ClashNeedsHash(sample, t, a, b);
    }
  }

  /** Where names clash, a dump does not read back under both of two hashes. */
  lemma ClashNeedsHash(v: Value, t: Type, a: RootOf, b: RootOf)
    requires t.Container? && Typed(v, t) && NamesDistinct(t.fields) && !NamesApart(t.fields)
    requires forall x: Value, y: Type :: a(x, y) != b(x, y)
    ensures !(ClashesAgree(v, t, a) && ClashesAgree(v, t, b))
  {
    forall i | 0 <= i < |t.fields|
      ensures Encode(v.values[i], t.fields[i].typ, false, a) == Encode(v.values[i], t.fields[i].typ, false, b)
    {
      PlainDumpIgnoresRoots(v.values[i], t.fields[i].typ, a, b);
    }
    hide Encode, RootMatches;
    if i, j :| 0 <= i < |t.fields| && 0 <= j < |t.fields| && t.fields[i].name == t.fields[j].name + SUFFIX {
      if ClashAgrees(v, t, i, j, a) && ClashAgrees(v, t, i, j, b) {
        RootIsDetermined(Encode(v.values[i], t.fields[i].typ, false, a),
          a(v.values[j], t.fields[j].typ), b(v.values[j], t.fields[j].typ));
      }
    } else {
      var i :| 0 <= i < |t.fields| && t.fields[i].name == WHOLE;
      if WholeAgrees(v, t, i, a) && WholeAgrees(v, t, i, b) {
        RootIsDetermined(Encode(v.values[i], t.fields[i].typ, false, a), a(v, t), b(v, t));
      }
    }
  }

  /** A container with a field of the name of an added root cannot be read back, even when no roots
      are added. */
  lemma ClashingNameFails(root: RootOf, roots: bool)
    requires root(Fields([Bytes([0])]), Container([Field(WHOLE, ByteVector(1))])) != [0]
    ensures
      var t := Container([Field(WHOLE, ByteVector(1))]);
      var v := Fields([Bytes([0])]);
      && Typed(v, t) && Decode(Encode(v, t, roots, root), t, root) != Success(v)
  {
    var t := Container([Field(WHOLE, ByteVector(1))]);
    var v := Fields([Bytes([0])]);
    assert Typed(v, t);
    if Decode(Encode(v, t, roots, root), t, root) == Success(v) {
      var entries := Encode(v, t, roots, root).entries;
      RootsAreChecked(entries, t, root);
      assert FieldRead(entries, t.fields[0], v.values[0], root);
      ClashingEntry(v, t, roots, root);
      BytesRoundTrip([0]);
      BytesRoundTrip(root(v, t));
      RootIsDetermined(entries[WHOLE], [0], root(v, t));
    }
  }

  lemma ClashingEntry(v: Value, t: Type, roots: bool, root: RootOf)
    requires t == Container([Field(WHOLE, ByteVector(1))]) && v == Fields([Bytes([0])]) && Typed(v, t)
    ensures
      var entries := Encode(v, t, roots, root).entries;
      WHOLE in entries && entries[WHOLE] == if roots then Prefixed(root(v, t)) else Prefixed([0])
  {
    assert EncodeFields(v, t, 0, roots, root) == map[];
    SuffixedIsNotWhole(WHOLE);
    assert EncodeFields(v, t, 1, roots, root)[WHOLE] == Prefixed([0]);
  }
}
