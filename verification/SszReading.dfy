/** What the reader accepts, and as which value, told without the functions that read. */
module SszReading {
  import opened Wrappers
  import opened Numbers
  import opened SszValues
  import opened SszRoundTrip
  import opened SszShape

  // ---------------------------------------------------------------- text of bytes

  /** A digit of either case. */
  ghost predicate IsDigit(c: char, n: nat) {
    n < 16 && (c == "0123456789abcdef"[n] || c == "0123456789ABCDEF"[n])
  }

  /** After two characters of any kind, the two digits of each byte. */
  ghost predicate IsTextOf(d: Data, bytes: seq<byte>) {
    && d.Str?
    && if |d.s| < 2 then bytes == []
       else
         && |d.s| == 2 + 2 * |bytes|
         && forall i :: 0 <= i < |bytes| ==>
              IsDigit(d.s[2 + 2 * i], bytes[i] / 16) && IsDigit(d.s[3 + 2 * i], bytes[i] % 16)
  }

  /** A root is compared as text: its digits are in lower case. */
  ghost predicate IsRootText(d: Data, bytes: seq<byte>) {
    && d.Str?
    && if |d.s| < 2 then bytes == []
       else
         && |d.s| == 2 + 2 * |bytes|
         && forall i :: 0 <= i < |bytes| ==> TwoDigits(d.s[2 + 2 * i], d.s[3 + 2 * i], bytes[i])
  }

  lemma DigitValueIff(c: char, n: nat)
    ensures n < 16 ==> (DigitValue(c) == Some(n) <==> IsDigit(c, n))
    ensures DigitValue(c).Some? ==> DigitValue(c).value < 16
  {
  }

  ghost predicate AreDigits(s: string, bytes: seq<byte>) {
    && |s| == 2 * |bytes|
    && forall i :: 0 <= i < |bytes| ==> IsDigit(s[2 * i], bytes[i] / 16) && IsDigit(s[2 * i + 1], bytes[i] % 16)
  }

  lemma FromHexCons(s: string, bytes: seq<byte>)
    requires |s| >= 2 && bytes != []
    ensures
      FromHex(s) == Some(bytes) <==>
        var h, l := DigitValue(s[0]), DigitValue(s[1]);
        && h.Some? && l.Some? && h.value < 16 && l.value < 16 && bytes[0] == 16 * h.value + l.value
        && FromHex(s[2..]) == Some(bytes[1..])
  {
    hide DigitValue;
    assert [bytes[0]] + bytes[1..] == bytes;
    if FromHex(s) == Some(bytes) {
      assert ([bytes[0]] + FromHex(s[2..]).value)[1..] == FromHex(s[2..]).value;
    }
  }

  lemma {:induction false} FromHexIff(s: string, bytes: seq<byte>)
    ensures FromHex(s) == Some(bytes) <==> AreDigits(s, bytes)
    decreases |s|
  {
    if |s| >= 2 && bytes != [] {
      hide FromHex, IsDigit, DigitValue, AreDigits;
      FromHexCons(s, bytes);
      FromHexIff(s[2..], bytes[1..]);
      FirstByteIff(s[0], s[1], bytes[0]);
      RestIff(s, bytes);
    }
  }

  lemma FirstByteIff(high: char, low: char, b: byte)
    ensures
      IsDigit(high, b / 16) && IsDigit(low, b % 16) <==>
        var h, l := DigitValue(high), DigitValue(low);
        h.Some? && l.Some? && h.value < 16 && l.value < 16 && b == 16 * h.value + l.value
    ensures DigitValue(high).Some? ==> DigitValue(high).value < 16
    ensures DigitValue(low).Some? ==> DigitValue(low).value < 16
  {
    DigitValueIff(high, b / 16);
    DigitValueIff(low, b % 16);
    hide IsDigit, DigitValue;
  }

  lemma RestIff(s: string, bytes: seq<byte>)
    requires |s| >= 2 && bytes != []
    ensures AreDigits(s, bytes) <==>
      IsDigit(s[0], bytes[0] / 16) && IsDigit(s[1], bytes[0] % 16) && AreDigits(s[2..], bytes[1..])
  {
    hide IsDigit;
    var t, rest := s[2..], bytes[1..];
    if AreDigits(s, bytes) {
      assert IsDigit(s[2 * 0], bytes[0] / 16) && IsDigit(s[2 * 0 + 1], bytes[0] % 16);
      forall i | 0 <= i < |rest| ensures IsDigit(t[2 * i], rest[i] / 16) && IsDigit(t[2 * i + 1], rest[i] % 16) {
        assert IsDigit(s[2 * (i + 1)], bytes[i + 1] / 16) && IsDigit(s[2 * (i + 1) + 1], bytes[i + 1] % 16);
      }
    }
    if IsDigit(s[0], bytes[0] / 16) && IsDigit(s[1], bytes[0] % 16) && AreDigits(t, rest) {
      forall i | 0 <= i < |bytes| ensures IsDigit(s[2 * i], bytes[i] / 16) && IsDigit(s[2 * i + 1], bytes[i] % 16) {
        if i > 0 {
          assert IsDigit(t[2 * (i - 1)], rest[i - 1] / 16) && IsDigit(t[2 * (i - 1) + 1], rest[i - 1] % 16);
        }
      }
    }
  }

  lemma DecodeBytesIff(d: Data, bytes: seq<byte>)
    ensures DecodeBytes(d) == Some(bytes) <==> IsTextOf(d, bytes)
  {
    hide IsDigit;
    if d.Str? {
      var s := Drop2(d.s);
      FromHexIff(s, bytes);
      if |d.s| >= 2 {
        assert forall k :: 0 <= k < |s| ==> s[k] == d.s[k + 2];
        assert AreDigits(s, bytes) <==> IsTextOf(d, bytes) by {
          if AreDigits(s, bytes) {
            forall i | 0 <= i < |bytes|
              ensures IsDigit(d.s[2 + 2 * i], bytes[i] / 16) && IsDigit(d.s[3 + 2 * i], bytes[i] % 16)
            {
              assert s[2 * i] == d.s[2 + 2 * i] && s[2 * i + 1] == d.s[3 + 2 * i];
            }
          }
          if IsTextOf(d, bytes) {
            forall i | 0 <= i < |bytes|
              ensures IsDigit(s[2 * i], bytes[i] / 16) && IsDigit(s[2 * i + 1], bytes[i] % 16)
            {
              assert s[2 * i] == d.s[2 + 2 * i] && s[2 * i + 1] == d.s[3 + 2 * i];
            }
          }
        }
      }
    }
  }

  lemma RootMatchesIff(d: Data, bytes: seq<byte>)
    ensures RootMatches(d, bytes) <==> IsRootText(d, bytes)
  {
    hide TwoDigits;
    HexDigits(bytes);
    if d.Str? && |d.s| >= 2 {
      if IsRootText(d, bytes) {
        RootTextIsHex(d, bytes);
      }
      if RootMatches(d, bytes) {
        forall i | 0 <= i < |bytes| ensures TwoDigits(d.s[2 + 2 * i], d.s[3 + 2 * i], bytes[i]) {
          assert TwoDigits(Hex(bytes)[2 * i], Hex(bytes)[2 * i + 1], bytes[i]);
        }
      }
    }
  }

  lemma RootTextIsHex(d: Data, bytes: seq<byte>)
    requires IsRootText(d, bytes) && |d.s| >= 2
    ensures d.s[2..] == Hex(bytes)
  {
    hide TwoDigits;
    var e := Str("0x" + d.s[2..]);
    assert e.s[..2] == "0x";
    assert forall i :: 0 <= i < |bytes| ==> e.s[2 + 2 * i] == d.s[2 + 2 * i] && e.s[3 + 2 * i] == d.s[3 + 2 * i];
    HexTextIsPrefixed(e, bytes);
    assert ("0x" + Hex(bytes))[2..] == Hex(bytes) && e.s[2..] == d.s[2..];
  }

  // ---------------------------------------------------------------- the reader

  /** A Boolean counts as a number. */
  ghost predicate IsNumber(d: Data, n: nat) {
    d == Int(n) || (d == Bool(false) && n == 0) || (d == Bool(true) && n == 1)
  }

  /** Every root in the data is that of what was read. */
  ghost predicate RootsFit(entries: map<string, Data>, v: Value, t: Type, root: RootOf)
    requires t.Container? && v.Fields? && |v.values| == |t.fields|
  {
    && (forall i :: 0 <= i < |t.fields| && t.fields[i].name + "_hash_tree_root" in entries ==>
         IsRootText(entries[t.fields[i].name + "_hash_tree_root"], root(v.values[i], t.fields[i].typ)))
    && ("hash_tree_root" in entries ==> IsRootText(entries["hash_tree_root"], root(v, t)))
  }

  /** `d` can be read as the value `v` of type `t`. */
  ghost predicate Reads(d: Data, v: Value, t: Type, root: RootOf)
    decreases t
  {
    match t
    case Uint(bytes) => v.Number? && bytes <= 8 && v.n < Pow2(8 * bytes) && IsNumber(d, v.n)
    case Boolean => v.Flag? && IsNumber(d, if v.b then 1 else 0)
    case ByteVector(length) => v.Bytes? && |v.bytes| == length && IsTextOf(d, v.bytes)
    case ByteList(limit) => v.Bytes? && |v.bytes| <= limit && IsTextOf(d, v.bytes)
    case Vector(element, length) =>
      && v.Items? && d.Array? && |d.items| == |v.items| == length
      && forall i :: 0 <= i < |v.items| ==> Reads(d.items[i], v.items[i], element, root)
    case List(element, limit) =>
      && v.Items? && d.Array? && |d.items| == |v.items| <= limit
      && forall i :: 0 <= i < |v.items| ==> Reads(d.items[i], v.items[i], element, root)
    case Container(fields) =>
      && v.Fields? && |v.values| == |fields| && d.Dict? && RootsFit(d.entries, v, t, root)
      && forall i :: 0 <= i < |fields| ==>
           fields[i].name in d.entries && Reads(d.entries[fields[i].name], v.values[i], fields[i].typ, root)
    case Union(options) =>
      && v.Choice? && v.selector < |options| && d.Dict? && "selector" in d.entries && "value" in d.entries
      && IsNumber(d.entries["selector"], v.selector)
      && (options[v.selector].None? <==> v.value.None?)
      && match v.value
         case None => d.entries["value"] == Null
         case Some(inner) => Reads(d.entries["value"], inner, options[v.selector].value, root)
  }

  /** A list is read exactly if each of its items is. */
  lemma {:induction false} ItemsIff(data: seq<Data>, items: seq<Value>, element: Type, root: RootOf)
    ensures DecodeItems(data, element, root) == Success(items) <==>
      |data| == |items| && forall i :: 0 <= i < |items| ==> Decode(data[i], element, root) == Success(items[i])
    decreases |data|
  {
    hide Decode;
    if data != [] && DecodeItems(data, element, root) == Success(items) {
      var n := |data| - 1;
      ItemsIff(data[..n], items[..|items| - 1], element, root);
      assert items == items[..n] + [items[n]];
    } else if |data| == |items| && forall i ::
      0 <= i < |items| ==> Decode(data[i], element, root) == Success(items[i]) {
      ItemsRead(data, items, element, root);
    }
  }

  /** And so are the fields of a container. */
  lemma {:induction false} FieldsIff(entries: map<string, Data>, t: Type, k: nat, values: seq<Value>, root: RootOf)
    requires t.Container? && k <= |t.fields|
    ensures DecodeFields(entries, t, k, root) == Success(values) <==>
      |values| == k && forall i :: 0 <= i < k ==> FieldRead(entries, t.fields[i], values[i], root)
    decreases k
  {
    hide Decode, RootMatches;
    if k > 0 {
      if values == [] {
      } else {
        var n := |values| - 1;
        FieldsIff(entries, t, k - 1, values[..n], root);
        assert values == values[..n] + [values[n]];
      }
    }
  }

  /** What the reader says of this item agrees with what can be read. */
  ghost predicate Agrees(d: Data, v: Value, t: Type, root: RootOf) {
    Decode(d, t, root) == Success(v) <==> Reads(d, v, t, root)
  }

  /** The reader accepts exactly what can be read, as exactly that value. */
  lemma {:induction false} DecodeIff(d: Data, v: Value, t: Type, root: RootOf)
    ensures Decode(d, t, root) == Success(v) <==> Reads(d, v, t, root)
    decreases t
  {
    hide Decode, Reads;
    match t
    case Vector(element, _) =>
      if d.Array? && v.Items? && |d.items| == |v.items| {
        forall i | 0 <= i < |v.items| ensures Agrees(d.items[i], v.items[i], element, root) {
          DecodeIff(d.items[i], v.items[i], element, root);
        }
      }
      ArrayIff(d, v, t, element, root);
    case List(element, _) =>
      if d.Array? && v.Items? && |d.items| == |v.items| {
        forall i | 0 <= i < |v.items| ensures Agrees(d.items[i], v.items[i], element, root) {
          DecodeIff(d.items[i], v.items[i], element, root);
        }
      }
      ArrayIff(d, v, t, element, root);
    case Container(fields) =>
      if d.Dict? && v.Fields? && |v.values| == |fields| {
        forall i | 0 <= i < |fields| && fields[i].name in d.entries
          ensures Agrees(d.entries[fields[i].name], v.values[i], fields[i].typ, root)
        {
          DecodeIff(d.entries[fields[i].name], v.values[i], fields[i].typ, root);
        }
      }
      ContainerIff(d, v, t, root);
    case Union(options) =>
      if d.Dict? && "value" in d.entries && v.Choice? && v.value.Some? {
        forall i | 0 <= i < |options| && options[i].Some?
          ensures Agrees(d.entries["value"], v.value.value, options[i].value, root)
        {
          DecodeIff(d.entries["value"], v.value.value, options[i].value, root);
        }
      }
      UnionIff(d, v, t, root);
    case _ => LeafIff(d, v, t, root);
  }

  lemma LeafIff(d: Data, v: Value, t: Type, root: RootOf)
    requires t.Uint? || t.Boolean? || t.ByteVector? || t.ByteList?
    ensures Decode(d, t, root) == Success(v) <==> Reads(d, v, t, root)
  {
    if v.Bytes? {
      DecodeBytesIff(d, v.bytes);
      hide IsTextOf, DecodeBytes;
    }
  }

  lemma ArrayIff(d: Data, v: Value, t: Type, element: Type, root: RootOf)
    requires (t.Vector? && t.element == element) || (t.List? && t.element == element)
    requires d.Array? && v.Items? && |d.items| == |v.items| ==>
      forall i :: 0 <= i < |v.items| ==> Agrees(d.items[i], v.items[i], element, root)
    ensures Decode(d, t, root) == Success(v) <==> Reads(d, v, t, root)
  {
    if d.Array? && v.Items? {
      ItemsIff(d.items, v.items, element, root);
      assert |d.items| == |v.items| ==> forall i :: 0 <= i < |v.items| ==>
        Agrees(d.items[i], v.items[i], element, root);
    }
  }

  lemma UnionIff(d: Data, v: Value, t: Type, root: RootOf)
    requires t.Union?
    requires d.Dict? && "value" in d.entries && v.Choice? && v.value.Some? ==>
      forall i :: 0 <= i < |t.options| && t.options[i].Some? ==>
        Agrees(d.entries["value"], v.value.value, t.options[i].value, root)
    ensures Decode(d, t, root) == Success(v) <==> Reads(d, v, t, root)
  {
  }

  lemma ContainerIff(d: Data, v: Value, t: Type, root: RootOf)
    requires t.Container?
    requires d.Dict? && v.Fields? && |v.values| == |t.fields| ==>
      forall i :: 0 <= i < |t.fields| && t.fields[i].name in d.entries ==>
        Agrees(d.entries[t.fields[i].name], v.values[i], t.fields[i].typ, root)
    ensures Decode(d, t, root) == Success(v) <==> Reads(d, v, t, root)
  {
    if d.Dict? && v.Fields? {
      FieldsIff(d.entries, t, |t.fields|, v.values, root);
      if |v.values| == |t.fields| {
        forall i | 0 <= i < |t.fields| && t.fields[i].name + SUFFIX in d.entries
          ensures RootMatches(d.entries[t.fields[i].name + SUFFIX], root(v.values[i], t.fields[i].typ))
            == IsRootText(d.entries[t.fields[i].name + SUFFIX], root(v.values[i], t.fields[i].typ))
        {
          RootMatchesIff(d.entries[t.fields[i].name + SUFFIX], root(v.values[i], t.fields[i].typ));
        }
        if WHOLE in d.entries {
          RootMatchesIff(d.entries[WHOLE], root(v, t));
        }
      }
    }
  }
}
