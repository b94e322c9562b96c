/** The dump and its reader as they run, filling a dictionary field by field. */
module SszDump {
  import opened Wrappers
  import opened SszValues
  import opened SszRoundTrip
  import opened SszShape
  import opened SszReading

  /** `encode`. */
  method EncodeValue(v: Value, t: Type, roots: bool, root: RootOf) returns (d: Data)
    requires Typed(v, t)
    ensures d == Encode(v, t, roots, root)
    ensures Shape(d, v, t, roots, root)
    decreases t, 1, 0
  {
    DumpHasShape(v, t, roots, root);
    hide Shape;
    match t
    case Uint(_) => d := Int(v.n);
    case Boolean => d := Bool(v.b);
    case ByteVector(_) => d := Prefixed(v.bytes);
    case ByteList(_) => d := Prefixed(v.bytes);
    case Vector(element, _) => d := EncodeEach(v.items, element, roots, root);
    case List(element, _) => d := EncodeEach(v.items, element, roots, root);
    case Container(fields) => d := EncodeContainer(v, t, roots, root);
    case Union(options) =>
      var value := Null;
      if v.value.Some? {
        value := EncodeValue(v.value.value, options[v.selector].value, roots, root);
      }
      d := Dict(map["selector" := Int(v.selector), "value" := value]);
  }

  method EncodeEach(items: seq<Value>, element: Type, roots: bool, root: RootOf) returns (d: Data)
    requires forall i :: 0 <= i < |items| ==> Typed(items[i], element)
    ensures d == Array(EncodeItems(items, element, roots, root))
    decreases element, 2, 0
  {
    var data: seq<Data> := [];
    for k := 0 to |items|
      invariant |data| == k && forall i :: 0 <= i < k ==> data[i] == Encode(items[i], element, roots, root)
    {
      var one := EncodeValue(items[k], element, roots, root);
      data := data + [one];
    }
    d := Array(data);
  }

  method EncodeContainer(v: Value, t: Type, roots: bool, root: RootOf) returns (d: Data)
    requires t.Container? && Typed(v, t)
    ensures d == Encode(v, t, roots, root)
    decreases t, 0, 0
  {
    var ret: map<string, Data> := map[];
    for k := 0 to |t.fields|
      invariant ret == EncodeFields(v, t, k, roots, root)
    {
      var f := t.fields[k];
      var one := EncodeValue(v.values[k], f.typ, roots, root);
      ret := ret[f.name := one];
      if roots {
        ret := ret[f.name + SUFFIX := Prefixed(root(v.values[k], f.typ))];
      }
    }
    if roots {
      ret := ret[WHOLE := Prefixed(root(v, t))];
    }
    d := Dict(ret);
  }

  /** `decode`. On what `encode` gave it returns the value, whether or not roots were included. */
  method DecodeValue(d: Data, t: Type, root: RootOf) returns (r: Result<Value, string>)
    ensures r == Decode(d, t, root)
    ensures r.Success? ==> Typed(r.value, t) && Reads(d, r.value, t, root)
    ensures r.Failure? ==> forall v :: !Reads(d, v, t, root)
    ensures Unambiguous(t) ==> forall v, roots :: Typed(v, t) && d == Encode(v, t, roots, root) ==> r == Success(v)
    decreases t, 1, 0
  {
    hide Unambiguous, Typed, Encode, Reads;
    WhatIsRead(d, t, root);
    match t
    case Uint(_) => r := Decode(d, t, root);
    case Boolean => r := Decode(d, t, root);
    case ByteVector(_) => r := Decode(d, t, root);
    case ByteList(_) => r := Decode(d, t, root);
    case Vector(element, length) =>
      if !d.Array? {
        return Failure("not a list");
      }
      var items :- DecodeEach(d.items, element, root);
      r := if |items| == length then Success(Items(items)) else Failure("wrong length");
    case List(element, limit) =>
      if !d.Array? {
        return Failure("not a list");
      }
      var items :- DecodeEach(d.items, element, root);
      r := if |items| <= limit then Success(Items(items)) else Failure("too many items");
    case Container(fields) =>
      if !d.Dict? {
        return Failure("not a dictionary");
      }
      r := DecodeContainer(d.entries, t, root);
    case Union(options) =>
      r := DecodeUnion(d, t, root);
  }

  /** All that the reader promises. */
  lemma WhatIsRead(d: Data, t: Type, root: RootOf)
    ensures
      var r := Decode(d, t, root);
      && (r.Success? ==> Typed(r.value, t) && Reads(d, r.value, t, root))
      && (r.Failure? ==> forall v :: !Reads(d, v, t, root))
    ensures Unambiguous(t) ==> forall v, roots ::
      Typed(v, t) && d == Encode(v, t, roots, root) ==> Decode(d, t, root) == Success(v)
  {
    hide Unambiguous, Typed, Encode, Reads, Decode;
    DecodeTyped(d, t, root);
    forall v ensures Decode(d, t, root) == Success(v) <==> Reads(d, v, t, root) {
      DecodeIff(d, v, t, root);
    }
    forall v, roots | Unambiguous(t) && Typed(v, t) && d == Encode(v, t, roots, root)
      ensures Decode(d, t, root) == Success(v)
    {
      RoundTrip(v, t, roots, root);
    }
  }

  method DecodeUnion(d: Data, t: Type, root: RootOf) returns (r: Result<Value, string>)
    requires t.Union?
    ensures r == Decode(d, t, root)
    decreases t, 0, 0
  {
    if !d.Dict? || "selector" !in d.entries || AsInt(d.entries["selector"]).None? {
      return Failure("no selector");
    }
    var selector := AsInt(d.entries["selector"]).value;
    if !(0 <= selector < |t.options|) {
      return Failure("no such option");
    }
    if "value" !in d.entries {
      return Failure("no value");
    }
    if t.options[selector].None? {
      return if d.entries["value"].Null? then Success(Choice(selector, None)) else Failure("value without type");
    }
    var value :- DecodeValue(d.entries["value"], t.options[selector].value, root);
    return Success(Choice(selector, Some(value)));
  }

  method DecodeEach(items: seq<Data>, element: Type, root: RootOf) returns (r: Result<seq<Value>, string>)
    ensures r == DecodeItems(items, element, root)
    decreases element, 2, 0
  {
    var values: seq<Value> := [];
    for k := 0 to |items|
      invariant DecodeItems(items[..k], element, root) == Success(values)
    {
      var one := DecodeValue(items[k], element, root);
      assert items[..k + 1][..k] == items[..k];
      if one.Failure? {
        FailsFrom(items, k + 1, element, root);
        return Failure(one.error);
      }
      values := values + [one.value];
    }
    assert items[..|items|] == items;
    return Success(values);
  }

  /** The first item that cannot be read decides. */
  lemma {:induction false} FailsFrom(items: seq<Data>, k: nat, element: Type, root: RootOf)
    requires k <= |items| && DecodeItems(items[..k], element, root).Failure?
    ensures DecodeItems(items, element, root) == DecodeItems(items[..k], element, root)
    decreases |items|
  {
    if k < |items| {
      var front := items[..|items| - 1];
      assert front[..k] == items[..k];
      FailsFrom(front, k, element, root);
    } else {
      assert items[..k] == items;
    }
  }

  method DecodeContainer(entries: map<string, Data>, t: Type, root: RootOf) returns (r: Result<Value, string>)
    requires t.Container?
    ensures r == Decode(Dict(entries), t, root)
    decreases t, 0, 0
  {
    var n := |t.fields|;
    var temp: seq<Value> := [];
    for k := 0 to n
      invariant DecodeFields(entries, t, k, root) == Success(temp)
    {
      var f := t.fields[k];
      if f.name !in entries {
        FieldFails(entries, t, k + 1, n, root);
        return Failure("field is missing");
      }
      var one := DecodeValue(entries[f.name], f.typ, root);
      if one.Failure? {
        FieldFails(entries, t, k + 1, n, root);
        return Failure(one.error);
      }
      if f.name + SUFFIX in entries && !RootMatches(entries[f.name + SUFFIX], root(one.value, f.typ)) {
        FieldFails(entries, t, k + 1, n, root);
        return Failure("root differs");
      }
      temp := temp + [one.value];
    }
    var ret := Fields(temp);
    if WHOLE in entries && !RootMatches(entries[WHOLE], root(ret, t)) {
      return Failure("root differs");
    }
    return Success(ret);
  }

  lemma {:induction false} FieldFails(entries: map<string, Data>, t: Type, k: nat, n: nat, root: RootOf)
    requires t.Container? && k <= n <= |t.fields| && DecodeFields(entries, t, k, root).Failure?
    ensures DecodeFields(entries, t, n, root) == DecodeFields(entries, t, k, root)
    decreases n
  {
    if k < n {
      FieldFails(entries, t, k, n - 1, root);
    }
  }
}
