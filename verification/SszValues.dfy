/** SSZ types and values, the plain data they are dumped to, and the two directions of the dump. */
module SszValues {
  import opened Wrappers
  import opened Numbers

  type byte = b: nat | b < 256

  datatype Field = Field(name: string, typ: Type)

  /** `bytes` is the byte length of an unsigned integer; a missing option of a union is its nil. */
  datatype Type =
    | Uint(bytes: nat)
    | Boolean
    | ByteVector(length: nat)
    | ByteList(limit: nat)
    | Vector(element: Type, length: nat)
    | List(element: Type, limit: nat)
    | Container(fields: seq<Field>)
    | Union(options: seq<Option<Type>>)

  datatype Value =
    | Number(n: nat)
    | Flag(b: bool)
    | Bytes(bytes: seq<byte>)
    | Items(items: seq<Value>)
    | Fields(values: seq<Value>)
    | Choice(selector: nat, value: Option<Value>)

  /** What dictionaries, lists, numbers and strings of the host language can express. */
  datatype Data =
    | Null
    | Bool(b: bool)
    | Int(n: int)
    | Str(s: string)
    | Array(items: seq<Data>)
    | Dict(entries: map<string, Data>)

  /** Hash tree roots come from a library that is not part of this model. */
  type RootOf = (Value, Type) -> seq<byte>

  /** `v` is a value of type `t`. Integers wider than eight bytes, which are dumped as text, are not
      part of this model. */
  predicate Typed(v: Value, t: Type)
    decreases t
  {
    match t
    case Uint(bytes) => v.Number? && bytes <= 8 && v.n < Pow2(8 * bytes)
    case Boolean => v.Flag?
    case ByteVector(length) => v.Bytes? && |v.bytes| == length
    case ByteList(limit) => v.Bytes? && |v.bytes| <= limit
    case Vector(element, length) =>
      v.Items? && |v.items| == length && forall i :: 0 <= i < |v.items| ==> Typed(v.items[i], element)
    case List(element, limit) =>
      v.Items? && |v.items| <= limit && forall i :: 0 <= i < |v.items| ==> Typed(v.items[i], element)
    case Container(fields) =>
      v.Fields? && |v.values| == |fields| && forall i :: 0 <= i < |fields| ==> Typed(v.values[i], fields[i].typ)
    case Union(options) =>
      && v.Choice? && v.selector < |options|
      && (options[v.selector].None? <==> v.value.None?)
      && (v.value.Some? ==> Typed(v.value.value, options[v.selector].value))
  }

  // ---------------------------------------------------------------- hexadecimal text

  function HexDigit(n: nat): char
    requires n < 16
  {
    if n < 10 then '0' + n as char else 'a' + (n - 10) as char
  }

  function DigitValue(c: char): Option<nat> {
    if '0' <= c <= '9' then Some((c - '0') as nat)
    else if 'a' <= c <= 'f' then Some((c - 'a') as nat + 10)
    else if 'A' <= c <= 'F' then Some((c - 'A') as nat + 10)
    else None
  }

  /** `bytes.hex`. */
  function Hex(bytes: seq<byte>): string {
    if bytes == [] then "" else [HexDigit(bytes[0] / 16), HexDigit(bytes[0] % 16)] + Hex(bytes[1..])
  }

  /** `bytes.fromhex`, on text without white space. */
  function FromHex(s: string): Option<seq<byte>> {
    if s == "" then Some([])
    else if |s| == 1 || DigitValue(s[0]).None? || DigitValue(s[1]).None? then None
    else
      var rest := FromHex(s[2..]);
      var high, low := DigitValue(s[0]).value, DigitValue(s[1]).value;
      if rest.None? || high > 15 || low > 15 then None else Some([16 * high + low] + rest.value)
  }

  lemma DigitRoundTrip(n: nat)
    requires n < 16
    ensures DigitValue(HexDigit(n)) == Some(n)
  {
  }

  lemma {:induction false} HexRoundTrip(bytes: seq<byte>)
    ensures FromHex(Hex(bytes)) == Some(bytes)
  {
    if bytes != [] {
      var high, low: nat := bytes[0] / 16, bytes[0] % 16;
      DigitRoundTrip(high);
      DigitRoundTrip(low);
      HexRoundTrip(bytes[1..]);
      assert Hex(bytes)[2..] == Hex(bytes[1..]);
      assert 16 * high + low == bytes[0];
      assert [bytes[0]] + bytes[1..] == bytes;
    }
  }

  function Prefixed(bytes: seq<byte>): Data {
    Str("0x" + Hex(bytes))
  }

  function Drop2(s: string): string {
    if |s| < 2 then "" else s[2..]
  }

  // ---------------------------------------------------------------- encoding

  const SUFFIX: string := "_hash_tree_root"
  const WHOLE: string := "hash_tree_root"

  /** The plain data for a value. */
  function Encode(v: Value, t: Type, roots: bool, root: RootOf): Data
    requires Typed(v, t)
    decreases t, 1, 0
  {
    match t
    case Uint(_) => Int(v.n)
    case Boolean => Bool(v.b)
    case ByteVector(_) => Prefixed(v.bytes)
    case ByteList(_) => Prefixed(v.bytes)
    case Vector(element, _) =>
      Array(seq(|v.items|, i requires 0 <= i < |v.items| => Encode(v.items[i], element, roots, root)))
    case List(element, _) =>
      Array(seq(|v.items|, i requires 0 <= i < |v.items| => Encode(v.items[i], element, roots, root)))
    case Container(fields) =>
      var entries := EncodeFields(v, t, |fields|, roots, root);
      Dict(if roots then entries[WHOLE := Prefixed(root(v, t))] else entries)
    case Union(options) =>
      Dict(map["selector" := Int(v.selector),
               "value" := if v.value.None?
                 then Null else Encode(v.value.value, options[v.selector].value, roots, root)])
  }

  /** The entries of the first `k` fields. */
  function EncodeFields(v: Value, t: Type, k: nat, roots: bool, root: RootOf): map<string, Data>
    requires t.Container? && Typed(v, t) && k <= |t.fields|
    decreases t, 0, k
  {
    if k == 0 then map[]
    else
      var f := t.fields[k - 1];
      var entry := Encode(v.values[k - 1], f.typ, roots, root);
      AddEntry(EncodeFields(v, t, k - 1, roots, root), f.name, entry, Prefixed(root(v.values[k - 1], f.typ)), roots)
  }

  /** The entry of a field and, if wanted, that of its root. */
  function AddEntry(
    entries: map<string, Data>, name: string, entry: Data, rootEntry: Data, roots: bool): map<string, Data>
  {
    if roots then entries[name := entry][name + SUFFIX := rootEntry] else entries[name := entry]
  }

  // ---------------------------------------------------------------- decoding

  /** A Boolean is an integer of the host language. */
  function AsInt(d: Data): Option<int> {
    match d
    case Int(n) => Some(n)
    case Bool(b) => Some(if b then 1 else 0)
    case _ => None
  }

  /** `data[key][2:] == root.hex()`. */
  predicate RootMatches(d: Data, expected: seq<byte>) {
    d.Str? && Drop2(d.s) == Hex(expected)
  }

  function Decode(d: Data, t: Type, root: RootOf): Result<Value, string>
    decreases t, 1, 0
  {
    match t
    case Uint(bytes) =>
      var n := AsInt(d);
      if n.Some? && bytes <= 8 && 0 <= n.value < Pow2(8 * bytes)
        then Success(Number(n.value)) else Failure("not in range")
    case Boolean =>
      var n := AsInt(d);
      if n.Some? && 0 <= n.value <= 1 then Success(Flag(n.value == 1)) else Failure("not a boolean")
    case ByteVector(length) =>
      var bytes := DecodeBytes(d);
      if bytes.Some? && |bytes.value| == length then Success(Bytes(bytes.value)) else Failure("not a byte vector")
    case ByteList(limit) =>
      var bytes := DecodeBytes(d);
      if bytes.Some? && |bytes.value| <= limit then Success(Bytes(bytes.value)) else Failure("not a byte list")
    case Vector(element, length) =>
      if !d.Array? then Failure("not a list") else
      var items :- DecodeItems(d.items, element, root);
      if |items| == length then Success(Items(items)) else Failure("wrong length")
    case List(element, limit) =>
      if !d.Array? then Failure("not a list") else
      var items :- DecodeItems(d.items, element, root);
      if |items| <= limit then Success(Items(items)) else Failure("too many items")
    case Container(fields) =>
      if !d.Dict? then Failure("not a dictionary") else
      var values :- DecodeFields(d.entries, t, |fields|, root);
      if WHOLE in d.entries && !RootMatches(d.entries[WHOLE], root(Fields(values), t)) then Failure("root differs")
      else Success(Fields(values))
    case Union(options) =>
      if !d.Dict? || "selector" !in d.entries || AsInt(d.entries["selector"]).None? then Failure("no selector") else
      var selector := AsInt(d.entries["selector"]).value;
      if !(0 <= selector < |options|) then Failure("no such option")
      else if "value" !in d.entries then Failure("no value")
      else if options[selector].None? then
        if d.entries["value"].Null? then Success(Choice(selector, None)) else Failure("value without type")
      else
        var value :- Decode(d.entries["value"], options[selector].value, root);
        Success(Choice(selector, Some(value)))
  }

  function DecodeBytes(d: Data): Option<seq<byte>> {
    if d.Str? then FromHex(Drop2(d.s)) else None
  }

  function DecodeItems(items: seq<Data>, element: Type, root: RootOf): Result<seq<Value>, string>
    decreases element, 2, |items|
  {
    if items == [] then Success([]) else
    var front :- DecodeItems(items[..|items| - 1], element, root);
    var last :- Decode(items[|items| - 1], element, root);
    Success(front + [last])
  }

  /** The first `k` fields, each checked against its root if the data has one. */
  function DecodeFields(entries: map<string, Data>, t: Type, k: nat, root: RootOf): Result<seq<Value>, string>
    requires t.Container? && k <= |t.fields|
    decreases t, 0, k
  {
    if k == 0 then Success([]) else
    var front :- DecodeFields(entries, t, k - 1, root);
    var f := t.fields[k - 1];
    if f.name !in entries then Failure("field is missing") else
    var value :- Decode(entries[f.name], f.typ, root);
    if f.name + SUFFIX in entries && !RootMatches(entries[f.name + SUFFIX], root(value, f.typ))
      then Failure("root differs")
    else Success(front + [value])
  }
}
