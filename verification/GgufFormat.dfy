/** GGUF metadata: values, their limits and their bytes ("File Structure" in the GGUF
    specification, little-endian). Strings stay bytes and floats stay bit patterns. */
module GgufFormat {
  type Byte = x: int | 0 <= x < 256
  type Bytes = seq<Byte>

  datatype Parsed<+T> = Ok(value: T, rest: Bytes) | Bad

  // --- little-endian integers ------------------------------------------------------------

  function Pow256(n: nat): nat {
    if n == 0 then 1 else 256 * Pow256(n - 1)
  }

  function FromLE(b: Bytes): nat {
    if b == [] then 0 else b[0] + 256 * FromLE(b[1..])
  }

  function ToLE(x: nat, n: nat): (b: Bytes)
    ensures |b| == n
    decreases n
  {
    if n == 0 then [] else [x % 256] + ToLE(x / 256, n - 1)
  }

  lemma {:induction false} LittleEndianRoundTrip(x: nat, n: nat)
    requires x < Pow256(n)
    ensures FromLE(ToLE(x, n)) == x
    decreases n
  {
    if n > 0 {
      LittleEndianRoundTrip(x / 256, n - 1);
      assert ToLE(x, n)[1..] == ToLE(x / 256, n - 1);
    }
  }

  lemma {:induction false} LittleEndianBound(b: Bytes)
    ensures FromLE(b) < Pow256(|b|)
  {
    if b != [] {
      LittleEndianBound(b[1..]);
    }
  }

  // --- values ----------------------------------------------------------------------------

  const STRING := 8
  const ARRAY := 9
  const BOOL := 7

  const MAX_STRING_BYTES := 0x100_0000 // 2^24
  const MAX_ARRAY_ITEMS := 0x400_0000  // 2^26
  const MAX_ARRAY_DEPTH := 8

  /** The width of a fixed-size kind; zero for strings, arrays and unknown kinds. */
  function SizeOf(kind: nat): nat {
    if kind in {0, 1, 7} then 1
    else if kind in {2, 3} then 2
    else if kind in {4, 5, 6} then 4
    else if kind in {10, 11, 12} then 8
    else 0
  }

  /** The fixed-size types, as the specification names them. */
  datatype Fixed = UInt8 | Int8 | UInt16 | Int16 | UInt32 | Int32 | Float32 | Bool | UInt64 | Int64 | Float64

  /** The tag that stands for a type in a file, and the bits of one value. */
  function TagAndBits(f: Fixed): (nat, nat) {
    match f
    case UInt8 => (0, 8)
    case Int8 => (1, 8)
    case UInt16 => (2, 16)
    case Int16 => (3, 16)
    case UInt32 => (4, 32)
    case Int32 => (5, 32)
    case Float32 => (6, 32)
    case Bool => (7, 8)
    case UInt64 => (10, 64)
    case Int64 => (11, 64)
    case Float64 => (12, 64)
  }

  /** The widths are those of the named types, and no other tag has one. */
  lemma SizesAreThoseOfTypes(kind: nat)
    ensures forall f :: TagAndBits(f).0 == kind ==> 8 * SizeOf(kind) == TagAndBits(f).1
    ensures SizeOf(kind) > 0 <==> exists f :: TagAndBits(f).0 == kind
  {
    if kind < 13 && kind != STRING && kind != ARRAY {
      var f := [UInt8, Int8, UInt16, Int16, UInt32, Int32, Float32, Bool, UInt8, UInt8, UInt64, Int64, Float64][kind];
      assert TagAndBits(f).0 == kind;
    }
  }

  predicate Known(kind: nat) { SizeOf(kind) > 0 || kind == STRING || kind == ARRAY }

  datatype Value = Scalar(kind: nat, bits: Bytes) | Text(bytes: Bytes) | List(element: nat, items: seq<Value>)

  function KindOf(v: Value): nat {
    match v
    case Scalar(kind, _) => kind
    case Text(_) => STRING
    case List(_, _) => ARRAY
  }

  /** Any non-zero byte is true. */
  function Unpack(kind: nat, raw: Bytes): Value
    requires SizeOf(kind) == |raw| > 0
  {
    Scalar(kind, if kind == BOOL then [if raw[0] == 0 then 0 else 1] else raw)
  }

  /** A value within the reader's limits, arrays nested at most `depth` deep. */
  predicate Fits(v: Value, depth: nat) {
    match v
    case Scalar(kind, bits) => |bits| == SizeOf(kind) > 0 && (kind == BOOL ==> bits[0] <= 1)
    case Text(b) => |b| <= MAX_STRING_BYTES
    case List(element, items) =>
      && depth > 0 && Known(element) && |items| <= MAX_ARRAY_ITEMS
      && forall i :: 0 <= i < |items| ==> KindOf(items[i]) == element && Fits(items[i], depth - 1)
  }

  datatype Pair = Pair(key: Bytes, value: Value)

  predicate PairFits(p: Pair) {
    |p.key| <= MAX_STRING_BYTES && Fits(p.value, MAX_ARRAY_DEPTH)
  }

  /** A dictionary built in file order: a repeated key keeps its last value. */
  function MapOf<V>(keys: seq<Bytes>, values: seq<V>): (m: map<Bytes, V>)
    requires |keys| == |values|
  {
    if keys == [] then map[]
    else MapOf(keys[..|keys| - 1], values[..|keys| - 1])[keys[|keys| - 1] := values[|keys| - 1]]
  }

  function KeysOf(pairs: seq<Pair>): (r: seq<Bytes>)
    ensures |r| == |pairs|
  {
    seq(|pairs|, i requires 0 <= i < |pairs| => pairs[i].key)
  }

  function ValuesOf(pairs: seq<Pair>): (r: seq<Value>)
    ensures |r| == |pairs|
  {
    seq(|pairs|, i requires 0 <= i < |pairs| => pairs[i].value)
  }

  function Metadata(pairs: seq<Pair>): map<Bytes, Value> {
    MapOf(KeysOf(pairs), ValuesOf(pairs))
  }

  // --- bytes -----------------------------------------------------------------------------

  function EncodeString(b: Bytes): Bytes { ToLE(|b|, 8) + b }

  function EncodeValue(v: Value): Bytes {
    match v
    case Scalar(_, bits) => bits
    case Text(b) => EncodeString(b)
    case List(element, items) => ToLE(element, 4) + ToLE(|items|, 8) + EncodeItems(items)
  }

  function EncodeItems(items: seq<Value>): Bytes {
    if items == [] then [] else EncodeValue(items[0]) + EncodeItems(items[1..])
  }

  function EncodePairs(pairs: seq<Pair>): Bytes {
    if pairs == [] then []
    else EncodeString(pairs[0].key) + ToLE(KindOf(pairs[0].value), 4) + EncodeValue(pairs[0].value) + EncodePairs(pairs[1..])
  }

  const MAGIC: Bytes := [0x47, 0x47, 0x55, 0x46] // "GGUF"

  function EncodeHeader(version: nat, tensors: nat, pairs: seq<Pair>): Bytes {
    MAGIC + ToLE(version, 4) + ToLE(tensors, 8) + ToLE(|pairs|, 8) + EncodePairs(pairs)
  }
}
