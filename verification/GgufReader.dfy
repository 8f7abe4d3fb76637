/** The placement tool's header reader (`_Reader` and `read_header` in
    scripts/gguf_header.py). */
module GgufReader {
  import opened Common
  import opened GgufFormat

  datatype Header = Header(version: nat, tensors: nat, metadata: map<Bytes, Value>)

  // --- what each read means: a value and the bytes behind it, or a GGUFError --------------

  function ParseRaw(n: nat, s: Bytes): Parsed<Bytes> {
    if |s| < n then Bad else Ok(s[..n], s[n..])
  }

  function ParseInt(n: nat, s: Bytes): Parsed<nat> {
    match ParseRaw(n, s)
    case Bad => Bad
    case Ok(b, rest) => Ok(FromLE(b), rest)
  }

  function ParseScalar(kind: nat, s: Bytes): Parsed<Value>
    requires SizeOf(kind) > 0
  {
    match ParseRaw(SizeOf(kind), s)
    case Bad => Bad
    case Ok(b, rest) => Ok(Unpack(kind, b), rest)
  }

  function ParseString(s: Bytes): Parsed<Bytes> {
    match ParseInt(8, s)
    case Bad => Bad
    case Ok(n, rest) => if n > MAX_STRING_BYTES then Bad else ParseRaw(n, rest)
  }

  /** One value of a given kind; `depth` is how many more levels of array may open. */
  function ParseValue(kind: nat, s: Bytes, depth: nat): Parsed<Value>
    decreases depth, 1, 0
  {
    if kind == STRING then
      match ParseString(s)
      case Bad => Bad
      case Ok(b, rest) => Ok(Text(b), rest)
    else if kind == ARRAY then
      if depth == 0 then Bad else ParseArray(s, depth)
    else if SizeOf(kind) > 0 then ParseScalar(kind, s)
    else Bad
  }

  function ParseArray(s: Bytes, depth: nat): Parsed<Value>
    requires depth > 0
    decreases depth, 0, MAX_ARRAY_ITEMS + 1
  {
    match ParseInt(4, s)
    case Bad => Bad
    case Ok(element, s1) =>
      match ParseInt(8, s1)
      case Bad => Bad
      case Ok(count, s2) =>
        if count > MAX_ARRAY_ITEMS || !Known(element) then Bad
        else
          match ParseItems(element, count, s2, depth, [])
          case Bad => Bad
          case Ok(items, rest) => Ok(List(element, items), rest)
  }

  function ParseItems(element: nat, count: nat, s: Bytes, depth: nat, done: seq<Value>): Parsed<seq<Value>>
    requires depth > 0
    decreases depth, 0, count
  {
    if count == 0 then Ok(done, s)
    else
      match ParseValue(element, s, depth - 1)
      case Bad => Bad
      case Ok(v, rest) => ParseItems(element, count - 1, rest, depth, done + [v])
  }

  function ParsePair(s: Bytes): Parsed<Pair> {
    match ParseString(s)
    case Bad => Bad
    case Ok(key, s1) =>
      match ParseInt(4, s1)
      case Bad => Bad
      case Ok(kind, s2) =>
        match ParseValue(kind, s2, MAX_ARRAY_DEPTH)
        case Bad => Bad
        case Ok(v, rest) => Ok(Pair(key, v), rest)
  }

  function ParsePairs(count: nat, s: Bytes, done: seq<Pair>): Parsed<seq<Pair>>
    decreases count
  {
    if count == 0 then Ok(done, s)
    else
      match ParsePair(s)
      case Bad => Bad
      case Ok(p, rest) => ParsePairs(count - 1, rest, done + [p])
  }

  /** The four fixed fields: version, tensor count, number of pairs. */
  function ParsePreamble(s: Bytes): Parsed<(nat, nat, nat)> {
    match ParseRaw(4, s)
    case Bad => Bad
    case Ok(magic, s1) =>
      if magic != MAGIC then Bad
      else
        match ParseInt(4, s1)
        case Bad => Bad
        case Ok(version, s2) =>
          match ParseInt(8, s2)
          case Bad => Bad
          case Ok(tensors, s3) =>
            match ParseInt(8, s3)
            case Bad => Bad
            case Ok(pairs, rest) => Ok((version, tensors, pairs), rest)
  }

  function ParseHeader(s: Bytes): Parsed<Header> {
    match ParsePreamble(s)
    case Bad => Bad
    case Ok((version, tensors, count), body) =>
      if version !in {2, 3} || count > MAX_ARRAY_ITEMS then Bad
      else
        match ParsePairs(count, body, [])
        case Bad => Bad
        case Ok(pairs, rest) => Ok(Header(version, tensors, Metadata(pairs)), rest)
  }

  // --- round trip --------------------------------------------------------------------------

  lemma RawRoundTrip(b: Bytes, rest: Bytes)
    ensures ParseRaw(|b|, b + rest) == Ok(b, rest)
  {
  }

  lemma IntRoundTrip(x: nat, n: nat, rest: Bytes)
    requires x < Pow256(n)
    ensures ParseInt(n, ToLE(x, n) + rest) == Ok(x, rest)
  {
    LittleEndianRoundTrip(x, n);
    RawRoundTrip(ToLE(x, n), rest);
  }

  lemma SmallPowers()
    ensures Pow256(4) == 0x1_0000_0000 && Pow256(8) == 0x1_0000_0000_0000_0000
  {
    assert Pow256(2) == 0x1_0000;
    assert Pow256(4) == 256 * (256 * Pow256(2));
    assert Pow256(6) == 256 * (256 * Pow256(4));
    assert Pow256(8) == 256 * (256 * Pow256(6));
  }

  lemma StringRoundTrip(b: Bytes, rest: Bytes)
    requires |b| <= MAX_STRING_BYTES
    ensures ParseString(EncodeString(b) + rest) == Ok(b, rest)
  {
    SmallPowers();
    assert EncodeString(b) + rest == ToLE(|b|, 8) + (b + rest);
    IntRoundTrip(|b|, 8, b + rest);
    RawRoundTrip(b, rest);
  }

  lemma {:induction false} ValueRoundTrip(v: Value, depth: nat, rest: Bytes)
    requires Fits(v, depth)
    ensures ParseValue(KindOf(v), EncodeValue(v) + rest, depth) == Ok(v, rest)
    decreases depth, 1, 0
  {
    match v {
      case Scalar(kind, bits) =>
        RawRoundTrip(bits, rest);
        assert kind == BOOL ==> bits == [bits[0]];
      case Text(b) => StringRoundTrip(b, rest);
      case List(element, items) => ArrayRoundTrip(element, items, depth, rest);
    }
  }

  lemma {:induction false} ArrayRoundTrip(element: nat, items: seq<Value>, depth: nat, rest: Bytes)
    requires Fits(List(element, items), depth)
    ensures ParseArray(EncodeValue(List(element, items)) + rest, depth) == Ok(List(element, items), rest)
    decreases depth, 0, |items| + 1
  {
    hide EncodeItems, ParseItems, ToLE, ParseInt;
    SmallPowers();
    var body := EncodeItems(items) + rest;
    assert EncodeValue(List(element, items)) + rest == ToLE(element, 4) + (ToLE(|items|, 8) + body);
    IntRoundTrip(element, 4, ToLE(|items|, 8) + body);
    IntRoundTrip(|items|, 8, body);
    ItemsRoundTrip(element, items, depth, [], rest);
    assert [] + items == items;
  }

  lemma {:induction false} ItemsRoundTrip(element: nat, items: seq<Value>, depth: nat, done: seq<Value>, rest: Bytes)
    requires depth > 0
    requires forall i :: 0 <= i < |items| ==> KindOf(items[i]) == element && Fits(items[i], depth - 1)
    ensures ParseItems(element, |items|, EncodeItems(items) + rest, depth, done) == Ok(done + items, rest)
    decreases depth, 0, |items|
  {
    hide EncodeValue, Fits, ParseValue;
    if items == [] {
      assert EncodeItems(items) + rest == rest && done + items == done;
    } else {
      var more := EncodeItems(items[1..]) + rest;
      assert EncodeItems(items) + rest == EncodeValue(items[0]) + more;
      ValueRoundTrip(items[0], depth - 1, more);
      ItemsRoundTrip(element, items[1..], depth, done + [items[0]], rest);
      assert done + [items[0]] + items[1..] == done + items;
    }
  }

  lemma PairRoundTrip(p: Pair, rest: Bytes)
    requires PairFits(p)
    ensures ParsePair(EncodeString(p.key) + ToLE(KindOf(p.value), 4) + EncodeValue(p.value) + rest) == Ok(p, rest)
  {
    SmallPowers();
    var tail := EncodeValue(p.value) + rest;
    var kinded := ToLE(KindOf(p.value), 4) + tail;
    assert EncodeString(p.key) + ToLE(KindOf(p.value), 4) + EncodeValue(p.value) + rest == EncodeString(p.key) + kinded;
    StringRoundTrip(p.key, kinded);
    IntRoundTrip(KindOf(p.value), 4, tail);
    ValueRoundTrip(p.value, MAX_ARRAY_DEPTH, rest);
  }

  lemma {:induction false} PairsRoundTrip(pairs: seq<Pair>, done: seq<Pair>, rest: Bytes)
    requires forall i :: 0 <= i < |pairs| ==> PairFits(pairs[i])
    ensures ParsePairs(|pairs|, EncodePairs(pairs) + rest, done) == Ok(done + pairs, rest)
    decreases |pairs|
  {
    hide ParsePair, EncodeString, EncodeValue, ToLE, PairFits;
    if pairs == [] {
      assert EncodePairs(pairs) + rest == rest && done + pairs == done;
    } else {
      var p, more := pairs[0], EncodePairs(pairs[1..]) + rest;
      assert EncodePairs(pairs) + rest == EncodeString(p.key) + ToLE(KindOf(p.value), 4) + EncodeValue(p.value) + more;
      PairRoundTrip(p, more);
      PairsRoundTrip(pairs[1..], done + [p], rest);
      assert done + [p] + pairs[1..] == done + pairs;
    }
  }

  lemma PreambleRoundTrip(version: nat, tensors: nat, count: nat, rest: Bytes)
    requires version < 0x1_0000_0000 && tensors < 0x1_0000_0000_0000_0000 && count < 0x1_0000_0000_0000_0000
    ensures ParsePreamble(MAGIC + ToLE(version, 4) + ToLE(tensors, 8) + ToLE(count, 8) + rest) ==
              Ok((version, tensors, count), rest)
  {
    hide ToLE, ParseInt;
    SmallPowers();
    var s3 := ToLE(count, 8) + rest;
    var s2 := ToLE(tensors, 8) + s3;
    var s1 := ToLE(version, 4) + s2;
    assert MAGIC + ToLE(version, 4) + ToLE(tensors, 8) + ToLE(count, 8) + rest == MAGIC + s1;
    RawRoundTrip(MAGIC, s1);
    IntRoundTrip(version, 4, s2);
    IntRoundTrip(tensors, 8, s3);
    IntRoundTrip(count, 8, rest);
  }

  /** Every header within the limits is read back from its bytes, whatever follows them, and
      exactly its bytes are consumed. */
  lemma HeaderRoundTrip(version: nat, tensors: nat, pairs: seq<Pair>, rest: Bytes)
    requires version in {2, 3} && tensors < 0x1_0000_0000_0000_0000
    requires |pairs| <= MAX_ARRAY_ITEMS && forall i :: 0 <= i < |pairs| ==> PairFits(pairs[i])
    ensures ParseHeader(EncodeHeader(version, tensors, pairs) + rest) == Ok(Header(version, tensors, Metadata(pairs)), rest)
  {
    hide ToLE, ParsePreamble, ParsePairs, PairFits, EncodePairs, Metadata;
    var front := MAGIC + ToLE(version, 4) + ToLE(tensors, 8) + ToLE(|pairs|, 8);
    assert EncodeHeader(version, tensors, pairs) + rest == front + (EncodePairs(pairs) + rest);
    PreambleRoundTrip(version, tensors, |pairs|, EncodePairs(pairs) + rest);
    PairsRoundTrip(pairs, [], rest);
    assert [] + pairs == pairs;
  }

  // --- what is accepted ----------------------------------------------------------------------

  /** Everything the reader accepts is within the limits and took exactly as many bytes as its
      encoding. */
  lemma {:induction false} AcceptedValue(kind: nat, s: Bytes, depth: nat)
    requires ParseValue(kind, s, depth).Ok?
    ensures var v := ParseValue(kind, s, depth).value;
            && KindOf(v) == kind && Fits(v, depth)
            && |s| == |EncodeValue(v)| + |ParseValue(kind, s, depth).rest|
    decreases depth, 1, 0
  {
    if kind == ARRAY {
      AcceptedArray(s, depth);
    }
  }

  lemma {:induction false} AcceptedArray(s: Bytes, depth: nat)
    requires depth > 0 && ParseArray(s, depth).Ok?
    ensures var v := ParseArray(s, depth).value;
            && v.List? && Fits(v, depth)
            && |s| == |EncodeValue(v)| + |ParseArray(s, depth).rest|
    decreases depth, 0, MAX_ARRAY_ITEMS + 1
  {
    var head := ParseInt(4, s);
    var count := ParseInt(8, head.rest);
    AcceptedItems(head.value, count.value, count.rest, depth, []);
  }

  lemma {:induction false} AcceptedItems(element: nat, count: nat, s: Bytes, depth: nat, done: seq<Value>)
    requires depth > 0 && ParseItems(element, count, s, depth, done).Ok?
    ensures var items := ParseItems(element, count, s, depth, done).value;
            && |items| == |done| + count && items[..|done|] == done
            && (forall i :: |done| <= i < |items| ==> KindOf(items[i]) == element && Fits(items[i], depth - 1))
            && |s| == |EncodeItems(items[|done|..])| + |ParseItems(element, count, s, depth, done).rest|
    decreases depth, 0, count
  {
    if count > 0 {
      var first := ParseValue(element, s, depth - 1);
      AcceptedValue(element, s, depth - 1);
      AcceptedItems(element, count - 1, first.rest, depth, done + [first.value]);
      var items := ParseItems(element, count, s, depth, done).value;
      assert items[..|done| + 1][..|done|] == items[..|done|];
      assert items[|done|] == items[..|done| + 1][|done|] == first.value;
      assert items[|done|..][1..] == items[|done| + 1..];
    }
  }

  lemma {:induction false} AcceptedPairs(count: nat, s: Bytes, done: seq<Pair>)
    requires ParsePairs(count, s, done).Ok?
    ensures var pairs := ParsePairs(count, s, done).value;
            && |pairs| == |done| + count && pairs[..|done|] == done
            && (forall i :: |done| <= i < |pairs| ==> PairFits(pairs[i]))
            && |s| == |EncodePairs(pairs[|done|..])| + |ParsePairs(count, s, done).rest|
    decreases count
  {
    hide Fits, EncodeValue, ToLE, ParseValue;
    if count > 0 {
      var first := ParsePair(s);
      AcceptedPair(s);
      AcceptedPairs(count - 1, first.rest, done + [first.value]);
      var pairs := ParsePairs(count, s, done).value;
      assert pairs[..|done| + 1][..|done|] == pairs[..|done|];
      assert pairs[|done|] == pairs[..|done| + 1][|done|] == first.value;
      assert pairs[|done|..][1..] == pairs[|done| + 1..];
    }
  }

  lemma AcceptedPair(s: Bytes)
    requires ParsePair(s).Ok?
    ensures var p := ParsePair(s).value;
            && PairFits(p)
            && |s| == |EncodeString(p.key)| + 4 + |EncodeValue(p.value)| + |ParsePair(s).rest|
  {
    var kind := ParseInt(4, ParseString(s).rest);
    AcceptedValue(kind.value, kind.rest, MAX_ARRAY_DEPTH);
  }

  /** An accepted file starts with a header within the limits, as long as its own encoding. */
  lemma AcceptedHeader(s: Bytes) returns (pairs: seq<Pair>)
    requires ParseHeader(s).Ok?
    ensures var h := ParseHeader(s).value;
            && h.version in {2, 3} && |pairs| <= MAX_ARRAY_ITEMS && h.metadata == Metadata(pairs)
            && (forall i :: 0 <= i < |pairs| ==> PairFits(pairs[i]))
            && |s| == |EncodeHeader(h.version, h.tensors, pairs)| + |ParseHeader(s).rest|
  {
    hide PairFits, EncodePairs, ParsePairs, Metadata, FromLE;
    var front := ParsePreamble(s);
    AcceptedPairs(front.value.2, front.rest, []);
    pairs := ParsePairs(front.value.2, front.rest, []).value;
    assert pairs[0..] == pairs;
  }

  /** Reading an array of fixed-size elements in one piece, as the code does, is reading them one
      by one. */
  function Unpacked(kind: nat, raw: Bytes): seq<Value>
    requires SizeOf(kind) > 0
  {
    if |raw| < SizeOf(kind) then [] else [Unpack(kind, raw[..SizeOf(kind)])] + Unpacked(kind, raw[SizeOf(kind)..])
  }

  lemma ScalarsStep(kind: nat, count: nat, s: Bytes, depth: nat, done: seq<Value>)
    requires SizeOf(kind) > 0 && depth > 0 && count > 0
    ensures ParseItems(kind, count, s, depth, done) ==
              if |s| < SizeOf(kind) then Bad
              else ParseItems(kind, count - 1, s[SizeOf(kind)..], depth, done + [Unpack(kind, s[..SizeOf(kind)])])
  {
  }

  lemma ScalarsEnd(kind: nat, s: Bytes, depth: nat, done: seq<Value>)
    requires SizeOf(kind) > 0 && depth > 0
    ensures ParseItems(kind, 0, s, depth, done) == Ok(done + Unpacked(kind, s[..0]), s[0..])
  {
    assert done + Unpacked(kind, s[..0]) == done && s[0..] == s;
  }

  lemma UnpackedStep(kind: nat, s: Bytes, less: nat, done: seq<Value>)
    requires SizeOf(kind) > 0 && less + SizeOf(kind) <= |s|
    ensures var size := SizeOf(kind);
            && done + [Unpack(kind, s[..size])] + Unpacked(kind, s[size..][..less]) == done + Unpacked(kind, s[..less + size])
            && s[size..][less..] == s[less + size..]
  {
    var size, bytes := SizeOf(kind), less + SizeOf(kind);
    assert s[..bytes][..size] == s[..size] && s[..bytes][size..] == s[size..][..less];
    assert Unpacked(kind, s[..bytes]) == [Unpack(kind, s[..size])] + Unpacked(kind, s[size..][..less]);
  }

  lemma TimesStep(n: nat, size: nat)
    requires n > 0
    ensures n * size == (n - 1) * size + size && (n - 1) * size >= 0
  {
  }

  lemma {:induction false} ScalarsInBulk(kind: nat, count: nat, s: Bytes, depth: nat, done: seq<Value>, bytes: nat)
    requires SizeOf(kind) > 0 && depth > 0 && bytes == count * SizeOf(kind)
    ensures ParseItems(kind, count, s, depth, done) ==
              if |s| < bytes then Bad else Ok(done + Unpacked(kind, s[..bytes]), s[bytes..])
    decreases count
  {
    hide ParseItems, Unpacked, Unpack, SizeOf;
    if count == 0 {
      ScalarsEnd(kind, s, depth, done);
    } else {
      ScalarsStep(kind, count, s, depth, done);
      var size := SizeOf(kind);
      TimesStep(count, size);
      if |s| >= size {
        ScalarsInBulk(kind, count - 1, s[size..], depth, done + [Unpack(kind, s[..size])], bytes - size);
        if |s| >= bytes {
          UnpackedStep(kind, s, bytes - size, done);
        }
      }
    }
  }

  // --- the reader ------------------------------------------------------------------------------

  /** `_Reader` over an open file: the bytes and the position. A method that returns None raised
      a GGUFError. */
  class Reader {
    const data: Bytes
    var pos: nat

    constructor (data: Bytes)
      ensures this.data == data && pos == 0
    {
      this.data, pos := data, 0;
    }

    ghost predicate Valid()
      reads this
    {
      pos <= |data|
    }

    /** The bytes still to be read. */
    function Ahead(): Bytes
      requires Valid()
      reads this
    {
      data[pos..]
    }

    /** The method found what the specification says and stands right behind it. */
    ghost predicate Delivers<T>(r: Option<T>, p: Parsed<T>)
      reads this
    {
      Valid() && (r.Some? <==> p.Ok?) && (r.Some? ==> r.value == p.value && data[pos..] == p.rest)
    }

    method Raw(count: nat) returns (r: Option<Bytes>)
      requires Valid()
      modifies this
      ensures Delivers(r, ParseRaw(count, old(Ahead())))
    {
      var end := if pos + count <= |data| then pos + count else |data|;
      var chunk := data[pos..end];
      assert Ahead()[..end - pos] == chunk && Ahead()[end - pos..] == data[end..];
      pos := end;
      if |chunk| != count { return None; }
      r := Some(chunk);
    }

    method UInt(size: nat) returns (r: Option<nat>)
      requires Valid()
      modifies this
      ensures Delivers(r, ParseInt(size, old(Ahead())))
    {
      var raw := Raw(size);
      if raw.None? { return None; }
      r := Some(FromLE(raw.value));
    }

    method ReadScalar(kind: nat) returns (r: Option<Value>)
      requires Valid() && SizeOf(kind) > 0
      modifies this
      ensures Delivers(r, ParseScalar(kind, old(Ahead())))
    {
      var raw := Raw(SizeOf(kind));
      if raw.None? { return None; }
      r := Some(Unpack(kind, raw.value));
    }

    method ReadString() returns (r: Option<Bytes>)
      requires Valid()
      modifies this
      ensures Delivers(r, ParseString(old(Ahead())))
    {
      var length := UInt(8);
      if length.None? || length.value > MAX_STRING_BYTES { return None; }
      r := Raw(length.value);
    }

    method ReadValue(kind: nat, depth: nat) returns (r: Option<Value>)
      requires Valid()
      modifies this
      ensures Delivers(r, ParseValue(kind, old(Ahead()), depth))
      decreases depth, 2
    {
      if kind == STRING {
        var b := ReadString();
        if b.None? { return None; }
        return Some(Text(b.value));
      }
      if kind == ARRAY {
        if depth == 0 { return None; }
        r := ReadArray(depth);
        return;
      }
      if SizeOf(kind) == 0 { return None; }
      r := ReadScalar(kind);
    }

    method ReadArray(depth: nat) returns (r: Option<Value>)
      requires Valid() && depth > 0
      modifies this
      ensures Delivers(r, ParseArray(old(Ahead()), depth))
      decreases depth, 1
    {
      hide ParseItems, FromLE;
      var element := UInt(4);
      if element.None? { return None; }
      var count := UInt(8);
      if count.None? || count.value > MAX_ARRAY_ITEMS { return None; }
      var items: Option<seq<Value>>;
      if element.value == STRING || element.value == ARRAY {
        items := ReadItems(element.value, count.value, depth);
      } else {
        if SizeOf(element.value) == 0 { return None; }
        items := ReadScalars(element.value, count.value, depth);
      }
      if items.None? { return None; }
      r := Some(List(element.value, items.value));
    }

    /** The two list comprehensions: strings, or arrays one level further in. */
    method ReadItems(element: nat, count: nat, depth: nat) returns (r: Option<seq<Value>>)
      requires Valid() && depth > 0 && (element == STRING || element == ARRAY)
      modifies this
      ensures Delivers(r, ParseItems(element, count, old(Ahead()), depth, []))
      decreases depth, 0
    {
      var items: seq<Value> := [];
      for n := 0 to count
        invariant Valid()
        invariant ParseItems(element, count, old(Ahead()), depth, []) ==
                  ParseItems(element, count - n, Ahead(), depth, items)
      {
        hide ParseValue;
        var v := ReadValue(element, depth - 1);
        if v.None? { return None; }
        items := items + [v.value];
      }
      r := Some(items);
    }

    /** An array of fixed-size elements, read in one piece and unpacked. */
    method ReadScalars(element: nat, count: nat, depth: nat) returns (r: Option<seq<Value>>)
      requires Valid() && depth > 0 && SizeOf(element) > 0
      modifies this
      ensures Delivers(r, ParseItems(element, count, old(Ahead()), depth, []))
    {
      hide ParseItems, Unpack, SizeOf;
      var size := SizeOf(element);
      var bytes := count * size;
      ScalarsInBulk(element, count, Ahead(), depth, [], bytes);
      var raw := Raw(bytes);
      if raw.None? { return None; }
      var items := UnpackAll(element, raw.value);
      assert [] + items == items;
      r := Some(items);
    }

    method ReadPair() returns (r: Option<Pair>)
      requires Valid()
      modifies this
      ensures Delivers(r, ParsePair(old(Ahead())))
    {
      hide ParseValue, ParseString, FromLE;
      var key := ReadString();
      if key.None? { return None; }
      var kind := UInt(4);
      if kind.None? { return None; }
      var v := ReadValue(kind.value, MAX_ARRAY_DEPTH);
      if v.None? { return None; }
      r := Some(Pair(key.value, v.value));
    }

    method ReadPairs(count: nat) returns (r: Option<map<Bytes, Value>>, ghost pairs: seq<Pair>)
      requires Valid()
      modifies this
      ensures Valid() && (r.Some? <==> ParsePairs(count, old(Ahead()), []).Ok?)
      ensures r.Some? ==> ParsePairs(count, old(Ahead()), []) == Ok(pairs, data[pos..]) && r.value == Metadata(pairs)
    {
      hide ParsePair, ParsePairs, Metadata;
      var metadata: map<Bytes, Value> := map[];
      pairs := [];
      NoPairs();
      for n := 0 to count
        invariant Valid() && metadata == Metadata(pairs)
        invariant ParsePairs(count, old(Ahead()), []) == ParsePairs(count - n, Ahead(), pairs)
      {
        PairsUnfold(count - n, Ahead(), pairs);
        var p := ReadPair();
        if p.None? { return None, pairs; }
        MetadataSnoc(pairs, p.value);
        metadata := metadata[p.value.key := p.value.value];
        pairs := pairs + [p.value];
      }
      PairsEnd(Ahead(), pairs);
      r := Some(metadata);
    }

    /** `read_header`: on every file, a header or a GGUFError, as the specification says. */
    method ReadHeader() returns (r: Option<Header>)
      requires pos == 0
      modifies this
      ensures Delivers(r, ParseHeader(data))
    {
      hide ParsePairs, FromLE, Metadata;
      assert data[0..] == data;
      var magic := Raw(4);
      if magic.None? || magic.value != MAGIC { return None; }
      var version := UInt(4);
      if version.None? || version.value !in {2, 3} { return None; }
      var tensors := UInt(8);
      if tensors.None? { return None; }
      var count := UInt(8);
      if count.None? || count.value > MAX_ARRAY_ITEMS { return None; }
      var metadata, pairs := ReadPairs(count.value);
      if metadata.None? { return None; }
      r := Some(Header(version.value, tensors.value, metadata.value));
    }
  }

  /** `struct.unpack` with a repeat count. */
  method UnpackAll(element: nat, raw: Bytes) returns (items: seq<Value>)
    requires SizeOf(element) > 0
    ensures items == Unpacked(element, raw)
  {
    hide Unpack, SizeOf;
    var left := raw;
    items := [];
    while |left| >= SizeOf(element)
      invariant items + Unpacked(element, left) == Unpacked(element, raw)
    {
      items, left := items + [Unpack(element, left[..SizeOf(element)])], left[SizeOf(element)..];
    }
  }

  lemma PairsUnfold(count: nat, s: Bytes, done: seq<Pair>)
    requires count > 0
    ensures ParsePairs(count, s, done) ==
              if ParsePair(s).Bad? then Bad else ParsePairs(count - 1, ParsePair(s).rest, done + [ParsePair(s).value])
  {
  }

  lemma PairsEnd(s: Bytes, done: seq<Pair>)
    ensures ParsePairs(0, s, done) == Ok(done, s)
  {
  }

  lemma NoPairs()
    ensures Metadata([]) == map[]
  {
  }

  lemma MetadataSnoc(pairs: seq<Pair>, p: Pair)
    ensures Metadata(pairs + [p]) == Metadata(pairs)[p.key := p.value]
  {
    assert KeysOf(pairs + [p])[..|pairs|] == KeysOf(pairs);
    assert ValuesOf(pairs + [p])[..|pairs|] == ValuesOf(pairs);
  }
}
