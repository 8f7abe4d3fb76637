/** The second, independent reader of the same headers (`Reader` and `read_metadata` in
    verification/local-coverage-foundation/scripts/inspect_gguf.py), and its agreement with the
    first. */
module GgufInspector {
  import opened Common
  import opened GgufFormat
  import opened GgufReader

  /** What this reader reports: an array is its element kind, its length and its first items. */
  datatype View = Number(kind: nat, bits: Bytes) | Str(bytes: Bytes) | Array(element: nat, count: nat, head: seq<View>)

  datatype Report = Report(version: nat, tensors: nat, pairs: nat, metadata: map<Bytes, View>)

  const SHOWN := 8

  function Take<T>(s: seq<T>, limit: nat): seq<T> { if |s| <= limit then s else s[..limit] }

  // --- what each read means; Bad is any exception -------------------------------------------

  /** No limit on the length, unlike the other reader. */
  function InspectString(s: Bytes): (p: Parsed<Bytes>)
    ensures p.Ok? ==> |p.rest| <= |s|
  {
    match ParseInt(8, s)
    case Bad => Bad
    case Ok(n, rest) => ParseRaw(n, rest)
  }

  function InspectValue(kind: nat, s: Bytes, limit: nat): (p: Parsed<View>)
    ensures p.Ok? ==> |p.rest| <= |s|
    decreases |s|, 0, 0
  {
    if kind == STRING then
      match InspectString(s)
      case Bad => Bad
      case Ok(b, rest) => Ok(Str(b), rest)
    else if kind == ARRAY then
      match ParseInt(4, s)
      case Bad => Bad
      case Ok(element, s1) =>
        match ParseInt(8, s1)
        case Bad => Bad
        case Ok(count, s2) =>
          match InspectItems(element, count, s2, [])
          case Bad => Bad
          case Ok(items, rest) => Ok(Array(element, count, Take(items, limit)), rest)
    else if SizeOf(kind) > 0 then
      match ParseScalar(kind, s)
      case Bad => Bad
      case Ok(v, rest) => Ok(Number(v.kind, v.bits), rest)
    else Bad
  }

  function InspectItems(element: nat, count: nat, s: Bytes, done: seq<View>): (p: Parsed<seq<View>>)
    ensures p.Ok? ==> |p.rest| <= |s| && |p.value| == |done| + count
    decreases |s|, 1, count
  {
    if count == 0 then Ok(done, s)
    else
      match InspectValue(element, s, SHOWN)
      case Bad => Bad
      case Ok(v, rest) => InspectItems(element, count - 1, rest, done + [v])
  }

  function InspectPair(s: Bytes, limit: nat): Parsed<(Bytes, View)> {
    match InspectString(s)
    case Bad => Bad
    case Ok(key, s1) =>
      match ParseInt(4, s1)
      case Bad => Bad
      case Ok(kind, s2) =>
        match InspectValue(kind, s2, limit)
        case Bad => Bad
        case Ok(v, rest) => Ok((key, v), rest)
  }

  function InspectPairs(count: nat, s: Bytes, limit: nat, done: map<Bytes, View>): Parsed<map<Bytes, View>>
    decreases count
  {
    if count == 0 then Ok(done, s)
    else
      match InspectPair(s, limit)
      case Bad => Bad
      case Ok((key, v), rest) => InspectPairs(count - 1, rest, limit, done[key := v])
  }

  /** Any version, any number of pairs. */
  function InspectHeader(s: Bytes, limit: nat): Parsed<Report> {
    match ParsePreamble(s)
    case Bad => Bad
    case Ok((version, tensors, count), body) =>
      match InspectPairs(count, body, limit, map[])
      case Bad => Bad
      case Ok(metadata, rest) => Ok(Report(version, tensors, count, metadata), rest)
  }

  // --- agreement -------------------------------------------------------------------------------

  /** The report of a value: the value itself, but only the head of each array. */
  function ViewOf(v: Value, limit: nat): View {
    match v
    case Scalar(kind, bits) => Number(kind, bits)
    case Text(b) => Str(b)
    case List(element, items) => Array(element, |items|, Take(Views(items), limit))
  }

  function Views(items: seq<Value>): (r: seq<View>)
    ensures |r| == |items|
  {
    seq(|items|, i requires 0 <= i < |items| => ViewOf(items[i], SHOWN))
  }

  lemma {:induction false} ValueAgrees(kind: nat, s: Bytes, depth: nat, limit: nat)
    requires ParseValue(kind, s, depth).Ok?
    ensures InspectValue(kind, s, limit) ==
              Ok(ViewOf(ParseValue(kind, s, depth).value, limit), ParseValue(kind, s, depth).rest)
    decreases depth, 1, 0
  {
    if kind == ARRAY {
      ArrayAgrees(s, depth, limit);
    }
  }

  lemma {:induction false} ArrayAgrees(s: Bytes, depth: nat, limit: nat)
    requires depth > 0 && ParseArray(s, depth).Ok?
    ensures InspectValue(ARRAY, s, limit) == Ok(ViewOf(ParseArray(s, depth).value, limit), ParseArray(s, depth).rest)
    decreases depth, 0, MAX_ARRAY_ITEMS + 1
  {
    hide ParseItems, InspectItems, FromLE;
    var element := ParseInt(4, s);
    var count := ParseInt(8, element.rest);
    assert Views([]) == [];
    ItemsAgree(element.value, count.value, count.rest, depth, []);
    AcceptedItems(element.value, count.value, count.rest, depth, []);
  }

  lemma {:induction false} ItemsAgree(element: nat, count: nat, s: Bytes, depth: nat, done: seq<Value>)
    requires depth > 0 && ParseItems(element, count, s, depth, done).Ok?
    ensures var items := ParseItems(element, count, s, depth, done);
            InspectItems(element, count, s, Views(done)) == Ok(Views(items.value), items.rest)
    decreases depth, 0, count
  {
    hide ParseValue, InspectValue, ViewOf;
    if count > 0 {
      var first := ParseValue(element, s, depth - 1);
      ValueAgrees(element, s, depth - 1, SHOWN);
      assert Views(done + [first.value]) == Views(done) + [ViewOf(first.value, SHOWN)];
      ItemsAgree(element, count - 1, first.rest, depth, done + [first.value]);
    }
  }

  function Viewed(metadata: map<Bytes, Value>, limit: nat): map<Bytes, View> {
    map k | k in metadata :: ViewOf(metadata[k], limit)
  }

  lemma PairAgrees(s: Bytes, limit: nat)
    requires ParsePair(s).Ok?
    ensures var p := ParsePair(s);
            InspectPair(s, limit) == Ok((p.value.key, ViewOf(p.value.value, limit)), p.rest)
  {
    hide ParseValue, InspectValue, FromLE;
    var kind := ParseInt(4, ParseString(s).rest);
    ValueAgrees(kind.value, kind.rest, MAX_ARRAY_DEPTH, limit);
  }

  lemma {:induction false} PairsAgree(count: nat, s: Bytes, limit: nat, done: seq<Pair>)
    requires ParsePairs(count, s, done).Ok?
    ensures var pairs := ParsePairs(count, s, done);
            InspectPairs(count, s, limit, Viewed(Metadata(done), limit)) ==
            Ok(Viewed(Metadata(pairs.value), limit), pairs.rest)
    decreases count
  {
    hide ParsePair, InspectPair, ViewOf, Metadata;
    if count > 0 {
      var first := ParsePair(s);
      PairAgrees(s, limit);
      MetadataSnoc(done, first.value);
      assert Viewed(Metadata(done + [first.value]), limit) ==
             Viewed(Metadata(done), limit)[first.value.key := ViewOf(first.value.value, limit)];
      PairsAgree(count - 1, first.rest, limit, done + [first.value]);
    }
  }

  /** Whatever the placement reader accepts this reader accepts too: the same version, tensor
      count and keys, the same scalars and strings, and for each array its length and its first
      items, through every level of nesting; and both stop at the same byte. */
  lemma ReadersAgree(s: Bytes, limit: nat)
    requires ParseHeader(s).Ok?
    ensures InspectHeader(s, limit).Ok? && InspectHeader(s, limit).rest == ParseHeader(s).rest
    ensures var h, r := ParseHeader(s).value, InspectHeader(s, limit).value;
            r.version == h.version && r.tensors == h.tensors && r.metadata == Viewed(h.metadata, limit)
  {
    hide ParsePairs, InspectPairs, ViewOf, FromLE;
    var front := ParsePreamble(s);
    assert Viewed(Metadata([]), limit) == map[];
    PairsAgree(front.value.2, front.rest, limit, []);
  }

  /** The agreement is one-way: this reader also takes files the other refuses, for one a header
      of any other version. */
  lemma OtherVersionsAreOnlyInspected(version: nat, tensors: nat, limit: nat, rest: Bytes)
    requires version !in {2, 3} && version < 0x1_0000_0000 && tensors < 0x1_0000_0000_0000_0000
    ensures var s := EncodeHeader(version, tensors, []) + rest;
            ParseHeader(s).Bad? && InspectHeader(s, limit) == Ok(Report(version, tensors, 0, map[]), rest)
  {
    hide ParsePreamble, ToLE;
    var front := MAGIC + ToLE(version, 4) + ToLE(tensors, 8) + ToLE(0, 8);
    assert EncodeHeader(version, tensors, []) + rest == front + rest;
    PreambleRoundTrip(version, tensors, 0, rest);
  }

  // --- the reader --------------------------------------------------------------------------------

  class Inspector {
    const data: Bytes
    var pos: nat

    constructor (data: Bytes)
      ensures this.data == data && pos == 0
    {
      this.data, pos := data, 0;
    }

    ghost predicate Valid()
      reads this
    {
      pos <= |data|
    }

    function Ahead(): Bytes
      requires Valid()
      reads this
    {
      data[pos..]
    }

    ghost predicate Delivers<T>(r: Option<T>, p: Parsed<T>)
      reads this
    {
      Valid() && (r.Some? <==> p.Ok?) && (r.Some? ==> r.value == p.value && data[pos..] == p.rest)
    }

    method Raw(count: nat) returns (r: Option<Bytes>)
      requires Valid()
      modifies this
      ensures Delivers(r, ParseRaw(count, old(Ahead())))
    {
      var end := if pos + count <= |data| then pos + count else |data|;
      var chunk := data[pos..end];
      assert Ahead()[..end - pos] == chunk && Ahead()[end - pos..] == data[end..];
      pos := end;
      if |chunk| != count { return None; }
      r := Some(chunk);
    }

    method UInt(size: nat) returns (r: Option<nat>)
      requires Valid()
      modifies this
      ensures Delivers(r, ParseInt(size, old(Ahead())))
    {
      var raw := Raw(size);
      if raw.None? { return None; }
      r := Some(FromLE(raw.value));
    }

    method ReadString() returns (r: Option<Bytes>)
      requires Valid()
      modifies this
      ensures Delivers(r, InspectString(old(Ahead())))
    {
      var length := UInt(8);
      if length.None? { return None; }
      r := Raw(length.value);
    }

    method ReadScalar(kind: nat) returns (r: Option<Value>)
      requires Valid() && SizeOf(kind) > 0
      modifies this
      ensures Delivers(r, ParseScalar(kind, old(Ahead())))
    {
      var raw := Raw(SizeOf(kind));
      if raw.None? { return None; }
      r := Some(Unpack(kind, raw.value));
    }

    method ReadValue(kind: nat, limit: nat) returns (r: Option<View>)
      requires Valid()
      modifies this
      ensures Delivers(r, InspectValue(kind, old(Ahead()), limit))
      decreases |data| - pos, 0
    {
      hide InspectItems, FromLE;
      if kind == STRING {
        var b := ReadString();
        if b.None? { return None; }
        return Some(Str(b.value));
      }
      if kind == ARRAY {
        var element := UInt(4);
        if element.None? { return None; }
        var count := UInt(8);
        if count.None? { return None; }
        var head := ReadItems(element.value, count.value, limit);
        if head.None? { return None; }
        return Some(Array(element.value, count.value, head.value));
      }
      if SizeOf(kind) == 0 { return None; } // the table of fixed kinds raises KeyError
      var v := ReadScalar(kind);
      if v.None? { return None; }
      r := Some(Number(v.value.kind, v.value.bits));
    }

    /** Every item is read, the first few are kept. */
    method ReadItems(element: nat, count: nat, limit: nat) returns (r: Option<seq<View>>)
      requires Valid()
      modifies this
      ensures Valid() && (r.Some? <==> InspectItems(element, count, old(Ahead()), []).Ok?)
      ensures r.Some? ==>
                && var p := InspectItems(element, count, old(Ahead()), []);
                && r.value == Take(p.value, limit) && data[pos..] == p.rest
      decreases |data| - pos, 1
    {
      hide InspectItems, InspectValue;
      var head: seq<View> := [];
      ghost var all: seq<View> := [];
      for index := 0 to count
        invariant Valid() && pos >= old(pos) && |all| == index && head == Take(all, limit)
        invariant InspectItems(element, count, old(Ahead()), []) == InspectItems(element, count - index, Ahead(), all)
      {
        ItemsUnfold(element, count - index, Ahead(), all);
        var item := ReadValue(element, SHOWN);
        if item.None? { return None; }
        if index < limit { head := head + [item.value]; }
        all := all + [item.value];
      }
      ItemsEnd(element, Ahead(), all);
      r := Some(head);
    }

    method ReadPair(limit: nat) returns (r: Option<(Bytes, View)>)
      requires Valid()
      modifies this
      ensures Delivers(r, InspectPair(old(Ahead()), limit))
    {
      hide InspectValue, InspectString, FromLE;
      var key := ReadString();
      if key.None? { return None; }
      var kind := UInt(4);
      if kind.None? { return None; }
      var v := ReadValue(kind.value, limit);
      if v.None? { return None; }
      r := Some((key.value, v.value));
    }

    method ReadPairs(count: nat, limit: nat) returns (r: Option<map<Bytes, View>>)
      requires Valid()
      modifies this
      ensures Delivers(r, InspectPairs(count, old(Ahead()), limit, map[]))
    {
      hide InspectPairs, InspectPair;
      var metadata: map<Bytes, View> := map[];
      for n := 0 to count
        invariant Valid()
        invariant InspectPairs(count, old(Ahead()), limit, map[]) == InspectPairs(count - n, Ahead(), limit, metadata)
      {
        ViewsUnfold(count - n, Ahead(), limit, metadata);
        var p := ReadPair(limit);
        if p.None? { return None; }
        metadata := metadata[p.value.0 := p.value.1];
      }
      ViewsEnd(Ahead(), limit, metadata);
      r := Some(metadata);
    }

    /** `read_metadata`. */
    method ReadMetadata(limit: nat) returns (r: Option<Report>)
      requires pos == 0
      modifies this
      ensures Delivers(r, InspectHeader(data, limit))
    {
      hide InspectPairs, FromLE;
      assert data[0..] == data;
      var magic := Raw(4);
      if magic.None? || magic.value != MAGIC { return None; }
      var version := UInt(4);
      if version.None? { return None; }
      var tensors := UInt(8);
      if tensors.None? { return None; }
      var count := UInt(8);
      if count.None? { return None; }
      var metadata := ReadPairs(count.value, limit);
      if metadata.None? { return None; }
      r := Some(Report(version.value, tensors.value, count.value, metadata.value));
    }
  }

  lemma ItemsUnfold(element: nat, count: nat, s: Bytes, done: seq<View>)
    requires count > 0
    ensures var v := InspectValue(element, s, SHOWN);
            InspectItems(element, count, s, done) ==
            if v.Bad? then Bad else InspectItems(element, count - 1, v.rest, done + [v.value])
    ensures InspectValue(element, s, SHOWN).Ok? ==> |InspectValue(element, s, SHOWN).rest| <= |s|
  {
  }

  lemma ItemsEnd(element: nat, s: Bytes, done: seq<View>)
    ensures InspectItems(element, 0, s, done) == Ok(done, s)
  {
  }

  lemma ViewsUnfold(count: nat, s: Bytes, limit: nat, done: map<Bytes, View>)
    requires count > 0
    ensures var p := InspectPair(s, limit);
            InspectPairs(count, s, limit, done) ==
            if p.Bad? then Bad else InspectPairs(count - 1, p.rest, limit, done[p.value.0 := p.value.1])
  {
  }

  lemma ViewsEnd(s: Bytes, limit: nat, done: map<Bytes, View>)
    ensures InspectPairs(0, s, limit, done) == Ok(done, s)
  {
  }
}
