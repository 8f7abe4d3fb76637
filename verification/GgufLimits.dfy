/** Exactly what separates the two header readers: the limits of the first one
    (scripts/gguf_header.py and verification/local-coverage-foundation/scripts/inspect_gguf.py). */
module GgufLimits {
  import opened Common
  import opened GgufFormat
  import opened GgufReader
  import opened GgufInspector

  // --- the limits, read off the bytes -----------------------------------------------------

  predicate StringWithin(s: Bytes) {
    ParseInt(8, s).Ok? ==> ParseInt(8, s).value <= MAX_STRING_BYTES
  }

  /** Strings, array lengths, element kinds and nesting are within the limits, as far as the bytes
      go. */
  predicate ValueWithin(kind: nat, s: Bytes, depth: nat)
    decreases depth, 1, 0
  {
    if kind == STRING then StringWithin(s)
    else kind == ARRAY ==> depth > 0 && ArrayWithin(s, depth)
  }

  predicate ArrayWithin(s: Bytes, depth: nat)
    requires depth > 0
    decreases depth, 0, MAX_ARRAY_ITEMS + 1
  {
    match ParseInt(4, s)
    case Bad => true
    case Ok(element, s1) =>
      match ParseInt(8, s1)
      case Bad => true
      case Ok(count, s2) => count <= MAX_ARRAY_ITEMS && Known(element) && ItemsWithin(element, count, s2, depth)
  }

  predicate ItemsWithin(element: nat, count: nat, s: Bytes, depth: nat)
    requires depth > 0
    decreases depth, 0, count
  {
    count == 0
    || (ValueWithin(element, s, depth - 1)
        && (InspectValue(element, s, SHOWN).Ok? ==> ItemsWithin(element, count - 1, InspectValue(element, s, SHOWN).rest, depth)))
  }

  predicate PairWithin(s: Bytes) {
    && StringWithin(s)
    && (InspectString(s).Ok? ==>
          match ParseInt(4, InspectString(s).rest)
          case Bad => true
          case Ok(kind, rest) => ValueWithin(kind, rest, MAX_ARRAY_DEPTH))
  }

  predicate PairsWithin(count: nat, s: Bytes, limit: nat)
    decreases count
  {
    count == 0 || (PairWithin(s) && (InspectPair(s, limit).Ok? ==> PairsWithin(count - 1, InspectPair(s, limit).rest, limit)))
  }

  predicate HeaderWithin(s: Bytes, limit: nat) {
    match ParsePreamble(s)
    case Bad => true
    case Ok((version, _, count), body) =>
      version in {2, 3} && count <= MAX_ARRAY_ITEMS && PairsWithin(count, body, limit)
  }

  // --- nothing else does ----------------------------------------------------------------------

  lemma StringIff(s: Bytes)
    ensures ParseString(s).Ok? <==> InspectString(s).Ok? && StringWithin(s)
    ensures ParseString(s).Ok? ==> ParseString(s) == InspectString(s)
  {
  }

  lemma {:induction false} ValueIff(kind: nat, s: Bytes, depth: nat, limit: nat)
    ensures ParseValue(kind, s, depth).Ok? <==> InspectValue(kind, s, limit).Ok? && ValueWithin(kind, s, depth)
    decreases depth, 1, 0
  {
    if kind == STRING {
      StringIff(s);
    } else if kind == ARRAY && depth > 0 {
      ArrayIff(s, depth, limit);
    }
  }

  lemma {:induction false} ArrayIff(s: Bytes, depth: nat, limit: nat)
    requires depth > 0
    ensures ParseArray(s, depth).Ok? <==> InspectValue(ARRAY, s, limit).Ok? && ArrayWithin(s, depth)
    decreases depth, 0, MAX_ARRAY_ITEMS + 1
  {
    hide ParseItems, InspectItems, ItemsWithin, FromLE;
    var element := ParseInt(4, s);
    if element.Ok? {
      var count := ParseInt(8, element.rest);
      if count.Ok? && count.value <= MAX_ARRAY_ITEMS {
        ItemsIff(element.value, count.value, count.rest, depth, [], []);
      }
    }
  }

  lemma {:induction false} ItemsIff(element: nat, count: nat, s: Bytes, depth: nat, done: seq<Value>, seen: seq<View>)
    requires depth > 0
    ensures ParseItems(element, count, s, depth, done).Ok? <==>
              InspectItems(element, count, s, seen).Ok? && ItemsWithin(element, count, s, depth)
    decreases depth, 0, count
  {
    hide ParseValue, InspectValue, ValueWithin, ViewOf;
    if count > 0 {
      ValueIff(element, s, depth - 1, SHOWN);
      var first := ParseValue(element, s, depth - 1);
      if first.Ok? {
        ValueAgrees(element, s, depth - 1, SHOWN);
        var view := InspectValue(element, s, SHOWN);
        ItemsIff(element, count - 1, first.rest, depth, done + [first.value], seen + [view.value]);
      }
    }
  }

  lemma PairIff(s: Bytes, limit: nat)
    ensures ParsePair(s).Ok? <==> InspectPair(s, limit).Ok? && PairWithin(s)
  {
    hide ParseValue, InspectValue, ValueWithin, FromLE;
    StringIff(s);
    hide StringWithin, ParseString, InspectString;
    if ParseString(s).Ok? {
      var kind := ParseInt(4, ParseString(s).rest);
      if kind.Ok? {
        ValueIff(kind.value, kind.rest, MAX_ARRAY_DEPTH, limit);
      }
    }
  }

  lemma {:induction false} PairsIff(count: nat, s: Bytes, limit: nat, done: seq<Pair>, seen: map<Bytes, View>)
    ensures ParsePairs(count, s, done).Ok? <==> InspectPairs(count, s, limit, seen).Ok? && PairsWithin(count, s, limit)
    decreases count
  {
    hide ParsePair, InspectPair, PairWithin, ViewOf;
    if count > 0 {
      PairIff(s, limit);
      var first := ParsePair(s);
      if first.Ok? {
        PairAgrees(s, limit);
        var view := InspectPair(s, limit);
        PairsIff(count - 1, first.rest, limit, done + [first.value], seen[view.value.0 := view.value.1]);
      }
    }
  }

  /** The placement reader accepts a file exactly when the other one does and the version, the number
      of pairs, every string, every array length, element kind and level of nesting are within its
      limits. With `ReadersAgree`, they then report the same. */
  lemma AcceptedIffWithinLimits(s: Bytes, limit: nat)
    ensures ParseHeader(s).Ok? <==> InspectHeader(s, limit).Ok? && HeaderWithin(s, limit)
  {
    hide ParsePairs, InspectPairs, PairsWithin, FromLE, Metadata;
    var front := ParsePreamble(s);
    if front.Ok? {
      PairsIff(front.value.2, front.rest, limit, [], map[]);
    }
  }
}
