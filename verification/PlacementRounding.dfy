/** Rounding shares to whole units of a scale by largest remainder
    (`_round` in scripts/gpu_placement.py). Floats are exact reals here. */
module PlacementRounding {
  import opened Common
  import opened PlacementSums

  /** What `propose` hands to the rounding: non-negative shares of listed devices. */
  ghost predicate WellShares(shares: map<Device, real>, order: seq<Device>) {
    && Distinct(order)
    && (forall i :: i in shares ==> i in order && shares[i] >= 0.0)
  }

  /** `sum(shares.values()) or 1.0` */
  function Total(shares: map<Device, real>, order: seq<Device>): real {
    var t := Sum(order, shares);
    if t == 0.0 then 1.0 else t
  }

  /** One device's exact, fractional number of units. */
  function Quota(share: real, total: real, scale: nat): real
    requires total > 0.0
  {
    share / total * scale as real
  }

  /** Units for each byte of share. */
  function PerUnit(scale: nat, total: real): (c: real)
    requires total > 0.0
    ensures c * total == scale as real
  {
    scale as real / total
  }

  lemma QuotaScales(share: real, total: real, scale: nat)
    requires total > 0.0
    ensures Quota(share, total, scale) == PerUnit(scale, total) * share
    ensures share >= 0.0 ==> Quota(share, total, scale) >= 0.0
    ensures share == 0.0 ==> Quota(share, total, scale) == 0.0
    ensures share > 0.0 && scale > 0 ==> Quota(share, total, scale) > 0.0
  {
  }

  lemma TotalPositive(shares: map<Device, real>, order: seq<Device>)
    requires WellShares(shares, order)
    ensures Total(shares, order) > 0.0
  {
    SumNonNegative(order, shares);
  }

  function Exact(shares: map<Device, real>, order: seq<Device>, scale: nat): map<Device, real>
    requires WellShares(shares, order)
  {
    TotalPositive(shares, order);
    map i | i in order :: Quota(ShareOf(shares, i), Total(shares, order), scale)
  }

  function FloorOf(x: real): nat
    requires x >= 0.0
  {
    x.Floor
  }

  function Floors(exact: map<Device, real>): map<Device, nat>
    requires forall i :: i in exact ==> exact[i] >= 0.0
  {
    map i | i in exact :: FloorOf(exact[i])
  }

  function Remainders(exact: map<Device, real>): map<Device, real> {
    map i | i in exact :: exact[i] - exact[i].Floor as real
  }

  /** The sort key of `by_remainder`, largest first: remainder, then share. */
  predicate Ahead(rem: map<Device, real>, shares: map<Device, real>, x: Device, y: Device) {
    || ShareOf(rem, x) > ShareOf(rem, y)
    || (ShareOf(rem, x) == ShareOf(rem, y) && ShareOf(shares, x) > ShareOf(shares, y))
  }

  /** Place `x` after every device it is not ahead of: the sort is stable. */
  function Insert(sorted: seq<Device>, x: Device, rem: map<Device, real>, shares: map<Device, real>): seq<Device> {
    if sorted == [] then [x]
    else if Ahead(rem, shares, x, sorted[0]) then [x] + sorted
    else [sorted[0]] + Insert(sorted[1..], x, rem, shares)
  }

  function ByRemainder(order: seq<Device>, rem: map<Device, real>, shares: map<Device, real>): seq<Device> {
    if order == [] then []
    else Insert(ByRemainder(order[..|order| - 1], rem, shares), order[|order| - 1], rem, shares)
  }

  ghost predicate Descending(s: seq<Device>, rem: map<Device, real>, shares: map<Device, real>) {
    forall p, q :: 0 <= p < q < |s| ==> !Ahead(rem, shares, s[q], s[p])
  }

  lemma {:induction false} InsertMembers(sorted: seq<Device>, x: Device, rem: map<Device, real>, shares: map<Device, real>)
    ensures var s := Insert(sorted, x, rem, shares);
            |s| == |sorted| + 1 && forall i :: i in s <==> i in sorted || i == x
  {
    if sorted != [] && !Ahead(rem, shares, x, sorted[0]) {
      InsertMembers(sorted[1..], x, rem, shares);
    }
  }

  lemma {:induction false} InsertDistinct(sorted: seq<Device>, x: Device, rem: map<Device, real>, shares: map<Device, real>)
    requires Distinct(sorted) && x !in sorted
    ensures Distinct(Insert(sorted, x, rem, shares))
  {
    if sorted != [] && !Ahead(rem, shares, x, sorted[0]) {
      DistinctTail(sorted);
      InsertDistinct(sorted[1..], x, rem, shares);
      InsertMembers(sorted[1..], x, rem, shares);
      DistinctCons(sorted[0], Insert(sorted[1..], x, rem, shares));
    }
  }

  lemma {:induction false} InsertSum(sorted: seq<Device>, x: Device, rem: map<Device, real>, shares: map<Device, real>)
    ensures Sum(Insert(sorted, x, rem, shares), rem) == Sum(sorted, rem) + ShareOf(rem, x)
  {
    if sorted == [] {
    } else if Ahead(rem, shares, x, sorted[0]) {
      assert ([x] + sorted)[1..] == sorted;
    } else {
      InsertSum(sorted[1..], x, rem, shares);
      assert ([sorted[0]] + Insert(sorted[1..], x, rem, shares))[1..] == Insert(sorted[1..], x, rem, shares);
    }
  }

  lemma {:induction false} InsertDescends(sorted: seq<Device>, x: Device, rem: map<Device, real>, shares: map<Device, real>)
    requires Descending(sorted, rem, shares)
    ensures Descending(Insert(sorted, x, rem, shares), rem, shares)
  {
    if sorted != [] && !Ahead(rem, shares, x, sorted[0]) {
      InsertDescends(sorted[1..], x, rem, shares);
      var tail := Insert(sorted[1..], x, rem, shares);
      InsertMembers(sorted[1..], x, rem, shares);
      forall q | 0 <= q < |tail| ensures !Ahead(rem, shares, tail[q], sorted[0]) {
        assert tail[q] in tail;
      }
    }
  }

  /** The sort is a descending rearrangement: nothing lost, nothing repeated, same sum. */
  lemma {:induction false} ByRemainderSorts(order: seq<Device>, rem: map<Device, real>, shares: map<Device, real>)
    requires Distinct(order)
    ensures var s := ByRemainder(order, rem, shares);
            && Descending(s, rem, shares)
            && Distinct(s) && |s| == |order| && (forall i :: i in s <==> i in order)
            && Sum(s, rem) == Sum(order, rem)
  {
    if order != [] {
      var front, last := order[..|order| - 1], order[|order| - 1];
      ByRemainderSorts(front, rem, shares);
      InsertMembers(ByRemainder(front, rem, shares), last, rem, shares);
      InsertDistinct(ByRemainder(front, rem, shares), last, rem, shares);
      InsertSum(ByRemainder(front, rem, shares), last, rem, shares);
      InsertDescends(ByRemainder(front, rem, shares), last, rem, shares);
      assert order == front + [last] + [];
      assert front + [] == front;
      SumInsert(front, last, [], rem);
    }
  }

  function AddUnits(w: map<Device, nat>, chosen: seq<Device>): map<Device, nat> {
    map i | i in w :: w[i] + if i in chosen then 1 else 0
  }

  /** The number of devices `by_remainder[:shortfall]` names; a slice never overruns its list. */
  function Shortfall(scale: nat, floors: nat, n: nat): (k: nat)
    ensures k <= n
  {
    if scale <= floors then 0 else if scale - floors <= n then scale - floors else n
  }

  /** Exact quotas that are all non-negative, one for each device. */
  ghost predicate WellQuotas(exact: map<Device, real>, order: seq<Device>) {
    && Distinct(order)
    && (forall i :: i in exact <==> i in order)
    && (forall i :: i in exact ==> exact[i] >= 0.0)
  }

  /** Floors first; then one more unit to each of the devices with the largest remainders. */
  function HandOut(exact: map<Device, real>, order: seq<Device>, shares: map<Device, real>, scale: nat): map<Device, nat>
    requires WellQuotas(exact, order)
  {
    var sorted := ByRemainder(order, Remainders(exact), shares);
    ByRemainderSorts(order, Remainders(exact), shares);
    AddUnits(Floors(exact), sorted[..Shortfall(scale, Units(order, Floors(exact)), |order|)])
  }

  function Rounded(shares: map<Device, real>, order: seq<Device>, scale: nat): map<Device, nat>
    requires WellShares(shares, order)
  {
    ExactNonNegative(shares, order, scale);
    HandOut(Exact(shares, order, scale), order, shares, scale)
  }

  lemma ExactNonNegative(shares: map<Device, real>, order: seq<Device>, scale: nat)
    requires WellShares(shares, order)
    ensures WellQuotas(Exact(shares, order, scale), order)
  {
    TotalPositive(shares, order);
    forall i | i in order ensures Exact(shares, order, scale)[i] >= 0.0 {
      QuotaScales(ShareOf(shares, i), Total(shares, order), scale);
    }
  }

  lemma ExactSum(shares: map<Device, real>, order: seq<Device>, scale: nat)
    requires WellShares(shares, order) && Sum(order, shares) > 0.0
    ensures Sum(order, Exact(shares, order, scale)) == scale as real
  {
    hide Quota, PerUnit;
    var t := Total(shares, order);
    var c := PerUnit(scale, t);
    forall i | i in order
      ensures ShareOf(Exact(shares, order, scale), i) == c * ShareOf(shares, i)
    {
      ExactScales(shares, order, scale, i);
    }
    hide Exact;
    SumScale(order, shares, Exact(shares, order, scale), c);
  }

  lemma ExactScales(shares: map<Device, real>, order: seq<Device>, scale: nat, i: Device)
    requires WellShares(shares, order) && i in order && Total(shares, order) > 0.0
    ensures ShareOf(Exact(shares, order, scale), i) == PerUnit(scale, Total(shares, order)) * ShareOf(shares, i)
  {
    QuotaScales(ShareOf(shares, i), Total(shares, order), scale);
  }

  /** The floors and the remainders add up to the whole, so the units still to hand out are
      exactly the sum of the remainders, and there are at most as many as there are devices. */
  lemma RemaindersAreTheLack(exact: map<Device, real>, order: seq<Device>, scale: nat)
    requires WellQuotas(exact, order) && Sum(order, exact) == scale as real
    ensures var lack := Shortfall(scale, Units(order, Floors(exact)), |order|);
            && lack == scale - Units(order, Floors(exact))
            && Sum(order, Remainders(exact)) == lack as real
  {
    var rem := Remainders(exact);
    SumParts(order, exact, Floors(exact), rem);
    SumNonNegative(order, rem);
    SumAtMostCount(order, rem);
  }

  /** Everything after position `k` of the sorted list has no more remainder than position `k`. */
  lemma SortedTail(s: seq<Device>, rem: map<Device, real>, shares: map<Device, real>, k: nat, i: Device)
    requires Descending(s, rem, shares) && k < |s| && i in s[k..]
    ensures ShareOf(rem, i) <= ShareOf(rem, s[k])
  {
    var q :| 0 <= q < |s[k..]| && s[k..][q] == i;
    assert i == s[k + q];
    if q > 0 {
      assert !Ahead(rem, shares, s[k + q], s[k]);
    }
  }

  /** With more remainder in all than `k` devices can hold, the device at position `k` of
      the sorted list still has some. */
  lemma PrefixHasRemainder(s: seq<Device>, rem: map<Device, real>, shares: map<Device, real>, k: nat)
    requires Descending(s, rem, shares) && k < |s|
    requires forall i :: i in s ==> 0.0 <= ShareOf(rem, i) <= 1.0
    requires Sum(s, rem) > k as real
    ensures ShareOf(rem, s[k]) > 0.0
  {
    assert s[k] in s;
    if ShareOf(rem, s[k]) == 0.0 {
      assert s == s[..k] + s[k..];
      SumAppend(s[..k], s[k..], rem);
      forall i | i in s[..k] ensures ShareOf(rem, i) <= 1.0 {
        assert i in s;
      }
      SumAtMostCount(s[..k], rem);
      forall i | i in s[k..] ensures ShareOf(rem, i) <= 0.0 {
        SortedTail(s, rem, shares, k, i);
      }
      SumNonPositive(s[k..], rem);
    }
  }

  lemma {:induction false} UnitsAdd(order: seq<Device>, w: map<Device, nat>, chosen: seq<Device>)
    requires Distinct(order) && Distinct(chosen)
    requires forall i :: i in chosen ==> i in w
    requires forall i :: i in w <==> i in order
    ensures Units(order, AddUnits(w, chosen)) == Units(order, w) + |chosen|
  {
    if chosen == [] {
      assert AddUnits(w, chosen) == w;
    } else {
      DistinctTail(chosen);
      var first := chosen[0];
      assert first in chosen;
      assert first in w;
      UnitsAdd(order, w, chosen[1..]);
      AddOne(w, chosen);
      var next := AddUnits(w, chosen[1..]);
      UnitsUpdate(order, next, chosen[0], next[chosen[0]] + 1);
    }
  }

  lemma AddOne(w: map<Device, nat>, chosen: seq<Device>)
    requires chosen != [] && Distinct(chosen) && chosen[0] in w
    ensures var next := AddUnits(w, chosen[1..]);
            AddUnits(w, chosen) == next[chosen[0] := next[chosen[0]] + 1]
  {
    DistinctTail(chosen);
    assert chosen == [chosen[0]] + chosen[1..];
  }

  lemma AddNone(w: map<Device, nat>, s: seq<Device>)
    ensures AddUnits(w, s[..0]) == w && AddUnits(w, s[..0]).Keys == w.Keys
  {
  }

  lemma AddNext(w: map<Device, nat>, s: seq<Device>, n: nat)
    requires Distinct(s) && n < |s| && s[n] in w
    ensures AddUnits(w, s[..n]).Keys == w.Keys
    ensures var now := AddUnits(w, s[..n]);
            AddUnits(w, s[..n + 1]) == now[s[n] := now[s[n]] + 1]
  {
    DistinctPrefix(s, n);
    assert s[..n + 1] == s[..n] + [s[n]];
  }

  /** Every unit of the scale is handed out, each weight is within one unit of its exact
      quota, and a whole quota stays exactly what it was. */
  lemma HandOutMeaning(exact: map<Device, real>, order: seq<Device>, shares: map<Device, real>, scale: nat)
    requires WellQuotas(exact, order) && Sum(order, exact) == scale as real
    ensures var w := HandOut(exact, order, shares, scale);
            && w.Keys == exact.Keys
            && Units(order, w) == scale
            && (forall i :: i in w ==> exact[i] - 1.0 < w[i] as real < exact[i] + 1.0)
            && (forall i :: i in w && exact[i] == 0.0 ==> w[i] == 0)
  {
    hide ByRemainder, Ahead, Descending, Units, Sum;
    var floors, rem := Floors(exact), Remainders(exact);
    var sorted := ByRemainder(order, rem, shares);
    ByRemainderSorts(order, rem, shares);
    RemaindersAreTheLack(exact, order, scale);
    var lack := Shortfall(scale, Units(order, floors), |order|);
    var chosen := sorted[..lack];
    DistinctPrefix(sorted, lack);
    UnitsAdd(order, floors, chosen);
    forall i | i in chosen ensures rem[i] > 0.0 {
      var k :| 0 <= k < lack && sorted[k] == i;
      PrefixHasRemainder(sorted, rem, shares, k);
    }
  }

  /** The meaning of the rounding for shares with a positive total: it sums to the scale,
      stays strictly within one unit of every exact quota, and gives a device without a
      share no unit. */
  lemma RoundedMeaning(shares: map<Device, real>, order: seq<Device>, scale: nat)
    requires WellShares(shares, order) && Sum(order, shares) > 0.0
    ensures var w := Rounded(shares, order, scale);
            && (forall i :: i in w <==> i in order)
            && Units(order, w) == scale
            && (forall i :: i in order ==>
                  var q := Quota(ShareOf(shares, i), Sum(order, shares), scale);
                  q - 1.0 < w[i] as real < q + 1.0)
            && (forall i :: i in order && ShareOf(shares, i) == 0.0 ==> w[i] == 0)
  {
    ExactNonNegative(shares, order, scale);
    ExactSum(shares, order, scale);
    var exact := Exact(shares, order, scale);
    HandOutMeaning(exact, order, shares, scale);
    forall i | i in order && ShareOf(shares, i) == 0.0 ensures exact[i] == 0.0 {
      QuotaScales(ShareOf(shares, i), Total(shares, order), scale);
    }
  }

  /** What makes it largest-remainder: a device given an extra unit has at least the
      remainder of any device refused one, and on a tie at least its share. */
  lemma RoundedFavoursRemainders(shares: map<Device, real>, order: seq<Device>, scale: nat, i: Device, j: Device)
    requires WellShares(shares, order)
    requires i in order && j in order
    requires i in Rounded(shares, order, scale) && j in Rounded(shares, order, scale)
    requires i in Exact(shares, order, scale) && j in Exact(shares, order, scale)
    requires Rounded(shares, order, scale)[i] as real > Exact(shares, order, scale)[i]
    requires Rounded(shares, order, scale)[j] as real <= Exact(shares, order, scale)[j]
    ensures var exact := Exact(shares, order, scale);
            var mine, theirs := exact[i] - exact[i].Floor as real, exact[j] - exact[j].Floor as real;
            mine > theirs || (mine == theirs && ShareOf(shares, i) >= ShareOf(shares, j))
  {
    ExactNonNegative(shares, order, scale);
    ExtraUnitsGoFirst(Exact(shares, order, scale), order, shares, scale, i, j);
  }

  lemma ExtraUnitsGoFirst(exact: map<Device, real>, order: seq<Device>, shares: map<Device, real>, scale: nat, i: Device, j: Device)
    requires WellQuotas(exact, order) && i in order && j in order
    requires HandOut(exact, order, shares, scale)[i] as real > exact[i]
    requires HandOut(exact, order, shares, scale)[j] as real <= exact[j]
    ensures !Ahead(Remainders(exact), shares, j, i)
  {
    var rem := Remainders(exact);
    var sorted := ByRemainder(order, rem, shares);
    ByRemainderSorts(order, rem, shares);
    var lack := Shortfall(scale, Units(order, Floors(exact)), |order|);
    DistinctPrefix(sorted, lack);
    assert i in sorted[..lack] && j !in sorted[..lack];
    var p :| 0 <= p < lack && sorted[p] == i;
    var q :| 0 <= q < |sorted| && sorted[q] == j;
    assert q >= lack;
  }

  /** `_round`: the dictionary starts at the floors, and the first `shortfall` devices by
      remainder each get one more unit. */
  method Round(shares: map<Device, real>, order: seq<Device>, scale: nat) returns (weights: map<Device, nat>)
    requires WellShares(shares, order)
    ensures weights == Rounded(shares, order, scale)
  {
    ExactNonNegative(shares, order, scale);
    var exact := Exact(shares, order, scale);
    weights := HandOutUnits(exact, order, shares, scale);
  }

  method HandOutUnits(exact: map<Device, real>, order: seq<Device>, shares: map<Device, real>, scale: nat)
    returns (weights: map<Device, nat>)
    requires WellQuotas(exact, order)
    ensures weights == HandOut(exact, order, shares, scale)
  {
    hide AddUnits, ByRemainder, Ahead, Descending, Sum, Remainders;
    weights := Floors(exact);
    ghost var floors := weights;
    var byRemainder := ByRemainder(order, Remainders(exact), shares);
    ByRemainderSorts(order, Remainders(exact), shares);
    var shortfall := Shortfall(scale, Units(order, weights), |order|);
    assert HandOut(exact, order, shares, scale) == AddUnits(floors, byRemainder[..shortfall]);
    assert forall i :: i in byRemainder ==> i in floors;
    hide Floors, HandOut, WellQuotas;
    AddNone(floors, byRemainder);
    for n := 0 to shortfall
      invariant weights == AddUnits(floors, byRemainder[..n])
    {
      var index := byRemainder[n];
      AddNext(floors, byRemainder, n);
      weights := weights[index := weights[index] + 1];
    }
  }
}
