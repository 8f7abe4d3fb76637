/** From rounded weights to the split that is printed: `_reduce`, `_integerise` and
    `_simplest` of scripts/gpu_placement.py. */
module PlacementSplit {
  import opened Common
  import opened PlacementSums
  import opened PlacementRounding
  import opened PlacementRepair
  import opened PlacementConvergence
  import opened PlacementGcd

  // --- the split of a set of shares -------------------------------------------

  /** `[weights[index] for index in order]` */
  function Listed(order: seq<Device>, w: Weights): seq<nat> {
    seq(|order|, k requires 0 <= k < |order| => UnitsOf(w, order[k]))
  }

  lemma {:induction false} ListedTotal(order: seq<Device>, w: Weights)
    ensures SplitTotal(Listed(order, w)) == Units(order, w)
  {
    if order != [] {
      var front := order[..|order| - 1];
      ListedTotal(front, w);
      assert Listed(order, w)[..|order| - 1] == Listed(front, w);
      UnitsSnoc(front, order[|order| - 1], w);
      assert order == front + [order[|order| - 1]];
    }
  }

  lemma {:induction false} UnitsSnoc(a: seq<Device>, x: Device, w: Weights)
    ensures Units(a + [x], w) == Units(a, w) + UnitsOf(w, x)
  {
    if a != [] {
      UnitsSnoc(a[1..], x, w);
      assert (a + [x])[1..] == a[1..] + [x];
    }
  }

  /** The weights after largest-remainder rounding and the rescue pass. */
  function Rescue(p: Problem, shares: map<Device, real>): Weights
    requires WellShares(shares, p.order)
  {
    Rescued(p.order, shares, Rounded(shares, p.order, p.scale), |p.order|)
  }

  function Integerised(p: Problem, shares: map<Device, real>): seq<nat>
    requires WellShares(shares, p.order)
  {
    Reduced(Listed(p.order, Repaired(p, Rescue(p, shares), p.scale)))
  }

  /** A coarse scale is good enough: it puts work on exactly the devices with a share and
      keeps each inside its working headroom. */
  predicate GoodScale(p: Problem, shares: map<Device, real>, headroom: map<Device, nat>, candidate: nat)
    requires WellShares(shares, p.order) && candidate > 0
  {
    var w := Rounded(shares, p.order, candidate);
    && (forall i :: i in p.order ==> (UnitsOf(w, i) > 0 <==> ShareOf(shares, i) > 0.0))
    && (forall i :: i in p.order && ShareOf(shares, i) > 0.0 ==>
          Bytes(p.required, UnitsOf(w, i), candidate) <= UnitsOf(headroom, i) as real)
  }

  /** The first number from `from` up to `limit` that passes a test, or `limit`. */
  function FirstFrom(test: nat -> bool, from: nat, limit: nat): nat
    decreases limit - from
  {
    if from >= limit then limit
    else if test(from) then from
    else FirstFrom(test, from + 1, limit)
  }

  lemma {:induction false} FirstFromMeaning(test: nat -> bool, from: nat, limit: nat)
    requires from <= limit
    ensures var c := FirstFrom(test, from, limit);
            from <= c <= limit && (c < limit ==> test(c)) && forall k :: from <= k < c ==> !test(k)
    decreases limit - from
  {
    if from < limit && !test(from) {
      FirstFromMeaning(test, from + 1, limit);
    }
  }

  /** The coarsest scale from 2 up that is good enough, or the full scale. */
  function ChosenScale(p: Problem, shares: map<Device, real>, headroom: map<Device, nat>): nat
    requires WellShares(shares, p.order)
  {
    FirstFrom((c: nat) => c > 0 && GoodScale(p, shares, headroom, c), 2, p.scale)
  }

  /** The weights behind the printed split. */
  function ChosenWeights(p: Problem, shares: map<Device, real>, headroom: map<Device, nat>): Weights
    requires WellShares(shares, p.order)
  {
    var c := ChosenScale(p, shares, headroom);
    if c < p.scale then Rounded(shares, p.order, c) else Repaired(p, Rescue(p, shares), p.scale)
  }

  function Simplest(p: Problem, shares: map<Device, real>, headroom: map<Device, nat>): seq<nat>
    requires WellShares(shares, p.order)
  {
    Reduced(Listed(p.order, ChosenWeights(p, shares, headroom)))
  }

  /** What makes these weights of a scale good, by cross-multiplication: they are positive for exactly
      the devices with a share, and each of those holds its part of the model. */
  ghost predicate RespectsPlan(p: Problem, shares: map<Device, real>, headroom: map<Device, nat>, w: Weights, scale: nat) {
    forall i :: i in p.order ==>
      && (UnitsOf(w, i) > 0 <==> ShareOf(shares, i) > 0.0)
      && (ShareOf(shares, i) > 0.0 ==> Fitting(p.required, UnitsOf(w, i), UnitsOf(headroom, i), scale))
  }

  lemma GoodScaleIff(p: Problem, shares: map<Device, real>, headroom: map<Device, nat>, candidate: nat)
    requires WellShares(shares, p.order) && candidate > 0
    ensures GoodScale(p, shares, headroom, candidate) <==>
              RespectsPlan(p, shares, headroom, Rounded(shares, p.order, candidate), candidate)
  {
    hide Rounded, Bytes, Fitting;
    var w := Rounded(shares, p.order, candidate);
    forall i | i in p.order
      ensures Bytes(p.required, UnitsOf(w, i), candidate) <= UnitsOf(headroom, i) as real <==>
                Fitting(p.required, UnitsOf(w, i), UnitsOf(headroom, i), candidate)
    {
      FittingIff(p.required, UnitsOf(w, i), UnitsOf(headroom, i), candidate);
    }
  }

  ghost predicate Fitting(required: real, weight: nat, room: nat, scale: nat) {
    required * weight as real <= room as real * scale as real
  }

  lemma FittingIff(required: real, weight: nat, room: nat, scale: nat)
    requires scale > 0
    ensures Bytes(required, weight, scale) <= room as real <==> Fitting(required, weight, room, scale)
  {
    QuotientAtMost(required * weight as real, scale as real, room as real);
  }

  lemma QuotientAtMost(x: real, d: real, room: real)
    requires d > 0.0
    ensures x / d <= room <==> x <= room * d
  {
    var q := x / d;
    assert q * d == x;
    if q <= room { assert q * d <= room * d; }
    if q > room { assert q * d > room * d; }
  }

  /** A coarse scale is taken only when it is good and every coarser one is not. */
  lemma ChosenScaleIsCoarsest(p: Problem, shares: map<Device, real>, headroom: map<Device, nat>)
    requires WellShares(shares, p.order)
    ensures var c := ChosenScale(p, shares, headroom);
            && 0 < c <= p.scale
            && (c < p.scale ==> c >= 2 && GoodScale(p, shares, headroom, c))
            && (c < p.scale ==> RespectsPlan(p, shares, headroom, Rounded(shares, p.order, c), c))
            && (forall k :: 2 <= k < c ==> !RespectsPlan(p, shares, headroom, Rounded(shares, p.order, k), k))
  {
    if ChosenScale(p, shares, headroom) > 0 {
      GoodScaleIff(p, shares, headroom, ChosenScale(p, shares, headroom));
    }
    if p.scale >= 2 {
      var test := (c: nat) => c > 0 && GoodScale(p, shares, headroom, c);
      FirstFromMeaning(test, 2, p.scale);
      hide RespectsPlan, GoodScale;
      forall k | 2 <= k < ChosenScale(p, shares, headroom)
        ensures !RespectsPlan(p, shares, headroom, Rounded(shares, p.order, k), k)
      {
        assert !test(k);
        GoodScaleIff(p, shares, headroom, k);
      }
    }
  }

  // --- the loops ----------------------------------------------------------------

  /** `_integerise`: round, rescue each device in turn, then repair for at most `scale` turns. */
  method Integerise(p: Problem, shares: map<Device, real>) returns (split: seq<nat>)
    requires WellShares(shares, p.order)
    ensures split == Integerised(p, shares)
  {
    hide Rounded, Repaired, RescueOne, Reduced;
    var weights := Round(shares, p.order, p.scale);
    for k := 0 to |p.order|
      invariant weights == Rescued(p.order, shares, Rounded(shares, p.order, p.scale), k)
    {
      weights := RescueOne(p.order, shares, weights, p.order[k]);
    }
    weights := Repair(p, weights);
    split := Reduced(Listed(p.order, weights));
  }

  method Repair(p: Problem, rescued: Weights) returns (weights: Weights)
    ensures weights == Repaired(p, rescued, p.scale)
  {
    weights := rescued;
    var turn := 0;
    while turn < p.scale
      invariant turn <= p.scale
      invariant Repaired(p, weights, p.scale - turn) == Repaired(p, rescued, p.scale)
    {
      var next := RepairStep(p, weights);
      if next == None {
        break;
      }
      weights, turn := next.value, turn + 1;
    }
  }

  /** `_simplest`: coarser scales first, the full scale when none of them is good. */
  method SimplestSplit(p: Problem, shares: map<Device, real>, headroom: map<Device, nat>) returns (split: seq<nat>)
    requires WellShares(shares, p.order)
    ensures split == Simplest(p, shares, headroom)
  {
    var candidate := 2;
    while candidate < p.scale
      invariant 2 <= candidate
      invariant FirstFrom((c: nat) => c > 0 && GoodScale(p, shares, headroom, c), candidate, p.scale)
                  == ChosenScale(p, shares, headroom)
    {
      if GoodScale(p, shares, headroom, candidate) {
        var weights := Round(shares, p.order, candidate);
        split := Reduced(Listed(p.order, weights));
        return;
      }
      candidate := candidate + 1;
    }
    split := Integerise(p, shares);
  }
}
