/** A split depends on the proportion of the shares alone: shares that are a multiple of others are
    printed as the same weights, at the same scale (`_simplest` in scripts/gpu_placement.py). */
module PlacementProportion {
  import opened Common
  import opened PlacementSums
  import opened PlacementRounding
  import opened PlacementRepair
  import opened PlacementSplit

  ghost predicate Proportional(order: seq<Device>, f: map<Device, real>, g: map<Device, real>, c: real) {
    c > 0.0 && forall i :: i in order ==> ShareOf(g, i) == c * ShareOf(f, i)
  }

  lemma SameQuotient(a: real, t: real, c: real, scale: nat)
    requires t > 0.0 && c > 0.0
    ensures c * t > 0.0 && Quota(c * a, c * t, scale) == Quota(a, t, scale)
  {
    var q := a / t;
    assert q * t == a;
    assert q * (c * t) == c * (q * t);
    assert c * a / (c * t) == q;
  }

  lemma SameQuotas(order: seq<Device>, f: map<Device, real>, g: map<Device, real>, c: real, scale: nat)
    requires WellShares(f, order) && WellShares(g, order) && Proportional(order, f, g, c) && Sum(order, f) > 0.0
    ensures Exact(g, order, scale) == Exact(f, order, scale)
  {
    SameTotals(order, f, g, c);
    forall i | i in order ensures Exact(g, order, scale)[i] == Exact(f, order, scale)[i] {
      SameQuotaAt(order, f, g, c, scale, i);
    }
    hide Quota, Sum, Proportional;
  }

  lemma SameTotals(order: seq<Device>, f: map<Device, real>, g: map<Device, real>, c: real)
    requires Proportional(order, f, g, c) && Sum(order, f) > 0.0
    ensures Sum(order, g) == c * Sum(order, f) > 0.0
  {
    SumScale(order, f, g, c);
    SameQuotient(0.0, Sum(order, f), c, 0);
  }

  lemma SameQuotaAt(order: seq<Device>, f: map<Device, real>, g: map<Device, real>, c: real, scale: nat, i: Device)
    requires WellShares(f, order) && WellShares(g, order) && Proportional(order, f, g, c) && Sum(order, f) > 0.0
    requires i in order
    ensures Exact(g, order, scale)[i] == Exact(f, order, scale)[i]
  {
    hide Quota, Sum;
    SameTotals(order, f, g, c);
    SameQuotaOf(ShareOf(f, i), ShareOf(g, i), Sum(order, f), Sum(order, g), c, scale);
  }

  lemma SameQuotaOf(a: real, b: real, t: real, u: real, c: real, scale: nat)
    requires t > 0.0 && u > 0.0 && c > 0.0 && b == c * a && u == c * t
    ensures Quota(b, u, scale) == Quota(a, t, scale)
  {
    hide Quota;
    SameQuotient(a, t, c, scale);
  }

  /** The same devices have the larger share. */
  ghost predicate SameOrder(order: seq<Device>, f: map<Device, real>, g: map<Device, real>) {
    forall i, j :: i in order && j in order ==> (ShareOf(f, i) > ShareOf(f, j) <==> ShareOf(g, i) > ShareOf(g, j))
  }

  lemma ProportionKeepsOrder(order: seq<Device>, f: map<Device, real>, g: map<Device, real>, c: real)
    requires Proportional(order, f, g, c)
    ensures SameOrder(order, f, g)
    ensures forall i :: i in order ==> (ShareOf(f, i) > 0.0 <==> ShareOf(g, i) > 0.0)
  {
    forall i, j | i in order && j in order
      ensures (ShareOf(f, i) > ShareOf(f, j) <==> ShareOf(g, i) > ShareOf(g, j)) && (ShareOf(f, i) > 0.0 <==> ShareOf(g, i) > 0.0)
    {
      LargerOf(ShareOf(f, i), ShareOf(f, j), ShareOf(g, i), ShareOf(g, j), c);
      LargerOf(ShareOf(f, i), 0.0, ShareOf(g, i), 0.0, c);
    }
  }

  lemma LargerOf(a: real, b: real, x: real, y: real, c: real)
    requires c > 0.0 && x == c * a && y == c * b
    ensures a > b <==> x > y
  {
    Larger(c, a, b);
  }

  lemma Larger(c: real, a: real, b: real)
    requires c > 0.0
    ensures c * a > c * b <==> a > b
  {
    var d := a - b;
    assert c * d == c * a - c * b;
    if d > 0.0 {
      assert c * d > 0.0;
    } else {
      assert c * -d >= 0.0;
    }
  }

  lemma {:induction false} SameInsert(order: seq<Device>, sorted: seq<Device>, x: Device, rem: map<Device, real>, f: map<Device, real>, g: map<Device, real>)
    requires SameOrder(order, f, g) && x in order && forall i :: i in sorted ==> i in order
    ensures Insert(sorted, x, rem, f) == Insert(sorted, x, rem, g)
  {
    if sorted != [] {
      assert sorted[0] in sorted;
      assert Ahead(rem, f, x, sorted[0]) <==> Ahead(rem, g, x, sorted[0]);
      SameInsert(order, sorted[1..], x, rem, f, g);
    }
  }

  lemma {:induction false} SameSort(order: seq<Device>, part: seq<Device>, rem: map<Device, real>, f: map<Device, real>, g: map<Device, real>)
    requires SameOrder(order, f, g) && forall i :: i in part ==> i in order
    ensures ByRemainder(part, rem, f) == ByRemainder(part, rem, g)
    ensures forall i :: i in ByRemainder(part, rem, f) ==> i in order
  {
    if part != [] {
      var front, last := part[..|part| - 1], part[|part| - 1];
      assert last in part;
      SameSort(order, front, rem, f, g);
      SameInsert(order, ByRemainder(front, rem, f), last, rem, f, g);
      InsertMembers(ByRemainder(front, rem, f), last, rem, f);
    }
  }

  lemma SameRounded(order: seq<Device>, f: map<Device, real>, g: map<Device, real>, c: real, scale: nat)
    requires WellShares(f, order) && WellShares(g, order) && Proportional(order, f, g, c) && Sum(order, f) > 0.0
    ensures Rounded(g, order, scale) == Rounded(f, order, scale)
  {
    SameQuotas(order, f, g, c, scale);
    ProportionKeepsOrder(order, f, g, c);
    SameSort(order, order, Remainders(Exact(f, order, scale)), f, g);
  }

  lemma {:induction false} SameRescue(order: seq<Device>, f: map<Device, real>, g: map<Device, real>, w: Weights, n: nat)
    requires n <= |order| && forall i :: i in order ==> (ShareOf(f, i) > 0.0 <==> ShareOf(g, i) > 0.0)
    ensures Rescued(order, f, w, n) == Rescued(order, g, w, n)
  {
    if n > 0 {
      SameRescue(order, f, g, w, n - 1);
      assert order[n - 1] in order;
    }
  }

  lemma {:induction false} SameFirst(test: nat -> bool, other: nat -> bool, from: nat, limit: nat)
    requires forall k: nat :: from <= k < limit ==> test(k) == other(k)
    ensures FirstFrom(test, from, limit) == FirstFrom(other, from, limit)
    decreases limit - from
  {
    if from < limit {
      SameFirst(test, other, from + 1, limit);
    }
  }

  lemma SameGood(p: Problem, f: map<Device, real>, g: map<Device, real>, c: real, headroom: map<Device, nat>, candidate: nat)
    requires WellShares(f, p.order) && WellShares(g, p.order) && Proportional(p.order, f, g, c) && Sum(p.order, f) > 0.0
    requires candidate > 0
    ensures GoodScale(p, f, headroom, candidate) == GoodScale(p, g, headroom, candidate)
  {
    SameRounded(p.order, f, g, c, candidate);
    ProportionKeepsOrder(p.order, f, g, c);
    hide GoodScale, Rounded, Sum, Proportional, SameOrder;
    if GoodScale(p, f, headroom, candidate) {
      GoodForBoth(p, f, g, headroom, candidate);
    } else if GoodScale(p, g, headroom, candidate) {
      GoodForBoth(p, g, f, headroom, candidate);
    }
  }

  lemma GoodForBoth(p: Problem, f: map<Device, real>, g: map<Device, real>, headroom: map<Device, nat>, candidate: nat)
    requires WellShares(f, p.order) && WellShares(g, p.order) && candidate > 0
    requires Rounded(f, p.order, candidate) == Rounded(g, p.order, candidate)
    requires forall i :: i in p.order ==> (ShareOf(f, i) > 0.0 <==> ShareOf(g, i) > 0.0)
    requires GoodScale(p, f, headroom, candidate)
    ensures GoodScale(p, g, headroom, candidate)
  {
    hide Rounded, Bytes;
  }

  /** Proportional shares are printed as one split. */
  lemma ProportionIsEnough(p: Problem, f: map<Device, real>, g: map<Device, real>, c: real, headroom: map<Device, nat>)
    requires WellShares(f, p.order) && WellShares(g, p.order) && Proportional(p.order, f, g, c) && Sum(p.order, f) > 0.0
    ensures ChosenScale(p, g, headroom) == ChosenScale(p, f, headroom)
    ensures ChosenWeights(p, g, headroom) == ChosenWeights(p, f, headroom)
    ensures Simplest(p, g, headroom) == Simplest(p, f, headroom)
  {
    hide Rounded, GoodScale, Repaired;
    var one, other := (k: nat) => k > 0 && GoodScale(p, f, headroom, k), (k: nat) => k > 0 && GoodScale(p, g, headroom, k);
    forall k: nat | 2 <= k < p.scale ensures one(k) == other(k) {
      SameGood(p, f, g, c, headroom, k);
    }
    SameFirst(one, other, 2, p.scale);
    ProportionKeepsOrder(p.order, f, g, c);
    SameRounded(p.order, f, g, c, ChosenScale(p, f, headroom));
    SameRounded(p.order, f, g, c, p.scale);
    SameRescue(p.order, f, g, Rounded(f, p.order, p.scale), |p.order|);
  }
}
