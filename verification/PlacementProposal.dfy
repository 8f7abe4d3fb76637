/** `propose` and `charge_projector` end to end: from the rows and the policy to a split that
    fits (scripts/gpu_placement.py). */
module PlacementProposal {
  import opened Common
  import opened PlacementSums
  import opened PlacementRounding
  import opened PlacementRepair
  import opened PlacementGcd
  import opened PlacementSplit
  import opened PlacementConvergence
  import opened PlacementPlan
  import opened PlacementPropose
  import opened PlacementRepeats
  import opened PlacementProportion

  // --- the request is a plan -----------------------------------------------------

  lemma UsableMeaning(q: Request)
    ensures forall i :: i in q.Usable() <==> i in q.Order() && BudgetOf(q.Budget(), i) > 0
  {
    FilterMeaning(q.Order(), set i | i in q.Order() && BudgetOf(q.Budget(), i) > 0);
  }

  lemma {:induction false} FilterAll(order: seq<Device>, keep: set<Device>)
    ensures |Filter(order, keep)| <= |order|
    ensures |Filter(order, keep)| == |order| ==> Filter(order, keep) == order
  {
    if order != [] {
      FilterAll(order[1..], keep);
    }
  }

  /** A policy that `load_policy` lets through may repeat a device in either list, but names none
      in both: its groups are of listed devices and apart. */
  lemma RequestIsGrouped(q: Request)
    requires q.policy.Loaded() && Distinct(q.Order()) && q.Usable() != []
    ensures Grouped(q.Gathered())
  {
    UsableMeaning(q);
    GroupsAreListed(q);
    var usable := set i | i in q.Usable();
    var u := q.Usable()[0];
    assert u in q.Usable();
    FilterMeaning(q.policy.prefer, usable);
    FilterMeaning(q.policy.fallback, usable);
    var prefer, fallback := Filter(q.policy.prefer, usable), Filter(q.policy.fallback, usable);
    FilterMeaning(q.Usable(), set i | i in q.Usable() && i !in prefer && i !in fallback);
    FilterAll(q.Order(), set i | i in q.Order() && BudgetOf(q.Budget(), i) > 0);
  }

  ghost predicate WellRequested(q: Request) {
    q.policy.Loaded() && Distinct(q.Order()) && q.Usable() != [] && q.required > 0
  }

  function PlanOf(q: Request): map<Device, real>
    requires q.Placeable()
  {
    SharesAreWell(q);
    Plan(q.Gathered())
  }

  /** The plan of a request that has any share has the size of the model and stays on devices with
      a budget for it. */
  lemma RequestIsSized(q: Request)
    requires WellRequested(q) && Sum(q.Order(), q.Gathered().Shares()) > 0.0
    ensures Sized(q.Problem(), PlanOf(q), q.Gathered().headroom, q.policy.Margin(), q.pinned)
  {
    var s := q.Gathered();
    RequestIsGrouped(q);
    SharesAreWell(q);
    WholeIff(s.order, s.Shares(), s.required);
    PlanIsShared(s);
    hide Plan, Sum, WellShares;
    forall i | i in q.Order() && ShareOf(PlanOf(q), i) > 0.0
      ensures Backed(q.Problem(), s.headroom, q.policy.Margin(), q.pinned, i)
    {
      HeadroomIsKept(q, i);
    }
  }

  /** Exactly when the check on lists and sizes says so, the plan leaves each device it uses its
      margin and its pinned bytes. */
  lemma RequestIsPlanned(q: Request)
    requires WellRequested(q)
    ensures q.Gathered().WithinHeadroom() <==>
              Planned(q.Problem(), PlanOf(q), q.Gathered().headroom, q.policy.Margin(), q.pinned)
    ensures q.Gathered().WithinHeadroom() ==> Sum(q.Order(), q.Gathered().Shares()) > 0.0
  {
    var s := q.Gathered();
    RequestIsGrouped(q);
    PlanWithinIff(s);
    PlanIsWhole(s);
    hide *;
    if Sum(q.Order(), s.Shares()) > 0.0 {
      RequestIsSized(q);
    }
  }

  /** Only a device with headroom has a part in the plan. */
  lemma PlanIsShared(s: Setting)
    requires Grouped(s) && s.required > 0 && WellShares(s.Shares(), s.order)
    ensures WellShares(Plan(s), s.order)
    ensures forall i :: i in s.order ==> (ShareOf(Plan(s), i) > 0.0 <==> ShareOf(s.Shares(), i) > 0.0)
    ensures forall i :: i in s.order && ShareOf(Plan(s), i) > 0.0 ==> UnitsOf(s.headroom, i) > 0
  {
    WholeIff(s.order, s.Shares(), s.required);
    QuotasShared(s.order, s.Shares(), s.required);
    SharesHaveHeadroom(s);
  }

  lemma QuotasShared(order: seq<Device>, shares: map<Device, real>, whole: nat)
    requires whole > 0 && WellShares(shares, order)
    ensures forall i :: i in order ==> (ShareOf(Exact(shares, order, whole), i) > 0.0 <==> ShareOf(shares, i) > 0.0)
  {
    hide Quota;
    TotalPositive(shares, order);
    forall i | i in order ensures ShareOf(Exact(shares, order, whole), i) > 0.0 <==> ShareOf(shares, i) > 0.0 {
      QuotaScales(ShareOf(shares, i), Total(shares, order), whole);
    }
  }

  lemma SharesHaveHeadroom(s: Setting)
    requires Grouped(s) && s.required > 0
    ensures forall i :: i in s.order && ShareOf(s.Shares(), i) > 0.0 ==> UnitsOf(s.headroom, i) > 0
  {
    FirstFittingMeaning(if s.prefer != [] then s.prefer else s.spill, s.headroom, s.required);
    PortionsHaveHeadroom(s.prefer, s.headroom, Ratio(s.required, s.PreferRoom()));
    PortionsHaveHeadroom(s.prefer, s.headroom, 1.0);
    PortionsHaveHeadroom(s.spill, s.headroom, Ratio(s.Remainder(), s.SpillRoom()));
    hide Portions, Ratio;
  }

  lemma PortionsHaveHeadroom(devices: seq<Device>, headroom: map<Device, nat>, c: real)
    ensures forall i :: i in Portions(devices, headroom, c) && UnitsOf(headroom, i) == 0 ==> Portions(devices, headroom, c)[i] == 0.0
  {
    assert c * 0.0 == 0.0;
  }

  /** The split is that of the plan: same scale, same weights. */
  lemma PlanIsPrinted(q: Request)
    requires WellRequested(q) && Sum(q.Order(), q.Gathered().Shares()) > 0.0
    ensures WellShares(PlanOf(q), q.Order())
    ensures ScaleOf(q) == ChosenScale(q.Problem(), PlanOf(q), q.Gathered().headroom)
    ensures WeightsOf(q) == ChosenWeights(q.Problem(), PlanOf(q), q.Gathered().headroom)
  {
    SharesAreWell(q);
    var s := q.Gathered();
    WholeIff(s.order, s.Shares(), s.required);
    var c := PlanIsProportional(s.order, s.Shares(), s.required);
    ProportionIsEnough(q.Problem(), s.Shares(), Plan(s), c, s.headroom);
  }

  lemma PlanIsProportional(order: seq<Device>, shares: map<Device, real>, whole: nat) returns (c: real)
    requires whole > 0 && WellShares(shares, order) && Sum(order, shares) > 0.0
    ensures Proportional(order, shares, Exact(shares, order, whole), c)
  {
    var t := Sum(order, shares);
    c := PerUnit(whole, t);
    PerUnitPositive(whole, t);
    hide Quota, PerUnit, Sum;
    forall i | i in order ensures ShareOf(Exact(shares, order, whole), i) == c * ShareOf(shares, i) {
      ExactAt(order, shares, whole, i);
    }
    hide Exact;
  }

  lemma ExactAt(order: seq<Device>, shares: map<Device, real>, whole: nat, i: Device)
    requires WellShares(shares, order) && Sum(order, shares) > 0.0 && i in order
    ensures ShareOf(Exact(shares, order, whole), i) == PerUnit(whole, Sum(order, shares)) * ShareOf(shares, i)
  {
    hide Quota, PerUnit, Sum;
    QuotaScales(ShareOf(shares, i), Sum(order, shares), whole);
  }

  lemma PerUnitPositive(whole: nat, t: real)
    requires whole > 0 && t > 0.0
    ensures PerUnit(whole, t) > 0.0
  {
  }

  lemma HeadroomIsKept(q: Request, i: Device)
    requires UnitsOf(q.Gathered().headroom, i) > 0
    ensures UnitsOf(q.Gathered().headroom, i) + q.policy.Margin() + UnitsOf(q.pinned, i) == BudgetOf(q.Budget(), i)
    ensures i in q.Budget() && q.Budget()[i].Some?
  {
  }

  /** Whatever the policy, the shares are of listed devices and not negative. */
  lemma SharesAreWell(q: Request)
    requires q.Placeable()
    ensures WellShares(q.Gathered().Shares(), q.Order())
  {
    GroupsAreListed(q);
    SettingSharesAreWell(q.Gathered());
  }

  lemma GroupsAreListed(q: Request)
    ensures forall i :: i in q.Gathered().prefer ==> i in q.Order()
    ensures forall i :: i in q.Gathered().spill ==> i in q.Order()
  {
    var usable := q.Usable();
    var among := set i | i in usable;
    var prefer, fallback := Filter(q.policy.prefer, among), Filter(q.policy.fallback, among);
    UsableMeaning(q);
    FilterMeaning(q.policy.prefer, among);
    FilterMeaning(q.policy.fallback, among);
    FilterMeaning(usable, set i | i in usable && i !in prefer && i !in fallback);
  }

  // --- the printed split -----------------------------------------------------------

  function SplitOf(q: Request): seq<nat>
    requires q.Placeable()
  {
    SharesAreWell(q);
    Simplest(q.Problem(), q.Gathered().Shares(), q.Gathered().headroom)
  }

  function ScaleOf(q: Request): nat
    requires q.Placeable()
  {
    SharesAreWell(q);
    ChosenScale(q.Problem(), q.Gathered().Shares(), q.Gathered().headroom)
  }

  /** The weights behind the printed split. */
  function WeightsOf(q: Request): Weights
    requires q.Placeable()
  {
    SharesAreWell(q);
    ChosenWeights(q.Problem(), q.Gathered().Shares(), q.Gathered().headroom)
  }

  /** `sum(split) or 1` */
  function TotalWeight(split: seq<nat>): nat {
    if SplitTotal(split) == 0 then 1 else SplitTotal(split)
  }

  function ProjectedBytes(required: nat, order: seq<Device>, split: seq<nat>): map<Device, real>
    requires |split| == |order|
  {
    Zipped(required, order, split, TotalWeight(split), |order|)
  }

  function Zipped(required: nat, order: seq<Device>, split: seq<nat>, total: nat, n: nat): map<Device, real>
    requires |split| == |order| && n <= |order| && total > 0
  {
    if n == 0 then map[]
    else Zipped(required, order, split, total, n - 1)[order[n - 1] := Bytes(required as real, split[n - 1], total)]
  }

  lemma {:induction false} ZippedAt(required: nat, order: seq<Device>, split: seq<nat>, total: nat, n: nat)
    requires |split| == |order| && n <= |order| && total > 0 && Distinct(order)
    ensures var z := Zipped(required, order, split, total, n);
            && (forall i :: i in z <==> i in order[..n])
            && (forall k :: 0 <= k < n ==> order[k] in z && z[order[k]] == Bytes(required as real, split[k], total))
  {
    if n > 0 {
      ZippedAt(required, order, split, total, n - 1);
      assert order[..n] == order[..n - 1] + [order[n - 1]];
    }
  }

  function SlackBytes(required: nat, order: seq<Device>, budget: Budgets, split: seq<nat>): map<Device, real>
    requires |split| == |order|
  {
    var projected := ProjectedBytes(required, order, split);
    map i | i in order :: BudgetOf(budget, i) as real - ShareOf(projected, i)
  }

  /** Reducing a split to lowest terms changes no device's bytes. */
  lemma ReducedBytes(required: real, s: seq<nat>, k: nat)
    requires k < |s| && SplitTotal(s) > 0
    ensures |Reduced(s)| == |s| && SplitTotal(Reduced(s)) > 0
    ensures Bytes(required, Reduced(s)[k], SplitTotal(Reduced(s))) == Bytes(required, s[k], SplitTotal(s))
    ensures Reduced(s)[k] > 0 <==> s[k] > 0
  {
    var c := ReducedIsProportional(s);
    CommonFactor(required, c, Reduced(s)[k], SplitTotal(Reduced(s)));
  }

  lemma CommonFactor(required: real, c: nat, n: nat, d: nat)
    requires c > 0 && c * d > 0
    ensures d > 0 && Bytes(required, c * n, c * d) == Bytes(required, n, d)
    ensures c * n > 0 <==> n > 0
  {
    assert d > 0;
    var f, x, y := c as real, n as real, d as real;
    assert (c * n) as real == f * x && (c * d) as real == f * y;
    var r := required * x / y;
    assert r * y == required * x;
    assert r * (f * y) == f * (r * y);
    assert required * (f * x) == f * (required * x);
    Quotient(required * (f * x), f * y, r);
  }

  lemma Quotient(a: real, b: real, r: real)
    requires b != 0.0 && r * b == a
    ensures a / b == r
  {
  }

  // --- what the split means ---------------------------------------------------------

  /** The scale has a unit for every device, and a unit is no larger than the margin. */
  ghost predicate FineEnough(q: Request) {
    q.policy.splitScale > |q.rows| && q.required <= q.policy.Margin() * q.policy.splitScale
  }

  lemma UnitWithinMargin(required: nat, margin: nat, scale: nat)
    requires scale > 0 && required <= margin * scale
    ensures Unit(required as real, scale) <= margin as real
  {
    var u := Unit(required as real, scale);
    assert u * scale as real == required as real;
    assert (margin * scale) as real == margin as real * scale as real;
    if u > margin as real {
      assert (u - margin as real) * scale as real > 0.0;
      assert (u - margin as real) * scale as real == u * scale as real - margin as real * scale as real;
    }
  }

  /** A request that fits its headroom is answered with a split that uses exactly the devices
      the rule gave a share, and keeps each of them, its pinned bytes included, within budget. */
  lemma ProposalRespectsBudgets(q: Request)
    requires WellRequested(q) && q.Gathered().WithinHeadroom() && FineEnough(q)
    ensures |SplitOf(q)| == |q.Order()| && SplitTotal(SplitOf(q)) > 0
    ensures forall k :: 0 <= k < |q.Order()| ==>
              (SplitOf(q)[k] > 0 <==> ShareOf(q.Gathered().Shares(), q.Order()[k]) > 0.0)
    ensures forall k :: 0 <= k < |q.Order()| && SplitOf(q)[k] > 0 ==>
              Bytes(q.required as real, SplitOf(q)[k], SplitTotal(SplitOf(q))) + UnitsOf(q.pinned, q.Order()[k]) as real
                <= BudgetOf(q.Budget(), q.Order()[k]) as real
  {
    var w := WeightsOf(q);
    WeightsRespectBudgets(q);
    ListedTotal(q.Order(), w);
    hide WeightsOf, ScaleOf, Bytes, Reduced, Plan;
    forall k | 0 <= k < |q.Order()|
      ensures |SplitOf(q)| == |q.Order()| && SplitTotal(SplitOf(q)) > 0
      ensures Bytes(q.required as real, SplitOf(q)[k], SplitTotal(SplitOf(q))) == Bytes(q.required as real, UnitsOf(w, q.Order()[k]), ScaleOf(q))
      ensures SplitOf(q)[k] > 0 <==> UnitsOf(w, q.Order()[k]) > 0
    {
      SplitAt(q, k);
    }
    hide SplitOf;
    assert q.Order()[0] in q.Order();
  }

  /** One device of the printed split, in the scale it was chosen at. */
  lemma SplitAt(q: Request, k: nat)
    requires q.Placeable() && k < |q.Order()| && Units(q.Order(), WeightsOf(q)) == ScaleOf(q) > 0
    ensures |SplitOf(q)| == |q.Order()| && SplitTotal(SplitOf(q)) > 0
    ensures Bytes(q.required as real, SplitOf(q)[k], SplitTotal(SplitOf(q)))
              == Bytes(q.required as real, UnitsOf(WeightsOf(q), q.Order()[k]), ScaleOf(q))
    ensures SplitOf(q)[k] > 0 <==> UnitsOf(WeightsOf(q), q.Order()[k]) > 0
  {
    var listed := Listed(q.Order(), WeightsOf(q));
    ListedTotal(q.Order(), WeightsOf(q));
    ReducedBytes(q.required as real, listed, k);
    hide Bytes, ChosenWeights, ChosenScale, Reduced;
  }

  lemma WeightsRespectBudgets(q: Request)
    requires WellRequested(q) && q.Gathered().WithinHeadroom() && FineEnough(q)
    ensures Units(q.Order(), WeightsOf(q)) == ScaleOf(q) > 0
    ensures forall i :: i in q.Order() ==> (UnitsOf(WeightsOf(q), i) > 0 <==> ShareOf(q.Gathered().Shares(), i) > 0.0)
    ensures forall i :: i in q.Order() && UnitsOf(WeightsOf(q), i) > 0 ==>
              Bytes(q.required as real, UnitsOf(WeightsOf(q), i), ScaleOf(q)) + UnitsOf(q.pinned, i) as real
                <= BudgetOf(q.Budget(), i) as real
  {
    RequestIsGrouped(q);
    SharesAreWell(q);
    RequestIsPlanned(q);
    PlanIsShared(q.Gathered());
    PlanIsPrinted(q);
    UnitWithinMargin(q.required, q.policy.Margin(), q.policy.splitScale);
    hide Bytes, Unit, ChosenWeights, ChosenScale, Plan, BudgetOf, Sum, Units;
    SplitRespectsPlan(q.Problem(), PlanOf(q), q.Gathered().headroom, q.policy.Margin(), q.pinned);
  }

  /** Under the first two rules with a preferred device in use, and under any rule that leaves
      a device without a share, that device stays empty through rounding, rescue and repair. */
  lemma FallbackStaysEmpty(q: Request, k: nat)
    requires WellRequested(q) && q.Gathered().WithinHeadroom() && FineEnough(q) && k < |q.Order()|
    requires q.Gathered().prefer != [] && (q.Gathered().Rule().Single? || q.Gathered().Rule().Preferred?)
    requires q.Order()[k] !in q.policy.prefer
    ensures |SplitOf(q)| == |q.Order()| && SplitOf(q)[k] == 0
  {
    var s := q.Gathered();
    ProposalRespectsBudgets(q);
    FirstFittingMeaning(s.prefer, s.headroom, s.required);
    FilterMeaning(q.policy.prefer, set i | i in q.Usable());
    assert ShareOf(s.Shares(), q.Order()[k]) == 0.0;
  }

  function SeqSum(g: seq<real>): real {
    if g == [] then 0.0 else SeqSum(g[..|g| - 1]) + g[|g| - 1]
  }

  lemma {:induction false} SumInOrder(order: seq<Device>, f: map<Device, real>, g: seq<real>)
    requires |g| == |order| && forall k :: 0 <= k < |order| ==> ShareOf(f, order[k]) == g[k]
    ensures Sum(order, f) == SeqSum(g)
  {
    if order != [] {
      var n := |order| - 1;
      SumInOrder(order[..n], f, g[..n]);
      assert order == order[..n] + [order[n]];
      SumAppend(order[..n], [order[n]], f);
      assert Sum([order[n]], f) == ShareOf(f, order[n]) + Sum([], f);
    }
  }

  function Weighted(u: real, split: seq<nat>): (g: seq<real>)
    ensures |g| == |split|
  {
    seq(|split|, k requires 0 <= k < |split| => u * split[k] as real)
  }

  lemma {:induction false} WeightedSum(u: real, split: seq<nat>)
    ensures SeqSum(Weighted(u, split)) == u * SplitTotal(split) as real
  {
    if split != [] {
      var n := |split| - 1;
      WeightedSum(u, split[..n]);
      forall k | 0 <= k < n ensures Weighted(u, split)[..n][k] == Weighted(u, split[..n])[k] {
        assert split[..n][k] == split[k];
      }
      assert Weighted(u, split)[..n] == Weighted(u, split[..n]);
      Distribute(u, SplitTotal(split[..n]), split[n]);
    }
  }

  lemma ProjectedAt(required: nat, order: seq<Device>, split: seq<nat>, k: nat)
    requires |split| == |order| && Distinct(order) && SplitTotal(split) > 0 && k < |order|
    ensures ShareOf(ProjectedBytes(required, order, split), order[k])
              == Weighted(Unit(required as real, SplitTotal(split)), split)[k]
    ensures ShareOf(ProjectedBytes(required, order, split), order[k]) == Bytes(required as real, split[k], SplitTotal(split))
  {
    ZippedAt(required, order, split, SplitTotal(split), |order|);
    BytesAreUnits(required as real, split[k], SplitTotal(split));
  }

  /** The projected bytes add up to the model, whatever the split. */
  lemma ProjectionAddsUp(required: nat, order: seq<Device>, split: seq<nat>)
    requires |split| == |order| && Distinct(order) && SplitTotal(split) > 0
    ensures Sum(order, ProjectedBytes(required, order, split)) == required as real
  {
    hide Weighted, ProjectedBytes, Unit, Sum, SeqSum;
    var u := Unit(required as real, SplitTotal(split));
    ProjectedSum(required, order, split, u);
    WeightedSum(u, split);
    UnitsOfWhole(required, SplitTotal(split));
  }

  lemma UnitsOfWhole(required: nat, n: nat)
    requires n > 0
    ensures Unit(required as real, n) * n as real == required as real
  {
  }

  lemma ProjectedSum(required: nat, order: seq<Device>, split: seq<nat>, u: real)
    requires |split| == |order| && Distinct(order) && SplitTotal(split) > 0 && u == Unit(required as real, SplitTotal(split))
    ensures Sum(order, ProjectedBytes(required, order, split)) == SeqSum(Weighted(u, split))
  {
    hide Weighted, ProjectedBytes, Bytes, Unit;
    forall k | 0 <= k < |order| ensures ShareOf(ProjectedBytes(required, order, split), order[k]) == Weighted(u, split)[k] {
      ProjectedAt(required, order, split, k);
    }
    SumInOrder(order, ProjectedBytes(required, order, split), Weighted(u, split));
  }

  // --- where the policy's promise stops ----------------------------------------------

  /** What a preferred device listed twice does to the shares of the second rule: its headroom is
      counted twice, its share is written once, and they add up to half of the model. The
      rounding brings them back to size, and then the device is past its headroom. */
  lemma DuplicatePreferenceHalvesTheShares(s: Setting, d: Device)
    requires s.prefer == [d, d] && d in s.order && Distinct(s.order) && s.Rule() == Preferred
    ensures Sum(s.order, s.Shares()) == s.required as real / 2.0
    ensures s.required as real > UnitsOf(s.headroom, d) as real
  {
    hide Ratio, Portions;
    FirstFittingMeaning(s.prefer, s.headroom, s.required);
    var h := UnitsOf(s.headroom, d);
    assert s.prefer[1..] == [d];
    assert Units([d], s.headroom) == h + Units([], s.headroom);
    assert s.PreferRoom() == 2 * h;
    assert s.Shares() == Portions(s.prefer, s.headroom, Ratio(s.required, 2 * h));
    OnePortion(s.order, s.prefer, s.headroom, Ratio(s.required, 2 * h), d);
    Halved(s.required, h);
  }

  lemma OnePortion(order: seq<Device>, devices: seq<Device>, headroom: map<Device, nat>, fraction: real, d: Device)
    requires devices == [d, d] && d in order && Distinct(order)
    ensures Sum(order, Portions(devices, headroom, fraction)) == fraction * UnitsOf(headroom, d) as real
  {
    assert devices[0] == d;
    forall i | i in devices ensures i == d {
      var k :| 0 <= k < |devices| && devices[k] == i;
    }
    var f, none: map<Device, real> := Portions(devices, headroom, fraction), map[];
    assert forall i :: i in f <==> i == d;
    assert f == none[d := f[d]];
    SumZero(order, none);
    SumUpdate(order, none, d, f[d]);
  }

  lemma Halved(whole: nat, h: nat)
    requires h > 0
    ensures Ratio(whole, 2 * h) * h as real == whole as real / 2.0
  {
    var r, x := Ratio(whole, 2 * h), h as real;
    assert r * (2.0 * x) == whole as real;
    assert r * (2.0 * x) == 2.0 * (r * x);
  }

  /** Devices with nothing to tell them apart stay in their order. */
  lemma {:induction false} InsertLast(sorted: seq<Device>, x: Device, rem: map<Device, real>, shares: map<Device, real>)
    requires forall i :: i in sorted ==> !Ahead(rem, shares, x, i)
    ensures Insert(sorted, x, rem, shares) == sorted + [x]
  {
    if sorted != [] {
      assert sorted[0] in sorted;
      InsertLast(sorted[1..], x, rem, shares);
    }
  }

  lemma {:induction false} SortKeeps(order: seq<Device>, rem: map<Device, real>, shares: map<Device, real>)
    requires forall i :: i in order ==> ShareOf(rem, i) == 0.0 && ShareOf(shares, i) == 0.0
    ensures ByRemainder(order, rem, shares) == order
  {
    if order != [] {
      var front, last := order[..|order| - 1], order[|order| - 1];
      SortKeeps(front, rem, shares);
      InsertLast(front, last, rem, shares);
    }
  }

  /** With nothing to divide, every unit is a leftover unit, and each device in turn takes one
      while they last. */
  lemma EmptyQuotas(exact: map<Device, real>, order: seq<Device>, shares: map<Device, real>, scale: nat)
    requires WellQuotas(exact, order)
    requires forall i :: i in order ==> exact[i] == 0.0 && ShareOf(shares, i) == 0.0
    ensures forall k :: 0 <= k < |order| ==> UnitsOf(HandOut(exact, order, shares, scale), order[k]) == if k < scale then 1 else 0
  {
    UnitsZero(order, Floors(exact));
    SortKeeps(order, Remainders(exact), shares);
    ByRemainderSorts(order, Remainders(exact), shares);
    var lack := Shortfall(scale, 0, |order|);
    DistinctPrefix(order, lack);
    forall k | 0 <= k < |order| ensures order[k] in order[..lack] <==> k < scale {
      assert k < lack ==> order[..lack][k] == order[k];
    }
  }

  lemma EmptyModelRounds(shares: map<Device, real>, order: seq<Device>, scale: nat)
    requires WellShares(shares, order)
    requires forall i :: i in order ==> ShareOf(shares, i) == 0.0
    ensures forall k :: 0 <= k < |order| ==> UnitsOf(Rounded(shares, order, scale), order[k]) == if k < scale then 1 else 0
  {
    ExactNonNegative(shares, order, scale);
    TotalPositive(shares, order);
    forall i | i in order ensures Exact(shares, order, scale)[i] == 0.0 {
      QuotaScales(ShareOf(shares, i), Total(shares, order), scale);
    }
    EmptyQuotas(Exact(shares, order, scale), order, shares, scale);
  }

  /** With no positive share no coarse scale is ever good. */
  lemma NoScaleIsGood(p: Problem, shares: map<Device, real>, headroom: map<Device, nat>)
    requires WellShares(shares, p.order) && (forall i :: i in p.order ==> ShareOf(shares, i) == 0.0)
    ensures ChosenScale(p, shares, headroom) == p.scale
  {
    hide Rounded, Bytes;
    ChosenScaleIsCoarsest(p, shares, headroom);
    EmptyModelRounds(shares, p.order, ChosenScale(p, shares, headroom));
    assert p.order[0] in p.order;
  }

  /** The promise of the rules needs a model of at least one byte. A model of none has no positive
      share, and the leftover units of the full scale go round. */
  lemma EmptyModelUsesFirstDevices(p: Problem, shares: map<Device, real>, headroom: map<Device, nat>)
    requires WellShares(shares, p.order) && (forall i :: i in p.order ==> ShareOf(shares, i) == 0.0)
    requires p.required == 0.0
    ensures forall k :: 0 <= k < |p.order| ==> UnitsOf(ChosenWeights(p, shares, headroom), p.order[k]) == if k < p.scale then 1 else 0
  {
    NoScaleIsGood(p, shares, headroom);
    EmptyModelRounds(shares, p.order, p.scale);
    NothingToRescue(p, shares);
    var w := Rescue(p, shares);
    RescuedMeaning(p.order, shares, Rounded(shares, p.order, p.scale), |p.order|);
    NothingIsOver(p, w);
    hide Rounded, Rescue, Repaired, Fits;
    FittingSplitIsKept(p, w, p.scale);
  }

  lemma NothingToRescue(p: Problem, shares: map<Device, real>)
    requires WellShares(shares, p.order) && forall i :: i in p.order ==> ShareOf(shares, i) == 0.0
    ensures WellWeights(p.order, Rounded(shares, p.order, p.scale))
    ensures forall k :: 0 <= k < |p.order| ==> UnitsOf(Rescue(p, shares), p.order[k]) == UnitsOf(Rounded(shares, p.order, p.scale), p.order[k])
  {
    var first := Rounded(shares, p.order, p.scale);
    RoundedKeys(shares, p.order, p.scale);
    NobodyToRescue(p.order, shares, first, |p.order|);
    hide Rounded;
  }

  lemma {:induction false} NobodyToRescue(order: seq<Device>, shares: map<Device, real>, w: Weights, n: nat)
    requires n <= |order| && forall i :: i in order ==> ShareOf(shares, i) == 0.0
    ensures Rescued(order, shares, w, n) == w
  {
    if n > 0 {
      NobodyToRescue(order, shares, w, n - 1);
      assert order[n - 1] in order;
    }
  }

  lemma NothingIsOver(p: Problem, w: Weights)
    requires p.required == 0.0
    ensures Fits(p, w)
  {
    forall i | i in p.order ensures Over(p, w, i) <= 0.0 {
      assert 0.0 * UnitsOf(w, i) as real == 0.0;
    }
  }

  lemma RoundedKeys(shares: map<Device, real>, order: seq<Device>, scale: nat)
    requires WellShares(shares, order)
    ensures forall i :: i in Rounded(shares, order, scale) <==> i in order
  {
  }
}
