/** The split as it is printed, in lowest terms, against the budgets (scripts/gpu_placement.py). */
module PlacementPrinted {
  import opened Common
  import opened PlacementSums
  import opened PlacementRounding
  import opened PlacementRepair
  import opened PlacementGcd
  import opened PlacementSplit
  import opened PlacementConvergence
  import opened PlacementPlan
  import opened PlacementPropose
  import opened PlacementRepeats
  import opened PlacementProposal

  /** What is printed for one device: bytes within its budget, and nothing without a share. */
  ghost predicate PrintedFits(q: Request, k: nat)
    requires q.Placeable() && k < |q.Order()| == |SplitOf(q)| && SplitTotal(SplitOf(q)) > 0
  {
    && (SplitOf(q)[k] > 0 ==>
          Bytes(q.required as real, SplitOf(q)[k], SplitTotal(SplitOf(q))) <= BudgetOf(q.Budget(), q.Order()[k]) as real)
    && (ShareOf(q.Gathered().Shares(), q.Order()[k]) == 0.0 ==> SplitOf(q)[k] == 0)
  }

  lemma PrintedSplit(q: Request)
    requires q.Placeable() && Units(q.Order(), WeightsOf(q)) > 0
    ensures |SplitOf(q)| == |q.Order()| && SplitTotal(SplitOf(q)) > 0
  {
    var listed := Listed(q.Order(), WeightsOf(q));
    ListedTotal(q.Order(), WeightsOf(q));
    assert q.Usable()[0] in q.Usable();
    UsableMeaning(q);
    ReducedBytes(q.required as real, listed, 0);
  }

  /** One device of the split in its own scale, before reduction. */
  ghost predicate DeviceFits(q: Request, i: Device)
    requires q.Placeable() && ScaleOf(q) > 0
  {
    var n := UnitsOf(WeightsOf(q), i);
    && (n > 0 ==> Bytes(q.required as real, n, ScaleOf(q)) <= BudgetOf(q.Budget(), i) as real)
    && (ShareOf(q.Gathered().Shares(), i) == 0.0 ==> n == 0)
  }

  lemma PrintedDevice(q: Request, k: nat)
    requires q.Placeable() && k < |q.Order()| == |SplitOf(q)| && SplitTotal(SplitOf(q)) > 0
    requires Units(q.Order(), WeightsOf(q)) == ScaleOf(q) > 0
    ensures PrintedFits(q, k) <==> DeviceFits(q, q.Order()[k])
  {
    SplitAt(q, k);
    hide Bytes, WeightsOf, ScaleOf, SplitOf;
  }

  lemma InOrderIff(q: Request)
    requires q.Placeable() && ScaleOf(q) > 0
    ensures (forall k :: 0 <= k < |q.Order()| ==> DeviceFits(q, q.Order()[k])) <==> forall i :: i in q.Order() ==> DeviceFits(q, i)
  {
    hide DeviceFits;
    if forall k :: 0 <= k < |q.Order()| ==> DeviceFits(q, q.Order()[k]) {
      forall i | i in q.Order() ensures DeviceFits(q, i) {
        var k :| 0 <= k < |q.Order()| && q.Order()[k] == i;
      }
    }
    assert forall k :: 0 <= k < |q.Order()| ==> q.Order()[k] in q.Order();
  }

  lemma CarriesByDevice(q: Request)
    requires q.Placeable() && ScaleOf(q) > 0
    ensures Carries(q.Problem(), WeightsOf(q), ScaleOf(q), q.Gathered().Shares()) <==>
              forall i :: i in q.Order() ==> DeviceFits(q, i)
  {
    hide Bytes, ChosenWeights, ChosenScale, BudgetOf;
    var p, w, c, shares := q.Problem(), WeightsOf(q), ScaleOf(q), q.Gathered().Shares();
    if forall i :: i in q.Order() ==> DeviceFits(q, i) {
      forall i | i in p.order
        ensures UnitsOf(w, i) > 0 ==> Bytes(p.required, UnitsOf(w, i), c) <= BudgetOf(p.budget, i) as real
        ensures ShareOf(shares, i) == 0.0 ==> UnitsOf(w, i) == 0
      {
        assert DeviceFits(q, i);
      }
    }
  }

  /** The units the devices with a share can hold between them at the full scale. */
  function RoomOf(q: Request): nat
    requires WellRequested(q)
  {
    RoomInUnits(q.Problem(), q.Gathered().Shares())
  }

  /** The printed split of any request, repeated devices and models too large included: it is
      within every budget, on the devices of the rule alone, exactly when a coarse scale was taken
      or those devices have room for the whole fine scale in whole units. */
  lemma ProposalFitsIff(q: Request)
    requires WellRequested(q) && q.policy.splitScale > |q.rows|
    ensures |SplitOf(q)| == |q.Order()| && SplitTotal(SplitOf(q)) > 0
    ensures (forall k :: 0 <= k < |q.Order()| ==> PrintedFits(q, k)) <==>
            ScaleOf(q) < q.policy.splitScale || RoomOf(q) >= q.policy.splitScale
  {
    SharesAreWell(q);
    SumNonNegative(q.Order(), q.Gathered().Shares());
    if Sum(q.Order(), q.Gathered().Shares()) > 0.0 {
      SharedFitsIff(q);
    } else {
      var _ := NothingFits(q);
    }
  }

  lemma SharedFitsIff(q: Request)
    requires WellRequested(q) && q.policy.splitScale > |q.rows| && Sum(q.Order(), q.Gathered().Shares()) > 0.0
    ensures |SplitOf(q)| == |q.Order()| && SplitTotal(SplitOf(q)) > 0
    ensures (forall k :: 0 <= k < |q.Order()| ==> PrintedFits(q, k)) <==>
            ScaleOf(q) < q.policy.splitScale || RoomOf(q) >= q.policy.splitScale
  {
    SplitCarriesIff(q);
    PrintedSplit(q);
    forall k | 0 <= k < |q.Order()| ensures PrintedFits(q, k) <==> DeviceFits(q, q.Order()[k]) {
      PrintedDevice(q, k);
    }
    hide PrintedFits, DeviceFits, Carries, SplitOf, Sum;
    InOrderIff(q);
    CarriesByDevice(q);
  }

  lemma SplitCarriesIff(q: Request)
    requires WellRequested(q) && q.policy.splitScale > |q.rows| && Sum(q.Order(), q.Gathered().Shares()) > 0.0
    ensures Units(q.Order(), WeightsOf(q)) == ScaleOf(q) > 0
    ensures WellShares(q.Gathered().Shares(), q.Order())
    ensures Carries(q.Problem(), WeightsOf(q), ScaleOf(q), q.Gathered().Shares()) <==>
              ScaleOf(q) < q.policy.splitScale || RoomOf(q) >= q.policy.splitScale
  {
    SharesAreWell(q);
    RequestIsGrouped(q);
    RequestIsSized(q);
    PlanIsShared(q.Gathered());
    PlanIsPrinted(q);
    SplitFitsIff(q.Problem(), PlanOf(q), q.Gathered().headroom, q.policy.Margin(), q.pinned);
    SameCarried(q.Problem(), WeightsOf(q), ScaleOf(q), q.Gathered().Shares(), PlanOf(q));
  }

  /** Which devices have a share is all that counts. */
  lemma SameCarried(p: Problem, w: Weights, c: nat, f: map<Device, real>, g: map<Device, real>)
    requires WellShares(f, p.order) && WellShares(g, p.order) && p.required > 0.0
    requires forall i :: i in p.order ==> (ShareOf(f, i) > 0.0 <==> ShareOf(g, i) > 0.0)
    ensures Carries(p, w, c, f) <==> Carries(p, w, c, g)
    ensures RoomInUnits(p, f) == RoomInUnits(p, g)
  {
    forall i | i in p.order ensures ShareOf(f, i) == 0.0 <==> ShareOf(g, i) == 0.0 {
      assert ShareOf(f, i) >= 0.0 && ShareOf(g, i) >= 0.0;
    }
    assert SharedCaps(p, f) == SharedCaps(p, g);
    hide Bytes, Caps;
  }

  /** With no headroom anywhere no device has a share, and yet the units go somewhere. */
  lemma NothingFits(q: Request) returns (k: nat)
    requires WellRequested(q) && q.policy.splitScale > |q.rows|
    requires forall i :: i in q.Order() ==> ShareOf(q.Gathered().Shares(), i) == 0.0
    ensures |SplitOf(q)| == |q.Order()| && SplitTotal(SplitOf(q)) > 0
    ensures ScaleOf(q) == q.policy.splitScale && RoomOf(q) == 0
    ensures k < |q.Order()| && !PrintedFits(q, k)
  {
    var p, s := q.Problem(), q.Gathered();
    SharesAreWell(q);
    NothingRounds(p, s.Shares(), s.headroom);
    PrintedSplit(q);
    k := SomeUnit(SplitOf(q));
    UnitsZero(p.order, SharedCaps(p, s.Shares()));
  }

  lemma NothingRounds(p: Problem, shares: map<Device, real>, headroom: map<Device, nat>)
    requires WellShares(shares, p.order) && p.scale > |p.order|
    requires forall i :: i in p.order ==> ShareOf(shares, i) == 0.0
    ensures ChosenScale(p, shares, headroom) == p.scale
    ensures Units(p.order, ChosenWeights(p, shares, headroom)) > 0
  {
    NoScaleIsGood(p, shares, headroom);
    var first := Rounded(shares, p.order, p.scale);
    EmptyModelRounds(shares, p.order, p.scale);
    RoundedKeys(shares, p.order, p.scale);
    RescuedMeaning(p.order, shares, first, |p.order|);
    RepairedConserves(p, Rescue(p, shares), p.scale);
    UnitsCover(p.order, first, p.order[0]);
    assert p.order[0] in p.order;
  }

  lemma {:induction false} SomeUnit(split: seq<nat>) returns (k: nat)
    requires SplitTotal(split) > 0
    ensures k < |split| && split[k] > 0
  {
    var n := |split| - 1;
    if split[n] > 0 {
      k := n;
    } else {
      k := SomeUnit(split[..n]);
    }
  }

  /** The split printed for a model of zero bytes: one for each of the first `split_scale` devices,
      so for every device once the scale has a unit for each, the fallback included. */
  lemma EmptyRequestUsesFirstDevices(q: Request)
    requires q.Placeable() && q.required == 0
    ensures |SplitOf(q)| == |q.Order()|
    ensures forall k :: 0 <= k < |q.Order()| ==> SplitOf(q)[k] == if k < q.policy.splitScale then 1 else 0
  {
    var p, s := q.Problem(), q.Gathered();
    SharesAreWell(q);
    NothingIsShared(q);
    EmptyModelUsesFirstDevices(p, s.Shares(), s.headroom);
    hide ChosenWeights, Reduced;
    AlreadyReduced(Listed(p.order, ChosenWeights(p, s.Shares(), s.headroom)));
  }

  /** A split that begins with a one is in lowest terms. */
  lemma AlreadyReduced(split: seq<nat>)
    requires split != [] && split[0] == 1
    ensures Reduced(split) == split
  {
    var c := ReducedIsProportional(split);
    hide Reduced;
    OneIsOne(c, Reduced(split)[0]);
  }

  lemma OneIsOne(c: nat, n: nat)
    requires c * n == 1
    ensures c == 1
  {
    assert n >= 1;
    assert c * (n - 1) >= 0 && c * n == c * (n - 1) + c;
  }

  lemma NothingIsShared(q: Request)
    requires q.Placeable() && q.required == 0
    ensures forall i :: ShareOf(q.Gathered().Shares(), i) == 0.0
  {
    var s := q.Gathered();
    FirstFittingMeaning(if s.prefer != [] then s.prefer else s.spill, s.headroom, s.required);
    UsableMeaning(q);
    var usable := set i | i in q.Usable();
    var u := q.Usable()[0];
    assert u in q.Usable();
    FilterMeaning(q.policy.prefer, usable);
    FilterMeaning(q.policy.fallback, usable);
    var prefer, fallback := Filter(q.policy.prefer, usable), Filter(q.policy.fallback, usable);
    var others := set i | i in q.Usable() && i !in prefer && i !in fallback;
    FilterMeaning(q.Usable(), others);
    assert u in prefer || u in fallback || u in Filter(q.Usable(), others);
    var candidates := if s.prefer != [] then s.prefer else s.spill;
    assert candidates != [] && candidates[0] in candidates;
  }

  // --- a policy that lists a device twice ---------------------------------------------

  /** Two devices of 11 bytes beyond their reserve, a margin of 1, and a model of 15. */
  function PairRequest(prefer: seq<Device>): Request {
    Request(15, [Row(0, Some(12), 1, Some(11)), Row(1, Some(12), 1, Some(11))], Policy(1, 0, None, prefer, [1], true, 96), map[])
  }

  lemma PairBudget(prefer: seq<Device>)
    ensures var q := PairRequest(prefer);
            && q.Order() == [0, 1] && Distinct(q.Order()) && q.Budget() == map[0 := Some(11), 1 := Some(11)]
            && q.Usable() == [0, 1]
  {
    var q := PairRequest(prefer);
    assert q.rows[..1] == [q.rows[0]] && q.rows[..0] == [];
    assert BudgetMap(q.rows[..1]) == map[0 := Some(11)];
    FilterWhole(q.Order(), set i | i in q.Order() && BudgetOf(q.Budget(), i) > 0);
  }

  lemma PairGathered(prefer: seq<Device>)
    requires prefer == [0] || prefer == [0, 0]
    ensures WellRequested(PairRequest(prefer))
    ensures PairRequest(prefer).Gathered() == Setting(15, [0, 1], [0, 1], map[0 := 10, 1 := 10], prefer, [1], true)
  {
    var q := PairRequest(prefer);
    PairBudget(prefer);
    PairGroups(prefer);
    hide Filter, BudgetMap;
    assert (map i | i in q.Usable() :: q.HeadroomOf(i)) == map[0 := 10, 1 := 10];
  }

  lemma PairGroups(prefer: seq<Device>)
    requires prefer == [0] || prefer == [0, 0]
    ensures Filter(prefer, set i | i in [0, 1]) == prefer && Filter([1], set i | i in [0, 1]) == [1]
    ensures Filter([0, 1], set i | i in [0, 1] && i !in prefer && i !in [1]) == []
  {
    FilterWhole(prefer, set i | i in [0, 1]);
    FilterWhole([1], set i | i in [0, 1]);
    FilterNone([0, 1], set i | i in [0, 1] && i !in prefer && i !in [1]);
  }

  /** A preferred device listed twice seems to hold the model, so the second rule fires and gives the
      other device nothing. The split that is printed carries the whole model, so it cannot keep
      that: some device is over budget, or one that was to stay empty is not. Listed once, the
      same device and the same model are split within every budget. */
  lemma RepeatedDeviceBreaksTheRule()
    ensures var q := PairRequest([0, 0]);
            && WellRequested(q) && q.Gathered().Rule() == Preferred && !q.Gathered().WithinHeadroom()
            && |SplitOf(q)| == 2 && SplitTotal(SplitOf(q)) > 0 && exists k :: 0 <= k < |q.Order()| && !PrintedFits(q, k)
    ensures var q := PairRequest([0]);
            && WellRequested(q) && q.Gathered().Rule() == Equal && q.Gathered().WithinHeadroom()
            && |SplitOf(q)| == 2 && SplitTotal(SplitOf(q)) > 0 && forall k :: 0 <= k < |q.Order()| ==> PrintedFits(q, k)
  {
    RepeatedPair();
    SinglePair();
  }

  lemma RepeatedPair()
    ensures var q := PairRequest([0, 0]);
            && WellRequested(q) && q.Gathered().Rule() == Preferred && !q.Gathered().WithinHeadroom()
            && |SplitOf(q)| == 2 && SplitTotal(SplitOf(q)) > 0 && exists k :: 0 <= k < |q.Order()| && !PrintedFits(q, k)
  {
    var q := PairRequest([0, 0]);
    RepeatedRule();
    ProposalFitsIff(q);
    hide SplitOf, SplitTotal, PrintedFits, BudgetMap, Filter;
    AllOnOne(q);
  }

  lemma RepeatedRule()
    ensures var q := PairRequest([0, 0]);
            && WellRequested(q) && q.Gathered().Rule() == Preferred && !q.Gathered().WithinHeadroom()
            && |q.Order()| == 2 && ShareOf(q.Gathered().Shares(), q.Order()[1]) == 0.0 && BudgetOf(q.Budget(), q.Order()[0]) == 11
  {
    PairGathered([0, 0]);
    PairBudget([0, 0]);
    RepeatedSetting();
    hide BudgetMap, Filter;
  }

  /** A model that may use one device alone, and is past its budget. */
  lemma AllOnOne(q: Request)
    requires q.Placeable() && |q.Order()| == |SplitOf(q)| == 2 && SplitTotal(SplitOf(q)) > 0
    requires ShareOf(q.Gathered().Shares(), q.Order()[1]) == 0.0 && q.required > BudgetOf(q.Budget(), q.Order()[0])
    ensures exists k :: 0 <= k < |q.Order()| && !PrintedFits(q, k)
  {
    hide SplitOf, SplitTotal, Bytes;
    if PrintedFits(q, 0) && PrintedFits(q, 1) {
      PairTotal(SplitOf(q));
      WholeOnOne(q.required as real, SplitOf(q)[0]);
    }
  }

  lemma RepeatedSetting()
    ensures var s := Setting(15, [0, 1], [0, 1], map[0 := 10, 1 := 10], [0, 0], [1], true);
            s.Rule() == Preferred && !s.WithinHeadroom() && ShareOf(s.Shares(), 1) == 0.0
  {
    var s := Setting(15, [0, 1], [0, 1], map[0 := 10, 1 := 10], [0, 0], [1], true);
    assert [0, 0][1..] == [0] && [0][1..] == [] && [0, 1][1..] == [1] && [1][1..] == [];
    assert s.PreferRoom() == 20;
    assert Units([0, 1], Held([0, 0], s.headroom)) == 10 + Units([1], Held([0, 0], s.headroom));
  }

  lemma PairTotal(split: seq<nat>)
    requires |split| == 2
    ensures SplitTotal(split) == split[0] + split[1]
  {
    assert split[..1] == [split[0]] && [split[0]][..0] == [];
    assert SplitTotal(split[..1]) == SplitTotal([]) + split[0];
  }

  lemma WholeOnOne(required: real, n: nat)
    requires n > 0
    ensures Bytes(required, n, n) == required
  {
  }

  lemma SinglePair()
    ensures var q := PairRequest([0]);
            && WellRequested(q) && q.Gathered().Rule() == Equal && q.Gathered().WithinHeadroom()
            && |SplitOf(q)| == 2 && SplitTotal(SplitOf(q)) > 0 && forall k :: 0 <= k < |q.Order()| ==> PrintedFits(q, k)
  {
    var q := PairRequest([0]);
    PairGathered([0]);
    PairBudget([0]);
    EqualPair();
    ProposalRespectsBudgets(q);
    hide *;
    PairWithin(q);
  }

  lemma EqualPair()
    ensures var s := Setting(15, [0, 1], [0, 1], map[0 := 10, 1 := 10], [0], [1], true);
            s.Rule() == Equal && s.WithinHeadroom()
  {
    var s := Setting(15, [0, 1], [0, 1], map[0 := 10, 1 := 10], [0], [1], true);
    assert [0][1..] == [];
    assert s.PreferRoom() == 10;
    assert s.EqualShare() == 7.5;
  }

  lemma PairWithin(q: Request)
    requires WellRequested(q) && q.Gathered().WithinHeadroom() && FineEnough(q)
    ensures |SplitOf(q)| == |q.Order()| && SplitTotal(SplitOf(q)) > 0
    ensures forall k :: 0 <= k < |q.Order()| ==> PrintedFits(q, k)
  {
    ProposalRespectsBudgets(q);
    hide Bytes, SplitOf;
  }
}
