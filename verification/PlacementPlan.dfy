/** Whether the printed integer split still means what the placement rule chose. */
module PlacementPlan {
  import opened Common
  import opened PlacementSums
  import opened PlacementRounding
  import opened PlacementRepair
  import opened PlacementConvergence
  import opened PlacementSplit

  /** Shares of a model: they add up to it, and each device with a share has a known budget that
      holds its working headroom, the margin and the bytes pinned to it. */
  ghost predicate Sized(p: Problem, shares: map<Device, real>, headroom: map<Device, nat>, margin: nat, pinned: map<Device, nat>) {
    && WellShares(shares, p.order) && p.required > 0.0 && Sum(p.order, shares) == p.required
    && forall i :: i in p.order && ShareOf(shares, i) > 0.0 ==> Backed(p, headroom, margin, pinned, i)
  }

  ghost predicate Backed(p: Problem, headroom: map<Device, nat>, margin: nat, pinned: map<Device, nat>, i: Device) {
    && i in p.budget && p.budget[i].Some?
    && UnitsOf(headroom, i) + margin + UnitsOf(pinned, i) <= BudgetOf(p.budget, i)
  }

  /** A plan: each share is inside the device's working headroom besides. */
  ghost predicate Planned(p: Problem, shares: map<Device, real>, headroom: map<Device, nat>, margin: nat, pinned: map<Device, nat>) {
    && Sized(p, shares, headroom, margin, pinned)
    && forall i :: i in p.order ==> ShareOf(shares, i) <= UnitsOf(headroom, i) as real
  }

  lemma MulSwap(u: real, r: real, d: real)
    ensures u * (r * d) == r * (u * d)
  {
  }

  lemma MulBelow(u: real, n: real, q: real, share: real, bytes: real)
    requires u > 0.0 && n < q + 1.0 && u * q == share && bytes == u * n
    ensures bytes < share + u
  {
    var d := q + 1.0 - n;
    assert u * d > 0.0;
    assert u * d == u * (q + 1.0) - u * n;
    assert u * (q + 1.0) == u * q + u;
  }

  /** A device's quota of units, in bytes, is its share. */
  lemma QuotaIsShare(share: real, required: real, scale: nat)
    requires scale > 0 && required > 0.0
    ensures Unit(required, scale) * Quota(share, required, scale) == share
  {
    MulSwap(Unit(required, scale), share / required, scale as real);
  }

  lemma QuotaBytes(share: real, required: real, scale: nat, weight: nat)
    requires scale > 0 && required > 0.0
    requires weight as real < Quota(share, required, scale) + 1.0
    ensures Bytes(required, weight, scale) < share + Unit(required, scale)
  {
    UnitPositive(required, scale);
    QuotaIsShare(share, required, scale);
    BytesAreUnits(required, weight, scale);
    MulBelow(Unit(required, scale), weight as real, Quota(share, required, scale), share, Bytes(required, weight, scale));
  }

  /** After rounding and rescue, with more units than devices: work is on exactly the
      devices with a share, and no device is a whole unit past its share, except that the
      smallest share still gets its one unit. */
  lemma RescueMeaning(p: Problem, shares: map<Device, real>)
    requires WellShares(shares, p.order) && Sum(p.order, shares) == p.required && p.required > 0.0
    requires p.scale > |p.order|
    ensures var w := Rescue(p, shares);
            && WellWeights(p.order, w) && Units(p.order, w) == p.scale
            && (forall i :: i in p.order ==> (UnitsOf(w, i) > 0 <==> ShareOf(shares, i) > 0.0))
            && (forall i :: i in p.order && ShareOf(shares, i) > 0.0 ==>
                  Bytes(p.required, UnitsOf(w, i), p.scale) <= ShareOf(shares, i) + Unit(p.required, p.scale))
  {
    var first, w := Rounded(shares, p.order, p.scale), Rescue(p, shares);
    RoundedMeaning(shares, p.order, p.scale);
    RescuedMeaning(p.order, shares, first, |p.order|);
    forall i | i in p.order
      ensures UnitsOf(w, i) > 0 <==> ShareOf(shares, i) > 0.0
      ensures ShareOf(shares, i) > 0.0 ==>
                Bytes(p.required, UnitsOf(w, i), p.scale) <= ShareOf(shares, i) + Unit(p.required, p.scale)
    {
      RescuedDevice(p, shares, first, w, i);
    }
  }

  lemma RescuedDevice(p: Problem, shares: map<Device, real>, first: Weights, w: Weights, i: Device)
    requires p.required > 0.0 && i in p.order && i in first && i in w && RescuedFrom(shares, first, w, i)
    requires ShareOf(shares, i) >= 0.0
    requires first[i] as real < Quota(ShareOf(shares, i), p.required, p.scale) + 1.0
    requires ShareOf(shares, i) == 0.0 ==> first[i] == 0
    ensures ShareOf(shares, i) == 0.0 ==> w[i] == 0
    ensures ShareOf(shares, i) > 0.0 ==> Bytes(p.required, w[i], p.scale) <= ShareOf(shares, i) + Unit(p.required, p.scale)
  {
    var share := ShareOf(shares, i);
    if w[i] <= first[i] {
      assert w[i] as real <= first[i] as real;
      QuotaBytes(share, p.required, p.scale, w[i]);
    } else {
      BytesAreUnits(p.required, 0, p.scale);
    }
  }

  /** A coarse scale leaves every working device its whole margin and its pinned bytes. */
  lemma CoarseSplitKeepsMargin(p: Problem, shares: map<Device, real>, headroom: map<Device, nat>, margin: nat, pinned: map<Device, nat>)
    requires Sized(p, shares, headroom, margin, pinned)
    requires ChosenScale(p, shares, headroom) < p.scale
    ensures var c, w := ChosenScale(p, shares, headroom), ChosenWeights(p, shares, headroom);
            && c > 0 && Units(p.order, w) == c
            && (forall i :: i in p.order ==> (UnitsOf(w, i) > 0 <==> ShareOf(shares, i) > 0.0))
            && (forall i :: i in p.order && UnitsOf(w, i) > 0 ==>
                  Bytes(p.required, UnitsOf(w, i), c) + (margin + UnitsOf(pinned, i)) as real <= BudgetOf(p.budget, i) as real)
  {
    var c, w := ChosenScale(p, shares, headroom), ChosenWeights(p, shares, headroom);
    ChosenScaleIsCoarsest(p, shares, headroom);
    RoundedMeaning(shares, p.order, c);
    forall i | i in p.order && UnitsOf(w, i) > 0
      ensures Bytes(p.required, UnitsOf(w, i), c) + (margin + UnitsOf(pinned, i)) as real <= BudgetOf(p.budget, i) as real
    {
      assert Backed(p, headroom, margin, pinned, i);
    }
  }

  /** The full scale, when one unit is no more than the margin: the repair has nothing to do,
      because rounding moved no device by as much as the margin it was planned with. */
  lemma FineSplitKeepsBudget(p: Problem, shares: map<Device, real>, headroom: map<Device, nat>, margin: nat, pinned: map<Device, nat>)
    requires Planned(p, shares, headroom, margin, pinned)
    requires p.scale > |p.order| && Unit(p.required, p.scale) <= margin as real
    ensures Repaired(p, Rescue(p, shares), p.scale) == Rescue(p, shares)
    ensures var w := Rescue(p, shares);
            forall i :: i in p.order && UnitsOf(w, i) > 0 ==>
              Bytes(p.required, UnitsOf(w, i), p.scale) + UnitsOf(pinned, i) as real <= BudgetOf(p.budget, i) as real
  {
    var w := Rescue(p, shares);
    RescueMeaning(p, shares);
    forall i | i in p.order
      ensures Over(p, w, i) <= 0.0
      ensures UnitsOf(w, i) > 0 ==>
                && Backed(p, headroom, margin, pinned, i)
                && Bytes(p.required, UnitsOf(w, i), p.scale) + UnitsOf(pinned, i) as real <= BudgetOf(p.budget, i) as real
    {
      FineDevice(p, shares, headroom, margin, pinned, w, i);
    }
    FittingSplitIsKept(p, w, p.scale);
  }

  lemma FineDevice(p: Problem, shares: map<Device, real>, headroom: map<Device, nat>, margin: nat, pinned: map<Device, nat>, w: Weights, i: Device)
    requires Planned(p, shares, headroom, margin, pinned) && i in p.order
    requires Unit(p.required, p.scale) <= margin as real
    requires UnitsOf(w, i) > 0 ==> ShareOf(shares, i) > 0.0
    requires UnitsOf(w, i) > 0 ==>
               Bytes(p.required, UnitsOf(w, i), p.scale) <= ShareOf(shares, i) + Unit(p.required, p.scale)
    ensures Over(p, w, i) <= 0.0
    ensures UnitsOf(w, i) > 0 ==>
              && Backed(p, headroom, margin, pinned, i)
              && Bytes(p.required, UnitsOf(w, i), p.scale) + UnitsOf(pinned, i) as real <= BudgetOf(p.budget, i) as real
  {
    IdleIsNotOver(p, w, i);
    assert ShareOf(shares, i) > 0.0 ==> Backed(p, headroom, margin, pinned, i);
  }

  /** The main result: a plan that fits its headroom is printed as a split that fits its
      budgets, pinned bytes included, and that engages the plan's devices and no other, through
      rounding, rescue and repair, and by either path. */
  lemma SplitRespectsPlan(p: Problem, shares: map<Device, real>, headroom: map<Device, nat>, margin: nat, pinned: map<Device, nat>)
    requires Planned(p, shares, headroom, margin, pinned)
    requires p.scale > |p.order| && Unit(p.required, p.scale) <= margin as real
    ensures var c, w := ChosenScale(p, shares, headroom), ChosenWeights(p, shares, headroom);
            && c > 0 && Units(p.order, w) == c
            && (forall i :: i in p.order ==> (UnitsOf(w, i) > 0 <==> ShareOf(shares, i) > 0.0))
            && (forall i :: i in p.order && UnitsOf(w, i) > 0 ==>
                  Bytes(p.required, UnitsOf(w, i), c) + UnitsOf(pinned, i) as real <= BudgetOf(p.budget, i) as real)
  {
    ChosenScaleIsCoarsest(p, shares, headroom);
    if ChosenScale(p, shares, headroom) < p.scale {
      CoarseSplitKeepsMargin(p, shares, headroom, margin, pinned);
    } else {
      FineSplitKeepsBudget(p, shares, headroom, margin, pinned);
      RescueMeaning(p, shares);
    }
  }

  /** The units the devices with a share can hold between them at the full scale. */
  function RoomInUnits(p: Problem, shares: map<Device, real>): nat
    requires p.required > 0.0
  {
    Units(p.order, SharedCaps(p, shares))
  }

  function SharedCaps(p: Problem, shares: map<Device, real>): Weights
    requires p.required > 0.0
  {
    map i | i in p.order :: if ShareOf(shares, i) > 0.0 then Caps(p)[i] else 0
  }

  /** Without any assumption on the margin, and by the full scale: the repaired split fits
      every budget and leaves every device without a share empty exactly when the devices
      with a share have room for the whole scale between them, counted in whole units. */
  lemma FineSplitFitsIff(p: Problem, shares: map<Device, real>, headroom: map<Device, nat>, margin: nat, pinned: map<Device, nat>)
    requires Sized(p, shares, headroom, margin, pinned) && p.scale > |p.order|
    ensures RoomInUnits(p, shares) >= p.scale <==>
              var w := Repaired(p, Rescue(p, shares), p.scale);
              && Fits(p, w)
              && forall i :: i in p.order && ShareOf(shares, i) == 0.0 ==> UnitsOf(w, i) == 0
  {
    var w := Rescue(p, shares);
    RescueMeaning(p, shares);
    forall i | i in p.order && UnitsOf(w, i) > 0 ensures i in p.budget && p.budget[i].Some? {
      assert Backed(p, headroom, margin, pinned, i);
    }
    RepairFitsIff(p, w);
    RoomIsEngagedRoom(p, shares, w);
    SettlesByShare(p, shares, w, Repaired(p, w, p.scale));
  }

  lemma RoomIsEngagedRoom(p: Problem, shares: map<Device, real>, w: Weights)
    requires p.required > 0.0
    requires forall i :: i in p.order ==> (UnitsOf(w, i) > 0 <==> ShareOf(shares, i) > 0.0)
    ensures RoomInUnits(p, shares) == Units(p.order, EngagedCaps(Caps(p), w))
  {
    assert EngagedCaps(Caps(p), w) == SharedCaps(p, shares);
  }

  lemma SettlesByShare(p: Problem, shares: map<Device, real>, w: Weights, r: Weights)
    requires WellShares(shares, p.order)
    requires forall i :: i in p.order ==> (UnitsOf(w, i) > 0 <==> ShareOf(shares, i) > 0.0)
    ensures Settles(p, w, r) <==>
              Fits(p, r) && forall i :: i in p.order && ShareOf(shares, i) == 0.0 ==> UnitsOf(r, i) == 0
  {
    forall i | i in p.order ensures UnitsOf(w, i) == 0 <==> ShareOf(shares, i) == 0.0 {
      assert ShareOf(shares, i) >= 0.0;
    }
  }

  /** A split in `c` units that is within every budget and leaves every device without a share
      empty. */
  ghost predicate Carries(p: Problem, w: Weights, c: nat, shares: map<Device, real>) {
    && c > 0
    && (forall i :: i in p.order && UnitsOf(w, i) > 0 ==> Bytes(p.required, UnitsOf(w, i), c) <= BudgetOf(p.budget, i) as real)
    && (forall i :: i in p.order && ShareOf(shares, i) == 0.0 ==> UnitsOf(w, i) == 0)
  }

  lemma FitsIsCarries(p: Problem, w: Weights, shares: map<Device, real>, headroom: map<Device, nat>, margin: nat, pinned: map<Device, nat>)
    requires Sized(p, shares, headroom, margin, pinned)
    requires forall i :: i in p.order && ShareOf(shares, i) == 0.0 ==> UnitsOf(w, i) == 0
    ensures Carries(p, w, p.scale, shares) <==> Fits(p, w)
  {
    forall i | i in p.order
      ensures UnitsOf(w, i) == 0 ==> Over(p, w, i) <= 0.0
      ensures UnitsOf(w, i) > 0 ==>
                (Over(p, w, i) <= 0.0 <==> Bytes(p.required, UnitsOf(w, i), p.scale) <= BudgetOf(p.budget, i) as real)
    {
      IdleIsNotOver(p, w, i);
      if UnitsOf(w, i) > 0 {
        assert ShareOf(shares, i) > 0.0;
        assert Backed(p, headroom, margin, pinned, i);
      }
    }
    hide Bytes, Over;
  }

  /** The same by either path, without any assumption on the margin: what is printed fits, on the
      devices of the plan, exactly when a coarse scale was good enough or those devices have room
      for the whole fine scale in whole units. */
  lemma SplitFitsIff(p: Problem, shares: map<Device, real>, headroom: map<Device, nat>, margin: nat, pinned: map<Device, nat>)
    requires Sized(p, shares, headroom, margin, pinned) && p.scale > |p.order|
    ensures var c, w := ChosenScale(p, shares, headroom), ChosenWeights(p, shares, headroom);
            && Units(p.order, w) == c > 0
            && (Carries(p, w, c, shares) <==> c < p.scale || RoomInUnits(p, shares) >= p.scale)
  {
    ChosenScaleIsCoarsest(p, shares, headroom);
    var c, w := ChosenScale(p, shares, headroom), ChosenWeights(p, shares, headroom);
    if c < p.scale {
      CoarseSplitKeepsMargin(p, shares, headroom, margin, pinned);
    } else {
      RescueMeaning(p, shares);
      RepairedConserves(p, Rescue(p, shares), p.scale);
      FineSplitFitsIff(p, shares, headroom, margin, pinned);
      if forall i :: i in p.order && ShareOf(shares, i) == 0.0 ==> UnitsOf(w, i) == 0 {
        FitsIsCarries(p, w, shares, headroom, margin, pinned);
      }
    }
  }
}
