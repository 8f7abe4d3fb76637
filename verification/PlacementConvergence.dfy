/** What the repair loop of `_integerise` achieves over a whole run: when a single turn lowers
    the total overflow, and exactly when the loop ends in a split that fits. */
module PlacementConvergence {
  import opened Common
  import opened PlacementSums
  import opened PlacementRepair

  // --- one turn and the total overflow --------------------------------------

  function Overflows(p: Problem, w: Weights): map<Device, real>
  {
    map i | i in p.order :: Excessive(Over(p, w, i))
  }

  function Excessive(over: real): real {
    if over > 0.0 then over else 0.0
  }

  function TotalOverflow(p: Problem, w: Weights): real
  {
    Sum(p.order, Overflows(p, w))
  }

  lemma OverAfterMove(p: Problem, w: Weights, from: Device, to: Device, i: Device)
    requires WellWeights(p.order, w) && from != to && i in p.order
    requires from in p.order && to in p.order && w[from] > 0
    requires from in p.budget && p.budget[from].Some? && to in p.budget && p.budget[to].Some?
    ensures var before := Over(p, w, i);
            Over(p, MoveUnit(w, from, to), i) ==
              if i == from then before - Unit(p.required, p.scale)
              else if i == to then before + Unit(p.required, p.scale)
              else before
  {
    BytesAreUnits(p.required, w[from] - 1, p.scale);
    BytesAreUnits(p.required, w[to], p.scale);
  }

  /** What a turn does to the total overflow is decided by one comparison: the size of a unit
      against the gap between the device that gives it and the device that takes it. A unit
      smaller than the gap lowers the overflow, an equal one leaves it, a larger one raises it.
      A donor over by a whole unit, or a receiver with a whole unit of room, has the gap. */
  lemma RepairStepOverflow(p: Problem, w: Weights)
      returns (worst: Device, target: Device)
    requires WellWeights(p.order, w) && p.required > 0.0
    requires RepairStep(p, w).Some?
    ensures Moves(p, w, worst, target)
    ensures var gap := Over(p, w, worst) - Over(p, w, target);
            var after, before := TotalOverflow(p, RepairStep(p, w).value), TotalOverflow(p, w);
            && (after < before <==> Unit(p.required, p.scale) < gap)
            && (after == before <==> Unit(p.required, p.scale) == gap)
  {
    worst, target := RepairStepMeaning(p, w);
    OverflowAfterMove(p, w, worst, target);
    UnitPositive(p.required, p.scale);
    hide RepairStep, TotalOverflow, Unit, Over, Units;
  }

  /** A move changes what two devices contribute to the overflow. */
  lemma OverflowAfterMove(p: Problem, w: Weights, worst: Device, target: Device)
    requires WellWeights(p.order, w) && worst != target && worst in p.order && target in p.order && w[worst] > 0
    requires worst in p.budget && p.budget[worst].Some? && target in p.budget && p.budget[target].Some?
    ensures var u, a, b := Unit(p.required, p.scale), Over(p, w, worst), Over(p, w, target);
            TotalOverflow(p, MoveUnit(w, worst, target)) ==
              TotalOverflow(p, w) + (Excessive(a - u) - Excessive(a)) + (Excessive(b + u) - Excessive(b))
  {
    var next := MoveUnit(w, worst, target);
    forall i | i in p.order
      ensures Over(p, next, i) ==
                Over(p, w, i) +
                  if i == worst then -Unit(p.required, p.scale) else if i == target then Unit(p.required, p.scale) else 0.0
    {
      OverAfterMove(p, w, worst, target, i);
    }
    hide Over, Unit, Excessive, MoveUnit, Sum;
    var before, after := Overflows(p, w), Overflows(p, next);
    var middle := before[worst := after[worst]];
    assert after == middle[target := after[target]];
    SumUpdate(p.order, before, worst, after[worst]);
    SumUpdate(p.order, middle, target, after[target]);
  }

  const TIGHT: SplitProblem := SplitProblem([0, 1], map[0 := Some(15), 1 := Some(5)], 16.0, 2)

  /** A turn that raises the overflow: devices 0 and 1 with 15 and 5 bytes of budget, 16
      bytes in 2 units of 8. Device 0 is over by 1 and hands 8 bytes to device 1. */
  lemma RepairStepCanRaiseOverflow()
    ensures var p: Problem := TIGHT;
            var w := map[0 := 2, 1 := 0];
            var step := RepairStep(p, w);
            step == Some(map[0 := 1, 1 := 1]) && TotalOverflow(p, w) == 1.0 && TotalOverflow(p, step.value) == 3.0
  {
    TightMove();
    TightOverflow(map[0 := 2, 1 := 0], 1.0, -5.0);
    TightOverflow(map[0 := 1, 1 := 1], -7.0, 3.0);
    assert MoveUnit(map[0 := 2, 1 := 0], 0, 1) == map[0 := 1, 1 := 1];
    hide TotalOverflow, Move, Over;
  }

  lemma TightMove()
    ensures Move(TIGHT, map[0 := 2, 1 := 0]) == Some((0, 1))
  {
    var p: Problem := TIGHT;
    var w: Weights := map[0 := 2, 1 := 0];
    var over := OverMap(p, w);
    assert Over(p, w, 0) == 1.0 && Over(p, w, 1) == -5.0;
    assert p.order[..1] == [0] && p.order[1..] == [1] && p.order[1..][1..] == [];
    assert MaxBy(p.order, over) == 0;
    var under := set i | i in p.order && i != 0 && ShareOf(over, i) < 0.0;
    assert under == {1};
    assert [1][1..] == [] && Filter([1], under) == [1];
    assert p.order[0] !in under && Filter(p.order[1..], under) == [1];
    assert Receivers(p.order, over, 0) == [1];
    assert MinBy([1], over) == 1;
    var busy := set i | i in Receivers(p.order, over, 0) && UnitsOf(w, i) > 0;
    assert busy == {} && Filter([1], busy) == [];
    assert Candidates(p.order, over, w, 0) == [1];
  }

  lemma TightOverflow(w: Weights, a: real, b: real)
    requires Over(TIGHT, w, 0) == a && Over(TIGHT, w, 1) == b
    ensures TotalOverflow(TIGHT, w) == Excessive(a) + Excessive(b)
  {
    hide Over, Excessive;
    var p: Problem := TIGHT;
    var f := Overflows(p, w);
    assert p.order[1..] == [1] && [1][1..] == [];
    assert Sum(p.order, f) == ShareOf(f, 0) + Sum([1], f);
    assert Sum([1], f) == ShareOf(f, 1) + Sum([], f);
  }

  // --- the whole loop ---------------------------------------------------------

  /** The units each device can hold by its budget; one of unknown budget is counted as holding none,
      so the results below ask for a known budget wherever there is work. */
  function Caps(p: Problem): Weights
    requires p.required > 0.0
  {
    map i | i in p.order ::
      match if i in p.budget then p.budget[i] else None
      case None => 0
      case Some(room) => Cap(room, p.required, p.scale)
  }

  /** The room in units of the devices that have work. */
  function EngagedCaps(caps: Weights, w: Weights): Weights {
    map i | i in caps :: if UnitsOf(w, i) > 0 then caps[i] else 0
  }

  function Excess(caps: Weights, w: Weights): Weights {
    map i | i in caps :: if UnitsOf(w, i) > caps[i] then UnitsOf(w, i) - caps[i] else 0
  }

  /** Every device with work has a known budget. */
  ghost predicate KnownWhereEngaged(p: Problem, w: Weights) {
    forall i :: i in p.order && UnitsOf(w, i) > 0 ==> i in p.budget && p.budget[i].Some?
  }

  /** A whole-unit split of the scale over the devices that have work, each within budget, exists. */
  ghost predicate SplitExists(p: Problem, w: Weights)
    requires p.required > 0.0
  {
    p.scale <= Units(p.order, EngagedCaps(Caps(p), w))
  }

  lemma OverIsPastCap(p: Problem, w: Weights, i: Device)
    requires WellWeights(p.order, w) && p.required > 0.0 && i in p.order
    requires i in p.budget && p.budget[i].Some?
    ensures var cap := Caps(p)[i];
            && (Over(p, w, i) <= 0.0 <==> w[i] <= cap)
            && (w[i] < cap ==> Over(p, w, i) <= -Unit(p.required, p.scale))
            && (Over(p, w, i) <= -Unit(p.required, p.scale) ==> w[i] < cap)
  {
    CapMeaning(p.budget[i].value, p.required, p.scale, w[i]);
    CapMeaning(p.budget[i].value, p.required, p.scale, w[i] + 1);
    BytesAreUnits(p.required, w[i], p.scale);
  }

  /** No device that was idle has been given work. */
  ghost predicate IdleKept(order: seq<Device>, w: Weights, r: Weights) {
    forall i :: i in order && UnitsOf(w, i) == 0 ==> UnitsOf(r, i) == 0
  }

  /** What holds before every turn once a whole-unit split exists. */
  ghost predicate Repairable(p: Problem, w: Weights)
    requires p.required > 0.0
  {
    && WellWeights(p.order, w) && KnownWhereEngaged(p, w)
    && Units(p.order, w) == p.scale && SplitExists(p, w)
  }

  /** While a whole-unit split exists, a turn takes a unit from a device past its cap and
      gives it to a working device below its cap. */
  lemma TurnUsesCaps(p: Problem, w: Weights) returns (worst: Device, target: Device)
    requires p.required > 0.0 && Repairable(p, w) && RepairStep(p, w).Some?
    ensures Moves(p, w, worst, target) && WellWeights(p.order, Caps(p))
    ensures UnitsOf(w, worst) > UnitsOf(Caps(p), worst)
    ensures 0 < UnitsOf(w, target) < UnitsOf(Caps(p), target)
  {
    worst, target := RepairStepMeaning(p, w);
    OverIsPastCap(p, w, worst);
    var held := EngagedCaps(Caps(p), w);
    UnitsBelowSomewhere(p.order, w, held);
    var roomy :| roomy in p.order && UnitsOf(w, roomy) < UnitsOf(held, roomy);
    OverIsPastCap(p, w, roomy);
    UnitPositive(p.required, p.scale);
    OverIsPastCap(p, w, target);
  }

  lemma MoveBetweenCaps(order: seq<Device>, caps: Weights, w: Weights, worst: Device, target: Device)
    requires WellWeights(order, w) && WellWeights(order, caps)
    requires worst in order && target in order && worst != target
    requires UnitsOf(w, worst) > UnitsOf(caps, worst) && 0 < UnitsOf(w, target) < UnitsOf(caps, target)
    ensures var next := MoveUnit(w, worst, target);
            && EngagedCaps(caps, next) == EngagedCaps(caps, w)
            && Units(order, Excess(caps, next)) == Units(order, Excess(caps, w)) - 1
  {
    var next := MoveUnit(w, worst, target);
    var excess := Excess(caps, w);
    assert EngagedCaps(caps, next) == EngagedCaps(caps, w);
    assert Excess(caps, next) == excess[worst := excess[worst] - 1];
    UnitsUpdate(order, excess, worst, excess[worst] - 1);
  }

  /** Such a turn lowers the excess by exactly one unit, wakes no idle device, and leaves the
      whole-unit split in existence. */
  lemma TurnMakesProgress(p: Problem, w: Weights)
    requires p.required > 0.0 && Repairable(p, w) && RepairStep(p, w).Some?
    ensures var next := RepairStep(p, w).value;
            && Repairable(p, next) && IdleKept(p.order, w, next)
            && Units(p.order, Excess(Caps(p), next)) == Units(p.order, Excess(Caps(p), w)) - 1
  {
    hide RepairStep, Over, Caps;
    var worst, target := TurnUsesCaps(p, w);
    MoveBetweenCaps(p.order, Caps(p), w, worst, target);
    MoveUnitConserves(p.order, w, worst, target);
  }

  /** The result wanted of a run from `w`: within budget, with no idle device put to work. */
  ghost predicate Settles(p: Problem, w: Weights, r: Weights) {
    Fits(p, r) && IdleKept(p.order, w, r)
  }

  /** The loop reaches a fitting split over the devices it started with, within as many
      turns as there are units past a cap. */
  lemma RepairReachesFit(p: Problem, w: Weights, turns: nat)
    requires p.required > 0.0 && Repairable(p, w)
    requires Units(p.order, Excess(Caps(p), w)) <= turns
    ensures Settles(p, w, Repaired(p, w, turns))
  {
    var step := (v: Weights) => RepairStep(p, v);
    var inv := (v: Weights) => Repairable(p, v) && IdleKept(p.order, w, v);
    var measure := (v: Weights) => Units(p.order, Excess(Caps(p), v));
    forall v | inv(v) && step(v).Some? ensures inv(step(v).value) && measure(step(v).value) < measure(v) {
      TurnMakesProgress(p, v);
    }
    hide Repairable, RepairStep, Fits, IdleKept;
    IterateStops(step, inv, measure, w, turns);
    StopFits(p, Repaired(p, w, turns));
  }

  lemma StopFits(p: Problem, w: Weights)
    requires p.required > 0.0 && Repairable(p, w) && RepairStep(p, w).None?
    ensures Fits(p, w)
  {
    RepairStops(p, w);
    if !Fits(p, w) {
      var k :| k in p.order && Over(p, w, k) > 0.0;
      var held := EngagedCaps(Caps(p), w);
      IdleIsNotOver(p, w, k);
      OverIsPastCap(p, w, k);
      UnitsBelowSomewhere(p.order, w, held);
      var roomy :| roomy in p.order && UnitsOf(w, roomy) < UnitsOf(held, roomy);
      OverIsPastCap(p, w, roomy);
      UnitPositive(p.required, p.scale);
    }
  }

  /** The repair loop, run for `scale` turns as the code runs it, ends in a split that fits
      and uses no device that was idle, exactly when a whole-unit split over the devices
      with work exists at that scale. */
  lemma RepairFitsIff(p: Problem, w: Weights)
    requires p.required > 0.0 && WellWeights(p.order, w)
    requires KnownWhereEngaged(p, w) && Units(p.order, w) == p.scale
    ensures SplitExists(p, w) <==> Settles(p, w, Repaired(p, w, p.scale))
  {
    var caps := Caps(p);
    var r := Repaired(p, w, p.scale);
    if SplitExists(p, w) {
      UnitsMono(p.order, Excess(caps, w), w);
      RepairReachesFit(p, w, p.scale);
    }
    if Settles(p, w, r) {
      RepairedConserves(p, w, p.scale);
      FittingSplitIsWithinCaps(p, w, r);
    }
  }

  lemma FittingSplitIsWithinCaps(p: Problem, w: Weights, r: Weights)
    requires p.required > 0.0 && WellWeights(p.order, w) && WellWeights(p.order, r)
    requires KnownWhereEngaged(p, w) && Settles(p, w, r)
    ensures Units(p.order, r) <= Units(p.order, EngagedCaps(Caps(p), w))
  {
    forall i | i in p.order ensures UnitsOf(r, i) <= UnitsOf(EngagedCaps(Caps(p), w), i) {
      if UnitsOf(w, i) > 0 {
        OverIsPastCap(p, r, i);
      }
    }
    UnitsMono(p.order, r, EngagedCaps(Caps(p), w));
  }

  lemma RepairedConserves(p: Problem, w: Weights, turns: nat)
    requires WellWeights(p.order, w)
    ensures WellWeights(p.order, Repaired(p, w, turns))
    ensures Units(p.order, Repaired(p, w, turns)) == Units(p.order, w)
  {
    var step := (v: Weights) => RepairStep(p, v);
    var inv := (v: Weights) => WellWeights(p.order, v) && Units(p.order, v) == Units(p.order, w);
    forall v | inv(v) && step(v).Some? ensures inv(step(v).value) {
      var _, _ := RepairStepMeaning(p, v);
    }
    IterateKeeps(step, inv, w, turns);
  }

  /** A split that already fits is left alone. */
  lemma FittingSplitIsKept(p: Problem, w: Weights, turns: nat)
    requires WellWeights(p.order, w) && Fits(p, w)
    ensures Repaired(p, w, turns) == w
  {
    if RepairStep(p, w).Some? {
      var worst, target := RepairStepMeaning(p, w);
      assert false;
    }
  }
}
