/** The placement policy (`budgets`, `propose` and `charge_projector` in
    scripts/gpu_placement.py). */
module PlacementPropose {
  import opened Common
  import opened PlacementSums
  import opened PlacementRounding
  import opened PlacementRepair
  import opened PlacementGcd
  import opened PlacementSplit
  import opened PlacementPlan

  datatype Card = Card(index: Device, total: Option<nat>, display: bool)

  datatype Row = Row(index: Device, total: Option<nat>, reserved: nat, budget: Option<nat>)

  /** config/gpu-placement.json, as far as the split depends on it. */
  datatype Policy = Policy(
    perDeviceReserve: nat, displayReserve: nat, minSlack: Option<nat>,
    prefer: seq<Device>, fallback: seq<Device>, equalSplit: bool, splitScale: nat)
  {
    function Margin(): nat {
      match minSlack case Some(m) => m case None => perDeviceReserve
    }

    /** What `load_policy` insists on. */
    predicate Loaded() {
      prefer != [] && splitScale >= 1 && forall i :: i in prefer ==> i !in fallback
    }
  }

  function BudgetRow(card: Card, policy: Policy): Row {
    var reserve := policy.perDeviceReserve + if card.display then policy.displayReserve else 0;
    Row(card.index, card.total, reserve,
        match card.total
        case None => None
        case Some(total) => Some(if total > reserve then total - reserve else 0))
  }

  method Budgets(devices: seq<Card>, policy: Policy) returns (rows: seq<Row>)
    ensures |rows| == |devices|
    ensures forall k :: 0 <= k < |rows| ==> rows[k] == BudgetRow(devices[k], policy)
    // The reserve is withheld as far as there is anything, and a display costs its own on top.
    ensures forall k :: 0 <= k < |rows| ==>
              && rows[k].index == devices[k].index && rows[k].total == devices[k].total
              && (!devices[k].display ==> rows[k].reserved == policy.perDeviceReserve)
              && (devices[k].display ==> rows[k].reserved == policy.perDeviceReserve + policy.displayReserve)
              && (rows[k].budget.Some? <==> devices[k].total.Some?)
              && (rows[k].budget.Some? && rows[k].budget.value > 0 ==>
                    rows[k].budget.value + rows[k].reserved == devices[k].total.value)
              && (rows[k].budget == Some(0) <==> devices[k].total.Some? && devices[k].total.value <= rows[k].reserved)
  {
    rows := [];
    for k := 0 to |devices|
      invariant |rows| == k && forall j :: 0 <= j < k ==> rows[j] == BudgetRow(devices[j], policy)
    {
      rows := rows + [BudgetRow(devices[k], policy)];
    }
  }

  datatype Rule = Single(device: Device) | Preferred | Equal | Filled

  function Indices(rows: seq<Row>): seq<Device> {
    seq(|rows|, k requires 0 <= k < |rows| => rows[k].index)
  }

  function BudgetMap(rows: seq<Row>): Budgets {
    if rows == [] then map[]
    else BudgetMap(rows[..|rows| - 1])[rows[|rows| - 1].index := rows[|rows| - 1].budget]
  }

  lemma {:induction false} BudgetMapOf(rows: seq<Row>, k: nat)
    requires Distinct(Indices(rows)) && k < |rows|
    ensures rows[k].index in BudgetMap(rows) && BudgetMap(rows)[rows[k].index] == rows[k].budget
  {
    var last := |rows| - 1;
    if k < last {
      assert Indices(rows[..last]) == Indices(rows)[..last];
      BudgetMapOf(rows[..last], k);
      assert Indices(rows)[k] != Indices(rows)[last];
    }
  }

  /** `next((i for i in candidates if required <= headroom[i]), None)` */
  function FirstFitting(candidates: seq<Device>, headroom: map<Device, nat>, required: nat): Option<Device> {
    if candidates == [] then None
    else if required <= UnitsOf(headroom, candidates[0]) then Some(candidates[0])
    else FirstFitting(candidates[1..], headroom, required)
  }

  lemma {:induction false} FirstFittingMeaning(candidates: seq<Device>, headroom: map<Device, nat>, required: nat)
    ensures var d := FirstFitting(candidates, headroom, required);
            && (d.Some? ==> d.value in candidates && required <= UnitsOf(headroom, d.value))
            && (d.None? ==> forall i :: i in candidates ==> required > UnitsOf(headroom, i))
  {
    if candidates != [] {
      FirstFittingMeaning(candidates[1..], headroom, required);
    }
  }

  /** The first in the list that holds the model, whoever comes later. */
  ghost predicate FirstThatHolds(candidates: seq<Device>, headroom: map<Device, nat>, required: nat, d: Device) {
    exists k ::
      && 0 <= k < |candidates| && candidates[k] == d && required <= UnitsOf(headroom, d)
      && forall j :: 0 <= j < k ==> required > UnitsOf(headroom, candidates[j])
  }

  lemma {:induction false} FirstFittingIsFirst(candidates: seq<Device>, headroom: map<Device, nat>, required: nat)
    ensures forall d :: FirstFitting(candidates, headroom, required) == Some(d) <==> FirstThatHolds(candidates, headroom, required, d)
  {
    if candidates != [] {
      var first, rest := candidates[0], candidates[1..];
      FirstFittingIsFirst(rest, headroom, required);
      forall d ensures FirstFitting(candidates, headroom, required) == Some(d) <==> FirstThatHolds(candidates, headroom, required, d) {
        if required <= UnitsOf(headroom, first) {
          if FirstThatHolds(candidates, headroom, required, d) {
            var k :| 0 <= k < |candidates| && candidates[k] == d && required <= UnitsOf(headroom, d) &&
              forall j :: 0 <= j < k ==> required > UnitsOf(headroom, candidates[j]);
            assert k == 0;
          }
        } else {
          FirstOfRest(candidates, headroom, required, d);
        }
      }
    }
  }

  lemma FirstOfRest(candidates: seq<Device>, headroom: map<Device, nat>, required: nat, d: Device)
    requires candidates != [] && required > UnitsOf(headroom, candidates[0])
    ensures FirstThatHolds(candidates, headroom, required, d) <==> FirstThatHolds(candidates[1..], headroom, required, d)
  {
    var rest := candidates[1..];
    if FirstThatHolds(candidates, headroom, required, d) {
      var k :| 0 <= k < |candidates| && candidates[k] == d && required <= UnitsOf(headroom, d) &&
        forall j :: 0 <= j < k ==> required > UnitsOf(headroom, candidates[j]);
      assert rest[k - 1] == d && forall j :: 0 <= j < k - 1 ==> rest[j] == candidates[j + 1];
    }
    if FirstThatHolds(rest, headroom, required, d) {
      var k :| 0 <= k < |rest| && rest[k] == d && required <= UnitsOf(headroom, d) &&
        forall j :: 0 <= j < k ==> required > UnitsOf(headroom, rest[j]);
      assert candidates[k + 1] == d;
      forall j | 0 <= j < k + 1 ensures required > UnitsOf(headroom, candidates[j]) {
        assert j > 0 ==> candidates[j] == rest[j - 1];
      }
    }
  }

  /** `whole / of`, or nothing when there is nothing to divide by. */
  function Ratio(whole: nat, of: nat): (r: real)
    ensures of > 0 ==> r * of as real == whole as real
    ensures r >= 0.0 && (whole <= of ==> r <= 1.0)
  {
    if of == 0 then 0.0 else whole as real / of as real
  }

  /** What the rules look at, gathered once: the devices in order and the usable ones, the
      working headroom, the usable preferred devices, and the usable devices after them. */
  datatype Setting = Setting(
    required: nat, order: seq<Device>, usable: seq<Device>, headroom: map<Device, nat>,
    prefer: seq<Device>, spill: seq<Device>, equalSplit: bool)
  {
    /** Summed over the list as written: a device listed twice counts twice. */
    function PreferRoom(): nat { Units(prefer, headroom) }

    function SpillRoom(): nat { Units(spill, headroom) }

    function EqualShare(): real {
      if order == [] then 0.0 else required as real / |order| as real
    }

    predicate EqualSplitFits() {
      && equalSplit && |usable| == |order|
      && forall i :: i in usable ==> EqualShare() <= UnitsOf(headroom, i) as real
    }

    /** The first rule that applies, in the order the policy gives them. */
    function Rule(): Rule {
      match FirstFitting(if prefer != [] then prefer else spill, headroom, required)
      case Some(device) => Single(device)
      case None =>
        if prefer != [] && required <= PreferRoom() then Preferred
        else if EqualSplitFits() then Equal
        else Filled
    }

    function Remainder(): nat {
      if required > PreferRoom() then required - PreferRoom() else 0
    }

    function Shares(): map<Device, real> {
      match Rule()
      case Single(device) => map[device := required as real]
      case Preferred => Portions(prefer, headroom, Ratio(required, PreferRoom()))
      case Equal => map i | i in order :: EqualShare()
      case Filled =>
        Portions(prefer, headroom, 1.0) + Portions(spill, headroom, Ratio(Remainder(), SpillRoom()))
    }

    /** Whether the plan keeps every device inside its headroom, as a check on lists and sizes. A
        group that repeats a device must do with the headroom it really has; when the preferred
        devices are filled, no device with headroom may be repeated at all. */
    predicate WithinHeadroom() {
      match Rule()
      case Preferred => required <= Units(order, Held(prefer, headroom))
      case Filled =>
        if PreferRoom() == 0 then required <= Units(order, Held(spill, headroom))
        else required <= PreferRoom() + SpillRoom() && NoRepeat(prefer, headroom) && NoRepeat(spill, headroom)
      case _ => true
    }
  }

  /** No device with working headroom is listed twice. */
  predicate NoRepeat(devices: seq<Device>, headroom: map<Device, nat>) {
    forall i, j :: 0 <= i < j < |devices| && devices[i] == devices[j] ==> UnitsOf(headroom, devices[i]) == 0
  }

  /** The headroom of a group, each device once. */
  function Held(devices: seq<Device>, headroom: map<Device, nat>): map<Device, nat> {
    map i | i in devices :: UnitsOf(headroom, i)
  }

  /** Each device of a group takes the same fraction of its headroom: `whole * headroom[i] /
      room` in the code, with the fraction `whole / room` named. */
  function Portions(devices: seq<Device>, headroom: map<Device, nat>, fraction: real): map<Device, real> {
    map i | i in devices :: fraction * UnitsOf(headroom, i) as real
  }

  /** One call of `propose` with a known size. */
  datatype Request = Request(required: nat, rows: seq<Row>, policy: Policy, pinned: map<Device, nat>) {
    function Order(): seq<Device> { Indices(rows) }

    function Budget(): Budgets { BudgetMap(rows) }

    /** Devices that report a budget of at least a byte. */
    function Usable(): seq<Device> {
      Filter(Order(), set i | i in Order() && BudgetOf(Budget(), i) > 0)
    }

    function HeadroomOf(i: Device): nat {
      var kept := policy.Margin() + UnitsOf(pinned, i);
      if BudgetOf(Budget(), i) > kept then BudgetOf(Budget(), i) - kept else 0
    }

    function Gathered(): Setting {
      var usable := Usable();
      var prefer := Filter(policy.prefer, set i | i in usable);
      var fallback := Filter(policy.fallback, set i | i in usable);
      var rest := Filter(usable, set i | i in usable && i !in prefer && i !in fallback);
      Setting(required, Order(), usable, map i | i in usable :: HeadroomOf(i),
                      prefer, fallback + rest, policy.equalSplit)
    }

    /** Rows name each device once, and there is something to place on. */
    ghost predicate Placeable() {
      Distinct(Order()) && Usable() != [] && policy.splitScale >= 1
    }

    function Problem(): Problem
      requires Placeable()
    {
      FilterMeaning(Order(), set i | i in Order() && BudgetOf(Budget(), i) > 0);
      assert Usable()[0] in Usable();
      SplitProblem(Order(), Budget(), required as real, policy.splitScale)
    }
  }

  // --- arithmetic of shares ----------------------------------------------------

  lemma {:induction false} SumOfUnits(order: seq<Device>, w: map<Device, nat>)
    ensures Sum(order, AsReals(w)) == Units(order, w) as real
  {
    if order != [] {
      SumOfUnits(order[1..], w);
    }
  }

  lemma Distribute(c: real, a: nat, b: nat)
    ensures c * (a + b) as real == c * a as real + c * b as real
  {
  }

  lemma RatioMeaning(whole: nat, of: nat)
    requires whole <= of
    ensures 0.0 <= Ratio(whole, of) <= 1.0 && Ratio(whole, of) * of as real == whole as real
  {
  }

  lemma EqualParts(order: seq<Device>, f: map<Device, real>, share: real, whole: nat)
    requires order != [] && share == whole as real / |order| as real
    requires forall i :: i in order ==> ShareOf(f, i) == share
    ensures share >= 0.0 && Sum(order, f) == whole as real
  {
    Evenly(whole, |order|);
    SumConstant(order, f, share);
  }

  lemma Evenly(whole: nat, n: nat)
    requires n > 0
    ensures whole as real / n as real >= 0.0 && whole as real / n as real * n as real == whole as real
  {
  }

  lemma {:induction false} SumConstant(order: seq<Device>, f: map<Device, real>, c: real)
    requires forall i :: i in order ==> ShareOf(f, i) == c
    ensures Sum(order, f) == c * |order| as real
  {
    if order != [] {
      SumConstant(order[1..], f, c);
      Distribute(c, 1, |order[1..]|);
    }
  }

  lemma SettingSharesAreWell(s: Setting)
    requires Distinct(s.order)
    requires forall i :: i in s.prefer ==> i in s.order
    requires forall i :: i in s.spill ==> i in s.order
    ensures WellShares(s.Shares(), s.order)
  {
    hide FirstFitting, Portions, Ratio, Units;
    FirstFittingMeaning(if s.prefer != [] then s.prefer else s.spill, s.headroom, s.required);
    match s.Rule()
    case Single(_) =>
    case Preferred => PortionsWell(s.prefer, s.headroom, Ratio(s.required, s.PreferRoom()));
    case Equal =>
    case Filled =>
      PortionsWell(s.prefer, s.headroom, 1.0);
      PortionsWell(s.spill, s.headroom, Ratio(s.Remainder(), s.SpillRoom()));
  }

  lemma PortionsWell(devices: seq<Device>, headroom: map<Device, nat>, fraction: real)
    requires fraction >= 0.0
    ensures forall i :: i in Portions(devices, headroom, fraction) ==>
              i in devices && Portions(devices, headroom, fraction)[i] >= 0.0
  {
    forall i | i in devices ensures fraction * UnitsOf(headroom, i) as real >= 0.0 {
    }
  }
}
