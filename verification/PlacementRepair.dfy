/** The two repairs `_integerise` makes to a rounded split (scripts/gpu_placement.py): a
    device with a share must keep a unit, and whole units leave devices that the rounding
    pushed over their budget. */
module PlacementRepair {
  import opened Common
  import opened PlacementSums

  type Weights = map<Device, nat>
  type Budgets = map<Device, Option<nat>>

  /** A split to repair: `order`, `budget`, `required` and `scale` of `_integerise`. */
  datatype SplitProblem = SplitProblem(order: seq<Device>, budget: Budgets, required: real, scale: nat)

  type Problem = p: SplitProblem | Distinct(p.order) && p.order != [] && p.scale > 0
    witness SplitProblem([0], map[], 0.0, 1)

  /** A split in progress: one weight for each listed device. */
  ghost predicate WellWeights(order: seq<Device>, w: Weights) {
    Distinct(order) && order != [] && forall i :: i in w <==> i in order
  }

  function Filter(order: seq<Device>, keep: set<Device>): seq<Device> {
    if order == [] then []
    else if order[0] in keep then [order[0]] + Filter(order[1..], keep)
    else Filter(order[1..], keep)
  }

  lemma {:induction false} FilterMeaning(order: seq<Device>, keep: set<Device>)
    ensures forall i :: i in Filter(order, keep) <==> i in order && i in keep
  {
    if order != [] {
      FilterMeaning(order[1..], keep);
    }
  }

  lemma {:induction false} FilterWhole(order: seq<Device>, keep: set<Device>)
    requires forall k :: 0 <= k < |order| ==> order[k] in keep
    ensures Filter(order, keep) == order
  {
    if order != [] {
      FilterWhole(order[1..], keep);
    }
  }

  lemma {:induction false} FilterNone(order: seq<Device>, keep: set<Device>)
    requires forall k :: 0 <= k < |order| ==> order[k] !in keep
    ensures Filter(order, keep) == []
  {
    if order != [] {
      FilterNone(order[1..], keep);
    }
  }

  /** It stands in the list, and every member of `keep` before it has a larger key. */
  ghost predicate BeforeEqual(list: seq<Device>, keep: set<Device>, key: map<Device, real>, d: Device) {
    exists k :: 0 <= k < |list| && list[k] == d && LargerUpTo(list, keep, key, d, k)
  }

  ghost predicate LargerUpTo(list: seq<Device>, keep: set<Device>, key: map<Device, real>, d: Device, k: int)
    requires k <= |list|
  {
    forall j :: 0 <= j < k && list[j] in keep ==> ShareOf(key, d) < ShareOf(key, list[j])
  }

  /** Of the members of `keep`, in the order of the list, the first that has the least key. */
  ghost predicate FirstLeast(list: seq<Device>, keep: set<Device>, key: map<Device, real>, d: Device) {
    && d in keep && BeforeEqual(list, keep, key, d)
    && (forall i :: i in list && i in keep ==> ShareOf(key, d) <= ShareOf(key, i))
  }

  /** The first that has the most. */
  ghost predicate FirstMost(list: seq<Device>, key: map<Device, real>, d: Device) {
    && (exists k :: 0 <= k < |list| && list[k] == d && SmallerUpTo(list, key, d, k))
    && (forall i :: i in list ==> ShareOf(key, i) <= ShareOf(key, d))
  }

  ghost predicate SmallerUpTo(list: seq<Device>, key: map<Device, real>, d: Device, k: int)
    requires k <= |list|
  {
    forall j :: 0 <= j < k ==> ShareOf(key, list[j]) < ShareOf(key, d)
  }

  lemma BeforeEqualCons(x: Device, rest: seq<Device>, keep: set<Device>, key: map<Device, real>, d: Device)
    ensures BeforeEqual([x] + rest, keep, key, d) <==>
              x == d || ((x in keep ==> ShareOf(key, d) < ShareOf(key, x)) && BeforeEqual(rest, keep, key, d))
  {
    var all := [x] + rest;
    if k :| 0 <= k < |all| && all[k] == d && LargerUpTo(all, keep, key, d, k) {
      if k > 0 {
        assert all[0] == x && rest[k - 1] == d;
        forall j | 0 <= j < k - 1 && rest[j] in keep ensures ShareOf(key, d) < ShareOf(key, rest[j]) {
          assert all[j + 1] == rest[j];
        }
        assert LargerUpTo(rest, keep, key, d, k - 1);
      }
    }
    if x == d {
      assert all[0] == d && LargerUpTo(all, keep, key, d, 0);
    }
    if k :| 0 <= k < |rest| && rest[k] == d && LargerUpTo(rest, keep, key, d, k) {
      if x in keep ==> ShareOf(key, d) < ShareOf(key, x) {
        assert all[k + 1] == d && LargerUpTo(all, keep, key, d, k + 1);
      }
    }
  }

  /** Filtering a list keeps its order. */
  lemma {:induction false} FilterKeepsOrder(order: seq<Device>, keep: set<Device>, also: set<Device>, key: map<Device, real>, d: Device)
    requires d in keep
    ensures BeforeEqual(Filter(order, keep), also, key, d) <==> BeforeEqual(order, keep * also, key, d)
  {
    if order != [] {
      var x, rest := order[0], order[1..];
      assert order == [x] + rest;
      FilterKeepsOrder(rest, keep, also, key, d);
      BeforeEqualCons(x, rest, keep * also, key, d);
      BeforeEqualCons(x, Filter(rest, keep), also, key, d);
    }
  }

  lemma FilterFirstLeast(order: seq<Device>, keep: set<Device>, also: set<Device>, key: map<Device, real>, d: Device)
    requires FirstLeast(Filter(order, keep), also, key, d)
    ensures FirstLeast(order, keep * also, key, d)
  {
    FilterMeaning(order, keep);
    FilterKeepsOrder(order, keep, also, key, d);
  }

  /** Python's `max(order, key=...)`: the first of the largest. */
  function MaxBy(order: seq<Device>, key: map<Device, real>): Device
    requires order != []
  {
    var last := order[|order| - 1];
    if |order| == 1 then last
    else
      var m := MaxBy(order[..|order| - 1], key);
      if ShareOf(key, last) > ShareOf(key, m) then last else m
  }

  lemma {:induction false} MaxByMeaning(order: seq<Device>, key: map<Device, real>)
    requires order != []
    ensures MaxBy(order, key) in order && FirstMost(order, key, MaxBy(order, key))
    ensures forall i :: i in order ==> ShareOf(key, i) <= ShareOf(key, MaxBy(order, key))
  {
    var front, last := order[..|order| - 1], order[|order| - 1];
    assert order == front + [last];
    if |order| > 1 {
      MaxByMeaning(front, key);
      var d := MaxBy(front, key);
      if ShareOf(key, last) > ShareOf(key, d) {
        forall j | 0 <= j < |front| ensures ShareOf(key, order[j]) < ShareOf(key, last) {
          assert order[j] == front[j] && front[j] in front;
        }
        assert SmallerUpTo(order, key, last, |front|);
      } else {
        var k :| 0 <= k < |front| && front[k] == d && SmallerUpTo(front, key, d, k);
        assert order[k] == d;
        assert SmallerUpTo(order, key, d, k) by {
          assert forall j :: 0 <= j < k ==> order[j] == front[j];
        }
      }
    } else {
      assert SmallerUpTo(order, key, last, 0);
    }
  }

  /** Python's `min(order, key=...)`: the first of the smallest. */
  function MinBy(order: seq<Device>, key: map<Device, real>): Device
    requires order != []
  {
    var last := order[|order| - 1];
    if |order| == 1 then last
    else
      var m := MinBy(order[..|order| - 1], key);
      if ShareOf(key, last) < ShareOf(key, m) then last else m
  }

  lemma {:induction false} MinByMeaning(order: seq<Device>, key: map<Device, real>)
    requires order != []
    ensures MinBy(order, key) in order
    ensures forall keep: set<Device> :: (forall i :: i in order ==> i in keep) ==> FirstLeast(order, keep, key, MinBy(order, key))
    ensures forall i :: i in order ==> ShareOf(key, MinBy(order, key)) <= ShareOf(key, i)
  {
    FirstOfLeast(order, key);
    forall keep: set<Device> | forall i :: i in order ==> i in keep ensures FirstLeast(order, keep, key, MinBy(order, key)) {
      var d := MinBy(order, key);
      var k :| 0 <= k < |order| && order[k] == d && forall j :: 0 <= j < k ==> ShareOf(key, d) < ShareOf(key, order[j]);
      assert LargerUpTo(order, keep, key, d, k);
    }
  }

  lemma {:induction false} FirstOfLeast(order: seq<Device>, key: map<Device, real>)
    requires order != []
    ensures var d := MinBy(order, key);
            && (exists k :: 0 <= k < |order| && order[k] == d && forall j :: 0 <= j < k ==> ShareOf(key, d) < ShareOf(key, order[j]))
            && (forall i :: i in order ==> ShareOf(key, d) <= ShareOf(key, i))
  {
    var front, last := order[..|order| - 1], order[|order| - 1];
    assert order == front + [last];
    if |order| > 1 {
      FirstOfLeast(front, key);
      var d := MinBy(front, key);
      var k :| 0 <= k < |front| && front[k] == d && forall j :: 0 <= j < k ==> ShareOf(key, d) < ShareOf(key, front[j]);
      assert order[k] == d && forall j :: 0 <= j < k ==> order[j] == front[j];
      assert forall j :: 0 <= j < |front| ==> order[j] in front;
    }
  }

  // --- bytes and units -------------------------------------------------------

  /** The bytes one unit of the scale stands for. */
  function Unit(required: real, scale: nat): real
    requires scale > 0
  {
    required / scale as real
  }

  /** `required * weight / scale` */
  function Bytes(required: real, weight: nat, scale: nat): real
    requires scale > 0
  {
    required * weight as real / scale as real
  }

  lemma BytesAreUnits(required: real, weight: nat, scale: nat)
    requires scale > 0
    ensures Bytes(required, weight, scale) == Unit(required, scale) * weight as real
    ensures Bytes(required, weight + 1, scale) == Bytes(required, weight, scale) + Unit(required, scale)
  {
    var r, n, d := required, weight as real, scale as real;
    assert (r * n) / d == (r / d) * n;
    assert r * (n + 1.0) == r * n + r;
    assert (r * n + r) / d == (r * n) / d + r / d;
  }

  lemma UnitPositive(required: real, scale: nat)
    requires scale > 0 && required > 0.0
    ensures Unit(required, scale) > 0.0
  {
  }

  /** The most units a device can hold within `room` bytes. */
  function Cap(room: nat, required: real, scale: nat): nat
    requires scale > 0 && required > 0.0
  {
    UnitPositive(required, scale);
    var c := (room as real / Unit(required, scale)).Floor;
    assert room as real / Unit(required, scale) >= 0.0;
    c
  }

  lemma CapMeaning(room: nat, required: real, scale: nat, weight: nat)
    requires scale > 0 && required > 0.0
    ensures Bytes(required, weight, scale) <= room as real <==> weight <= Cap(room, required, scale)
    ensures weight < Cap(room, required, scale) ==>
              Bytes(required, weight, scale) - room as real <= -Unit(required, scale)
  {
    BytesAreUnits(required, weight, scale);
    UnitPositive(required, scale);
    ScaledFloor(Unit(required, scale), weight, room as real);
    if weight < Cap(room, required, scale) {
      ScaledFloor(Unit(required, scale), weight + 1, room as real);
      BytesAreUnits(required, weight + 1, scale);
    }
  }

  lemma ScaledFloor(u: real, weight: nat, room: real)
    requires u > 0.0 && room >= 0.0
    ensures u * weight as real <= room <==> weight <= (room / u).Floor
  {
    var q := room / u;
    assert q * u == room;
    var n := weight as real;
    if n <= q { assert n * u <= q * u; }
    if n > q { assert n * u > q * u; }
    assert weight <= q.Floor <==> n <= q;
  }

  /** `budget.get(index) or 0` */
  function BudgetOf(budget: Budgets, i: Device): nat {
    match if i in budget then budget[i] else None
    case None => 0
    case Some(room) => room
  }

  /** Bytes past a device's budget; a device of unknown budget is never over nor under. */
  function Over(p: Problem, w: Weights, i: Device): real
  {
    match if i in p.budget then p.budget[i] else None
    case None => 0.0
    case Some(room) => Bytes(p.required, UnitsOf(w, i), p.scale) - room as real
  }

  function OverMap(p: Problem, w: Weights): map<Device, real>
  {
    map i | i in p.order :: Over(p, w, i)
  }

  ghost predicate Fits(p: Problem, w: Weights)
  {
    forall i :: i in p.order ==> Over(p, w, i) <= 0.0
  }

  // --- rescue: a share must not round away to nothing ------------------------

  function AsReals(w: Weights): map<Device, real> {
    map i | i in w :: w[i] as real
  }

  function MoveUnit(w: Weights, from: Device, to: Device): Weights
    requires UnitsOf(w, from) > 0
  {
    var v := w[from := UnitsOf(w, from) - 1];
    v[to := UnitsOf(v, to) + 1]
  }

  function RescueOne(order: seq<Device>, shares: map<Device, real>, w: Weights, index: Device): Weights
    requires order != []
  {
    if UnitsOf(w, index) == 0 && ShareOf(shares, index) > 0.0 then
      var donor := MaxBy(order, AsReals(w));
      if UnitsOf(w, donor) > 1 then MoveUnit(w, donor, index) else w
    else w
  }

  /** The rescue pass over the first `n` devices. */
  function Rescued(order: seq<Device>, shares: map<Device, real>, w: Weights, n: nat): Weights
    requires n <= |order|
  {
    if n == 0 then w else RescueOne(order, shares, Rescued(order, shares, w, n - 1), order[n - 1])
  }

  lemma MoveUnitConserves(order: seq<Device>, w: Weights, from: Device, to: Device)
    requires WellWeights(order, w) && from in order && to in order && w[from] > 0
    ensures WellWeights(order, MoveUnit(w, from, to))
    ensures Units(order, MoveUnit(w, from, to)) == Units(order, w)
  {
    var v := w[from := w[from] - 1];
    UnitsUpdate(order, w, from, w[from] - 1);
    UnitsUpdate(order, v, to, v[to] + 1);
  }

  /** Where a rescue can leave a weight: unchanged; lowered but still positive; or raised
      from nothing to one unit, for a device that has a share. */
  ghost predicate RescuedFrom(shares: map<Device, real>, w: Weights, r: Weights, i: Device)
    requires i in w && i in r
  {
    || r[i] == w[i]
    || 1 <= r[i] < w[i]
    || (w[i] == 0 && r[i] == 1 && ShareOf(shares, i) > 0.0)
  }

  lemma FirstMostIsOne(order: seq<Device>, key: map<Device, real>, d: Device, e: Device)
    requires FirstMost(order, key, d) && FirstMost(order, key, e)
    ensures d == e
  {
    var k :| 0 <= k < |order| && order[k] == d && SmallerUpTo(order, key, d, k);
    var l :| 0 <= l < |order| && order[l] == e && SmallerUpTo(order, key, e, l);
    assert d in order && e in order;
  }

  /** One device of the rescue: a unit for it, if it has a share and no unit, from the first of the
      devices with most units, if that has one to spare. */
  lemma RescueTakes(order: seq<Device>, shares: map<Device, real>, w: Weights, index: Device, donor: Device)
    requires WellWeights(order, w) && index in order && FirstMost(order, AsReals(w), donor)
    ensures donor in w
    ensures RescueOne(order, shares, w, index) ==
              if w[index] == 0 && ShareOf(shares, index) > 0.0 && w[donor] > 1
              then w[donor := (w[donor] - 1) as nat][index := 1]
              else w
  {
    MaxByMeaning(order, AsReals(w));
    FirstMostIsOne(order, AsReals(w), donor, MaxBy(order, AsReals(w)));
  }

  lemma RescueOneMeaning(order: seq<Device>, shares: map<Device, real>, w: Weights, index: Device)
    requires WellWeights(order, w) && index in order
    ensures var r := RescueOne(order, shares, w, index);
            && WellWeights(order, r)
            && Units(order, r) == Units(order, w)
            && (forall i :: i in order ==> RescuedFrom(shares, w, r, i))
            && (Units(order, w) > |order| && ShareOf(shares, index) > 0.0 ==> r[index] > 0)
  {
    if w[index] == 0 && ShareOf(shares, index) > 0.0 {
      var donor := MaxBy(order, AsReals(w));
      MaxByMeaning(order, AsReals(w));
      if w[donor] > 1 {
        MoveUnitConserves(order, w, donor, index);
      } else {
        forall k | k in order ensures UnitsOf(w, k) <= 1 {
          assert ShareOf(AsReals(w), k) <= ShareOf(AsReals(w), donor);
        }
        if Units(order, w) > |order| {
          UnitsPigeonhole(order, w);
        }
      }
    }
  }

  lemma {:induction false} RescuedMeaning(order: seq<Device>, shares: map<Device, real>, w: Weights, n: nat)
    requires WellWeights(order, w) && n <= |order|
    ensures var r := Rescued(order, shares, w, n);
            && WellWeights(order, r)
            && Units(order, r) == Units(order, w)
            && (forall i :: i in order ==> RescuedFrom(shares, w, r, i))
            && (Units(order, w) > |order| ==>
                  forall k :: 0 <= k < n && ShareOf(shares, order[k]) > 0.0 ==> r[order[k]] > 0)
  {
    if n > 0 {
      RescuedMeaning(order, shares, w, n - 1);
      var before, r := Rescued(order, shares, w, n - 1), Rescued(order, shares, w, n);
      RescueOneMeaning(order, shares, before, order[n - 1]);
      hide RescueOne, FirstMost, MoveUnit;
      forall i | i in order ensures RescuedFrom(shares, w, r, i) && (before[i] > 0 ==> r[i] > 0) {
        assert RescuedFrom(shares, w, before, i) && RescuedFrom(shares, before, r, i);
      }
    }
  }

  // --- repair: whole units off a device past its budget ----------------------

  /** One turn of the repair loop; `None` is a `break`. */
  function RepairStep(p: Problem, w: Weights): Option<Weights> {
    match Move(p, w)
    case None => None
    case Some((worst, target)) => Some(MoveUnit(w, worst, target))
  }

  /** The donor and the receiver of one turn, or none when the loop breaks. */
  function Move(p: Problem, w: Weights): (m: Option<(Device, Device)>)
    ensures m.Some? ==> UnitsOf(w, m.value.0) > 0
  {
    var over := OverMap(p, w);
    var worst := MaxBy(p.order, over);
    if ShareOf(over, worst) <= 0.0 || UnitsOf(w, worst) == 0 then None
    else
      var candidates := Candidates(p.order, over, w, worst);
      if candidates == [] then None else Some((worst, MinBy(candidates, over)))
  }

  function Receivers(order: seq<Device>, over: map<Device, real>, worst: Device): seq<Device> {
    Filter(order, set i | i in order && i != worst && ShareOf(over, i) < 0.0)
  }

  /** Devices under budget, narrowed to those already given work when there are any. */
  function Candidates(order: seq<Device>, over: map<Device, real>, w: Weights, worst: Device): seq<Device> {
    var receivers := Receivers(order, over, worst);
    var engaged := Filter(receivers, set i | i in receivers && UnitsOf(w, i) > 0);
    if engaged != [] then engaged else receivers
  }

  function Repaired(p: Problem, w: Weights, turns: nat): Weights {
    Iterate((v: Weights) => RepairStep(p, v), w, turns)
  }

  lemma CandidatesMeaning(order: seq<Device>, over: map<Device, real>, w: Weights, worst: Device)
    ensures var c := Candidates(order, over, w, worst);
            && (forall i :: i in c ==> i in order && i != worst && ShareOf(over, i) < 0.0)
            && (forall i :: i in c && UnitsOf(w, i) == 0 ==>
                  forall j :: j in order && j != worst && ShareOf(over, j) < 0.0 ==> UnitsOf(w, j) == 0)
            && (forall i, j ::
                  i in c && UnitsOf(w, i) > 0 && j in order && j != worst && ShareOf(over, j) < 0.0 && UnitsOf(w, j) > 0 ==> j in c)
            && (c == [] ==> forall i :: i in order && i != worst ==> ShareOf(over, i) >= 0.0)
  {
    var receivers := Receivers(order, over, worst);
    FilterMeaning(order, set i | i in order && i != worst && ShareOf(over, i) < 0.0);
    FilterMeaning(receivers, set i | i in receivers && UnitsOf(w, i) > 0);
    var engaged := Filter(receivers, set i | i in receivers && UnitsOf(w, i) > 0);
    if engaged == [] {
      forall i | i in receivers ensures UnitsOf(w, i) == 0 {
        assert i !in engaged;
      }
    }
    if receivers == [] {
      forall i | i in order && i != worst ensures ShareOf(over, i) >= 0.0 {
        assert i !in receivers;
      }
    }
  }

  ghost function Under(order: seq<Device>, over: map<Device, real>, worst: Device): set<Device> {
    set i | i in order && i != worst && ShareOf(over, i) < 0.0
  }

  ghost function AtWork(w: Weights, devices: set<Device>): set<Device> { set i | i in devices && UnitsOf(w, i) > 0 }

  /** Who may receive: those under budget, and of those the ones at work, if there are any. */
  ghost function Eligible(order: seq<Device>, over: map<Device, real>, w: Weights, worst: Device): set<Device> {
    var under := Under(order, over, worst);
    if AtWork(w, under) != {} then AtWork(w, under) else under
  }

  lemma FirstOfFiltered(order: seq<Device>, keep: set<Device>, key: map<Device, real>)
    requires Filter(order, keep) != []
    ensures FirstLeast(order, keep, key, MinBy(Filter(order, keep), key))
  {
    var d := MinBy(Filter(order, keep), key);
    MinByMeaning(Filter(order, keep), key);
    FilterMeaning(order, keep);
    FilterFirstLeast(order, keep, keep, key, d);
    assert keep * keep == keep;
  }

  lemma {:induction false} FilterTwice(order: seq<Device>, keep: set<Device>, also: set<Device>)
    ensures Filter(Filter(order, keep), also) == Filter(order, keep * also)
  {
    if order != [] {
      FilterTwice(order[1..], keep, also);
    }
  }

  lemma TargetIsFirst(order: seq<Device>, over: map<Device, real>, w: Weights, worst: Device)
    requires Candidates(order, over, w, worst) != []
    ensures FirstLeast(order, Eligible(order, over, w, worst), over, MinBy(Candidates(order, over, w, worst), over))
  {
    var under, receivers := Under(order, over, worst), Receivers(order, over, worst);
    assert receivers == Filter(order, under);
    FilterMeaning(order, under);
    var engaged := set i | i in receivers && UnitsOf(w, i) > 0;
    assert engaged == AtWork(w, under) == under * AtWork(w, under);
    FilterTwice(order, under, engaged);
    FilterMeaning(order, engaged);
    hide FirstLeast, MinBy;
    if AtWork(w, under) != {} {
      var i :| i in AtWork(w, under);
      assert i in Filter(order, engaged);
    } else {
      FilterNone(order, engaged);
    }
    FirstOfFiltered(order, Eligible(order, over, w, worst), over);
  }

  /** The two devices a turn would use: the first of those furthest over, and the first of the eligible
      with most room. */
  ghost predicate Moves(p: Problem, w: Weights, worst: Device, target: Device) {
    && worst in p.order && target in p.order && worst != target
    && UnitsOf(w, worst) > 0
    && RepairStep(p, w) == Some(MoveUnit(w, worst, target))
    && Over(p, w, worst) > 0.0 > Over(p, w, target)
    && FirstMost(p.order, OverMap(p, w), worst)
    && FirstLeast(p.order, Eligible(p.order, OverMap(p, w), w, worst), OverMap(p, w), target)
    && (forall i :: i in p.order ==> Over(p, w, i) <= Over(p, w, worst))
    // An idle device is reached for only when no device at work is under budget.
    && (UnitsOf(w, target) == 0 ==> forall i :: i in p.order && UnitsOf(w, i) > 0 ==> Over(p, w, i) >= 0.0)
    && (UnitsOf(w, target) > 0 ==> forall i :: i in p.order && UnitsOf(w, i) > 0 ==> Over(p, w, target) <= Over(p, w, i))
  }

  lemma OverMapOf(p: Problem, w: Weights, i: Device)
    requires i in p.order
    ensures ShareOf(OverMap(p, w), i) == Over(p, w, i)
  {
  }

  /** A turn moves one unit from the device furthest over budget to one under budget,
      conserves the scale, and wakes an idle device only when no working one has room. */
  lemma RepairStepMeaning(p: Problem, w: Weights) returns (worst: Device, target: Device)
    requires WellWeights(p.order, w) && RepairStep(p, w).Some?
    ensures Moves(p, w, worst, target)
    ensures WellWeights(p.order, RepairStep(p, w).value)
    ensures Units(p.order, RepairStep(p, w).value) == Units(p.order, w)
  {
    var over := OverMap(p, w);
    worst := MaxBy(p.order, over);
    MaxByMeaning(p.order, over);
    var candidates := Candidates(p.order, over, w, worst);
    CandidatesMeaning(p.order, over, w, worst);
    target := MinBy(candidates, over);
    MinByMeaning(candidates, over);
    TargetIsFirst(p.order, over, w, worst);
    MoveUnitConserves(p.order, w, worst, target);
    forall i | i in p.order ensures Over(p, w, i) == ShareOf(over, i) {
      OverMapOf(p, w, i);
    }
  }

  /** When the loop stops by itself, either nothing is over budget, or nothing at all is
      under budget. */
  lemma RepairStops(p: Problem, w: Weights)
    requires RepairStep(p, w).None?
    ensures Fits(p, w) || forall i :: i in p.order ==> Over(p, w, i) >= 0.0
  {
    var over := OverMap(p, w);
    var worst := MaxBy(p.order, over);
    MaxByMeaning(p.order, over);
    CandidatesMeaning(p.order, over, w, worst);
    forall i | i in p.order ensures Over(p, w, i) == ShareOf(over, i) {
      OverMapOf(p, w, i);
    }
    if UnitsOf(w, worst) == 0 {
      IdleIsNotOver(p, w, worst);
    }
  }

  lemma IdleIsNotOver(p: Problem, w: Weights, i: Device)
    ensures UnitsOf(w, i) == 0 ==> Over(p, w, i) <= 0.0
  {
    BytesAreUnits(p.required, 0, p.scale);
  }
}
