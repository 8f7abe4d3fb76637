/** The plan behind a split, whatever the policy's lists repeat: the rounding takes the shares of a
    rule in proportion, so together they always stand for the whole model, and the question is
    whether each device's part is inside its headroom (`propose` in scripts/gpu_placement.py). */
module PlacementRepeats {
  import opened Common
  import opened PlacementSums
  import opened PlacementRounding
  import opened PlacementRepair
  import opened PlacementPropose

  lemma NoRepeatCons(d: Device, rest: seq<Device>, headroom: map<Device, nat>)
    ensures NoRepeat([d] + rest, headroom) <==> NoRepeat(rest, headroom) && (d in rest ==> UnitsOf(headroom, d) == 0)
  {
    var all := [d] + rest;
    if NoRepeat(all, headroom) {
      forall i, j | 0 <= i < j < |rest| && rest[i] == rest[j] ensures UnitsOf(headroom, rest[i]) == 0 {
        assert all[i + 1] == all[j + 1];
      }
      if d in rest {
        var j :| 0 <= j < |rest| && rest[j] == d;
        assert all[0] == all[j + 1];
      }
    }
  }

  /** Counting a group's headroom as listed counts too much exactly when it repeats a device that
      has some. */
  lemma {:induction false} RoomCountsOnceIff(order: seq<Device>, devices: seq<Device>, headroom: map<Device, nat>)
    requires Distinct(order) && forall i :: i in devices ==> i in order
    ensures Units(order, Held(devices, headroom)) <= Units(devices, headroom)
    ensures Units(order, Held(devices, headroom)) == Units(devices, headroom) <==> NoRepeat(devices, headroom)
  {
    if devices == [] {
      UnitsZero(order, Held(devices, headroom));
    } else {
      var d, rest := devices[0], devices[1..];
      assert devices == [d] + rest;
      RoomCountsOnceIff(order, rest, headroom);
      NoRepeatCons(d, rest, headroom);
      UnitsUpdate(order, Held(rest, headroom), d, UnitsOf(headroom, d));
      assert Held(devices, headroom) == Held(rest, headroom)[d := UnitsOf(headroom, d)];
      assert d in order;
    }
  }

  lemma GroupShare(devices: seq<Device>, headroom: map<Device, nat>, fraction: real, i: Device)
    ensures ShareOf(Portions(devices, headroom, fraction), i) == fraction * ShareOf(AsReals(Held(devices, headroom)), i)
  {
    if i !in devices {
      assert fraction * 0.0 == 0.0;
    }
  }

  lemma GroupShares(devices: seq<Device>, headroom: map<Device, nat>, fraction: real)
    ensures forall i :: ShareOf(Portions(devices, headroom, fraction), i) == fraction * ShareOf(AsReals(Held(devices, headroom)), i)
  {
    forall i ensures ShareOf(Portions(devices, headroom, fraction), i) == fraction * ShareOf(AsReals(Held(devices, headroom)), i) {
      GroupShare(devices, headroom, fraction, i);
    }
  }

  lemma SumOfGroup(order: seq<Device>, devices: seq<Device>, headroom: map<Device, nat>, fraction: real)
    ensures Sum(order, Portions(devices, headroom, fraction)) == fraction * Units(order, Held(devices, headroom)) as real
  {
    hide Portions, Held, AsReals, Sum, Units, ShareOf;
    GroupShares(devices, headroom, fraction);
    SumOfUnits(order, Held(devices, headroom));
    SumScale(order, AsReals(Held(devices, headroom)), Portions(devices, headroom, fraction), fraction);
  }

  /** A group that is to take `whole` takes less when it repeats a device with headroom. */
  lemma GroupTakesIff(order: seq<Device>, devices: seq<Device>, headroom: map<Device, nat>, fraction: real, whole: nat)
    requires Distinct(order) && forall i :: i in devices ==> i in order
    requires fraction > 0.0 && fraction * Units(devices, headroom) as real == whole as real
    ensures Sum(order, Portions(devices, headroom, fraction)) <= whole as real
    ensures Sum(order, Portions(devices, headroom, fraction)) == whole as real <==> NoRepeat(devices, headroom)
  {
    hide Portions, Held, NoRepeat, Units, Sum;
    SumOfGroup(order, devices, headroom, fraction);
    RoomCountsOnceIff(order, devices, headroom);
    LessOfTheSame(fraction, Units(order, Held(devices, headroom)), Units(devices, headroom),
                  Sum(order, Portions(devices, headroom, fraction)), whole as real);
  }

  lemma LessOfTheSame(c: real, a: nat, b: nat, part: real, whole: real)
    requires c > 0.0 && a <= b && part == c * a as real && whole == c * b as real
    ensures part <= whole
    ensures part == whole <==> a == b
  {
    var d := (b - a) as real;
    assert whole - part == c * d by {
      Distribute(c, a, b - a);
    }
    Product(c, d);
  }

  lemma Product(c: real, d: real)
    requires c > 0.0 && d >= 0.0
    ensures c * d >= 0.0 && (c * d == 0.0 <==> d == 0.0)
  {
  }

  lemma {:induction false} SumOfMerge(order: seq<Device>, f: map<Device, real>, g: map<Device, real>)
    requires forall i :: i in f ==> i !in g
    ensures Sum(order, f + g) == Sum(order, f) + Sum(order, g)
  {
    if order != [] {
      SumOfMerge(order[1..], f, g);
    }
  }

  /** Listed devices, and no device in both groups. */
  ghost predicate Grouped(s: Setting) {
    && Distinct(s.order) && s.order != []
    && (forall i :: i in s.prefer ==> i in s.order && i !in s.spill)
    && (forall i :: i in s.spill ==> i in s.order)
    && (|s.usable| == |s.order| ==> s.usable == s.order)
  }

  ghost predicate AddsUp(s: Setting) { Sum(s.order, s.Shares()) == s.required as real }

  lemma PreferredAddsUpIff(s: Setting)
    requires Grouped(s) && s.Rule() == Preferred
    ensures AddsUp(s) <==> NoRepeat(s.prefer, s.headroom)
  {
    FirstFittingMeaning(s.prefer, s.headroom, s.required);
    assert s.prefer[0] in s.prefer;
    RatioMeaning(s.required, s.PreferRoom());
    var fraction := Ratio(s.required, s.PreferRoom());
    PositiveRatio(fraction, s.PreferRoom(), s.required);
    GroupTakesIff(s.order, s.prefer, s.headroom, fraction, s.required);
  }

  lemma PositiveRatio(c: real, room: nat, whole: nat)
    requires whole > 0 && c >= 0.0 && c * room as real == whole as real
    ensures c > 0.0
  {
    assert 0.0 * room as real == 0.0;
  }

  lemma FilledAddsUpIff(s: Setting)
    requires Grouped(s) && s.Rule() == Filled
    ensures Sum(s.order, s.Shares()) <= s.required as real
    ensures AddsUp(s) <==>
              && NoRepeat(s.prefer, s.headroom)
              && (s.Remainder() > 0 ==> s.SpillRoom() > 0 && NoRepeat(s.spill, s.headroom))
  {
    FillIsAll(s);
    FilledSum(s, Ratio(s.Remainder(), s.SpillRoom()));
    GroupTakesIff(s.order, s.prefer, s.headroom, 1.0, s.PreferRoom());
    SpillTakesIff(s.order, s.spill, s.headroom, s.Remainder());
    hide Portions, Ratio, Units, Sum, NoRepeat;
  }

  lemma FilledSum(s: Setting, c: real)
    requires Grouped(s)
    ensures Sum(s.order, Portions(s.prefer, s.headroom, 1.0) + Portions(s.spill, s.headroom, c))
              == Sum(s.order, Portions(s.prefer, s.headroom, 1.0)) + Sum(s.order, Portions(s.spill, s.headroom, c))
  {
    var f, g := Portions(s.prefer, s.headroom, 1.0), Portions(s.spill, s.headroom, c);
    assert (forall i :: i in f ==> i in s.prefer) && forall i :: i in g ==> i in s.spill;
    hide Portions, Sum;
    SumOfMerge(s.order, f, g);
  }

  /** Under the last rule the preferred devices are filled and the rest is what is left. */
  lemma FillIsAll(s: Setting)
    requires s.Rule() == Filled
    ensures s.PreferRoom() + s.Remainder() == s.required
  {
    assert s.prefer == [] ==> s.PreferRoom() == 0;
  }

  lemma SpillTakesIff(order: seq<Device>, spill: seq<Device>, headroom: map<Device, nat>, rest: nat)
    requires Distinct(order) && forall i :: i in spill ==> i in order
    ensures var taken := Sum(order, Portions(spill, headroom, Ratio(rest, Units(spill, headroom))));
            && taken <= rest as real
            && (taken == rest as real <==> rest == 0 || (Units(spill, headroom) > 0 && NoRepeat(spill, headroom)))
  {
    hide Portions, NoRepeat, Sum, Ratio, Units;
    if rest > 0 && Units(spill, headroom) > 0 {
      SpillTaken(order, spill, headroom, rest);
    } else {
      NothingSpilled(order, spill, headroom, rest);
    }
  }

  lemma SpillTaken(order: seq<Device>, spill: seq<Device>, headroom: map<Device, nat>, rest: nat)
    requires Distinct(order) && (forall i :: i in spill ==> i in order) && rest > 0 && Units(spill, headroom) > 0
    ensures var taken := Sum(order, Portions(spill, headroom, Ratio(rest, Units(spill, headroom))));
            taken <= rest as real && (taken == rest as real <==> NoRepeat(spill, headroom))
  {
    hide Portions, NoRepeat, Sum, Ratio, Units;
    var room := Units(spill, headroom);
    var fraction := Ratio(rest, room);
    assert fraction * room as real == rest as real;
    PositiveRatio(fraction, room, rest);
    GroupTakesIff(order, spill, headroom, fraction, rest);
  }

  lemma NothingSpilled(order: seq<Device>, spill: seq<Device>, headroom: map<Device, nat>, rest: nat)
    requires Distinct(order) && (forall i :: i in spill ==> i in order) && (rest == 0 || Units(spill, headroom) == 0)
    ensures Sum(order, Portions(spill, headroom, Ratio(rest, Units(spill, headroom)))) == 0.0
  {
    hide Portions, NoRepeat, Sum, Ratio, Units, Held;
    var room := Units(spill, headroom);
    var fraction := Ratio(rest, room);
    SumOfGroup(order, spill, headroom, fraction);
    RoomCountsOnceIff(order, spill, headroom);
    NothingTaken(fraction, room, rest, Units(order, Held(spill, headroom)));
  }

  lemma ZeroFactor(c: real, r: real)
    requires r > 0.0 && c * r == 0.0
    ensures c == 0.0
  {
  }

  /** Nothing to divide, or nothing to divide it over. */
  lemma NothingTaken(c: real, room: nat, whole: nat, held: nat)
    requires whole == 0 || room == 0
    requires held <= room && c == Ratio(whole, room)
    ensures c * held as real == 0.0
  {
    if room > 0 {
      ZeroFactor(c, room as real);
    }
  }

  lemma OtherRulesAddUp(s: Setting)
    requires Grouped(s) && (s.Rule().Single? || s.Rule().Equal?)
    ensures AddsUp(s)
  {
    match s.Rule() {
      case Single(d) =>
        var candidates := if s.prefer != [] then s.prefer else s.spill;
        FirstFittingMeaning(candidates, s.headroom, s.required);
        SumUpdate(s.order, map[], d, s.required as real);
        SumZero(s.order, map[]);
        assert map[d := s.required as real] == (map[])[d := s.required as real];
      case Equal =>
        assert forall i :: i in s.order ==> ShareOf(s.Shares(), i) == s.EqualShare();
        EqualParts(s.order, s.Shares(), s.EqualShare(), s.required);
      case _ =>
    }
  }

  /** Exactly when the shares add up to the model. A single device and an equal split always do. The
      second rule does when the preferred list repeats no device that has headroom. The last rule
      does when neither list repeats one, as far as it is used, and there is somewhere to put
      what the preferred devices cannot hold. */
  lemma SharesAddUpIff(s: Setting)
    requires Grouped(s)
    ensures AddsUp(s) <==>
              match s.Rule()
              case Preferred => NoRepeat(s.prefer, s.headroom)
              case Filled =>
                && NoRepeat(s.prefer, s.headroom)
                && (s.Remainder() > 0 ==> s.SpillRoom() > 0 && NoRepeat(s.spill, s.headroom))
              case _ => true
  {
    match s.Rule() {
      case Preferred => PreferredAddsUpIff(s);
      case Filled => FilledAddsUpIff(s);
      case _ => OtherRulesAddUp(s);
    }
  }

  // --- the plan: the shares, brought to the size of the model --------------------

  /** What the rounding makes of the shares, in bytes: the whole model, divided as they are. */
  function Plan(s: Setting): map<Device, real>
    requires WellShares(s.Shares(), s.order)
  {
    Exact(s.Shares(), s.order, s.required)
  }

  /** Shares that add up to the model and stay inside every device's headroom. */
  ghost predicate GoodShares(s: Setting, shares: map<Device, real>) {
    && WellShares(shares, s.order)
    && Sum(s.order, shares) == s.required as real
    && Inside(shares, s.headroom, s.order)
  }

  ghost predicate Inside(shares: map<Device, real>, headroom: map<Device, nat>, devices: seq<Device>) {
    forall i :: i in devices ==> ShareOf(shares, i) <= UnitsOf(headroom, i) as real
  }

  lemma QuotaAgain(share: real, t: real, whole: nat)
    requires t > 0.0
    ensures Quota(share, t, whole) * t == share * whole as real
    ensures share == 0.0 ==> Quota(share, t, whole) == 0.0
  {
    var q, r := share / t, whole as real;
    assert q * t == share;
    assert q * r * t == q * t * r;
    QuotaScales(share, t, whole);
  }

  /** A device that takes the part `c` of its headroom is inside it in the plan exactly when `c`
      times the model is no more than all the shares. */
  lemma PartInsideIff(share: real, c: real, h: nat, t: real, whole: nat)
    requires t > 0.0 && share == c * h as real
    ensures h > 0 ==> (Quota(share, t, whole) <= h as real <==> c * whole as real <= t)
    ensures h == 0 ==> Quota(share, t, whole) == 0.0
  {
    hide Quota;
    QuotaAgain(share, t, whole);
    if h > 0 {
      Compare(Quota(share, t, whole), c, h as real, t, whole as real);
    }
  }

  lemma Compare(plan: real, c: real, x: real, t: real, r: real)
    requires t > 0.0 && x > 0.0 && plan * t == c * x * r
    ensures plan <= x <==> c * r <= t
  {
    assert (x - plan) * t == x * t - plan * t;
    assert x * (t - c * r) == x * t - c * x * r by {
      assert x * (c * r) == c * x * r;
    }
    Sign(x, t - c * r);
    Sign(t, x - plan);
  }

  lemma Sign(x: real, d: real)
    requires x > 0.0
    ensures x * d >= 0.0 <==> d >= 0.0
  {
    if d < 0.0 {
      assert x * -d > 0.0;
    }
  }

  /** The same for a group that takes one part of its headroom. */
  lemma GroupInsideIff(order: seq<Device>, shares: map<Device, real>, headroom: map<Device, nat>, whole: nat, group: seq<Device>, c: real)
    requires WellShares(shares, order) && Sum(order, shares) > 0.0
    requires forall i :: i in group ==> i in order && ShareOf(shares, i) == c * UnitsOf(headroom, i) as real
    ensures Inside(Exact(shares, order, whole), headroom, group) <==>
              Units(order, Held(group, headroom)) == 0 || Times(c, whole) <= Sum(order, shares)
  {
    hide Exact, Sum, Units, Held, WellShares;
    forall i | i in group
      ensures UnitsOf(headroom, i) > 0 ==>
                (ShareOf(Exact(shares, order, whole), i) <= UnitsOf(headroom, i) as real <==> c * whole as real <= Sum(order, shares))
      ensures UnitsOf(headroom, i) == 0 ==> ShareOf(Exact(shares, order, whole), i) == 0.0
    {
      MemberInsideIff(order, shares, headroom, whole, i, c);
    }
    HeldZeroIff(order, group, headroom);
  }

  lemma MemberInsideIff(order: seq<Device>, shares: map<Device, real>, headroom: map<Device, nat>, whole: nat, i: Device, c: real)
    requires WellShares(shares, order) && Sum(order, shares) > 0.0
    requires i in order && ShareOf(shares, i) == c * UnitsOf(headroom, i) as real
    ensures UnitsOf(headroom, i) > 0 ==>
              (ShareOf(Exact(shares, order, whole), i) <= UnitsOf(headroom, i) as real <==> c * whole as real <= Sum(order, shares))
    ensures UnitsOf(headroom, i) == 0 ==> ShareOf(Exact(shares, order, whole), i) == 0.0
  {
    PartInsideIff(ShareOf(shares, i), c, UnitsOf(headroom, i), Sum(order, shares), whole);
    hide Quota, Sum;
  }

  lemma HeldZeroIff(order: seq<Device>, group: seq<Device>, headroom: map<Device, nat>)
    requires forall i :: i in group ==> i in order
    ensures Units(order, Held(group, headroom)) == 0 <==> forall i :: i in group ==> UnitsOf(headroom, i) == 0
  {
    var held := Held(group, headroom);
    if forall i :: i in group ==> UnitsOf(headroom, i) == 0 {
      UnitsZero(order, held);
    }
    forall i | i in group ensures UnitsOf(headroom, i) <= Units(order, held) {
      UnitsCover(order, held, i);
    }
  }

  /** A group with room as listed has some device with headroom. */
  lemma HeldSomewhere(order: seq<Device>, group: seq<Device>, headroom: map<Device, nat>)
    requires forall i :: i in group ==> i in order
    ensures Units(order, Held(group, headroom)) > 0 <==> Units(group, headroom) > 0
  {
    HeldZeroIff(order, group, headroom);
    if forall i :: i in group ==> UnitsOf(headroom, i) == 0 {
      UnitsZero(group, headroom);
    } else {
      var i :| i in group && UnitsOf(headroom, i) > 0;
      UnitsCover(group, headroom, i);
    }
  }

  /** Devices without a share have no part in the plan. */
  lemma OnlySharers(order: seq<Device>, shares: map<Device, real>, headroom: map<Device, nat>, whole: nat)
    requires WellShares(shares, order) && Sum(order, shares) > 0.0
    ensures var plan := Exact(shares, order, whole);
            Inside(plan, headroom, order) <==> forall i :: i in shares ==> ShareOf(plan, i) <= UnitsOf(headroom, i) as real
  {
    hide Quota, Sum;
    forall i | i in order && i !in shares ensures ShareOf(Exact(shares, order, whole), i) == 0.0 {
      QuotaAgain(0.0, Sum(order, shares), whole);
    }
  }

  lemma PortionsAre(devices: seq<Device>, headroom: map<Device, nat>, c: real)
    ensures forall i :: i in devices ==> ShareOf(Portions(devices, headroom, c), i) == c * UnitsOf(headroom, i) as real
  {
  }

  /** The bytes that a part `c` of `n` is. */
  function Times(c: real, n: nat): real {
    c * n as real
  }

  lemma RatioTimes(whole: nat, of: nat)
    requires of > 0
    ensures Times(Ratio(whole, of), of) == whole as real
  {
  }

  /** Dividing over the room as listed, and taking the room there is. */
  lemma PartOfHeld(whole: nat, room: nat, held: nat, c: real)
    requires 0 < whole && held > 0 && c >= 0.0 && Times(c, room) == whole as real
    ensures c > 0.0 && Times(c, held) > 0.0 && (Times(c, whole) <= Times(c, held) <==> whole <= held)
  {
    PositiveRatio(c, room, whole);
    var d := held as real - whole as real;
    Sign(c, d);
    assert c * d == Times(c, held) - Times(c, whole);
    Product(c, held as real);
  }

  /** A group that takes a part of its headroom and is alone in it. */
  lemma AloneInsideIff(order: seq<Device>, group: seq<Device>, headroom: map<Device, nat>, whole: nat, c: real, shares: map<Device, real>)
    requires shares == Portions(group, headroom, c)
    requires WellShares(shares, order) && Sum(order, shares) > 0.0 && Units(order, Held(group, headroom)) > 0
    ensures Inside(Exact(shares, order, whole), headroom, order) <==> Times(c, whole) <= Sum(order, shares)
  {
    assert forall i :: i in shares <==> i in group;
    PortionsAre(group, headroom, c);
    hide Portions, Sum, Units, Held, Exact;
    OnlySharers(order, shares, headroom, whole);
    GroupInsideIff(order, shares, headroom, whole, group, c);
  }

  /** A group that takes the whole model by itself. */
  lemma OneGroupTakes(order: seq<Device>, group: seq<Device>, headroom: map<Device, nat>, whole: nat, c: real)
    requires Distinct(order) && (forall i :: i in group ==> i in order)
    requires 0 < whole && Units(group, headroom) > 0 && c >= 0.0 && Times(c, Units(group, headroom)) == whole as real
    ensures var shares := Portions(group, headroom, c);
            && WellShares(shares, order) && Sum(order, shares) > 0.0
            && (Times(c, whole) <= Sum(order, shares) <==> whole <= Units(order, Held(group, headroom)))
  {
    hide Portions, Sum, Units, Held, Times;
    var held := Units(order, Held(group, headroom));
    PortionsWell(group, headroom, c);
    HeldSomewhere(order, group, headroom);
    TimesOfGroup(order, group, headroom, c);
    PartOfHeld(whole, Units(group, headroom), held, c);
  }

  lemma TimesOfGroup(order: seq<Device>, group: seq<Device>, headroom: map<Device, nat>, c: real)
    ensures Sum(order, Portions(group, headroom, c)) == Times(c, Units(order, Held(group, headroom)))
  {
    SumOfGroup(order, group, headroom, c);
    hide Sum, Units, Portions;
  }

  lemma OneGroupIff(order: seq<Device>, group: seq<Device>, headroom: map<Device, nat>, whole: nat)
    requires Distinct(order) && (forall i :: i in group ==> i in order)
    requires 0 < whole && Units(group, headroom) > 0
    ensures var shares := Portions(group, headroom, Ratio(whole, Units(group, headroom)));
            && WellShares(shares, order) && Sum(order, shares) > 0.0
            && (Inside(Exact(shares, order, whole), headroom, order) <==> whole <= Units(order, Held(group, headroom)))
  {
    hide Portions, Ratio, Sum, Units, Held, Exact, Inside, WellShares, Times;
    var c := Ratio(whole, Units(group, headroom));
    RatioTimes(whole, Units(group, headroom));
    OneGroupTakes(order, group, headroom, whole, c);
    HeldSomewhere(order, group, headroom);
    AloneInsideIff(order, group, headroom, whole, c, Portions(group, headroom, c));
  }

  /** The preferred group filled and another after it. */
  lemma TwoGroupsIff(order: seq<Device>, shares: map<Device, real>, prefer: seq<Device>, spill: seq<Device>, headroom: map<Device, nat>, whole: nat, c: real)
    requires (forall i :: i in prefer ==> i in order && i !in spill) && forall i :: i in spill ==> i in order
    requires shares == Portions(prefer, headroom, 1.0) + Portions(spill, headroom, c)
    requires WellShares(shares, order) && Sum(order, shares) > 0.0
    ensures Inside(Exact(shares, order, whole), headroom, order) <==>
              && (Units(order, Held(prefer, headroom)) == 0 || whole as real <= Sum(order, shares))
              && (Units(order, Held(spill, headroom)) == 0 || Times(c, whole) <= Sum(order, shares))
  {
    TwoGroups(prefer, spill, headroom, c);
    hide Portions, Sum, Units, Held, Exact, Times;
    OneTimes(whole);
    OnlySharers(order, shares, headroom, whole);
    GroupInsideIff(order, shares, headroom, whole, prefer, 1.0);
    GroupInsideIff(order, shares, headroom, whole, spill, c);
  }

  lemma TwoGroups(prefer: seq<Device>, spill: seq<Device>, headroom: map<Device, nat>, c: real)
    requires forall i :: i in prefer ==> i !in spill
    ensures var shares := Portions(prefer, headroom, 1.0) + Portions(spill, headroom, c);
            && (forall i :: i in shares <==> i in prefer || i in spill)
            && (forall i :: i in prefer ==> ShareOf(shares, i) == 1.0 * UnitsOf(headroom, i) as real)
            && (forall i :: i in spill ==> ShareOf(shares, i) == c * UnitsOf(headroom, i) as real)
  {
    PortionsAre(prefer, headroom, 1.0);
    PortionsAre(spill, headroom, c);
    var f, g := Portions(prefer, headroom, 1.0), Portions(spill, headroom, c);
    assert (forall i :: i in f <==> i in prefer) && forall i :: i in g <==> i in spill;
    hide Portions;
  }

  /** Shares that are not all nothing make a plan for the whole model. */
  lemma PlanIsWhole(s: Setting)
    requires s.required > 0 && WellShares(s.Shares(), s.order)
    ensures GoodShares(s, Plan(s)) <==> Sum(s.order, s.Shares()) > 0.0 && Inside(Plan(s), s.headroom, s.order)
    ensures Sum(s.order, s.Shares()) >= 0.0
  {
    WholeIff(s.order, s.Shares(), s.required);
  }

  lemma WholeIff(order: seq<Device>, shares: map<Device, real>, whole: nat)
    requires whole > 0 && WellShares(shares, order)
    ensures WellShares(Exact(shares, order, whole), order)
    ensures Sum(order, Exact(shares, order, whole)) == whole as real <==> Sum(order, shares) > 0.0
    ensures Sum(order, shares) >= 0.0
  {
    ExactNonNegative(shares, order, whole);
    SumNonNegative(order, shares);
    if Sum(order, shares) > 0.0 {
      ExactSum(shares, order, whole);
    } else {
      forall i | i in order ensures ShareOf(Exact(shares, order, whole), i) == 0.0 {
        QuotaScales(ShareOf(shares, i), 1.0, whole);
      }
      SumZero(order, Exact(shares, order, whole));
    }
  }

  lemma RatioAtMostOne(part: nat, room: nat, whole: nat)
    requires room > 0 && whole > 0
    ensures Times(Ratio(part, room), whole) <= whole as real <==> part <= room
  {
    var c, n := Ratio(part, room), room as real;
    Sign(whole as real, 1.0 - c);
    assert whole as real * (1.0 - c) == whole as real - Times(c, whole);
    Sign(n, 1.0 - c);
    assert n * (1.0 - c) == n - c * n;
  }

  lemma FilledOnSpillIff(s: Setting)
    requires Grouped(s) && s.required > 0 && s.Rule() == Filled && s.PreferRoom() == 0 && WellShares(s.Shares(), s.order)
    ensures GoodShares(s, Plan(s)) <==> s.WithinHeadroom()
  {
    var f, c := Portions(s.prefer, s.headroom, 1.0), Ratio(s.required, s.SpillRoom());
    var g := Portions(s.spill, s.headroom, c);
    assert s.Shares() == f + g;
    PlanIsWhole(s);
    SumOfMerge(s.order, f, g);
    TimesOfGroup(s.order, s.prefer, s.headroom, 1.0);
    TimesOfGroup(s.order, s.spill, s.headroom, c);
    HeldSomewhere(s.order, s.prefer, s.headroom);
    HeldSomewhere(s.order, s.spill, s.headroom);
    var held := Units(s.order, Held(s.spill, s.headroom));
    FilledOnSpillOnly(s, c, held);
  }

  lemma FilledOnSpillOnly(s: Setting, c: real, held: nat)
    requires Grouped(s) && s.required > 0 && WellShares(s.Shares(), s.order)
    requires s.Shares() == Portions(s.prefer, s.headroom, 1.0) + Portions(s.spill, s.headroom, c)
    requires c == Ratio(s.required, s.SpillRoom()) && held == Units(s.order, Held(s.spill, s.headroom))
    requires Units(s.order, Held(s.prefer, s.headroom)) == 0 && (held > 0 <==> s.SpillRoom() > 0)
    requires Sum(s.order, s.Shares()) == Times(c, held)
    ensures Sum(s.order, s.Shares()) > 0.0 && Inside(Plan(s), s.headroom, s.order) <==> s.required <= held
  {
    if held > 0 {
      RatioTimes(s.required, s.SpillRoom());
      PartOfHeld(s.required, s.SpillRoom(), held, c);
      TwoGroupsIff(s.order, s.Shares(), s.prefer, s.spill, s.headroom, s.required, c);
    }
  }

  lemma FilledPastPreferredIff(s: Setting)
    requires Grouped(s) && s.required > 0 && s.Rule() == Filled && s.PreferRoom() > 0 && WellShares(s.Shares(), s.order)
    ensures GoodShares(s, Plan(s)) <==> s.WithinHeadroom()
  {
    var rest, room := s.Remainder(), s.SpillRoom();
    var c := Ratio(rest, room);
    FillIsAll(s);
    FilledAddsUpIff(s);
    PlanIsWhole(s);
    HeldSomewhere(s.order, s.prefer, s.headroom);
    HeldSomewhere(s.order, s.spill, s.headroom);
    SomethingPreferred(s);
    assert s.Shares() == Portions(s.prefer, s.headroom, 1.0) + Portions(s.spill, s.headroom, c);
    TwoGroupsIff(s.order, s.Shares(), s.prefer, s.spill, s.headroom, s.required, c);
    if room > 0 {
      RatioAtMostOne(rest, room, s.required);
    }
  }

  lemma SomethingPreferred(s: Setting)
    requires Grouped(s) && s.Rule() == Filled && s.PreferRoom() > 0
    ensures Sum(s.order, s.Shares()) > 0.0 && s.Remainder() > 0
  {
    FillIsAll(s);
    SomeSum(s.order, s.prefer, s.spill, s.headroom, Ratio(s.Remainder(), s.SpillRoom()));
    hide Portions, Ratio, Units, Sum;
  }

  lemma SomeSum(order: seq<Device>, prefer: seq<Device>, spill: seq<Device>, headroom: map<Device, nat>, c: real)
    requires (forall i :: i in prefer ==> i in order && i !in spill) && c >= 0.0 && Units(prefer, headroom) > 0
    ensures Sum(order, Portions(prefer, headroom, 1.0) + Portions(spill, headroom, c)) > 0.0
  {
    var f, g := Portions(prefer, headroom, 1.0), Portions(spill, headroom, c);
    assert (forall i :: i in f ==> i in prefer) && forall i :: i in g ==> i in spill;
    PortionsWell(spill, headroom, c);
    hide Portions, Units, Sum, Held, Times;
    SumOfMerge(order, f, g);
    TimesOfGroup(order, prefer, headroom, 1.0);
    OneTimes(Units(order, Held(prefer, headroom)));
    HeldSomewhere(order, prefer, headroom);
    SumNonNegative(order, g);
  }

  lemma OneTimes(n: nat)
    ensures Times(1.0, n) == n as real
  {
  }

  lemma PreferredPlanIff(s: Setting)
    requires Grouped(s) && s.required > 0 && s.Rule() == Preferred && WellShares(s.Shares(), s.order)
    ensures GoodShares(s, Plan(s)) <==> s.WithinHeadroom()
  {
    PlanIsWhole(s);
    OneGroupIff(s.order, s.prefer, s.headroom, s.required);
  }

  /** A single device, and an equal split, are chosen because they are inside headroom. */
  lemma ChosenPlanIsGood(s: Setting)
    requires Grouped(s) && s.required > 0 && (s.Rule().Single? || s.Rule().Equal?) && WellShares(s.Shares(), s.order)
    ensures GoodShares(s, s.Shares()) && GoodShares(s, Plan(s))
  {
    OtherRulesAddUp(s);
    PlanOfWhole(s);
    FirstFittingMeaning(if s.prefer != [] then s.prefer else s.spill, s.headroom, s.required);
    assert s.Rule().Equal? ==> s.usable == s.order;
  }

  /** Shares that add up to the model are the plan. */
  lemma PlanOfWhole(s: Setting)
    requires s.required > 0 && WellShares(s.Shares(), s.order) && AddsUp(s)
    ensures forall i :: i in s.order ==> ShareOf(Plan(s), i) == ShareOf(s.Shares(), i)
    ensures GoodShares(s, Plan(s)) <==> GoodShares(s, s.Shares())
  {
    WholePlan(s.order, s.Shares(), s.required);
    PlanIsWhole(s);
  }

  lemma WholePlan(order: seq<Device>, shares: map<Device, real>, whole: nat)
    requires whole > 0 && WellShares(shares, order) && Sum(order, shares) == whole as real
    ensures forall i :: i in order ==> ShareOf(Exact(shares, order, whole), i) == ShareOf(shares, i)
  {
    forall i | i in order ensures ShareOf(Exact(shares, order, whole), i) == ShareOf(shares, i) {
      SameQuota(ShareOf(shares, i), whole);
    }
  }

  lemma SameQuota(share: real, whole: nat)
    requires whole > 0
    ensures Quota(share, whole as real, whole) == share
  {
  }

  /** Whatever the lists repeat and whichever rule fires, the plan is inside every device's working
      headroom exactly when the check on lists and sizes says so. */
  lemma PlanWithinIff(s: Setting)
    requires Grouped(s) && s.required > 0
    ensures WellShares(s.Shares(), s.order)
    ensures GoodShares(s, Plan(s)) <==> s.WithinHeadroom()
  {
    SettingSharesAreWell(s);
    match s.Rule() {
      case Preferred => PreferredPlanIff(s);
      case Filled =>
        if s.PreferRoom() == 0 {
          FilledOnSpillIff(s);
        } else {
          FilledPastPreferredIff(s);
        }
      case _ => ChosenPlanIsGood(s);
    }
  }

  /** Lists that repeat no device with headroom need no bringing to size: the shares of every rule
      that places the model within headroom add up to the model as they are. */
  lemma SharesAddUp(s: Setting)
    requires Grouped(s) && s.WithinHeadroom()
    requires NoRepeat(s.prefer, s.headroom) && NoRepeat(s.spill, s.headroom)
    ensures GoodShares(s, s.Shares())
  {
    SettingSharesAreWell(s);
    SharesAddUpIff(s);
    HeldSomewhere(s.order, s.spill, s.headroom);
    if s.required > 0 {
      PlanWithinIff(s);
      PlanOfWhole(s);
    } else {
      SumNonNegative(s.order, s.Shares());
    }
  }
}
