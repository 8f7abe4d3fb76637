/** Which rule `propose` applies, in the order the policy gives them: the whole policy
    (scripts/gpu_placement.py). */
module PlacementRules {
  import opened Common
  import opened PlacementSums
  import opened PlacementRepair
  import opened PlacementPropose
  import opened PlacementProposal

  /** No candidate of the single-device rule holds the model. */
  ghost predicate NoneHolds(candidates: seq<Device>, headroom: map<Device, nat>, required: nat) {
    forall i :: i in candidates ==> required > UnitsOf(headroom, i)
  }

  /** The candidates of the single-device rule. */
  function Candidates(s: Setting): seq<Device> { if s.prefer == [] then s.spill else s.prefer }

  /** An equal share, in whole numbers, is within every device's headroom. */
  ghost predicate EqualSharesHold(s: Setting) {
    && s.equalSplit && |s.usable| == |s.order|
    && forall i :: i in s.usable ==> s.required <= |s.order| * UnitsOf(s.headroom, i)
  }

  /** The order of the rules. One device alone, and then the first that holds the model. Only if none
      does, the preferred devices together, if they hold it. Only then an equal split, if it fits
      everywhere. And only then the last resort. */
  lemma RuleIs(s: Setting)
    requires s.order != []
    ensures forall d :: s.Rule() == Single(d) <==> FirstThatHolds(Candidates(s), s.headroom, s.required, d)
    ensures s.Rule() == Preferred <==>
              NoneHolds(Candidates(s), s.headroom, s.required) && s.prefer != [] && s.required <= Units(s.prefer, s.headroom)
    ensures s.Rule() == Equal <==>
              && NoneHolds(Candidates(s), s.headroom, s.required)
              && !(s.prefer != [] && s.required <= Units(s.prefer, s.headroom))
              && EqualSharesHold(s)
    ensures s.Rule() == Filled <==>
              && NoneHolds(Candidates(s), s.headroom, s.required)
              && !(s.prefer != [] && s.required <= Units(s.prefer, s.headroom))
              && !EqualSharesHold(s)
  {
    FirstFittingMeaning(Candidates(s), s.headroom, s.required);
    FirstFittingIsFirst(Candidates(s), s.headroom, s.required);
    EqualIs(s);
    hide FirstFitting, FirstThatHolds, EqualSharesHold, Units, Setting.EqualSplitFits;
  }

  lemma EqualIs(s: Setting)
    requires s.order != []
    ensures s.EqualSplitFits() <==> EqualSharesHold(s)
  {
    forall i | i in s.usable ensures s.EqualShare() <= UnitsOf(s.headroom, i) as real <==> s.required <= |s.order| * UnitsOf(s.headroom, i) {
      ShareIs(s.required, |s.order|, UnitsOf(s.headroom, i));
    }
  }

  lemma ShareIs(whole: nat, n: nat, room: nat)
    requires n > 0
    ensures whole as real / n as real <= room as real <==> whole <= n * room
  {
    var q, d, r := whole as real / n as real, n as real, room as real;
    assert q * d == whole as real;
    assert (n * room) as real == d * r;
    if q <= r {
      assert (r - q) * d >= 0.0 && (r - q) * d == r * d - q * d;
    } else {
      assert (q - r) * d > 0.0 && (q - r) * d == q * d - r * d;
    }
  }

  /** What each rule gives a device, by cross-multiplication: a single device takes the model whole. */
  lemma SingleShareIs(s: Setting, d: Device, i: Device)
    requires s.Rule() == Single(d)
    ensures ShareOf(s.Shares(), i) == if i == d then s.required as real else 0.0
  {
  }

  /** Preferred devices take the model in proportion to their headroom. */
  lemma PreferredShareIs(s: Setting, i: Device)
    requires s.Rule() == Preferred
    ensures i in s.prefer ==>
              ShareOf(s.Shares(), i) * s.PreferRoom() as real == s.required as real * UnitsOf(s.headroom, i) as real
    ensures i !in s.prefer ==> ShareOf(s.Shares(), i) == 0.0
  {
    hide Portions, Ratio, Units;
    PortionShare(s.prefer, s.headroom, s.required, i);
  }

  /** An equal split gives every device the same. */
  lemma EqualShareIs(s: Setting, i: Device)
    requires s.Rule() == Equal && s.order != []
    ensures i in s.order ==> ShareOf(s.Shares(), i) * |s.order| as real == s.required as real
    ensures i !in s.order ==> ShareOf(s.Shares(), i) == 0.0
  {
    Evenly(s.required, |s.order|);
  }

  /** The last resort fills the preferred devices, and the others take what is left in proportion to
      their headroom. */
  lemma FilledShareIs(s: Setting, i: Device)
    requires s.Rule() == Filled
    ensures i in s.spill ==>
              ShareOf(s.Shares(), i) * s.SpillRoom() as real
                == (if s.required > s.PreferRoom() then s.required - s.PreferRoom() else 0) as real * UnitsOf(s.headroom, i) as real
    ensures i !in s.spill ==> ShareOf(s.Shares(), i) == if i in s.prefer then UnitsOf(s.headroom, i) as real else 0.0
  {
    PortionShare(s.spill, s.headroom, s.Remainder(), i);
    FullShare(s.prefer, s.headroom, i);
    hide Portions, Ratio, Units;
    var f, g := Portions(s.prefer, s.headroom, 1.0), Portions(s.spill, s.headroom, Ratio(s.Remainder(), s.SpillRoom()));
    assert s.Shares() == f + g;
  }

  lemma FullShare(group: seq<Device>, headroom: map<Device, nat>, i: Device)
    ensures var f := Portions(group, headroom, 1.0);
            (i in f <==> i in group) && ShareOf(f, i) == if i in group then UnitsOf(headroom, i) as real else 0.0
  {
  }

  lemma PortionShare(group: seq<Device>, headroom: map<Device, nat>, whole: nat, i: Device)
    ensures var room := Units(group, headroom);
            var f := Portions(group, headroom, Ratio(whole, room));
            && (i in f <==> i in group)
            && (i in group ==> ShareOf(f, i) * room as real == whole as real * UnitsOf(headroom, i) as real)
            && (i !in group ==> ShareOf(f, i) == 0.0)
  {
    hide Portions, Ratio, Units;
    var room := Units(group, headroom);
    PortionIs(group, headroom, Ratio(whole, room), i);
    if i in group {
      PartOfShare(group, headroom, whole, room, i, ShareOf(Portions(group, headroom, Ratio(whole, room)), i));
    }
  }

  lemma PartOfShare(group: seq<Device>, headroom: map<Device, nat>, whole: nat, room: nat, i: Device, share: real)
    requires i in group && room == Units(group, headroom) && share == Ratio(whole, room) * UnitsOf(headroom, i) as real
    ensures share * room as real == whole as real * UnitsOf(headroom, i) as real
  {
    PartIs(whole, room, UnitsOf(headroom, i), i, group, headroom);
  }

  lemma PortionIs(devices: seq<Device>, headroom: map<Device, nat>, c: real, i: Device)
    ensures i in Portions(devices, headroom, c) <==> i in devices
    ensures i in devices ==> Portions(devices, headroom, c)[i] == c * UnitsOf(headroom, i) as real
  {
  }

  lemma PartIs(whole: nat, room: nat, h: nat, i: Device, group: seq<Device>, headroom: map<Device, nat>)
    requires h == UnitsOf(headroom, i) && room == Units(group, headroom)
    ensures i in group ==> Ratio(whole, room) * h as real * room as real == whole as real * h as real
  {
    if i in group {
      UnitsCover(group, headroom, i);
      var c, x, y := Ratio(whole, room), h as real, room as real;
      assert c * x * y == c * y * x;
      if room == 0 {
        assert x == 0.0;
      }
    }
  }

  // --- the same by the policy's own lists --------------------------------------------------

  /** The first of a list that is in a set. */
  ghost predicate FirstIn(list: seq<Device>, ok: set<Device>, d: Device) {
    exists k :: 0 <= k < |list| && list[k] == d && d in ok && forall j :: 0 <= j < k ==> list[j] !in ok
  }

  lemma FirstInCons(x: Device, rest: seq<Device>, ok: set<Device>, d: Device)
    ensures FirstIn([x] + rest, ok, d) <==> if x in ok then d == x else FirstIn(rest, ok, d)
  {
    var all := [x] + rest;
    if FirstIn(all, ok, d) {
      var k :| 0 <= k < |all| && all[k] == d && d in ok && forall j :: 0 <= j < k ==> all[j] !in ok;
      assert all[0] == x;
      if x in ok {
        assert k == 0;
      } else {
        assert k > 0 && rest[k - 1] == d && forall j :: 0 <= j < k - 1 ==> rest[j] == all[j + 1];
      }
    }
    if x in ok && d == x {
      assert all[0] == d;
    }
    if x !in ok && FirstIn(rest, ok, d) {
      var k :| 0 <= k < |rest| && rest[k] == d && d in ok && forall j :: 0 <= j < k ==> rest[j] !in ok;
      assert all[k + 1] == d && forall j :: 0 < j < k + 1 ==> all[j] == rest[j - 1];
    }
  }

  /** Filtering a list keeps its order. */
  lemma {:induction false} FilterFirst(list: seq<Device>, keep: set<Device>, ok: set<Device>, d: Device)
    ensures FirstIn(Filter(list, keep), ok, d) <==> FirstIn(list, ok * keep, d)
  {
    if list != [] {
      var x, rest := list[0], list[1..];
      assert list == [x] + rest;
      FilterFirst(rest, keep, ok, d);
      FirstInCons(x, rest, ok * keep, d);
      FirstInCons(x, Filter(rest, keep), ok, d);
    }
  }

  lemma {:induction false} FirstInAppend(a: seq<Device>, b: seq<Device>, ok: set<Device>, d: Device)
    ensures FirstIn(a + b, ok, d) <==> if exists i :: i in a && i in ok then FirstIn(a, ok, d) else FirstIn(b, ok, d)
  {
    if a == [] {
      assert a + b == b;
    } else {
      var x, rest := a[0], a[1..];
      assert a == [x] + rest && a + b == [x] + (rest + b);
      FirstInAppend(rest, b, ok, d);
      FirstInCons(x, rest + b, ok, d);
      FirstInCons(x, rest, ok, d);
    }
  }

  lemma FirstInSame(list: seq<Device>, ok: set<Device>, other: set<Device>, d: Device)
    requires forall k :: 0 <= k < |list| ==> (list[k] in ok <==> list[k] in other)
    ensures FirstIn(list, ok, d) <==> FirstIn(list, other, d)
  {
    assert forall k :: 0 <= k < |list| ==> list[k] in list;
    if FirstIn(list, ok, d) {
      var k :| 0 <= k < |list| && list[k] == d && d in ok && forall j :: 0 <= j < k ==> list[j] !in ok;
      forall j | 0 <= j < k ensures list[j] !in other {
        assert list[j] in list;
      }
    }
    if FirstIn(list, other, d) {
      var k :| 0 <= k < |list| && list[k] == d && d in other && forall j :: 0 <= j < k ==> list[j] !in other;
      forall j | 0 <= j < k ensures list[j] !in ok {
        assert list[j] in list;
      }
    }
  }

  /** The devices that hold the model by themselves, with the margin and their pinned bytes left free. */
  ghost function Holders(q: Request): set<Device> {
    set i | i in q.Order() && BudgetOf(q.Budget(), i) > 0 &&
            (q.required == 0 || q.required + q.policy.Margin() + UnitsOf(q.pinned, i) <= BudgetOf(q.Budget(), i))
  }

  /** The list the single-device rule goes through: the preferred devices, or the fallback and then
      all the rows if no preferred device has a budget. */
  ghost function Searched(q: Request): seq<Device> {
    if exists i :: i in q.policy.prefer && i in q.Order() && BudgetOf(q.Budget(), i) > 0 then q.policy.prefer
    else q.policy.fallback + q.Order()
  }

  /** By the policy's own lists, in the order they are written: a model goes on one device exactly when
      some device searched holds it, and then on the first. */
  lemma SingleIs(q: Request, d: Device)
    requires q.Placeable()
    ensures q.Gathered().Rule() == Single(d) <==> FirstIn(Searched(q), Holders(q), d)
  {
    var s, usable, ok := q.Gathered(), q.Usable(), Holders(q);
    var among := set i | i in usable;
    var fallback := Filter(q.policy.fallback, among);
    UsableMeaning(q);
    FilterMeaning(q.policy.prefer, among);
    RuleIs(s);
    GroupsAreUsable(q);
    HoldersHold(q, Candidates(s), d);
    assert ok * among == ok;
    if s.prefer != [] {
      assert s.prefer[0] in s.prefer;
      FilterFirst(q.policy.prefer, among, ok, d);
    } else {
      forall i | i in q.policy.prefer ensures i !in among {
        assert i in among ==> i in s.prefer;
      }
      SpillFirst(q, d);
    }
  }

  lemma GroupsAreUsable(q: Request)
    ensures forall i :: i in q.Gathered().prefer ==> i in q.Usable()
    ensures forall i :: i in q.Gathered().spill ==> i in q.Usable()
  {
    var usable := q.Usable();
    var among := set i | i in usable;
    var prefer, fallback := Filter(q.policy.prefer, among), Filter(q.policy.fallback, among);
    FilterMeaning(q.policy.prefer, among);
    FilterMeaning(q.policy.fallback, among);
    FilterMeaning(usable, set i | i in usable && i !in prefer && i !in fallback);
  }

  lemma HoldersHold(q: Request, candidates: seq<Device>, d: Device)
    requires forall i :: i in candidates ==> i in q.Usable()
    ensures FirstThatHolds(candidates, q.Gathered().headroom, q.required, d) <==> FirstIn(candidates, Holders(q), d)
  {
    UsableMeaning(q);
    forall i | i in candidates ensures q.required <= UnitsOf(q.Gathered().headroom, i) <==> i in Holders(q) {
    }
  }

  lemma SpillFirst(q: Request, d: Device)
    requires q.Placeable() && q.Gathered().prefer == []
    ensures FirstIn(q.Gathered().spill, Holders(q), d) <==> FirstIn(q.policy.fallback + q.Order(), Holders(q), d)
  {
    var usable, ok := q.Usable(), Holders(q);
    var among := set i | i in usable;
    var fallback := Filter(q.policy.fallback, among);
    var others := set i | i in usable && i !in q.Gathered().prefer && i !in fallback;
    UsableMeaning(q);
    FilterMeaning(q.policy.fallback, among);
    FirstInAppend(fallback, Filter(usable, others), ok, d);
    FirstInAppend(q.policy.fallback, q.Order(), ok, d);
    FilterFirst(q.policy.fallback, among, ok, d);
    FilterFirst(usable, others, ok, d);
    var listed := set i | i in q.Order() && BudgetOf(q.Budget(), i) > 0;
    FilterFirst(q.Order(), listed, ok * others, d);
    assert ok * among == ok;
    if !exists i :: i in fallback && i in ok {
      FirstInSame(q.Order(), ok, ok * others * listed, d);
    }
  }
}
