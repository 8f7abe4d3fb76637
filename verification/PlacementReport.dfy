/** The proposal object `propose` builds and `charge_projector` bills (scripts/gpu_placement.py). */
module PlacementReport {
  import opened Common
  import opened PlacementSums
  import opened PlacementRepair
  import opened PlacementGcd
  import opened PlacementSplit
  import opened PlacementPlan
  import opened PlacementPropose
  import opened PlacementRepeats
  import opened PlacementProposal

  /** What a preset's `mmproj-device` says, as `projector_index` reads it. */
  datatype Pin = Unpinned | NotAnIndex | Pinned(index: Device)

  ghost predicate NoneNegative(slack: map<Device, real>) {
    forall i :: i in slack ==> slack[i] >= 0.0
  }

  class Proposal {
    var devices: seq<Device>
    var split: seq<nat>
    var projected: map<Device, real>
    var slack: map<Device, real>
    var fits: bool
    var chargedTo: Option<Device>

    constructor (devices: seq<Device>, split: seq<nat>, projected: map<Device, real>, slack: map<Device, real>)
      ensures this.devices == devices && this.split == split && this.projected == projected && this.slack == slack
      ensures fits <==> NoneNegative(slack)
      ensures chargedTo == None
    {
      this.devices, this.split, this.projected, this.slack := devices, split, projected, slack;
      fits := forall i :: i in slack ==> slack[i] >= 0.0;
      chargedTo := None;
    }

    /** Bill a pinned projector to its device. Everything but the slack of that device and
        the verdict is left alone, and an unpinned or unknown device leaves the whole proposal. */
    method ChargeProjector(size: Option<nat>, pin: Pin)
      modifies this`slack, this`fits, this`chargedTo
      ensures size.Some? && size.value > 0 && pin.Pinned? && pin.index in old(slack) ==>
                && slack == old(slack)[pin.index := old(slack)[pin.index] - size.value as real]
                && (fits <==> NoneNegative(slack))
                && chargedTo == Some(pin.index)
      ensures !(size.Some? && size.value > 0 && pin.Pinned? && pin.index in old(slack)) ==>
                slack == old(slack) && fits == old(fits) && chargedTo == old(chargedTo)
    {
      if size == None || size.value == 0 || !pin.Pinned? || pin.index !in slack {
        return;
      }
      slack := slack[pin.index := slack[pin.index] - size.value as real];
      chargedTo := Some(pin.index);
      fits := forall i :: i in slack ==> slack[i] >= 0.0;
    }
  }

  /** The share dictionary of the rule that fires, written device by device. */
  method ChooseShares(s: Setting) returns (shares: map<Device, real>)
    ensures shares == s.Shares()
  {
    shares := map[];
    match s.Rule()
    case Single(device) =>
      shares := map[device := s.required as real];
    case Preferred =>
      shares := FillGroup(shares, s.prefer, s.headroom, Ratio(s.required, s.PreferRoom()));
    case Equal =>
      shares := map i | i in s.order :: s.EqualShare();
    case Filled =>
      shares := FillGroup(shares, s.prefer, s.headroom, 1.0);
      shares := FillGroup(shares, s.spill, s.headroom, Ratio(s.Remainder(), s.SpillRoom()));
  }

  /** `for index in group: shares[index] = ...` */
  method FillGroup(before: map<Device, real>, devices: seq<Device>, headroom: map<Device, nat>, fraction: real)
    returns (shares: map<Device, real>)
    ensures shares == before + Portions(devices, headroom, fraction)
  {
    shares := before;
    for n := 0 to |devices|
      invariant shares == before + Portions(devices[..n], headroom, fraction)
    {
      var index := devices[n];
      var share := fraction * UnitsOf(headroom, index) as real;
      PortionsNext(devices, n, headroom, fraction, share);
      MergeUpdate(before, Portions(devices[..n], headroom, fraction), index, share);
      shares := shares[index := share];
    }
    assert devices[..|devices|] == devices;
  }

  lemma MergeUpdate(a: map<Device, real>, b: map<Device, real>, k: Device, v: real)
    ensures (a + b)[k := v] == a + b[k := v]
  {
  }

  lemma PortionsNext(devices: seq<Device>, n: nat, headroom: map<Device, nat>, fraction: real, share: real)
    requires n < |devices| && share == fraction * UnitsOf(headroom, devices[n]) as real
    ensures Portions(devices[..n + 1], headroom, fraction) ==
              Portions(devices[..n], headroom, fraction)[devices[n] := share]
  {
    assert devices[..n + 1] == devices[..n] + [devices[n]];
    var now, next := Portions(devices[..n], headroom, fraction), Portions(devices[..n + 1], headroom, fraction);
    forall i ensures i in next <==> i in now || i == devices[n] {
    }
    forall i | i in next ensures next[i] == if i == devices[n] then share else now[i] {
    }
    assert next == now[devices[n] := share];
  }

  /** `propose`: no proposal for a model of unknown size or when no device is usable. */
  method Propose(required: Option<nat>, rows: seq<Row>, policy: Policy, pinned: map<Device, nat>)
    returns (answer: Option<Proposal>)
    requires Distinct(Indices(rows)) && policy.splitScale >= 1
    ensures answer.Some? <==> required.Some? && Request(required.value, rows, policy, pinned).Usable() != []
    ensures answer.Some? ==>
              var q := Request(required.value, rows, policy, pinned);
              && fresh(answer.value)
              && answer.value.devices == q.Order()
              && answer.value.split == SplitOf(q) && |SplitOf(q)| == |q.Order()|
              && answer.value.projected == ProjectedBytes(q.required, q.Order(), SplitOf(q))
              && answer.value.slack == SlackBytes(q.required, q.Order(), q.Budget(), SplitOf(q))
              && (answer.value.fits <==> NoneNegative(answer.value.slack))
  {
    if required == None {
      return None;
    }
    var q := Request(required.value, rows, policy, pinned);
    if q.Usable() == [] {
      return None;
    }
    var s := q.Gathered();
    var shares := ChooseShares(s);
    SharesAreWell(q);
    var split := SimplestSplit(q.Problem(), shares, s.headroom);
    SplitLength(q);
    var projected := ProjectedBytes(q.required, q.Order(), split);
    var slack := SlackBytes(q.required, q.Order(), q.Budget(), split);
    var proposal := new Proposal(q.Order(), split, projected, slack);
    answer := Some(proposal);
  }

  lemma SplitLength(q: Request)
    requires q.Placeable()
    ensures |SplitOf(q)| == |q.Order()|
  {
    SharesAreWell(q);
    var _ := ReducedIsProportional(Listed(q.Problem().order, ChosenWeights(q.Problem(), q.Gathered().Shares(), q.Gathered().headroom)));
  }

  /** The slack of a device once its pinned bytes are charged. */
  function SlackAfter(q: Request, k: nat): real
    requires q.Placeable() && k < |q.Order()|
  {
    SplitLength(q);
    ShareOf(SlackBytes(q.required, q.Order(), q.Budget(), SplitOf(q)), q.Order()[k]) - UnitsOf(q.pinned, q.Order()[k]) as real
  }

  /** A request that fits its headroom is proposed as fitting, and is still fitting once its
      pinned bytes are charged, exactly when every device the split leaves empty can hold the
      bytes pinned to it by itself. */
  lemma ChargedProposalFitsIff(q: Request)
    requires WellRequested(q) && q.Gathered().WithinHeadroom() && FineEnough(q)
    ensures |SplitOf(q)| == |q.Order()|
    ensures NoneNegative(SlackBytes(q.required, q.Order(), q.Budget(), SplitOf(q)))
    ensures (forall k :: 0 <= k < |q.Order()| ==> SlackAfter(q, k) >= 0.0) <==>
              forall k :: 0 <= k < |q.Order()| && SplitOf(q)[k] == 0 ==>
                UnitsOf(q.pinned, q.Order()[k]) <= BudgetOf(q.Budget(), q.Order()[k])
  {
    ProposalRespectsBudgets(q);
    forall k | 0 <= k < |q.Order()|
      ensures ShareOf(SlackBytes(q.required, q.Order(), q.Budget(), SplitOf(q)), q.Order()[k]) >= 0.0
      ensures SplitOf(q)[k] > 0 ==> SlackAfter(q, k) >= 0.0
      ensures SplitOf(q)[k] == 0 ==>
                (SlackAfter(q, k) >= 0.0 <==> UnitsOf(q.pinned, q.Order()[k]) <= BudgetOf(q.Budget(), q.Order()[k]))
    {
      ChargedDevice(q, k);
    }
  }

  /** One device's slack, before and after its pinned bytes are charged. */
  lemma ChargedDevice(q: Request, k: nat)
    requires q.Placeable() && k < |q.Order()| && |SplitOf(q)| == |q.Order()| && SplitTotal(SplitOf(q)) > 0
    ensures SlackAfter(q, k) == BudgetOf(q.Budget(), q.Order()[k]) as real
              - Bytes(q.required as real, SplitOf(q)[k], SplitTotal(SplitOf(q))) - UnitsOf(q.pinned, q.Order()[k]) as real
    ensures ShareOf(SlackBytes(q.required, q.Order(), q.Budget(), SplitOf(q)), q.Order()[k])
              == SlackAfter(q, k) + UnitsOf(q.pinned, q.Order()[k]) as real
    ensures SplitOf(q)[k] == 0 ==> Bytes(q.required as real, SplitOf(q)[k], SplitTotal(SplitOf(q))) == 0.0
  {
    SlackAt(q.required, q.Order(), q.Budget(), SplitOf(q), k);
  }

  lemma SlackAt(required: nat, order: seq<Device>, budget: Budgets, split: seq<nat>, k: nat)
    requires |split| == |order| && Distinct(order) && SplitTotal(split) > 0 && k < |order|
    ensures ShareOf(SlackBytes(required, order, budget, split), order[k])
              == BudgetOf(budget, order[k]) as real - Bytes(required as real, split[k], SplitTotal(split))
    ensures split[k] == 0 ==> Bytes(required as real, split[k], SplitTotal(split)) == 0.0
  {
    ProjectedAt(required, order, split, k);
    BytesAreUnits(required as real, 0, SplitTotal(split));
  }

  /** `projector_index` and `pinned_bytes`: the projector's bytes, on the device it is pinned to. */
  function PinnedBytes(size: Option<nat>, pin: Pin): map<Device, nat> {
    if pin.Pinned? && size.Some? && size.value > 0 then map[pin.index := size.value] else map[]
  }

  /** Proposing with the pinned bytes withheld and then charging them, as every report does. The
      final verdict on a request that fits its headroom is whether the pinned device, if the split
      leaves it empty, can hold the projector by itself. */
  method ProposeAndCharge(required: nat, rows: seq<Row>, policy: Policy, size: Option<nat>, pin: Pin)
    returns (answer: Option<Proposal>)
    requires Distinct(Indices(rows)) && policy.splitScale >= 1
    ensures answer.Some? ==> fresh(answer.value)
    ensures var q := Request(required, rows, policy, PinnedBytes(size, pin));
            WellRequested(q) && q.Gathered().WithinHeadroom() && FineEnough(q) ==>
              && answer.Some? && answer.value.split == SplitOf(q) && |SplitOf(q)| == |q.Order()|
              && (answer.value.fits <==>
                    forall k :: 0 <= k < |q.Order()| && SplitOf(q)[k] == 0 ==>
                      UnitsOf(q.pinned, q.Order()[k]) <= BudgetOf(q.Budget(), q.Order()[k]))
  {
    hide SplitOf, SlackBytes, ProjectedBytes, SlackAfter, FineEnough, NoneNegative, BudgetOf;
    var pinned := PinnedBytes(size, pin);
    ghost var q := Request(required, rows, policy, pinned);
    answer := Propose(Some(required), rows, policy, pinned);
    if answer.Some? {
      ghost var before := answer.value.slack;
      answer.value.ChargeProjector(size, pin);
      ghost var after := answer.value.slack;
      assert after.Keys == before.Keys && forall i :: i in before ==> after[i] == before[i] - UnitsOf(pinned, i) as real;
      assert answer.value.fits <==> NoneNegative(after);
      if WellRequested(q) && q.Gathered().WithinHeadroom() && FineEnough(q) {
        ChargedProposalFitsIff(q);
        ChargedSlack(q, before, after);
      }
    }
  }

  /** The slack after the charge, device by device. */
  lemma ChargedSlack(q: Request, before: map<Device, real>, after: map<Device, real>)
    requires q.Placeable() && |SplitOf(q)| == |q.Order()|
    requires before == SlackBytes(q.required, q.Order(), q.Budget(), SplitOf(q))
    requires after.Keys == before.Keys
    requires forall i :: i in before ==> after[i] == before[i] - UnitsOf(q.pinned, i) as real
    ensures NoneNegative(after) <==> forall k :: 0 <= k < |q.Order()| ==> SlackAfter(q, k) >= 0.0
  {
    assert forall i :: i in before <==> i in q.Order();
    hide SplitOf, SlackBytes, BudgetOf;
    forall k | 0 <= k < |q.Order()| ensures SlackAfter(q, k) == after[q.Order()[k]] {
    }
    if forall k :: 0 <= k < |q.Order()| ==> SlackAfter(q, k) >= 0.0 {
      forall i | i in after ensures after[i] >= 0.0 {
        var k :| 0 <= k < |q.Order()| && q.Order()[k] == i;
        assert SlackAfter(q, k) == after[i];
      }
    }
  }

  /** When a coarse scale is taken, every device with work keeps its whole margin even after
      its pinned bytes are charged. */
  lemma CoarseProposalKeepsMargin(q: Request, k: nat)
    requires WellRequested(q) && q.Gathered().WithinHeadroom() && k < |q.Order()|
    requires ScaleOf(q) < q.policy.splitScale
    requires |SplitOf(q)| == |q.Order()| && SplitOf(q)[k] > 0
    ensures SlackAfter(q, k) >= q.policy.Margin() as real
  {
    var p, headroom := q.Problem(), q.Gathered().headroom;
    RequestIsPlanned(q);
    PlanIsPrinted(q);
    CoarseSplitKeepsMargin(p, PlanOf(q), headroom, q.policy.Margin(), q.pinned);
    var w := WeightsOf(q);
    ListedTotal(p.order, w);
    ReducedBytes(p.required, Listed(p.order, w), k);
    ChargedDevice(q, k);
  }

  /** What a working device holds, the reserves included, is no more than it has. */
  lemma CardHoldsItsShare(devices: seq<Card>, q: Request, k: nat)
    requires |devices| == |q.rows| && k < |devices|
    requires forall j :: 0 <= j < |devices| ==> q.rows[j] == BudgetRow(devices[j], q.policy)
    requires WellRequested(q) && q.Gathered().WithinHeadroom() && FineEnough(q)
    requires |SplitOf(q)| == |q.Order()| && SplitOf(q)[k] > 0
    ensures devices[k].total.Some? && SplitTotal(SplitOf(q)) > 0
    ensures Bytes(q.required as real, SplitOf(q)[k], SplitTotal(SplitOf(q)))
              + (UnitsOf(q.pinned, q.Order()[k]) + q.rows[k].reserved) as real
            <= devices[k].total.value as real
  {
    ProposalRespectsBudgets(q);
    BudgetMapOf(q.rows, k);
    RequestIsGrouped(q);
    SharesHaveHeadroom(q.Gathered());
    assert ShareOf(q.Gathered().Shares(), q.Order()[k]) > 0.0;
    assert UnitsOf(q.Gathered().headroom, q.Order()[k]) > 0;
  }
}
