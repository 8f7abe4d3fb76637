/** Sums over an ordered list of devices, for exact shares and for integer split units.
    A device that a dictionary does not mention contributes nothing, as `dict.get(i, 0)` does. */
module PlacementSums {
  import opened Common

  /** A ROCm index. */
  type Device = int

  function ShareOf(f: map<Device, real>, i: Device): real {
    if i in f then f[i] else 0.0
  }

  function UnitsOf(w: map<Device, nat>, i: Device): nat {
    if i in w then w[i] else 0
  }

  function Sum(order: seq<Device>, f: map<Device, real>): real {
    if order == [] then 0.0 else ShareOf(f, order[0]) + Sum(order[1..], f)
  }

  function Units(order: seq<Device>, w: map<Device, nat>): nat {
    if order == [] then 0 else UnitsOf(w, order[0]) + Units(order[1..], w)
  }

  lemma {:induction false} UnitsUpdate(order: seq<Device>, w: map<Device, nat>, k: Device, v: nat)
    requires Distinct(order)
    ensures Units(order, w[k := v]) == Units(order, w) + if k in order then v - UnitsOf(w, k) else 0
  {
    if order != [] {
      DistinctTail(order);
      UnitsUpdate(order[1..], w, k, v);
    }
  }

  /** One device strictly above another assignment, with an equal or larger total there,
      leaves some device strictly below. */
  lemma {:induction false} UnitsBelowSomewhere(order: seq<Device>, a: map<Device, nat>, b: map<Device, nat>)
    requires Units(order, a) <= Units(order, b)
    requires exists k :: k in order && UnitsOf(a, k) > UnitsOf(b, k)
    ensures exists k :: k in order && UnitsOf(a, k) < UnitsOf(b, k)
  {
    if forall k :: k in order ==> UnitsOf(a, k) >= UnitsOf(b, k) {
      var k :| k in order && UnitsOf(a, k) > UnitsOf(b, k);
      UnitsStrict(order, a, b, k);
    }
  }

  lemma {:induction false} UnitsMono(order: seq<Device>, a: map<Device, nat>, b: map<Device, nat>)
    requires forall k :: k in order ==> UnitsOf(a, k) <= UnitsOf(b, k)
    ensures Units(order, a) <= Units(order, b)
  {
    if order != [] {
      UnitsMono(order[1..], a, b);
    }
  }

  lemma {:induction false} UnitsZero(order: seq<Device>, w: map<Device, nat>)
    requires forall i :: i in order ==> UnitsOf(w, i) == 0
    ensures Units(order, w) == 0
  {
    if order != [] {
      UnitsZero(order[1..], w);
    }
  }

  lemma {:induction false} UnitsStrict(order: seq<Device>, a: map<Device, nat>, b: map<Device, nat>, k: Device)
    requires forall j :: j in order ==> UnitsOf(a, j) >= UnitsOf(b, j)
    requires k in order && UnitsOf(a, k) > UnitsOf(b, k)
    ensures Units(order, a) > Units(order, b)
  {
    if k == order[0] {
      UnitsMono(order[1..], b, a);
    } else {
      UnitsStrict(order[1..], a, b, k);
    }
  }

  lemma {:induction false} UnitsCover(order: seq<Device>, w: map<Device, nat>, k: Device)
    requires k in order
    ensures UnitsOf(w, k) <= Units(order, w)
  {
    if k != order[0] {
      UnitsCover(order[1..], w, k);
    }
  }

  /** A total larger than the number of devices puts at least two units somewhere. */
  lemma {:induction false} UnitsPigeonhole(order: seq<Device>, w: map<Device, nat>)
    requires Units(order, w) > |order|
    ensures exists k :: k in order && UnitsOf(w, k) > 1
  {
    if order == [] {
    } else if UnitsOf(w, order[0]) > 1 {
      assert order[0] in order;
    } else {
      UnitsPigeonhole(order[1..], w);
      var k :| k in order[1..] && UnitsOf(w, k) > 1;
      assert k in order;
    }
  }

  lemma {:induction false} SumScale(order: seq<Device>, f: map<Device, real>, g: map<Device, real>, c: real)
    requires forall i :: i in order ==> ShareOf(g, i) == c * ShareOf(f, i)
    ensures Sum(order, g) == c * Sum(order, f)
  {
    if order != [] {
      SumScale(order[1..], f, g, c);
      assert Sum(order, g) == c * ShareOf(f, order[0]) + c * Sum(order[1..], f);
    }
  }

  lemma {:induction false} SumNonNegative(order: seq<Device>, f: map<Device, real>)
    requires forall i :: i in order ==> ShareOf(f, i) >= 0.0
    ensures Sum(order, f) >= 0.0
    ensures forall i :: i in order ==> ShareOf(f, i) <= Sum(order, f)
  {
    if order != [] {
      SumNonNegative(order[1..], f);
    }
  }

  lemma {:induction false} SumMono(order: seq<Device>, f: map<Device, real>, g: map<Device, real>)
    requires forall i :: i in order ==> ShareOf(f, i) <= ShareOf(g, i)
    ensures Sum(order, f) <= Sum(order, g)
  {
    if order != [] {
      SumMono(order[1..], f, g);
    }
  }

  /** Splitting every value into a whole part and a remainder splits the sum. */
  lemma {:induction false} SumParts(order: seq<Device>, f: map<Device, real>, w: map<Device, nat>, r: map<Device, real>)
    requires forall i :: i in order ==> ShareOf(f, i) == UnitsOf(w, i) as real + ShareOf(r, i)
    ensures Sum(order, f) == Units(order, w) as real + Sum(order, r)
  {
    if order != [] {
      SumParts(order[1..], f, w, r);
    }
  }

  lemma {:induction false} SumAtMostCount(order: seq<Device>, f: map<Device, real>)
    requires forall i :: i in order ==> ShareOf(f, i) <= 1.0
    ensures Sum(order, f) <= |order| as real
  {
    if order != [] {
      SumAtMostCount(order[1..], f);
    }
  }

  lemma {:induction false} SumNonPositive(order: seq<Device>, f: map<Device, real>)
    requires forall i :: i in order ==> ShareOf(f, i) <= 0.0
    ensures Sum(order, f) <= 0.0
  {
    if order != [] {
      SumNonPositive(order[1..], f);
    }
  }

  lemma {:induction false} SumAppend(a: seq<Device>, b: seq<Device>, f: map<Device, real>)
    ensures Sum(a + b, f) == Sum(a, f) + Sum(b, f)
  {
    if a == [] {
      assert a + b == b;
    } else {
      SumAppend(a[1..], b, f);
      assert (a + b)[1..] == a[1..] + b;
    }
  }

  lemma {:induction false} SumUpdate(order: seq<Device>, f: map<Device, real>, k: Device, v: real)
    requires Distinct(order)
    ensures Sum(order, f[k := v]) == Sum(order, f) + if k in order then v - ShareOf(f, k) else 0.0
  {
    if order != [] {
      DistinctTail(order);
      SumUpdate(order[1..], f, k, v);
    }
  }

  /** A list of distinct devices drawn from another sums to no more. */
  lemma {:induction false} SumSubset(part: seq<Device>, order: seq<Device>, f: map<Device, real>)
    requires Distinct(part) && Distinct(order)
    requires forall i :: i in part ==> i in order
    requires forall i :: i in order ==> ShareOf(f, i) >= 0.0
    requires forall i :: i in order && i !in part ==> ShareOf(f, i) == 0.0
    ensures Sum(part, f) == Sum(order, f)
  {
    if part == [] {
      SumZero(order, f);
    } else {
      DistinctTail(part);
      var g := f[part[0] := 0.0];
      SumUpdate(order, f, part[0], 0.0);
      SumUpdate(part[1..], f, part[0], 0.0);
      forall i | i in order && i !in part[1..] ensures ShareOf(g, i) == 0.0 {
        assert i in part ==> i == part[0];
      }
      SumSubset(part[1..], order, g);
    }
  }

  lemma {:induction false} SumZero(order: seq<Device>, f: map<Device, real>)
    requires forall i :: i in order ==> ShareOf(f, i) == 0.0
    ensures Sum(order, f) == 0.0
  {
    if order != [] {
      SumZero(order[1..], f);
    }
  }

  /** Insertion into a list, at any place, adds exactly one term. */
  lemma SumInsert(a: seq<Device>, x: Device, b: seq<Device>, f: map<Device, real>)
    ensures Sum(a + [x] + b, f) == ShareOf(f, x) + Sum(a + b, f)
  {
    SumAppend(a + [x], b, f);
    SumAppend(a, [x], f);
    SumAppend(a, b, f);
    assert Sum([x], f) == ShareOf(f, x) + Sum([], f) by {
      assert [x][1..] == [];
    }
  }
}
