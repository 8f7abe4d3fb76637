/** Sums of a few hundred small integers in binary32 arithmetic (precision p = 24, section 3.6 of
    IEEE 754-2019), added in any order the linear-algebra library likes. */
module FloatSums {
  const MANTISSA: int := 0x100_0000 // 2^24
  const PRODUCT: int := 16384       // 128 * 128

  function Abs(x: int): nat { if x < 0 then -x else x }

  function Pow2(e: nat): nat {
    if e == 0 then 1 else 2 * Pow2(e - 1)
  }

  /** The integers binary32 can hold, overflow aside: 24 significant bits and an exponent. */
  ghost predicate Representable(x: int) {
    exists m: int, e: nat :: Abs(m) < MANTISSA && x == m * Pow2(e)
  }

  lemma {:induction false} Pow2Even(e: nat)
    ensures Pow2(e) > 0 && (e > 0 ==> Pow2(e) % 2 == 0)
  {
    if e > 0 {
      Pow2Even(e - 1);
      DoubleIsEven(Pow2(e - 1));
    }
  }

  lemma DoubleIsEven(n: int)
    ensures 2 * n % 2 == 0
  {
  }

  /** Every integer up to 2^24, every double of one that can be held, and not 2^24 + 1: the format is
      binary, and its significand has 24 bits. */
  lemma BinaryWith24Bits(x: int)
    ensures -16777216 <= x <= 16777216 ==> Representable(x)
    ensures Representable(x) ==> Representable(2 * x)
    ensures !Representable(16777217)
  {
    if -16777216 < x < 16777216 {
      SmallIsRepresentable(x);
    } else if x == 16777216 {
      SmallIsRepresentable(8388608);
      DoubleIsRepresentable(8388608);
    } else if x == -16777216 {
      SmallIsRepresentable(-8388608);
      DoubleIsRepresentable(-8388608);
    }
    DoubleIsRepresentable(x);
    TooManyBits();
    hide Representable;
  }

  lemma DoubleIsRepresentable(x: int)
    ensures Representable(x) ==> Representable(2 * x)
  {
    if Representable(x) {
      var m: int, e: nat :| Abs(m) < MANTISSA && x == m * Pow2(e);
      Doubled(m, Pow2(e));
      assert 2 * x == m * Pow2(e + 1);
    }
  }

  lemma Doubled(m: int, p: int)
    ensures m * (2 * p) == 2 * (m * p)
  {
  }

  lemma TooManyBits()
    ensures !Representable(16777217)
  {
    if Representable(16777217) {
      var m: int, e: nat :| Abs(m) < MANTISSA && 16777217 == m * Pow2(e);
      Pow2Even(e);
      if e > 0 {
        OddIsNotEven(m, Pow2(e));
      }
    }
  }

  lemma OddIsNotEven(m: int, p: int)
    requires p % 2 == 0
    ensures m * p % 2 == 0
  {
    var h := p / 2;
    assert m * p == 2 * (m * h);
  }

  /** All a correct rounding has to promise here: a number that can be held is kept. The
      rounding direction and what happens to the other numbers are left open. */
  ghost predicate Rounds(round: int -> int) {
    forall x :: Representable(x) ==> round(x) == x
  }

  lemma SmallIsRepresentable(x: int)
    requires Abs(x) < MANTISSA
    ensures Representable(x)
  {
    assert x == x * Pow2(0);
  }

  /** The way one output cell is added up: products in any order and association, with or
      without fused multiply-add, from zeros if the library pads. */
  datatype Order = Zero | Product(k: nat) | Add(left: Order, right: Order) | Fused(into: Order, k: nat)

  function Uses(t: Order): set<nat> {
    match t
    case Zero => {}
    case Product(k) => {k}
    case Add(l, r) => Uses(l) + Uses(r)
    case Fused(l, k) => Uses(l) + {k}
  }

  /** No product is added twice. */
  predicate Once(t: Order) {
    match t
    case Zero => true
    case Product(_) => true
    case Add(l, r) => Once(l) && Once(r) && Uses(l) !! Uses(r)
    case Fused(l, k) => Once(l) && k !in Uses(l)
  }

  ghost predicate Schedules(t: Order, n: nat) {
    Once(t) && forall k: nat :: k in Uses(t) <==> k < n
  }

  function FloatSum(t: Order, p: seq<int>, round: int -> int): int
    requires forall k :: k in Uses(t) ==> k < |p|
  {
    match t
    case Zero => 0
    case Product(k) => assert k in Uses(t); round(p[k])
    case Add(l, r) =>
      assert forall k :: k in Uses(l) || k in Uses(r) ==> k in Uses(t);
      round(FloatSum(l, p, round) + FloatSum(r, p, round))
    case Fused(l, k) => assert k in Uses(t); round(FloatSum(l, p, round) + p[k])
  }

  // --- the exact value -------------------------------------------------------------------

  function Sum(s: seq<int>): int {
    if s == [] then 0 else Sum(s[..|s| - 1]) + s[|s| - 1]
  }

  lemma {:induction false} SumAppend(s: seq<int>, t: seq<int>)
    ensures Sum(s + t) == Sum(s) + Sum(t)
  {
    if t == [] {
      assert s + t == s;
    } else {
      assert (s + t)[..|s + t| - 1] == s + t[..|t| - 1];
      SumAppend(s, t[..|t| - 1]);
    }
  }

  lemma {:induction false} SumBound(s: seq<int>, bound: nat)
    requires forall k :: 0 <= k < |s| ==> Abs(s[k]) <= bound
    ensures Abs(Sum(s)) <= |s| * bound
  {
    if s != [] {
      SumBound(s[..|s| - 1], bound);
      assert |s| * bound == (|s| - 1) * bound + bound;
    }
  }

  /** The products of `p` that are in `used`, the others replaced by zero. */
  function Masked(p: seq<int>, used: set<nat>): (r: seq<int>)
    ensures |r| == |p|
  {
    seq(|p|, k requires 0 <= k < |p| => if k in used then p[k] else 0)
  }

  lemma {:induction false} SumOfSums(a: seq<int>, b: seq<int>, c: seq<int>)
    requires |a| == |b| == |c| && forall k :: 0 <= k < |a| ==> c[k] == a[k] + b[k]
    ensures Sum(c) == Sum(a) + Sum(b)
  {
    if a != [] {
      var n := |a| - 1;
      SumOfSums(a[..n], b[..n], c[..n]);
    }
  }

  lemma {:induction false} SumOfZeros(a: seq<int>)
    requires forall k :: 0 <= k < |a| ==> a[k] == 0
    ensures Sum(a) == 0
  {
    if a != [] {
      SumOfZeros(a[..|a| - 1]);
    }
  }

  lemma {:induction false} SumOfOne(a: seq<int>, n: nat)
    requires n < |a| && forall k :: 0 <= k < |a| && k != n ==> a[k] == 0
    ensures Sum(a) == a[n]
  {
    var m := |a| - 1;
    if n == m {
      SumOfZeros(a[..m]);
    } else {
      SumOfOne(a[..m], n);
    }
  }

  lemma MaskedAdds(p: seq<int>, a: set<nat>, b: set<nat>)
    requires a !! b
    ensures Sum(Masked(p, a + b)) == Sum(Masked(p, a)) + Sum(Masked(p, b))
  {
    SumOfSums(Masked(p, a), Masked(p, b), Masked(p, a + b));
  }

  lemma MaskedOne(p: seq<int>, k: nat)
    requires k < |p|
    ensures Sum(Masked(p, {k})) == p[k]
  {
    SumOfOne(Masked(p, {k}), k);
  }

  /** Whatever has been added so far is small. */
  lemma MaskedBound(p: seq<int>, used: set<nat>)
    requires |p| <= 512 && forall k :: 0 <= k < |p| ==> Abs(p[k]) <= PRODUCT
    ensures Abs(Sum(Masked(p, used))) <= 0x80_0000
  {
    SumBound(Masked(p, used), PRODUCT);
  }

  /** Every intermediate value of every order of adding at most 512 products is an integer of
      magnitude at most 2^23, so binary32 holds it and no step rounds. */
  lemma {:induction false} PartialsAreExact(t: Order, p: seq<int>, round: int -> int)
    requires |p| <= 512 && forall k :: 0 <= k < |p| ==> Abs(p[k]) <= PRODUCT
    requires Rounds(round) && Once(t) && forall k :: k in Uses(t) ==> k < |p|
    ensures FloatSum(t, p, round) == Sum(Masked(p, Uses(t)))
    ensures Abs(FloatSum(t, p, round)) <= 0x80_0000
  {
    hide Sum, Representable;
    MaskedBound(p, Uses(t));
    SmallIsRepresentable(Sum(Masked(p, Uses(t))));
    match t {
      case Zero => SumOfZeros(Masked(p, {}));
      case Product(k) =>
        assert k in Uses(t);
        MaskedOne(p, k);
      case Add(l, r) =>
        PartialsAreExact(l, p, round);
        PartialsAreExact(r, p, round);
        MaskedAdds(p, Uses(l), Uses(r));
      case Fused(l, k) =>
        assert k in Uses(t);
        PartialsAreExact(l, p, round);
        MaskedOne(p, k);
        MaskedAdds(p, Uses(l), {k});
    }
  }

  /** So any complete schedule gives the plain sum. */
  lemma AnyOrderIsExact(t: Order, p: seq<int>, round: int -> int)
    requires |p| <= 512 && forall k :: 0 <= k < |p| ==> Abs(p[k]) <= PRODUCT
    requires Rounds(round) && Schedules(t, |p|)
    ensures FloatSum(t, p, round) == Sum(p)
  {
    PartialsAreExact(t, p, round);
    assert Masked(p, Uses(t)) == p;
  }

  /** Adding from left to right, as the plain loop would, is one such schedule, so there are some
      for every length. */
  function LeftToRight(n: nat): Order {
    if n == 0 then Zero else Fused(LeftToRight(n - 1), n - 1)
  }

  lemma {:induction false} LeftToRightSchedules(n: nat)
    ensures Schedules(LeftToRight(n), n)
  {
    if n > 0 {
      LeftToRightSchedules(n - 1);
    }
  }

  /** Adding pairwise, halves first, is another. */
  function Pairwise(from: nat, count: nat): Order
    requires count > 0
    decreases count
  {
    if count == 1 then Product(from)
    else Add(Pairwise(from, count / 2), Pairwise(from + count / 2, count - count / 2))
  }

  lemma {:induction false} PairwiseUses(from: nat, count: nat)
    requires count > 0
    ensures Once(Pairwise(from, count)) && forall k: nat :: k in Uses(Pairwise(from, count)) <==> from <= k < from + count
    decreases count
  {
    if count > 1 {
      PairwiseUses(from, count / 2);
      PairwiseUses(from + count / 2, count - count / 2);
    }
  }

  lemma PairwiseSchedules(n: nat)
    requires n > 0
    ensures Schedules(Pairwise(0, n), n)
  {
    PairwiseUses(0, n);
  }
}
