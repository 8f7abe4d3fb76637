/** Splits in lowest terms (`_reduce` in scripts/gpu_placement.py). */
module PlacementGcd {
  function Gcd(a: nat, b: nat): nat
    decreases b
  {
    if b == 0 then a else Gcd(b, a % b)
  }

  /** `reduce(gcd, weights, 0)` */
  function GcdAll(s: seq<nat>): nat {
    if s == [] then 0 else Gcd(GcdAll(s[..|s| - 1]), s[|s| - 1])
  }

  function Reduced(s: seq<nat>): seq<nat> {
    var divisor := GcdAll(s);
    if divisor > 1 then seq(|s|, k requires 0 <= k < |s| => Divided(s[k], divisor)) else s
  }

  /** `value // divisor` */
  function Divided(n: nat, d: nat): nat
    requires d > 0
  {
    n / d
  }

  function Scaled(c: nat, s: seq<nat>): seq<nat> {
    seq(|s|, k requires 0 <= k < |s| => c * s[k])
  }

  function SplitTotal(s: seq<nat>): nat {
    if s == [] then 0 else SplitTotal(s[..|s| - 1]) + s[|s| - 1]
  }

  lemma {:induction false} GcdDivides(a: nat, b: nat) returns (x: nat, y: nat)
    ensures a == Gcd(a, b) * x && b == Gcd(a, b) * y
    decreases b
  {
    if b == 0 {
      x, y := 1, 0;
    } else {
      var u, v := GcdDivides(b, a % b);
      x, y := a / b * u + v, u;
      Regroup(Gcd(a, b), a / b, u, v);
    }
  }

  lemma Regroup(g: nat, k: nat, u: nat, v: nat)
    ensures k * (g * u) + g * v == g * (k * u + v)
  {
    assert k * (g * u) == g * (k * u);
    assert g * (k * u + v) == g * (k * u) + g * v;
  }

  lemma ModScale(c: nat, a: nat, b: nat)
    requires c > 0 && b > 0
    ensures c * b > 0 && (c * a) % (c * b) == c * (a % b)
  {
    var q, r := a / b, a % b;
    Regroup(c, q, b, r);
    assert q * b + r == a;
    MulGap(c, r, b);
    ModUnique(c * a, c * b, q, c * r);
  }

  lemma MulGap(c: nat, r: nat, b: nat)
    requires c > 0 && r < b
    ensures c * r < c * b
  {
    assert c * b == c * r + c * (b - r);
  }

  lemma ModUnique(n: nat, d: nat, q: nat, r: nat)
    requires d > 0 && n == q * d + r && r < d
    ensures n % d == r && n / d == q
  {
    var k := n / d;
    QuotientsAgree(d, k, n % d, q, r);
  }

  lemma QuotientsAgree(d: nat, k: nat, m: nat, q: nat, r: nat)
    requires m < d && r < d && k * d + m == q * d + r
    ensures k == q && m == r
  {
    if k < q {
      Spread(d, k, q);
    } else if k > q {
      Spread(d, q, k);
    }
  }

  lemma {:induction false} Spread(d: nat, k: nat, q: nat)
    requires k < q
    ensures q * d >= k * d + d
  {
    if q == k + 1 {
      assert q * d == k * d + d;
    } else {
      Spread(d, k, q - 1);
      assert q * d == (q - 1) * d + d;
    }
  }

  lemma {:induction false} GcdScale(c: nat, a: nat, b: nat)
    requires c > 0
    ensures Gcd(c * a, c * b) == c * Gcd(a, b)
    decreases b
  {
    if b > 0 {
      ModScale(c, a, b);
      GcdScale(c, b, a % b);
    }
  }

  lemma ScaledTwice(c: nat, d: nat, s: seq<nat>)
    ensures Scaled(c, Scaled(d, s)) == Scaled(c * d, s)
  {
    forall k | 0 <= k < |s| ensures c * (d * s[k]) == (c * d) * s[k] {
    }
  }

  lemma {:induction false} GcdAllDivides(s: seq<nat>) returns (q: seq<nat>)
    ensures |q| == |s| && s == Scaled(GcdAll(s), q)
  {
    if s == [] {
      q := [];
    } else {
      var front, last := s[..|s| - 1], s[|s| - 1];
      var f := GcdAllDivides(front);
      var x, y := GcdDivides(GcdAll(front), last);
      q := Scaled(x, f) + [y];
      ScaledTwice(GcdAll(s), x, f);
      assert s == front + [last];
      assert Scaled(GcdAll(s), q) == Scaled(GcdAll(s), Scaled(x, f)) + [GcdAll(s) * y];
    }
  }

  lemma {:induction false} GcdAllScale(c: nat, s: seq<nat>)
    requires c > 0
    ensures GcdAll(Scaled(c, s)) == c * GcdAll(s)
  {
    if s != [] {
      GcdAllScale(c, s[..|s| - 1]);
      assert Scaled(c, s)[..|s| - 1] == Scaled(c, s[..|s| - 1]);
      GcdScale(c, GcdAll(s[..|s| - 1]), s[|s| - 1]);
    }
  }

  lemma {:induction false} TotalScale(c: nat, s: seq<nat>)
    ensures SplitTotal(Scaled(c, s)) == c * SplitTotal(s)
  {
    if s != [] {
      TotalScale(c, s[..|s| - 1]);
      assert Scaled(c, s)[..|s| - 1] == Scaled(c, s[..|s| - 1]);
      assert c * SplitTotal(s) == c * SplitTotal(s[..|s| - 1]) + c * s[|s| - 1];
    }
  }

  /** Whole-list division by a factor undoes multiplication by it. */
  lemma DividedScaled(c: nat, q: seq<nat>)
    requires c > 0
    ensures seq(|q|, k requires 0 <= k < |q| => Scaled(c, q)[k] / c) == q
  {
    forall k | 0 <= k < |q| ensures Scaled(c, q)[k] / c == q[k] {
      ModUnique(c * q[k], c, q[k], 0);
    }
  }

  /** The reduced list is the list of quotients by the common factor, whatever it is. */
  lemma ReducedIsQuotients(s: seq<nat>) returns (q: seq<nat>)
    ensures |q| == |s| && s == Scaled(GcdAll(s), q)
    ensures GcdAll(s) > 0 ==> Reduced(s) == q
    ensures GcdAll(s) == 0 ==> Reduced(s) == s
  {
    q := GcdAllDivides(s);
    if GcdAll(s) > 0 {
      DividedScaled(GcdAll(s), q);
    }
  }

  /** Reducing divides every weight by one common factor, so the proportions stay. */
  lemma ReducedIsProportional(s: seq<nat>) returns (c: nat)
    ensures c > 0 && |Reduced(s)| == |s| && s == Scaled(c, Reduced(s))
    ensures SplitTotal(s) == c * SplitTotal(Reduced(s))
  {
    var q := ReducedIsQuotients(s);
    c := if GcdAll(s) > 0 then GcdAll(s) else 1;
    TotalScale(c, Reduced(s));
  }

  /** Weights in the same proportion reduce to the same list, so a split has one printed form. */
  lemma ReducedIsCanonical(c: nat, s: seq<nat>)
    requires c > 0
    ensures Reduced(Scaled(c, s)) == Reduced(s)
  {
    GcdAllScale(c, s);
    var q := ReducedIsQuotients(s);
    if GcdAll(s) == 0 {
      assert Scaled(c, s) == s;
    } else {
      ScaledTwice(c, GcdAll(s), q);
      assert c * GcdAll(s) > 0;
      DividedScaled(c * GcdAll(s), q);
    }
  }
}
