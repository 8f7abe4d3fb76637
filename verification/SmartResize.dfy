/** The image size a Qwen2-VL processor feeds its model (`smart_resize` and its rounding helpers in
    verification/computer-use-grounding/culib.py), over exact reals. The square root is a
    parameter that satisfies its defining equation. */
module SmartResize {
  import opened Common

  datatype Budget = Budget(factor: int, min: int, max: int)

  /** The two budgets in use: UI-TARS and UI-Mate. */
  const UI_TARS := Budget(28, 3136, 12845056)
  const UI_MATE := Budget(32, 65536, 16777216)

  function Max(a: int, b: int): int { if a > b then a else b }
  function Min(a: int, b: int): int { if a < b then a else b }

  /** Python's `round`: to the nearest integer, ties to the even one. */
  function RoundHalfEven(x: real): int {
    var n := x.Floor;
    var part := x - n as real;
    if part < 0.5 || (part == 0.5 && n % 2 == 0) then n else n + 1
  }

  function Ceil(x: real): int { -((-x).Floor) }

  function RoundBy(x: real, factor: int): int
    requires factor > 0
  {
    RoundHalfEven(x / factor as real) * factor
  }

  function FloorBy(x: real, factor: int): int
    requires factor > 0
  {
    (x / factor as real).Floor * factor
  }

  function CeilBy(x: real, factor: int): int
    requires factor > 0
  {
    Ceil(x / factor as real) * factor
  }

  datatype Size = Size(width: int, height: int)

  /** The size before the budget is looked at. */
  function Snapped(width: nat, height: nat, factor: int): Size
    requires factor > 0
  {
    Size(Max(factor, RoundBy(width as real, factor)), Max(factor, RoundBy(height as real, factor)))
  }

  function Shrunk(width: nat, height: nat, factor: int, beta: real): Size
    requires factor > 0 && beta > 0.0
  {
    Size(Max(factor, FloorBy(width as real / beta, factor)), Max(factor, FloorBy(height as real / beta, factor)))
  }

  function Grown(width: nat, height: nat, factor: int, beta: real): Size
    requires factor > 0 && beta > 0.0
  {
    Size(CeilBy(width as real * beta, factor), CeilBy(height as real * beta, factor))
  }

  function Area(s: Size): int { s.width * s.height }

  /** `beta` is the square root the code takes: the positive solution of its equation. */
  ghost predicate ShrinkRoot(beta: real, width: nat, height: nat, max: int)
    requires max > 0
  {
    beta > 0.0 && beta * beta == (height * width) as real / max as real
  }

  ghost predicate GrowRoot(beta: real, width: nat, height: nat, min: int)
    requires width > 0 && height > 0
  {
    beta > 0.0 && beta * beta == min as real / (height * width) as real
  }

  /** The processor's limit on the aspect ratio; an empty image has none. */
  predicate Supported(width: nat, height: nat) {
    width > 0 && height > 0 && Max(height, width) as real / Min(height, width) as real <= 200.0
  }

  /** `smart_resize`; None where it raises. `shrink` and `grow` are the two square roots, each
      used only in its own branch. */
  function Resize(width: nat, height: nat, b: Budget, shrink: real, grow: real): Option<Size>
    requires b.factor > 0 && b.max > 0 && shrink > 0.0 && grow > 0.0
  {
    if !Supported(width, height) then None
    else
      var s := Snapped(width, height, b.factor);
      if Area(s) > b.max then Some(Shrunk(width, height, b.factor, shrink))
      else if Area(s) < b.min then Some(Grown(width, height, b.factor, grow))
      else Some(s)
  }

  function Square(f: int): int { f * f }

  /** The area of `n` by `m` blocks of `ff` pixels. */
  function Blocks(ff: int, n: int, m: int): int { ff * (n * m) }

  // --- small arithmetic ------------------------------------------------------------------------

  lemma Times(a: real, b: real, c: real)
    requires a >= 0.0 && b <= c
    ensures a * b <= a * c
  {
  }

  lemma TimesBelow(a: real, b: real, c: real)
    requires a > 0.0 && b < c
    ensures a * b < a * c
  {
  }

  lemma Products(a: real, b: real, c: real, d: real)
    requires 0.0 <= a <= c && 0.0 <= b <= d
    ensures a * b <= c * d
  {
    Times(a, b, d);
    Times(d, a, c);
  }

  lemma ProductsBelow(a: real, b: real, c: real, d: real)
    requires 0.0 < a < c && 0.0 < b < d
    ensures a * b < c * d
  {
    TimesBelow(a, b, d);
    TimesBelow(d, a, c);
  }

  lemma Quotient(x: real, d: real)
    requires d > 0.0
    ensures x / d * d == x
    ensures x > 0.0 ==> x / d > 0.0
  {
  }

  /** Sides `x` and `y`, in units, of an image of exactly this area. */
  ghost predicate Ideal(x: real, y: real, ff: int, area: int) {
    ff as real * (x * y) == area as real
  }

  // --- shrinking ---------------------------------------------------------------------------------

  /** A side of the ideal shrunk image, in units of the factor. */
  function Units(side: nat, f: int, beta: real): real
    requires f > 0 && beta > 0.0
  {
    side as real / beta / f as real
  }

  lemma UnitsBack(side: nat, f: int, beta: real)
    requires f > 0 && beta > 0.0 && side > 0
    ensures Units(side, f, beta) > 0.0 && Units(side, f, beta) * f as real * beta == side as real
  {
    Quotient(side as real, beta);
    Quotient(side as real / beta, f as real);
  }

  lemma Cancel(p: real, a: real, m: real)
    requires a > 0.0 && m > 0.0 && p * (a / m) == a
    ensures p == m
  {
    var q := a / m;
    Quotient(a, m);
    assert q > 0.0 && p * q == m * q;
  }

  /** The ideal image has exactly the largest area. */
  lemma IdealArea(width: nat, height: nat, f: int, max: int, beta: real)
    requires width > 0 && height > 0 && f > 0 && max > 0 && ShrinkRoot(beta, width, height, max)
    ensures Ideal(Units(width, f, beta), Units(height, f, beta), Square(f), max)
  {
    hide Units;
    var x, y, g := Units(width, f, beta), Units(height, f, beta), f as real;
    UnitsBack(width, f, beta);
    UnitsBack(height, f, beta);
    var a := (height * width) as real;
    assert a == height as real * width as real;
    Regroup(x, y, g, beta);
    assert Square(f) as real == g * g;
    Cancel(g * g * (x * y), a, max as real);
  }

  lemma Regroup(x: real, y: real, g: real, b: real)
    ensures g * g * (x * y) * (b * b) == (y * g * b) * (x * g * b)
  {
  }

  /** A side in whole units: rounded down, but at least one. */
  function Whole(x: real): int { Max(1, x.Floor) }

  lemma WholeSide(side: nat, f: int, beta: real)
    requires f > 0 && beta > 0.0
    ensures Max(f, FloorBy(side as real / beta, f)) == Whole(Units(side, f, beta)) * f
  {
    var n := Units(side, f, beta).Floor;
    if n >= 1 {
      assert n * f >= f;
    } else {
      assert n * f <= 0;
    }
  }

  lemma WholeIsHalf(x: real)
    requires x > 0.0
    ensures x < 2.0 * Whole(x) as real
  {
  }

  /** Squares of the ideal sides, in terms of the image. */
  lemma SquaredUnits(lo: nat, hi: nat, f: int, max: int, beta: real)
    requires lo > 0 && hi > 0 && f > 0 && max > 0 && ShrinkRoot(beta, lo, hi, max)
    ensures var x := Units(lo, f, beta); (lo * max) as real == x * x * (Square(f) * hi) as real
  {
    hide Units;
    var x, y, g := Units(lo, f, beta), Units(hi, f, beta), f as real;
    UnitsBack(lo, f, beta);
    UnitsBack(hi, f, beta);
    IdealArea(lo, hi, f, max, beta);
    assert (Square(f) * hi) as real == Square(f) as real * hi as real;
    assert (lo * max) as real == lo as real * max as real;
    Exchange(x, y, Square(f) as real, g * beta, lo as real, hi as real);
  }

  lemma Exchange(x: real, y: real, ff: real, t: real, lo: real, hi: real)
    requires x * t == lo && y * t == hi
    ensures lo * (ff * (x * y)) == x * x * (ff * hi)
  {
    assert lo * (ff * (x * y)) == x * x * (ff * (y * t)) by {
      assert lo * (ff * (x * y)) == (x * t) * (ff * (x * y));
    }
  }

  lemma AtLeast(x: real, c: real, d: real)
    requires x > 0.0 && c > 0.0 && d > 0.0
    ensures x >= c <==> x * x * d >= c * c * d
  {
    if x >= c {
      Products(c, c, x, x);
      Times(d, c * c, x * x);
    } else {
      ProductsBelow(x, x, c, c);
      TimesBelow(d, x * x, c * c);
    }
  }

  /** The short side keeps at least one unit. */
  predicate Roomy(lo: nat, hi: nat, f: int, max: int) { lo * max >= Square(f) * hi }

  lemma RoomyMeans(lo: nat, hi: nat, f: int, max: int, beta: real)
    requires lo > 0 && hi > 0 && f > 0 && max > 0 && ShrinkRoot(beta, lo, hi, max)
    ensures Roomy(lo, hi, f, max) <==> Units(lo, f, beta) >= 1.0
  {
    UnitsBack(lo, f, beta);
    SquaredUnits(lo, hi, f, max, beta);
    hide Units;
    Positive(f, hi);
    AtLeast(Units(lo, f, beta), 1.0, (Square(f) * hi) as real);
  }

  lemma Positive(f: int, n: int)
    requires f > 0 && n > 0
    ensures Square(f) > 0 && Square(f) * n > 0
  {
    assert Square(f) >= 1;
  }

  /** The long side stays under `k + 1` units. */
  predicate Short(lo: nat, hi: nat, f: int, max: int, k: int) { hi * max < (k + 1) * (k + 1) * (Square(f) * lo) }

  lemma ShortMeans(lo: nat, hi: nat, f: int, max: int, beta: real, k: int)
    requires lo > 0 && hi > 0 && f > 0 && max > 0 && ShrinkRoot(beta, lo, hi, max) && k >= 0
    ensures Short(lo, hi, f, max, k) <==> Units(hi, f, beta) < (k + 1) as real
  {
    UnitsBack(hi, f, beta);
    assert ShrinkRoot(beta, hi, lo, max) by { assert hi * lo == lo * hi; }
    SquaredUnits(hi, lo, f, max, beta);
    hide Units;
    Positive(f, lo);
    var c := (k + 1) as real;
    AtLeast(Units(hi, f, beta), c, (Square(f) * lo) as real);
    assert ((k + 1) * (k + 1)) as real == c * c;
    assert ((k + 1) * (k + 1) * (Square(f) * lo)) as real == c * c * (Square(f) * lo) as real;
  }

  /** What a caller can check about an image that has to shrink: the shorter side keeps a unit, or
      the longer one fits in the budget beside a single unit. */
  predicate ShrinkFits(width: nat, height: nat, b: Budget)
    requires b.factor > 0
  {
    var lo, hi, ff := Min(width, height), Max(width, height), Square(b.factor);
    Positive(b.factor, 1);
    b.max >= ff && (Roomy(lo, hi, b.factor, b.max) || Short(lo, hi, b.factor, b.max, b.max / ff))
  }

  lemma RealArea(ff: int, n: int, m: int)
    ensures Blocks(ff, n, m) as real == ff as real * (n as real * m as real)
  {
    assert (n * m) as real == n as real * m as real;
    assert (ff * (n * m)) as real == ff as real * (n * m) as real;
  }

  /** Two sides of at least a unit are only rounded down. */
  lemma RoomyUnits(x: real, y: real, ff: int, max: int)
    requires ff > 0 && x >= 1.0 && y >= 1.0 && Ideal(x, y, ff, max)
    ensures Blocks(ff, Whole(x), Whole(y)) <= max && max >= ff
  {
    var n, m := Whole(x), Whole(y);
    assert 0.0 <= n as real <= x && 0.0 <= m as real <= y;
    hide Whole;
    RealArea(ff, n, m);
    Products(n as real, m as real, x, y);
    Times(ff as real, n as real * m as real, x * y);
    Products(1.0, 1.0, x, y);
    Times(ff as real, 1.0, x * y);
  }

  /** The same by units, for a short side `x` and a long side `y` of an ideal area of `max`. */
  lemma UnitsFit(x: real, y: real, ff: int, max: int)
    requires ff > 0 && max > 0 && 0.0 < x <= y && Ideal(x, y, ff, max)
    ensures Blocks(ff, Whole(x), Whole(y)) <= max <==> max >= ff && (x >= 1.0 || y < (max / ff + 1) as real)
  {
    if x >= 1.0 {
      RoomyUnits(x, y, ff, max);
    } else {
      var m, k := Whole(y), max / ff;
      assert Whole(x) == 1 && Whole(x) * m == m && m >= 1;
      assert k >= 1 ==> (m <= k <==> y < (k + 1) as real);
      hide Whole;
      WholeMultiple(max, ff);
      WholeUnits(m, k, ff, max);
    }
  }

  lemma WholeMultiple(max: int, ff: int)
    requires ff > 0
    ensures ff * (max / ff) <= max < ff * (max / ff + 1)
  {
    assert max == ff * (max / ff) + max % ff;
  }

  lemma WholeUnits(m: int, k: int, ff: int, max: int)
    requires ff > 0 && m >= 1 && ff * k <= max < ff * (k + 1) && max > 0
    ensures ff * m <= max <==> m <= k
    ensures max >= ff <==> k >= 1
  {
    IntTimes(ff, m, k);
    IntTimes(ff, k + 1, m);
    IntTimes(ff, 1, k);
    IntTimes(ff, k + 1, 1);
  }

  lemma IntTimes(a: int, b: int, c: int)
    requires a > 0
    ensures b <= c ==> a * b <= a * c
  {
  }

  lemma {:induction false} LongerIsLonger(lo: nat, hi: nat, f: int, beta: real)
    requires 0 < lo <= hi && f > 0 && beta > 0.0
    ensures 0.0 < Units(lo, f, beta) <= Units(hi, f, beta)
  {
    UnitsBack(lo, f, beta);
    UnitsBack(hi, f, beta);
    hide Units;
    var x, y, t := Units(lo, f, beta), Units(hi, f, beta), f as real * beta;
    if x > y {
      TimesBelow(t, y, x);
    }
  }

  lemma ShrunkArea(width: nat, height: nat, f: int, beta: real)
    requires f > 0 && beta > 0.0
    ensures Area(Shrunk(width, height, f, beta)) == Blocks(Square(f), Whole(Units(width, f, beta)), Whole(Units(height, f, beta)))
  {
    WholeSide(width, f, beta);
    WholeSide(height, f, beta);
    hide Units;
    var n, m := Whole(Units(width, f, beta)), Whole(Units(height, f, beta));
    SidesMakeArea(n, m, f);
  }

  lemma Commutes(ff: int, n: int, m: int)
    ensures Blocks(ff, n, m) == Blocks(ff, m, n)
  {
  }

  lemma SidesMakeArea(n: int, m: int, f: int)
    ensures (n * f) * (m * f) == Blocks(Square(f), n, m)
  {
  }

  /** A shrunk image is within the budget exactly when the image passes the check above: the clamp
      to one factor is what can break the bound. */
  lemma ShrunkWithinBudget(width: nat, height: nat, b: Budget, beta: real)
    requires width > 0 && height > 0 && b.factor > 0 && b.max > 0 && ShrinkRoot(beta, width, height, b.max)
    ensures Area(Shrunk(width, height, b.factor, beta)) <= b.max <==> ShrinkFits(width, height, b)
  {
    hide Units, Whole, Ideal, Square, Blocks, Roomy, Short, Area;
    var f, lo, hi, ff := b.factor, Min(width, height), Max(width, height), Square(b.factor);
    var x, y := Units(lo, f, beta), Units(hi, f, beta);
    ShrunkArea(width, height, f, beta);
    assert ShrinkRoot(beta, lo, hi, b.max) by { assert height * width == hi * lo; }
    Commutes(Square(f), Whole(x), Whole(y));
    LongerIsLonger(lo, hi, f, beta);
    IdealArea(lo, hi, f, b.max, beta);
    Positive(f, 1);
    UnitsFit(x, y, ff, b.max);
    RoomyMeans(lo, hi, f, b.max, beta);
    ShortMeans(lo, hi, f, b.max, beta, b.max / ff);
  }

  /** A shrunk image keeps more than a quarter of the budget. */
  lemma ShrunkIsNotTiny(width: nat, height: nat, f: int, max: int, beta: real)
    requires width > 0 && height > 0 && f > 0 && max > 0 && ShrinkRoot(beta, width, height, max)
    ensures max < 4 * Area(Shrunk(width, height, f, beta))
  {
    hide Units, Ideal, Square, Blocks, Whole, Area;
    ShrunkArea(width, height, f, beta);
    UnitsBack(width, f, beta);
    UnitsBack(height, f, beta);
    IdealArea(width, height, f, max, beta);
    Positive(f, 1);
    Quarter(Units(width, f, beta), Units(height, f, beta), Square(f), max);
  }

  lemma Quarter(x: real, y: real, ff: int, max: int)
    requires x > 0.0 && y > 0.0 && ff > 0 && Ideal(x, y, ff, max)
    ensures max < 4 * Blocks(ff, Whole(x), Whole(y))
  {
    var n, m := Whole(x), Whole(y);
    WholeIsHalf(x);
    WholeIsHalf(y);
    hide Whole;
    ProductsBelow(x, y, 2.0 * n as real, 2.0 * m as real);
    FourTimes(n as real, m as real);
    TimesBelow(ff as real, x * y, 4.0 * (n as real * m as real));
    RealArea(ff, n, m);
    Scale(ff as real, n as real * m as real);
  }

  lemma FourTimes(a: real, b: real)
    ensures (2.0 * a) * (2.0 * b) == 4.0 * (a * b)
  {
  }

  lemma Scale(a: real, b: real)
    ensures a * (4.0 * b) == 4.0 * (a * b)
  {
  }

  // --- growing -----------------------------------------------------------------------------------

  /** A side of the ideal grown image, in units of the factor. */
  function Stretched(side: nat, f: int, beta: real): real
    requires f > 0 && beta > 0.0
  {
    side as real * beta / f as real
  }

  lemma StretchedBack(side: nat, f: int, beta: real)
    requires f > 0 && beta > 0.0 && side > 0
    ensures Stretched(side, f, beta) > 0.0 && Stretched(side, f, beta) * f as real == side as real * beta
  {
    TimesBelow(beta, 0.0, side as real);
    Quotient(side as real * beta, f as real);
  }

  /** The ideal image has exactly the smallest area. */
  lemma IdealGrownArea(width: nat, height: nat, f: int, min: int, beta: real)
    requires width > 0 && height > 0 && f > 0 && GrowRoot(beta, width, height, min)
    ensures Ideal(Stretched(width, f, beta), Stretched(height, f, beta), Square(f), min)
  {
    StretchedBack(width, f, beta);
    StretchedBack(height, f, beta);
    hide Stretched;
    var x, y, g, w, h := Stretched(width, f, beta), Stretched(height, f, beta), f as real, width as real, height as real;
    assert Square(f) as real == g * g;
    assert (height * width) as real == h * w;
    RegroupGrown(x, y, g, w * beta, h * beta);
    RegroupGrown(w, h, beta, w * beta, h * beta);
    TimesBelow(h, 0.0, w);
    Quotient(min as real, h * w);
  }

  lemma RegroupGrown(x: real, y: real, g: real, a: real, b: real)
    requires x * g == a && y * g == b
    ensures g * g * (x * y) == a * b
  {
    assert g * g * (x * y) == (x * g) * (y * g);
  }

  lemma CeilIsAbove(x: real)
    ensures x <= Ceil(x) as real < x + 1.0
  {
  }

  lemma GrownArea(width: nat, height: nat, f: int, beta: real)
    requires f > 0 && beta > 0.0
    ensures Area(Grown(width, height, f, beta)) ==
              Blocks(Square(f), Ceil(Stretched(width, f, beta)), Ceil(Stretched(height, f, beta)))
  {
    SidesMakeArea(Ceil(Stretched(width, f, beta)), Ceil(Stretched(height, f, beta)), f);
  }

  /** Rounding both sides up never loses area. */
  lemma CeilKeepsArea(x: real, y: real, ff: int, min: int)
    requires ff > 0 && x > 0.0 && y > 0.0 && Ideal(x, y, ff, min)
    ensures Blocks(ff, Ceil(x), Ceil(y)) >= min
  {
    var n, m := Ceil(x), Ceil(y);
    CeilIsAbove(x);
    CeilIsAbove(y);
    hide Ceil;
    RealArea(ff, n, m);
    Products(x, y, n as real, m as real);
    Times(ff as real, x * y, n as real * m as real);
  }

  /** When the smallest area is over one block and the sides are within 200:1 of each other,
      rounding both up makes it less than eighteen times as large. */
  lemma CeilIsModest(x: real, y: real, ff: int, min: int)
    requires 0 < ff < min && 0.0 < x <= y <= 200.0 * x && Ideal(x, y, ff, min)
    ensures Blocks(ff, Ceil(x), Ceil(y)) < 18 * min
  {
    var n, m, q := Ceil(x), Ceil(y), x * y;
    CeilIsAbove(x);
    CeilIsAbove(y);
    hide Ceil;
    assert q > 1.0 by {
      if q <= 1.0 { Times(ff as real, q, 1.0); }
    }
    SidesBelow(x, y, q);
    assert n > 0 && m > 0;
    ProductsBelow(n as real, m as real, x + 1.0, y + 1.0);
    PlusOnes(x, y);
    TimesBelow(ff as real, n as real * m as real, 18.0 * q);
    RealArea(ff, n, m);
    Scale18(ff as real, q);
  }

  lemma PlusOnes(x: real, y: real)
    ensures (x + 1.0) * (y + 1.0) == x * y + x + y + 1.0
  {
  }

  lemma Scale18(a: real, b: real)
    ensures a * (18.0 * b) == 18.0 * (a * b)
  {
  }

  lemma SidesBelow(x: real, y: real, q: real)
    requires q > 1.0 && 0.0 < x <= y <= 200.0 * x && q == x * y
    ensures x <= q && y <= 15.0 * q
  {
    TimesBelow(q, 1.0, q);
    Grid(q);
    if x > q {
      Products(q, q, x, y);
    }
    if y > 15.0 * q {
      Products(0.075 * q, 15.0 * q, x, y);
    }
  }

  lemma Grid(q: real)
    ensures 0.075 * q * (15.0 * q) == 1.125 * (q * q)
  {
  }

  /** `n` blocks along a side, beside a proportional number along the other, reach the smallest area. */
  predicate Reaches(n: nat, side: nat, other: nat, ff: nat, min: nat) {
    n * n * (ff * other) >= side * min
  }

  /** The fewest such blocks, from `n` up. */
  function FewestFrom(n: nat, side: nat, other: nat, ff: nat, min: nat): nat
    requires n > 0 && ff * other > 0
    decreases side * min - n
  {
    if Reaches(n, side, other, ff, min) then n
    else
      NotYet(n, ff * other, side * min);
      FewestFrom(n + 1, side, other, ff, min)
  }

  lemma NotYet(n: nat, d: nat, goal: nat)
    requires n > 0 && d > 0 && n * n * d < goal
    ensures n < goal
  {
    IntTimes(n, 1, n);
    IntTimes(n * n, 1, d);
  }

  lemma {:induction false} FewestMeaning(n: nat, side: nat, other: nat, ff: nat, min: nat, k: nat)
    requires 0 < n <= k && ff * other > 0
    requires Reaches(k, side, other, ff, min)
    requires forall j :: n <= j < k ==> !Reaches(j, side, other, ff, min)
    ensures FewestFrom(n, side, other, ff, min) == k
    decreases k - n
  {
    hide Reaches;
    if n < k {
      FewestMeaning(n + 1, side, other, ff, min, k);
    }
  }

  /** Squares of the ideal grown sides, in terms of the image. */
  lemma SquaredStretched(side: nat, other: nat, f: int, min: nat, beta: real)
    requires side > 0 && other > 0 && f > 0 && GrowRoot(beta, side, other, min)
    ensures var x := Stretched(side, f, beta); (side * min) as real == x * x * (Square(f) * other) as real
  {
    hide Stretched;
    var x, y := Stretched(side, f, beta), Stretched(other, f, beta);
    StretchedBack(side, f, beta);
    StretchedBack(other, f, beta);
    IdealGrownArea(side, other, f, min, beta);
    assert (Square(f) * other) as real == Square(f) as real * other as real;
    assert (side * min) as real == side as real * min as real;
    Traded(x, y, Square(f) as real, f as real, beta, side as real, other as real, min as real);
  }

  lemma Traded(x: real, y: real, ff: real, g: real, beta: real, w: real, h: real, min: real)
    requires beta > 0.0 && x * g == w * beta && y * g == h * beta && ff * (x * y) == min
    ensures w * min == x * x * (ff * h)
  {
    var a, b := w * min, x * x * (ff * h);
    assert beta * a == x * g * (ff * (x * y)) by {
      assert beta * a == w * beta * min;
    }
    assert beta * b == x * x * ff * (y * g) by {
      assert beta * b == x * x * ff * (h * beta);
    }
    assert x * g * (ff * (x * y)) == x * x * ff * (y * g);
    SameFactor(beta, a, b);
  }

  lemma SameFactor(c: real, a: real, b: real)
    requires c > 0.0 && c * a == c * b
    ensures a == b
  {
    if a < b { TimesBelow(c, a, b); }
    if b < a { TimesBelow(c, b, a); }
  }

  lemma ReachesMeans(n: nat, side: nat, other: nat, f: int, min: nat, beta: real)
    requires n > 0 && side > 0 && other > 0 && f > 0 && GrowRoot(beta, side, other, min)
    ensures Square(f) > 0
    ensures Reaches(n, side, other, Square(f), min) <==> n as real >= Stretched(side, f, beta)
  {
    hide Stretched, Square;
    Positive(f, other);
    StretchedBack(side, f, beta);
    SquaredStretched(side, other, f, min, beta);
    BlocksReach(n, Square(f) * other, side * min, Stretched(side, f, beta));
  }

  lemma BlocksReach(n: nat, d: nat, goal: nat, x: real)
    requires n > 0 && d > 0 && x > 0.0 && goal as real == x * x * d as real
    ensures n * n * d >= goal <==> n as real >= x
  {
    AtLeast(n as real, x, d as real);
    Squared(n, d);
  }

  lemma Squared(n: nat, d: nat)
    ensures (n * n * d) as real == n as real * n as real * d as real
  {
    assert (n * n) as real == n as real * n as real;
  }

  /** A grown side is the fewest blocks that reach the smallest area, by whole numbers alone. */
  lemma GrownSideIsFewest(side: nat, other: nat, f: int, min: nat, beta: real)
    requires side > 0 && other > 0 && f > 0 && GrowRoot(beta, side, other, min)
    ensures Square(f) > 0 && Square(f) * other > 0
    ensures Ceil(Stretched(side, f, beta)) == FewestFrom(1, side, other, Square(f), min)
  {
    hide Stretched, Square, Reaches, FewestFrom;
    Positive(f, other);
    StretchedBack(side, f, beta);
    var x := Stretched(side, f, beta);
    CeilIsAbove(x);
    forall j | 1 <= j <= Ceil(x) ensures Reaches(j, side, other, Square(f), min) <==> j == Ceil(x) {
      ReachesMeans(j, side, other, f, min, beta);
    }
    FewestMeaning(1, side, other, Square(f), min, Ceil(x));
  }

  /** What a caller can check about an image that has to grow. */
  predicate GrowFits(width: nat, height: nat, b: Budget)
    requires width > 0 && height > 0 && b.factor > 0 && b.min >= 0
  {
    var ff := Square(b.factor);
    Positive(b.factor, width);
    Positive(b.factor, height);
    Blocks(ff, FewestFrom(1, width, height, ff, b.min), FewestFrom(1, height, width, ff, b.min)) <= b.max
  }

  /** A grown image is within the budget exactly when the image passes that check. */
  lemma GrownWithinBudgetIff(width: nat, height: nat, b: Budget, beta: real)
    requires width > 0 && height > 0 && b.factor > 0 && b.min >= 0 && GrowRoot(beta, width, height, b.min)
    ensures Area(Grown(width, height, b.factor, beta)) <= b.max <==> GrowFits(width, height, b)
  {
    hide Stretched, Square, FewestFrom, Grown, Area, Blocks, Ceil;
    assert GrowRoot(beta, height, width, b.min) by { assert height * width == width * height; }
    GrownSideIsFewest(width, height, b.factor, b.min, beta);
    GrownSideIsFewest(height, width, b.factor, b.min, beta);
    GrownArea(width, height, b.factor, beta);
  }

  // --- the whole function ------------------------------------------------------------------------

  lemma RatioOf(a: real, b: real)
    requires b > 0.0 && a / b <= 200.0
    ensures a <= 200.0 * b
  {
    Quotient(a, b);
    Times(b, a / b, 200.0);
  }

  lemma GrownSides(lo: nat, hi: nat, f: int, beta: real)
    requires 0 < lo <= hi && hi as real <= 200.0 * lo as real && f > 0 && beta > 0.0
    ensures 0.0 < Stretched(lo, f, beta) <= Stretched(hi, f, beta) <= 200.0 * Stretched(lo, f, beta)
  {
    StretchedBack(lo, f, beta);
    StretchedBack(hi, f, beta);
    hide Stretched;
    var x, y, g, l, h := Stretched(lo, f, beta), Stretched(hi, f, beta), f as real, lo as real, hi as real;
    Times(beta, l, h);
    Times(beta, h, 200.0 * l);
    if x > y { TimesBelow(g, y, x); }
    if y > 200.0 * x { TimesBelow(g, 200.0 * x, y); }
  }

  lemma {:induction false} GrownWithinBudget(width: nat, height: nat, b: Budget, beta: real)
    requires Supported(width, height) && b.factor > 0 && Square(b.factor) < b.min && GrowRoot(beta, width, height, b.min)
    ensures b.min <= Area(Grown(width, height, b.factor, beta)) < 18 * b.min
  {
    hide Stretched, Ideal, Square, Blocks, Area, Ceil;
    var f, lo, hi := b.factor, Min(width, height), Max(width, height);
    var x, y := Stretched(lo, f, beta), Stretched(hi, f, beta);
    RatioOf(hi as real, lo as real);
    GrownSides(lo, hi, f, beta);
    GrownArea(width, height, f, beta);
    assert GrowRoot(beta, lo, hi, b.min) by { assert height * width == hi * lo; }
    IdealGrownArea(lo, hi, f, b.min, beta);
    Positive(f, 1);
    CeilKeepsArea(x, y, Square(f), b.min);
    CeilIsModest(x, y, Square(f), b.min);
    Commutes(Square(f), Ceil(x), Ceil(y));
  }

  /** A budget of at least 200 blocks holds every supported image. */
  lemma WideBudgetsFit(width: nat, height: nat, b: Budget)
    requires Supported(width, height) && b.factor > 0 && b.max >= 200 * Square(b.factor)
    ensures ShrinkFits(width, height, b)
  {
    var lo, hi, ff := Min(width, height), Max(width, height), Square(b.factor);
    RatioOf(hi as real, lo as real);
    Positive(b.factor, 1);
    hide Square;
    WholeMultiple(b.max, ff);
    LongSideFits(lo, hi, ff, b.max, b.max / ff);
  }

  lemma LongSideFits(lo: int, hi: int, ff: int, max: int, k: int)
    requires 0 < lo && hi <= 200 * lo && ff > 0 && max >= 200 * ff && ff * k <= max < ff * (k + 1)
    ensures hi * max < (k + 1) * (k + 1) * (ff * lo)
  {
    assert k >= 200 by {
      if k <= 199 { IntTimes(ff, k + 1, 200); }
    }
    assert 200 * max < (k + 1) * (ff * (k + 1)) by {
      IntTimes(ff * (k + 1), 200, k + 1);
    }
    IntTimes(max, hi, 200 * lo);
    Reorder(lo, 200 * max, k + 1, ff);
  }

  lemma Reorder(lo: int, big: int, c: int, ff: int)
    requires lo > 0 && big < c * (ff * c)
    ensures big * lo < c * c * (ff * lo)
  {
    assert c * c * (ff * lo) == (c * (ff * c)) * lo;
    IntTimes(lo, big + 1, c * (ff * c));
  }

  function Scaled(n: int, f: int): int { n * f }

  ghost predicate PositiveMultiple(side: int, f: int) {
    exists n :: n > 0 && side == Scaled(n, f)
  }

  lemma ClampedIsMultiple(n: int, f: int)
    requires f > 0
    ensures PositiveMultiple(Max(f, n * f), f)
  {
    if n >= 1 {
      IntTimes(f, 1, n);
      assert Max(f, n * f) == Scaled(n, f);
    } else {
      IntTimes(f, n, 0);
      assert Max(f, n * f) == Scaled(1, f);
    }
  }

  lemma CeilIsMultiple(side: nat, f: int, beta: real)
    requires side > 0 && f > 0 && beta > 0.0
    ensures PositiveMultiple(CeilBy(side as real * beta, f), f)
  {
    StretchedBack(side, f, beta);
    CeilIsAbove(Stretched(side, f, beta));
    assert CeilBy(side as real * beta, f) == Scaled(Ceil(Stretched(side, f, beta)), f);
  }

  ghost predicate WholeBlocks(s: Size, f: int) {
    PositiveMultiple(s.width, f) && PositiveMultiple(s.height, f)
  }

  lemma SnappedInBlocks(width: nat, height: nat, f: int)
    requires f > 0
    ensures WholeBlocks(Snapped(width, height, f), f)
  {
    hide PositiveMultiple, RoundHalfEven, Max;
    ClampedIsMultiple(RoundHalfEven(width as real / f as real), f);
    ClampedIsMultiple(RoundHalfEven(height as real / f as real), f);
  }

  lemma ShrunkInBlocks(width: nat, height: nat, f: int, beta: real)
    requires f > 0 && beta > 0.0
    ensures WholeBlocks(Shrunk(width, height, f, beta), f)
  {
    hide PositiveMultiple, Max;
    ClampedIsMultiple((width as real / beta / f as real).Floor, f);
    ClampedIsMultiple((height as real / beta / f as real).Floor, f);
  }

  lemma GrownInBlocks(width: nat, height: nat, f: int, beta: real)
    requires width > 0 && height > 0 && f > 0 && beta > 0.0
    ensures WholeBlocks(Grown(width, height, f, beta), f)
  {
    hide PositiveMultiple, CeilBy;
    CeilIsMultiple(width, f, beta);
    CeilIsMultiple(height, f, beta);
  }

  /** Both sides of a result are positive multiples of the factor, whatever the budget. */
  lemma SidesAreMultiples(width: nat, height: nat, b: Budget, shrink: real, grow: real)
    requires b.factor > 0 && b.max > 0 && shrink > 0.0 && grow > 0.0 && Resize(width, height, b, shrink, grow).Some?
    ensures WholeBlocks(Resize(width, height, b, shrink, grow).value, b.factor)
  {
    hide WholeBlocks, Snapped, Shrunk, Grown, Area;
    SnappedInBlocks(width, height, b.factor);
    ShrunkInBlocks(width, height, b.factor, shrink);
    GrownInBlocks(width, height, b.factor, grow);
  }

  /** Every supported image comes out as two positive multiples of the factor with an area within
      the budget, when the budget holds 200 blocks and spans a factor of eighteen. */
  lemma ResizeMeetsBudget(width: nat, height: nat, b: Budget, shrink: real, grow: real)
    requires b.factor > 0 && b.max >= 200 * Square(b.factor) && b.max >= 18 * b.min && b.max > 0
    requires Supported(width, height) && shrink > 0.0 && grow > 0.0
    requires Area(Snapped(width, height, b.factor)) > b.max ==> ShrinkRoot(shrink, width, height, b.max)
    requires Area(Snapped(width, height, b.factor)) < b.min ==> GrowRoot(grow, width, height, b.min)
    ensures Resize(width, height, b, shrink, grow).Some?
    ensures var s := Resize(width, height, b, shrink, grow).value;
            && WholeBlocks(s, b.factor)
            && b.min <= Area(s) <= b.max
  {
    SidesAreMultiples(width, height, b, shrink, grow);
    hide Shrunk, Grown, Snapped, ShrinkFits, WholeBlocks;
    var before := Snapped(width, height, b.factor);
    if Area(before) > b.max {
      WideBudgetsFit(width, height, b);
      ShrunkWithinBudget(width, height, b, shrink);
      ShrunkIsNotTiny(width, height, b.factor, b.max, shrink);
    } else if Area(before) < b.min {
      SnappedIsABlock(width, height, b.factor);
      GrownWithinBudget(width, height, b, grow);
    }
  }

  lemma SnappedIsABlock(width: nat, height: nat, f: int)
    requires f > 0
    ensures Area(Snapped(width, height, f)) >= Square(f)
  {
    var s := Snapped(width, height, f);
    assert s.width >= f && s.height >= f;
    hide Snapped;
    IntTimes(s.width, f, s.height);
    IntTimes(f, f, s.width);
  }

  /** The check for whichever branch the image takes. */
  predicate ResizeFits(width: nat, height: nat, b: Budget)
    requires width > 0 && height > 0 && b.factor > 0
  {
    var before := Area(Snapped(width, height, b.factor));
    SnappedIsABlock(width, height, b.factor);
    Positive(b.factor, 1);
    if before > b.max then ShrinkFits(width, height, b)
    else before < b.min ==> GrowFits(width, height, b)
  }

  /** Whatever the budget, the result is no larger than it allows exactly when the image passes the
      check, and only a shrunk image can be smaller. */
  lemma ResizeWithinIff(width: nat, height: nat, b: Budget, shrink: real, grow: real)
    requires Supported(width, height) && b.factor > 0 && b.max > 0 && shrink > 0.0 && grow > 0.0
    requires Area(Snapped(width, height, b.factor)) > b.max ==> ShrinkRoot(shrink, width, height, b.max)
    requires Area(Snapped(width, height, b.factor)) < b.min ==> GrowRoot(grow, width, height, b.min)
    ensures Resize(width, height, b, shrink, grow).Some?
    ensures var s := Resize(width, height, b, shrink, grow).value;
            && (Area(s) <= b.max <==> ResizeFits(width, height, b))
            && (Area(Snapped(width, height, b.factor)) <= b.max ==> b.min <= Area(s))
  {
    hide Shrunk, Grown, Snapped, ShrinkFits, GrowFits, Square;
    var before := Snapped(width, height, b.factor);
    if Area(before) > b.max {
      ShrunkWithinBudget(width, height, b, shrink);
    } else if Area(before) < b.min {
      SnappedIsABlock(width, height, b.factor);
      Positive(b.factor, 1);
      GrownWithinBudgetIff(width, height, b, grow);
      GrownReachesBudget(width, height, b.factor, b.min, grow);
    }
  }

  lemma GrownReachesBudget(width: nat, height: nat, f: int, min: int, beta: real)
    requires width > 0 && height > 0 && f > 0 && GrowRoot(beta, width, height, min)
    ensures min <= Area(Grown(width, height, f, beta))
  {
    hide Stretched, Ideal, Square, Blocks, Area, Ceil;
    GrownArea(width, height, f, beta);
    StretchedBack(width, f, beta);
    StretchedBack(height, f, beta);
    IdealGrownArea(width, height, f, min, beta);
    Positive(f, 1);
    CeilKeepsArea(Stretched(width, f, beta), Stretched(height, f, beta), Square(f), min);
  }

  /** Both budgets in use are such budgets. */
  lemma BudgetsInUse(width: nat, height: nat, b: Budget, shrink: real, grow: real)
    requires b == UI_TARS || b == UI_MATE
    requires Supported(width, height) && shrink > 0.0 && grow > 0.0
    requires Area(Snapped(width, height, b.factor)) > b.max ==> ShrinkRoot(shrink, width, height, b.max)
    requires Area(Snapped(width, height, b.factor)) < b.min ==> GrowRoot(grow, width, height, b.min)
    ensures var r := Resize(width, height, b, shrink, grow);
            && r.Some? && WholeBlocks(r.value, b.factor)
            && b.min <= Area(r.value) <= b.max
  {
    hide Resize, Snapped, WholeBlocks;
    ResizeMeetsBudget(width, height, b, shrink, grow);
  }

  /** A budget of 50 blocks is not enough: a 140 by 28000 image, at exactly 200:1, is shrunk to one
      block by a hundred. */
  lemma NarrowBudgetOverflows()
    ensures var b := Budget(28, 3136, 39200);
            && Supported(28000, 140) && Area(Snapped(28000, 140, 28)) > b.max && ShrinkRoot(10.0, 28000, 140, b.max)
            && Resize(28000, 140, b, 10.0, 1.0) == Some(Size(2800, 28)) && 2800 * 28 > b.max
  {
    assert 28000.0 / 28.0 == 1000.0 && 140.0 / 28.0 == 5.0;
    assert 28000.0 / 10.0 / 28.0 == 100.0 && 140.0 / 10.0 / 28.0 == 0.5;
    assert 28000.0 / 140.0 == 200.0;
  }

  /** An image that may shrink and does not have to: 28 by 28 is below the smallest area of this
      budget, and both sides are rounded up past the largest. */
  lemma NarrowBudgetOvergrows()
    ensures var b := Budget(28, 1764, 2352);
            && Supported(28, 28) && ShrinkFits(28, 28, b) && !ResizeFits(28, 28, b)
            && Area(Snapped(28, 28, 28)) < b.min && GrowRoot(1.5, 28, 28, b.min)
            && Resize(28, 28, b, 1.0, 1.5) == Some(Size(56, 56)) && 56 * 56 > b.max
  {
    assert 28.0 / 28.0 == 1.0;
    assert 28.0 * 1.5 / 28.0 == 1.5;
    assert Resize(28, 28, Budget(28, 1764, 2352), 1.0, 1.5) == Some(Size(56, 56));
    ResizeWithinIff(28, 28, Budget(28, 1764, 2352), 1.0, 1.5);
  }

  /** An image whose sides are already multiples of the factor, within the budget, is kept. */
  lemma FittingImageIsKept(n: int, m: int, b: Budget, shrink: real, grow: real)
    requires b.factor > 0 && b.max > 0 && shrink > 0.0 && grow > 0.0 && n > 0 && m > 0
    requires n * b.factor >= 0 && m * b.factor >= 0
    requires Supported(n * b.factor, m * b.factor) && b.min <= (n * b.factor) * (m * b.factor) <= b.max
    ensures Resize(n * b.factor, m * b.factor, b, shrink, grow) == Some(Size(n * b.factor, m * b.factor))
  {
    KeepsMultiple(n, b.factor);
    KeepsMultiple(m, b.factor);
  }

  lemma KeepsMultiple(n: int, f: int)
    requires f > 0 && n > 0 && n * f >= 0
    ensures Max(f, RoundBy((n * f) as real, f)) == n * f
  {
    var x := (n * f) as real / f as real;
    Quotient((n * f) as real, f as real);
    assert (n * f) as real == n as real * f as real;
    assert x == n as real by {
      if x < n as real { TimesBelow(f as real, x, n as real); }
      if x > n as real { TimesBelow(f as real, n as real, x); }
    }
    IntTimes(f, 1, n);
  }

  // --- each side, by whole numbers ---------------------------------------------------------------

  /** `k` blocks are as near to the side as any number of blocks, and of two as near `k` is the even
      one. */
  ghost predicate NearestBlocks(side: int, f: int, k: int) {
    && -f <= 2 * (side - k * f) <= f
    && (2 * (side - k * f) == f || 2 * (side - k * f) == -f ==> k % 2 == 0)
  }

  /** `k` is the most blocks this side can have in an image of the same shape and of `area`. */
  ghost predicate MostBlocks(side: nat, other: nat, f: int, area: int, k: int) {
    k >= 0 && k * k * (Square(f) * other) <= side * area < (k + 1) * (k + 1) * (Square(f) * other)
  }

  /** `k` is the fewest blocks with which this side covers an image of the same shape and of `area`. */
  ghost predicate FewestBlocks(side: nat, other: nat, f: int, area: int, k: int) {
    k >= 1 && (k - 1) * (k - 1) * (Square(f) * other) < side * area <= k * k * (Square(f) * other)
  }

  lemma RoundIsNearest(x: real)
    ensures var n := RoundHalfEven(x);
            && n as real - 0.5 <= x <= n as real + 0.5
            && (x == n as real - 0.5 || x == n as real + 0.5 ==> n % 2 == 0)
  {
  }

  lemma SnappedSide(side: nat, f: int)
    requires f > 0
    ensures NearestBlocks(side, f, RoundHalfEven(side as real / f as real))
    ensures Max(f, RoundBy(side as real, f)) == Max(1, RoundHalfEven(side as real / f as real)) * f
  {
    var x, g, n := side as real / f as real, f as real, RoundHalfEven(side as real / f as real);
    RoundIsNearest(x);
    Quotient(side as real, g);
    hide RoundHalfEven;
    InBlocks(x, side, f, n);
    Clamp(n, f);
  }

  lemma InBlocks(x: real, side: int, f: int, n: int)
    requires f > 0 && x * f as real == side as real
    requires n as real - 0.5 <= x <= n as real + 0.5
    requires x == n as real - 0.5 || x == n as real + 0.5 ==> n % 2 == 0
    ensures NearestBlocks(side, f, n)
  {
    var y, d := 2.0 * (x - n as real), 2 * (side - n * f);
    InUnits(x, side, f, n);
    Within(f as real, y, d as real);
    Rounded(d, f, y, n);
  }

  lemma InUnits(x: real, side: int, f: int, n: int)
    requires x * f as real == side as real
    ensures f as real * (2.0 * (x - n as real)) == (2 * (side - n * f)) as real
  {
    assert (n * f) as real == n as real * f as real;
    Distribute(f as real, x, n as real);
  }

  lemma Rounded(d: int, f: int, y: real, n: int)
    requires -(f as real) <= d as real <= f as real
    requires (d as real == f as real ==> y == 1.0) && (d as real == -(f as real) ==> y == -1.0)
    requires y == 1.0 || y == -1.0 ==> n % 2 == 0
    ensures -f <= d <= f && (d == f || d == -f ==> n % 2 == 0)
  {
  }

  lemma Within(g: real, y: real, r: real)
    requires g > 0.0 && -1.0 <= y <= 1.0 && r == g * y
    ensures -g <= r <= g && (r == g ==> y == 1.0) && (r == -g ==> y == -1.0)
  {
    Times(g, y, 1.0);
    Times(g, 0.0, y + 1.0);
    assert g * (y + 1.0) == r + g;
    if y < 1.0 { TimesBelow(g, y, 1.0); }
    if -1.0 < y { TimesBelow(g, 0.0, y + 1.0); }
  }

  lemma Distribute(g: real, x: real, y: real)
    ensures g * (2.0 * (x - y)) == 2.0 * (x * g - y * g)
  {
  }

  lemma Clamp(n: int, f: int)
    requires f > 0
    ensures Max(f, n * f) == Max(1, n) * f
  {
    if n >= 1 {
      IntTimes(f, 1, n);
    } else {
      IntTimes(f, n, 0);
    }
  }

  lemma ShrunkSide(side: nat, other: nat, f: int, max: int, beta: real)
    requires side > 0 && other > 0 && f > 0 && max > 0 && ShrinkRoot(beta, side, other, max)
    ensures MostBlocks(side, other, f, max, Units(side, f, beta).Floor)
    ensures Max(f, FloorBy(side as real / beta, f)) == Max(1, Units(side, f, beta).Floor) * f
  {
    WholeSide(side, f, beta);
    UnitsBack(side, f, beta);
    SquaredUnits(side, other, f, max, beta);
    Positive(f, other);
    var x := Units(side, f, beta);
    hide Units, Square;
    Between(x.Floor, Square(f) * other, side * max, x);
  }

  lemma Between(k: int, d: nat, goal: nat, x: real)
    requires d > 0 && x > 0.0 && k == x.Floor && goal as real == x * x * d as real
    ensures k >= 0 && k * k * d <= goal < (k + 1) * (k + 1) * d
  {
    if k > 0 {
      BlocksUnder(k, d, goal, x);
    }
    BlocksUnder(k + 1, d, goal, x);
  }

  lemma BlocksUnder(n: nat, d: nat, goal: nat, x: real)
    requires n > 0 && d > 0 && x > 0.0 && goal as real == x * x * d as real
    ensures n * n * d <= goal <==> n as real <= x
  {
    AtLeast(x, n as real, d as real);
    Squared(n, d);
  }

  lemma GrownSide(side: nat, other: nat, f: int, min: nat, beta: real)
    requires side > 0 && other > 0 && f > 0 && GrowRoot(beta, side, other, min)
    requires min > 0
    ensures FewestBlocks(side, other, f, min, Ceil(Stretched(side, f, beta)))
    ensures CeilBy(side as real * beta, f) == Ceil(Stretched(side, f, beta)) * f
  {
    var x := Stretched(side, f, beta);
    StretchedBack(side, f, beta);
    SquaredStretched(side, other, f, min, beta);
    Positive(f, other);
    hide Stretched, Square;
    IntTimes(side, 1, min);
    Reached(Ceil(x), Square(f) * other, side * min, x);
  }

  lemma Reached(k: int, d: nat, goal: nat, x: real)
    requires d > 0 && goal > 0 && x > 0.0 && k == Ceil(x) && goal as real == x * x * d as real
    ensures k >= 1 && (k - 1) * (k - 1) * d < goal <= k * k * d
  {
    BlocksReach(k, d, goal, x);
    if k > 1 {
      BlocksReach(k - 1, d, goal, x);
    }
  }

  /** An image is refused exactly when it is empty or one side is over two hundred times the other. */
  lemma SupportedIff(width: nat, height: nat)
    ensures Supported(width, height) <==>
              width > 0 && height > 0 && width <= 200 * height && height <= 200 * width
  {
    if width > 0 && height > 0 {
      var a, b := Max(height, width) as real, Min(height, width) as real;
      Quotient(a, b);
      if a / b <= 200.0 {
        RatioOf(a, b);
      } else {
        TimesBelow(b, 200.0, a / b);
      }
    }
  }

  /** `blocks` of this side, and never less than one. */
  ghost predicate Clamped(length: int, f: int, blocks: int) { length == Max(1, blocks) * f }

  /** What each side of the answer is, by whole numbers alone: in blocks, the nearest to the image's
      own, and if those make too large or too small an area the most or the fewest that the budget
      asks of that side. */
  lemma SidesAre(width: nat, height: nat, b: Budget, shrink: real, grow: real)
    returns (near: Size, blocks: Size)
    requires Supported(width, height) && b.factor > 0 && b.max > 0 && shrink > 0.0 && grow > 0.0
    requires Area(Snapped(width, height, b.factor)) > b.max ==> ShrinkRoot(shrink, width, height, b.max)
    requires Area(Snapped(width, height, b.factor)) < b.min ==> GrowRoot(grow, width, height, b.min)
    ensures NearestBlocks(width, b.factor, near.width) && NearestBlocks(height, b.factor, near.height)
    ensures var area := (Max(1, near.width) * b.factor) * (Max(1, near.height) * b.factor);
            && (area > b.max ==> MostBlocks(width, height, b.factor, b.max, blocks.width) && MostBlocks(height, width, b.factor, b.max, blocks.height))
            && (area <= b.max && area < b.min ==>
                  FewestBlocks(width, height, b.factor, b.min, blocks.width) && FewestBlocks(height, width, b.factor, b.min, blocks.height))
            && (b.min <= area <= b.max ==> blocks == near)
    ensures Resize(width, height, b, shrink, grow).Some?
    ensures var s := Resize(width, height, b, shrink, grow).value;
            Clamped(s.width, b.factor, blocks.width) && Clamped(s.height, b.factor, blocks.height)
  {
    hide RoundHalfEven, RoundBy, CeilBy, FloorBy, Ceil, NearestBlocks, MostBlocks, FewestBlocks;
    var f := b.factor;
    SnappedSide(width, f);
    SnappedSide(height, f);
    near := Size(RoundHalfEven(width as real / f as real), RoundHalfEven(height as real / f as real));
    blocks := near;
    if Area(Snapped(width, height, f)) > b.max {
      assert ShrinkRoot(shrink, height, width, b.max) by { assert height * width == width * height; }
      ShrunkSide(width, height, f, b.max, shrink);
      ShrunkSide(height, width, f, b.max, shrink);
      hide Units;
      blocks := Size(Units(width, f, shrink).Floor, Units(height, f, shrink).Floor);
    } else if Area(Snapped(width, height, f)) < b.min {
      SnappedIsABlock(width, height, f);
      Positive(f, 1);
      assert GrowRoot(grow, height, width, b.min) by { assert height * width == width * height; }
      GrownSide(width, height, f, b.min, grow);
      GrownSide(height, width, f, b.min, grow);
      hide Stretched;
      blocks := Size(Ceil(Stretched(width, f, grow)), Ceil(Stretched(height, f, grow)));
      AtLeastOne(width, height, f, b.min, blocks.width);
      AtLeastOne(height, width, f, b.min, blocks.height);
    }
  }

  lemma AtLeastOne(side: nat, other: nat, f: int, area: int, k: int)
    requires FewestBlocks(side, other, f, area, k)
    ensures Max(1, k) == k
  {
  }
}
