/** INT8 matrix product in tiles of 256 x 1024 x 512 (`int8_accumulate` in
    verification/generative-media/comfy_runtime.py). */
module Int8Gemm {
  import opened Common
  import opened FloatSums

  /** A tensor as the routine sees it: its element type, shape and device, and for a matrix of
      bytes its entries. */
  datatype Tensor = Tensor(int8: bool, shape: seq<nat>, device: nat, cell: (int, int) -> int) {
    ghost predicate Valid() {
      int8 ==> forall i, j :: -128 <= cell(i, j) <= 127
    }
  }

  predicate Compatible(a: Tensor, b: Tensor) {
    a.int8 && b.int8 && |a.shape| == |b.shape| == 2 && a.shape[1] == b.shape[0] && a.device == b.device
  }

  // --- 32-bit accumulation -------------------------------------------------------------------

  const HALF: int := 0x8000_0000 // 2^31

  /** What a signed 32-bit register holds. */
  function Wrap32(x: int): int {
    (x + HALF) % (2 * HALF) - HALF
  }

  lemma WrapSplits(x: int) returns (q: int)
    ensures x == Wrap32(x) + q * (2 * HALF) && -HALF <= Wrap32(x) < HALF
  {
    q := (x + HALF) / (2 * HALF);
  }

  /** Accumulating in a wrapping register is the same as wrapping once at the end. */
  lemma WrapAdds(x: int, y: int)
    ensures Wrap32(Wrap32(x) + y) == Wrap32(x + y)
  {
    var q := WrapSplits(x);
    var r := WrapSplits(Wrap32(x) + y);
    var s := WrapSplits(x + y);
    assert Wrap32(Wrap32(x) + y) - Wrap32(x + y) == (s - q - r) * (2 * HALF);
  }

  // --- the plain product ---------------------------------------------------------------------

  function Min(a: int, b: int): int { if a < b then a else b }

  lemma {:induction false} TimesGrows(x: nat, y: int, z: int)
    requires y <= z
    ensures x * y <= x * z
  {
    if x > 0 {
      TimesGrows(x - 1, y, z);
      assert x * y == (x - 1) * y + y && x * z == (x - 1) * z + z;
    }
  }

  lemma ProductBetween(x: int, y: int)
    requires 0 <= x <= 128 && -128 <= y <= 128
    ensures -PRODUCT <= x * y <= PRODUCT
  {
    TimesGrows(x, y, 128);
    TimesGrows(x, -128, y);
  }

  lemma SmallProduct(x: int, y: int)
    requires -128 <= x <= 127 && -128 <= y <= 127
    ensures Abs(x * y) <= PRODUCT
  {
    if x >= 0 {
      ProductBetween(x, y);
    } else {
      ProductBetween(-x, y);
      assert -x * y == -(x * y);
    }
  }

  /** The products a[i, k] * b[k, j] that cell (i, j) adds up. */
  function Products(a: Tensor, b: Tensor, i: int, j: int): (p: seq<int>)
    requires Compatible(a, b)
    ensures |p| == a.shape[1]
  {
    seq(a.shape[1], k => a.cell(i, k) * b.cell(k, j))
  }

  lemma ProductsAreSmall(a: Tensor, b: Tensor, i: int, j: int)
    requires Compatible(a, b) && a.Valid() && b.Valid()
    ensures forall k :: 0 <= k < a.shape[1] ==> Abs(Products(a, b, i, j)[k]) <= PRODUCT
  {
    forall k | 0 <= k < a.shape[1] ensures Abs(Products(a, b, i, j)[k]) <= PRODUCT {
      SmallProduct(a.cell(i, k), b.cell(k, j));
    }
  }

  /** The entry that the definition of the matrix product gives, over the first `depth`
      products. */
  function Dot(a: Tensor, b: Tensor, i: int, j: int, depth: int): int
    requires Compatible(a, b) && 0 <= depth <= a.shape[1]
  {
    Sum(Products(a, b, i, j)[..depth])
  }

  // --- the tiled loop ------------------------------------------------------------------------

  /** The library's freedom: an order of addition for every cell and every K-tile. */
  type Plan = (int, int, int) -> Order

  ghost predicate Sound(plan: Plan, depth: int) {
    forall i, j, k :: 0 <= k < depth ==> Schedules(plan(i, j, k), Min(512, depth - k))
  }

  /** The plain order of addition is a sound plan, so there is one for every depth. */
  lemma PlainPlanIsSound(depth: int)
    ensures Sound((_, _, k) => LeftToRight(TileDepth(depth, k)), depth)
  {
    forall k | 0 <= k < depth ensures TileDepth(depth, k) == Min(512, depth - k) && Schedules(LeftToRight(TileDepth(depth, k)), TileDepth(depth, k)) {
      LeftToRightSchedules(TileDepth(depth, k));
    }
  }

  function TileDepth(depth: int, k: int): nat {
    if 0 <= k < depth then Min(512, depth - k) else 0
  }

  /** The rectangle of cells that hold the product over the first `depth` inner indices. */
  ghost predicate Holds(result: array2<int>, a: Tensor, b: Tensor,
                        top: int, bottom: int, left: int, right: int, depth: int)
    requires Compatible(a, b) && result.Length0 == a.shape[0] && result.Length1 == b.shape[1]
    requires 0 <= top && bottom <= a.shape[0] && 0 <= left && right <= b.shape[1] && 0 <= depth <= a.shape[1]
    reads result
  {
    forall i, j :: top <= i < bottom && left <= j < right ==> result[i, j] == Wrap32(Dot(a, b, i, j, depth))
  }

  /** One K-tile of one cell: 512 products, or what is left of them, added in FP32. */
  method Partial(a: Tensor, b: Tensor, i: int, j: int, k: int, plan: Plan, round: int -> int) returns (r: int)
    requires Compatible(a, b) && a.Valid() && b.Valid() && 0 <= k < a.shape[1]
    requires Rounds(round) && Sound(plan, a.shape[1])
    ensures Dot(a, b, i, j, Min(k + 512, a.shape[1])) == Dot(a, b, i, j, k) + r
  {
    hide Rounds, Sum;
    var end, p, t := Min(k + 512, a.shape[1]), Products(a, b, i, j), plan(i, j, k);
    assert Schedules(t, end - k);
    ProductsAreSmall(a, b, i, j);
    AnyOrderIsExact(t, p[k..end], round);
    r := FloatSum(t, p[k..end], round);
    SumAppend(p[..k], p[k..end]);
    assert p[..end] == p[..k] + p[k..end];
  }

  /** `tile.add_`: one K-tile added into every cell of an output tile, in place. */
  method AddTile(result: array2<int>, a: Tensor, b: Tensor, m: int, n: int, k: int, plan: Plan, round: int -> int)
    requires Compatible(a, b) && a.Valid() && b.Valid()
    requires result.Length0 == a.shape[0] && result.Length1 == b.shape[1]
    requires 0 <= m < a.shape[0] && 0 <= n < b.shape[1] && 0 <= k < a.shape[1]
    requires Rounds(round) && Sound(plan, a.shape[1])
    requires Holds(result, a, b, m, Min(m + 256, a.shape[0]), n, Min(n + 1024, b.shape[1]), k)
    modifies result
    ensures Holds(result, a, b, m, Min(m + 256, a.shape[0]), n, Min(n + 1024, b.shape[1]), Min(k + 512, a.shape[1]))
    ensures forall i, j :: 0 <= i < a.shape[0] && 0 <= j < b.shape[1] && !(m <= i < m + 256 && n <= j < n + 1024) ==>
                             result[i, j] == old(result[i, j])
  {
    hide Rounds, Sound, Dot, Wrap32;
    var bottom, right, end := Min(m + 256, a.shape[0]), Min(n + 1024, b.shape[1]), Min(k + 512, a.shape[1]);
    for i := m to bottom
      invariant Holds(result, a, b, m, i, n, right, end) && Holds(result, a, b, i, bottom, n, right, k)
      invariant forall x, y :: 0 <= x < a.shape[0] && 0 <= y < b.shape[1] && !(m <= x < bottom && n <= y < right) ==>
                                 result[x, y] == old(result[x, y])
    {
      for j := n to right
        invariant Holds(result, a, b, m, i, n, right, end) && Holds(result, a, b, i + 1, bottom, n, right, k)
        invariant Holds(result, a, b, i, i + 1, n, j, end) && Holds(result, a, b, i, i + 1, j, right, k)
        invariant forall x, y :: 0 <= x < a.shape[0] && 0 <= y < b.shape[1] && !(m <= x < bottom && n <= y < right) ==>
                                   result[x, y] == old(result[x, y])
      {
        var part := Partial(a, b, i, j, k, plan, round);
        WrapAdds(Dot(a, b, i, j, k), part);
        result[i, j] := Wrap32(result[i, j] + part);
      }
    }
  }

  /** One output tile, over all its K-tiles. */
  method FillTile(result: array2<int>, a: Tensor, b: Tensor, m: int, n: int, plan: Plan, round: int -> int)
    requires Compatible(a, b) && a.Valid() && b.Valid()
    requires result.Length0 == a.shape[0] && result.Length1 == b.shape[1]
    requires 0 <= m < a.shape[0] && 0 <= n < b.shape[1]
    requires Rounds(round) && Sound(plan, a.shape[1])
    requires Holds(result, a, b, m, Min(m + 256, a.shape[0]), n, Min(n + 1024, b.shape[1]), 0)
    modifies result
    ensures Holds(result, a, b, m, Min(m + 256, a.shape[0]), n, Min(n + 1024, b.shape[1]), a.shape[1])
    ensures forall i, j :: 0 <= i < a.shape[0] && 0 <= j < b.shape[1] && !(m <= i < m + 256 && n <= j < n + 1024) ==>
                             result[i, j] == old(result[i, j])
  {
    hide Rounds, Sound, Dot, Wrap32;
    var k := 0;
    while k < a.shape[1]
      invariant 0 <= k
      invariant Holds(result, a, b, m, Min(m + 256, a.shape[0]), n, Min(n + 1024, b.shape[1]), Min(k, a.shape[1]))
      invariant forall i, j :: 0 <= i < a.shape[0] && 0 <= j < b.shape[1] && !(m <= i < m + 256 && n <= j < n + 1024) ==>
                                 result[i, j] == old(result[i, j])
    {
      AddTile(result, a, b, m, n, k, plan, round);
      k := k + 512;
    }
  }

  /** `int8_accumulate`: refused for anything but two byte matrices of matching shape on one
      device; otherwise every entry of the result is the full dot product modulo 2^32, for every
      shape, every order of addition and every rounding of the inexact. */
  method Int8Accumulate(a: Tensor, b: Tensor, plan: Plan, round: int -> int) returns (r: Option<array2<int>>)
    requires a.Valid() && b.Valid() && Rounds(round)
    requires |a.shape| == 2 ==> Sound(plan, a.shape[1])
    ensures r.Some? <==> Compatible(a, b)
    ensures r.Some? ==> fresh(r.value) && r.value.Length0 == a.shape[0] && r.value.Length1 == b.shape[1]
    ensures r.Some? ==> forall i, j :: 0 <= i < a.shape[0] && 0 <= j < b.shape[1] ==>
                          r.value[i, j] == Wrap32(Dot(a, b, i, j, a.shape[1]))
  {
    if !Compatible(a, b) { return None; }
    hide Rounds, Sound;
    var result := new int[a.shape[0], b.shape[1]]((_, _) => 0);
    assert forall i, j :: 0 <= i < a.shape[0] && 0 <= j < b.shape[1] ==> Dot(a, b, i, j, 0) == 0;
    assert Holds(result, a, b, 0, a.shape[0], 0, b.shape[1], 0);
    FillAll(result, a, b, plan, round);
    r := Some(result);
  }

  method FillAll(result: array2<int>, a: Tensor, b: Tensor, plan: Plan, round: int -> int)
    requires Compatible(a, b) && a.Valid() && b.Valid()
    requires result.Length0 == a.shape[0] && result.Length1 == b.shape[1]
    requires Rounds(round) && Sound(plan, a.shape[1])
    requires Holds(result, a, b, 0, a.shape[0], 0, b.shape[1], 0)
    modifies result
    ensures Holds(result, a, b, 0, a.shape[0], 0, b.shape[1], a.shape[1])
  {
    hide Rounds, Sound, Dot, Wrap32;
    var rows, cols := a.shape[0], b.shape[1];
    var m := 0;
    while m < rows
      invariant 0 <= m
      invariant Holds(result, a, b, 0, Min(m, rows), 0, cols, a.shape[1])
      invariant Holds(result, a, b, m, rows, 0, cols, 0)
    {
      var n := 0;
      while n < cols
        invariant 0 <= n
        invariant Holds(result, a, b, 0, m, 0, cols, a.shape[1]) && Holds(result, a, b, Min(m + 256, rows), rows, 0, cols, 0)
        invariant Holds(result, a, b, m, Min(m + 256, rows), 0, Min(n, cols), a.shape[1])
        invariant Holds(result, a, b, m, Min(m + 256, rows), n, cols, 0)
      {
        FillTile(result, a, b, m, n, plan, round);
        n := n + 1024;
      }
      m := m + 256;
    }
  }

  // --- when the 32 bits are enough -----------------------------------------------------------

  /** Every product of byte matrices with this inner dimension is exact. */
  ghost predicate AlwaysExact(depth: nat) {
    forall a: Tensor, b: Tensor, i, j :: Compatible(a, b) && a.Valid() && b.Valid() && a.shape[1] == depth ==>
      Wrap32(Dot(a, b, i, j, depth)) == Dot(a, b, i, j, depth)
  }

  /** The result is the product itself for every input exactly when the inner dimension is at
      most 131071. */
  lemma ExactDepth(depth: nat)
    ensures AlwaysExact(depth) <==> depth <= 131071
  {
    if depth <= 131071 {
      forall a: Tensor, b: Tensor, i, j | Compatible(a, b) && a.Valid() && b.Valid() && a.shape[1] == depth
        ensures Wrap32(Dot(a, b, i, j, depth)) == Dot(a, b, i, j, depth)
      {
        ProductsAreSmall(a, b, i, j);
        assert Products(a, b, i, j)[..depth] == Products(a, b, i, j);
        SumBound(Products(a, b, i, j), PRODUCT);
      }
    } else {
      Overflows(depth);
    }
  }

  /** Entries of -128, on the first 131072 inner indices and zero beyond. */
  function Extreme(shape: seq<nat>, row: bool): Tensor {
    Tensor(true, shape, 0, (i: int, j: int) => if (if row then j else i) < 131072 then -128 else 0)
  }

  lemma {:induction false} ExtremeSum(p: seq<int>)
    requires forall k :: 0 <= k < |p| ==> p[k] == if k < 131072 then PRODUCT else 0
    ensures Sum(p) == Min(|p|, 131072) * PRODUCT
  {
    if p != [] {
      ExtremeSum(p[..|p| - 1]);
    }
  }

  lemma Overflows(depth: nat)
    requires depth >= 131072
    ensures !AlwaysExact(depth)
  {
    var a, b := Extreme([1, depth], true), Extreme([depth, 1], false);
    var p := Products(a, b, 0, 0);
    ExtremeSum(p);
    assert p[..depth] == p;
    assert Dot(a, b, 0, 0, depth) == HALF;
  }
}
