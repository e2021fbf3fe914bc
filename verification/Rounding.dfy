/** Rounding to a decimal grid, ties to the even neighbour, over exact reals. */
module Rounding {

  function HalfEven(y: real): int {
    var f, d := y.Floor, y - y.Floor as real;
    if d < 0.5 || (d == 0.5 && f % 2 == 0) then f else f + 1
  }

  /** The grid point nearest to `x` among the multiples of one `scale`-th. */
  function Round(x: real, scale: real): real
    requires scale > 0.0
  {
    HalfEven(x * scale) as real / scale
  }

  ghost predicate OnGrid(x: real, scale: real)
  {
    (x * scale).Floor as real == x * scale
  }

  lemma HalfEvenMonotone(x: real, y: real)
    requires x <= y
    ensures HalfEven(x) <= HalfEven(y)
  {
  }

  lemma RoundMonotone(x: real, y: real, scale: real)
    requires x <= y && scale > 0.0
    ensures Round(x, scale) <= Round(y, scale)
  {
    assert x * scale <= y * scale;
    HalfEvenMonotone(x * scale, y * scale);
    Ordered(HalfEven(x * scale) as real, HalfEven(y * scale) as real, scale);
  }

  lemma Ordered(x: real, y: real, scale: real)
    requires x <= y && scale > 0.0
    ensures x / scale <= y / scale
  {
  }

  /** Rounding leaves a number alone exactly when it is on the grid. */
  lemma RoundFixesGrid(x: real, scale: real)
    requires scale > 0.0
    ensures Round(x, scale) == x <==> OnGrid(x, scale)
  {
    var y := x * scale;
    assert y / scale == x;
    var k := HalfEven(y) as real;
    assert k / scale * scale == k;
  }

  lemma RoundIsOnGrid(x: real, scale: real)
    requires scale > 0.0
    ensures Round(Round(x, scale), scale) == Round(x, scale)
  {
    var k := HalfEven(x * scale);
    var y := Round(x, scale);
    Restored(k as real, scale);
    assert y * scale == k as real;
    assert (k as real).Floor == k;
    assert OnGrid(y, scale);
    RoundFixesGrid(y, scale);
  }

  lemma Restored(x: real, scale: real)
    requires scale > 0.0
    ensures x / scale * scale == x
  {
  }

  /** A rounded number that reaches `y` reaches `y` rounded. */
  lemma RoundReaches(x: real, y: real, scale: real)
    requires scale > 0.0 && y <= Round(x, scale)
    ensures Round(y, scale) <= Round(x, scale)
  {
    RoundMonotone(y, Round(x, scale), scale);
    RoundIsOnGrid(x, scale);
  }

  /** `k` is the integer nearest to `y`, and the even one of two that are equally near. */
  predicate Nearest(k: int, y: real) {
    && k as real - 0.5 <= y <= k as real + 0.5
    && (y == k as real - 0.5 || y == k as real + 0.5 ==> k % 2 == 0)
  }

  lemma HalfEvenIff(k: int, y: real)
    ensures HalfEven(y) == k <==> Nearest(k, y)
  {
  }

  /** Rounding gives the nearest grid point, ties the even one, and no other number. */
  lemma RoundIff(x: real, scale: real, k: int)
    requires scale > 0.0
    ensures Round(x, scale) == k as real / scale <==> Nearest(k, x * scale)
  {
    HalfEvenIff(k, x * scale);
    Restored(k as real, scale);
    Restored(HalfEven(x * scale) as real, scale);
  }

  lemma WithinHalf(x: real, y: real, scale: real)
    requires scale > 0.0 && -0.5 <= y - x * scale <= 0.5
    ensures -0.5 / scale <= y / scale - x <= 0.5 / scale
  {
    Ordered(-0.5, y - x * scale, scale);
    Ordered(y - x * scale, 0.5, scale);
    Restored(x, scale);
    Difference(y, x * scale, scale);
    assert x * scale / scale == x;
  }

  lemma Difference(y: real, z: real, scale: real)
    requires scale > 0.0
    ensures (y - z) / scale == y / scale - z / scale
  {
  }

  lemma RoundError(x: real, scale: real)
    requires scale > 0.0
    ensures -0.5 / scale <= Round(x, scale) - x <= 0.5 / scale
  {
    var k := HalfEven(x * scale);
    HalfEvenIff(k, x * scale);
    WithinHalf(x, k as real, scale);
  }

  lemma OrderedStrictly(x: real, y: real, scale: real)
    requires x < y && scale > 0.0
    ensures x / scale < y / scale
  {
    Ordered(x, y, scale);
    Restored(x, scale);
    Restored(y, scale);
  }

  /** A number rounds to `k / scale` or more if and only if it reaches the middle below, that included when `k` is
      even. */
  lemma RoundAtLeast(x: real, scale: real, k: int)
    requires scale > 0.0 && k % 2 == 0
    ensures Round(x, scale) >= k as real / scale <==> x * scale >= k as real - 0.5
  {
    var n := HalfEven(x * scale);
    HalfEvenIff(n, x * scale);
    if n >= k {
      Ordered(k as real, n as real, scale);
    } else {
      OrderedStrictly(n as real, k as real, scale);
    }
  }
}
