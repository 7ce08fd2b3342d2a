/** Integer and real helpers that mirror Python's built-in arithmetic. */
module Arith {

  function Min(a: int, b: int): int { if a <= b then a else b }

  function Max(a: int, b: int): int { if a <= b then b else a }

  function MinReal(a: real, b: real): real { if a <= b then a else b }

  function MaxReal(a: real, b: real): real { if a <= b then b else a }

  /**
   * Where Python and numpy put the bound i of a slice with step 1 over n elements: a
   * negative bound counts from the end, and both ends clamp to [0, n].
   */
  function SliceIndex(i: int, n: nat): (r: nat)
    ensures r <= n
    ensures 0 <= i <= n ==> r == i
    ensures i > n ==> r == n
    ensures i < 0 ==> r == Max(0, i + n)
  {
    if i < 0 then Max(0, i + n) else Min(i, n)
  }

  /** The length of s[start:stop] over n elements. */
  function SliceLen(start: int, stop: int, n: nat): (len: nat)
    ensures SliceIndex(start, n) + len <= n
  {
    Max(0, SliceIndex(stop, n) - SliceIndex(start, n))
  }

  /** numpy.clip(v, lo, hi) = minimum(maximum(v, lo), hi); when lo > hi the result is hi. */
  function Clip(v: real, lo: real, hi: real): (r: real)
    ensures lo <= hi ==> lo <= r <= hi
    ensures lo <= v <= hi ==> r == v
    ensures hi < lo ==> r == hi
  {
    MinReal(MaxReal(v, lo), hi)
  }

  /** Python int() applied to a float: truncation toward zero. */
  function Trunc(x: real): (r: int)
    ensures 0.0 <= x ==> r == x.Floor
    ensures x < 0.0 ==> r <= 0 && (r as real) - 1.0 < x <= r as real
  {
    if x >= 0.0 then x.Floor else -((-x).Floor)
  }

  /** math.ceil / numpy.ceil on an exact real. */
  function Ceil(x: real): (r: int)
    ensures x <= r as real < x + 1.0
  {
    -((-x).Floor)
  }

  /** Python round() on an exact real: nearest integer, ties to the even neighbour. */
  function RoundHalfEven(x: real): (r: int)
    ensures (r as real) - 0.5 <= x <= (r as real) + 0.5
    ensures x - (x.Floor as real) == 0.5 ==> r % 2 == 0
  {
    var f := x.Floor;
    var d := x - f as real;
    if d < 0.5 then f
    else if d > 0.5 then f + 1
    else if f % 2 == 0 then f else f + 1
  }

  /** Multiplying by a positive real keeps a non-strict order. */
  lemma MulMono(a: real, b: real, d: real)
    requires a <= b && d > 0.0
    ensures a * d <= b * d
  {
  }

  /** Multiplying by a positive real keeps a strict order. */
  lemma MulStrict(a: real, b: real, d: real)
    requires a < b && d > 0.0
    ensures a * d < b * d
  {
  }

  /** Flooring a quotient by a positive integer commutes with flooring the dividend. */
  lemma FloorDivByInt(x: real, n: int)
    requires n > 0
    ensures (x / n as real).Floor == x.Floor / n
  {
    var f := x.Floor;
    var q := f / n;
    var rem := f % n;
    assert f == q * n + rem && 0 <= rem < n;
    assert (q * n) as real == (q as real) * (n as real);
    assert ((q + 1) * n) as real == ((q + 1) as real) * (n as real);
    assert (q as real) * (n as real) <= x;
    assert x < ((q + 1) as real) * (n as real);
    DivBounds(x, n as real, q as real);
  }

  lemma DivBounds(x: real, d: real, q: real)
    requires d > 0.0
    requires q * d <= x < (q + 1.0) * d
    ensures q <= x / d < q + 1.0
  {
    var y := x / d;
    var lo := x - q * d;
    var p := q + 1.0;
    var hi := p * d - x;
    assert lo / d == y - q;
    assert hi / d == p - y;
    assert lo / d >= 0.0;
    assert hi / d > 0.0;
  }
}
