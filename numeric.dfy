/**
  Rounding functions used by the bake bookkeeping (JavaScript's `Math.round`)
  and by the frame-selection shader (GLSL's `fract` and `ceil`), defined over
  exact reals.
 */
module Numeric {

  /** JavaScript `Math.round`: the nearest integer, halves rounded up. */
  function Round(x: real): (r: int)
    ensures r as real - 0.5 <= x < r as real + 0.5
  {
    (x + 0.5).Floor
  }

  /** GLSL `fract`: the part of `x` above the largest integer not exceeding it. */
  function Fract(x: real): (r: real)
    ensures 0.0 <= r < 1.0
    ensures (x - r).Floor as real == x - r
  {
    x - x.Floor as real
  }

  /** GLSL `ceil`: the smallest integer not below `x`. */
  function Ceil(x: real): (r: int)
    ensures x <= r as real < x + 1.0
  {
    -((-x).Floor)
  }

  function Max(a: int, b: int): (r: int)
    ensures r >= a && r >= b && (r == a || r == b)
  {
    if a < b then b else a
  }

  /** Whether `x` is a whole number. */
  predicate IsIntegral(x: real) {
    x.Floor as real == x
  }

  /** Rounding commutes with shifting by a whole number. */
  lemma RoundShift(x: real, n: int)
    ensures Round(x + n as real) == Round(x) + n
  {
  }

  /** The fractional part is periodic with period one. */
  lemma FractShift(x: real, n: int)
    ensures Fract(x + n as real) == Fract(x)
  {
    assert (x + n as real).Floor == x.Floor + n;
  }

  /** `ceil` of a value in [0, n) with whole `n` lies in [0, n]. */
  lemma CeilBelowWhole(x: real, n: int)
    requires 0.0 <= x < n as real
    ensures 0 <= Ceil(x) <= n
  {
  }

  /** `ceil` is `floor` plus one exactly off the whole numbers. */
  lemma CeilFloor(x: real)
    ensures Ceil(x) == x.Floor + (if IsIntegral(x) then 0 else 1)
  {
  }

  /**
    Scaling the fractional part of `e / n` back by the whole number `n` leaves
    `e` minus the largest multiple of `n` not exceeding `floor(e)`.
   */
  lemma {:induction false} FractScaled(e: real, n: int)
    requires n >= 1
    ensures Fract(e / n as real) * n as real == e - ((e.Floor / n) * n) as real
  {
    var k := e.Floor;
    var q := k / n;
    var nr := n as real;
    assert q * n <= k < q * n + n;
    assert (q * n) as real == q as real * nr;
    assert q as real * nr <= e < q as real * nr + nr;
    assert q as real <= e / nr < q as real + 1.0 by {
      DivideBounds(e, nr, q as real);
    }
    assert (e / nr).Floor == q;
    calc {
      Fract(e / nr) * nr;
      (e / nr - q as real) * nr;
      e - q as real * nr;
    }
  }

  /** Dividing a real enclosed between two multiples of a positive `d`. */
  lemma DivideBounds(e: real, d: real, q: real)
    requires d > 0.0
    requires q * d <= e < q * d + d
    ensures q <= e / d < q + 1.0
  {
    var x := e / d;
    assert x * d == e;
    if x < q {
      ScaleStrict(x, q, d);
    }
    if x >= q + 1.0 {
      Scale(q + 1.0, x, d);
    }
  }

  lemma Scale(a: real, b: real, d: real)
    requires a <= b && d > 0.0
    ensures a * d <= b * d
  {
  }

  lemma ScaleStrict(a: real, b: real, d: real)
    requires a < b && d > 0.0
    ensures a * d < b * d
  {
  }

  /** Real division by a non-zero `d` is the unique solution of `y * d == z`. */
  lemma DivideExact(z: real, d: real, y: real)
    requires d != 0.0 && y * d == z
    ensures z / d == y
  {
  }

  lemma MulDistributes(a: int, b: int, s: int)
    ensures (a + b) * s == a * s + b * s
  {
  }

  lemma MulMonotone(a: int, b: int, s: int)
    requires a <= b && s >= 0
    ensures a * s <= b * s
  {
  }
}
