/** Decimal rounding to eight places, the `+x.toFixed(8)` step that every
    amount of the engine passes through. Amounts are exact reals here; the
    binary representation of a JavaScript number is not modelled. */
module Fixed8 {

  /** 10^8: eight decimal places are kept. */
  const Scale: real := 100000000.0

  /** Half of the last kept decimal place: the largest rounding error. */
  const HalfUnit: real := 0.5 / Scale

  /** True iff `x` has at most eight decimal places. */
  predicate OnGrid(x: real) {
    (x * Scale).Floor as real == x * Scale
  }

  /** True iff `a` is within rounding distance of `x`. */
  predicate Near(a: real, x: real) {
    x - HalfUnit <= a <= x + HalfUnit
  }

  /** The number of whole 10^-8 units nearest to a magnitude, ties up. */
  function Units(m: real): (n: int)
    requires m >= 0.0
    ensures n >= 0
    ensures m * Scale - 0.5 < n as real <= m * Scale + 0.5
  {
    (m * Scale + 0.5).Floor
  }

  /** `n` units of 10^-8, which always has eight decimals. */
  function FromUnits(n: int): (r: real)
    ensures r * Scale == n as real
    ensures OnGrid(r)
  {
    n as real / Scale
  }

  /** `+x.toFixed(8)`: the nearest value with eight decimals, ties away
      from zero (toFixed rounds the magnitude and keeps the sign). */
  function Round8(x: real): (r: real)
    ensures OnGrid(r)
    ensures Near(r, x)
    ensures x >= 0.0 ==> r >= 0.0
    ensures x <= 0.0 ==> r <= 0.0
  {
    if x >= 0.0 then FromUnits(Units(x)) else FromUnits(-Units(-x))
  }

  /** A value that already has eight decimals is left alone. */
  lemma Round8Exact(x: real)
    requires OnGrid(x)
    ensures Round8(x) == x
  {
    var n := (x * Scale).Floor;
    if x >= 0.0 {
      assert Units(x) == n;
    } else {
      assert Units(-x) == -n;
    }
  }

  /** Rounding preserves order. */
  lemma Round8Monotone(x: real, y: real)
    requires x <= y
    ensures Round8(x) <= Round8(y)
  {
    if 0.0 <= x {
      assert Units(x) <= Units(y);
    } else if y < 0.0 {
      assert Units(-y) <= Units(-x);
    }
  }

  /** Sums and differences of eight-decimal values have eight decimals. */
  lemma GridClosed(x: real, y: real)
    requires OnGrid(x) && OnGrid(y)
    ensures OnGrid(x + y) && OnGrid(x - y)
  {
    var a := (x * Scale).Floor;
    var b := (y * Scale).Floor;
    Distributes(x, y);
    WholeUnitsOnGrid(x + y, a + b);
    WholeUnitsOnGrid(x - y, a - b);
  }

  lemma Distributes(x: real, y: real)
    ensures (x + y) * Scale == x * Scale + y * Scale
    ensures (x - y) * Scale == x * Scale - y * Scale
  {
  }

  lemma WholeUnitsOnGrid(z: real, n: int)
    requires z * Scale == n as real
    ensures OnGrid(z)
  {
    assert (n as real).Floor == n;
  }
}
