/** JavaScript's rounding on exact rationals: `Math.round` and `Number.prototype.toFixed(1)`. */
module Numbers {

  /** `Math.round`: the nearest integer, halves rounded toward +infinity. */
  function MathRound(x: real): (n: int)
    ensures x - 0.5 < n as real <= x + 0.5
  {
    (x + 0.5).Floor
  }

  /** Rounding is monotone. */
  lemma MathRoundMonotone(x: real, y: real)
    requires x <= y
    ensures MathRound(x) <= MathRound(y)
  {
  }

  /** An integer rounds to itself. */
  lemma MathRoundOfInteger(n: int)
    ensures MathRound(n as real) == n
  {
  }

  /** `n / 10`, a whole number of tenths. */
  function Tenths(n: int): (r: real)
    ensures r * 10.0 == n as real
  {
    n as real / 10.0
  }

  /** `x.toFixed(1)` read back as a number: the nearest tenth, ties away from zero (the
      digits of |x| are rounded half up and the sign is put back). */
  function ToFixedOne(x: real): (r: real)
    ensures (r * 10.0).Floor as real == r * 10.0
    ensures x - 0.05 <= r <= x + 0.05
    // a tie goes to the tenth farther from zero
    ensures x >= 0.0 ==> x - 0.05 < r
    ensures x < 0.0 ==> r < x + 0.05
  {
    if x < 0.0 then
      var n := MathRound(-x * 10.0);
      assert -x * 10.0 - 0.5 < n as real <= -x * 10.0 + 0.5;
      assert (-n as real).Floor == -n;
      Tenths(-n)
    else
      var n := MathRound(x * 10.0);
      assert (n as real).Floor == n;
      Tenths(n)
  }
}
