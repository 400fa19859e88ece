/** Decimal arithmetic of the report query, on exact rationals. */
module Money {
  import opened Store

  /** SQL division of a decimal by a conversion rate: division by zero yields NULL. */
  function Div(x: real, rate: real): (r: Option<real>)
    ensures r.None? <==> rate == 0.0
    ensures r.Some? ==> r.value * rate == x
  {
    if rate == 0.0 then None else Some(x / rate)
  }

  lemma DivAdd(a: real, b: real, rate: real)
    requires rate != 0.0
    ensures (a + b) / rate == a / rate + b / rate
  {
  }

  /** Rounding of a non-negative decimal to the nearest hundredth, halves up. */
  function RoundHalfUp2(x: real): (r: real)
    requires x >= 0.0
    ensures -0.005 < r - x <= 0.005
    ensures r * 100.0 == (x * 100.0 + 0.5).Floor as real
    ensures r >= 0.0
  {
    var k := (x * 100.0 + 0.5).Floor;
    assert k as real <= x * 100.0 + 0.5 < k as real + 1.0;
    k as real / 100.0
  }

  /** `ROUND(x, 2)` on an exact decimal: to the nearest hundredth, halves away from zero. */
  function Round2(x: real): (r: real)
    ensures -0.005 <= r - x <= 0.005
    ensures x >= 0.0 ==> -0.005 < r - x
    ensures x < 0.0 ==> r - x < 0.005
    ensures (r * 100.0).Floor as real == r * 100.0
    ensures x >= 0.0 ==> r >= 0.0
  {
    if x >= 0.0 then
      var q := RoundHalfUp2(x);
      var k := (x * 100.0 + 0.5).Floor;
      assert q * 100.0 == k as real;
      assert (k as real).Floor == k;
      q
    else
      var q := RoundHalfUp2(-x);
      var k := ((-x) * 100.0 + 0.5).Floor;
      assert -q * 100.0 == (-k) as real;
      assert ((-k) as real).Floor == -k;
      -q
  }

  /** A value already on the hundredths grid is left as it is. */
  lemma Round2Idempotent(x: real)
    ensures Round2(Round2(x)) == Round2(x)
  {
    var r := Round2(x);
    var k := (r * 100.0).Floor;
    assert r == k as real / 100.0;
    if r >= 0.0 {
      assert (r * 100.0 + 0.5).Floor == k;
    } else {
      assert ((-r) * 100.0 + 0.5).Floor == -k;
    }
  }

  /** A half-hundredth rounds up, away from zero: 10.005 becomes 10.01. */
  lemma Round2HalfUp()
    ensures Round2(10.005) == 10.01
    ensures Round2(-10.005) == -10.01
  {
  }
}
