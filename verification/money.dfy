/** Exact decimal money. Every money column of the system is
    `decimal(18,2)`, so stored prices and commission amounts are whole
    numbers of cents (paisa). A commission rate is a whole percentage, so the
    unrounded commission `price * (rate / 100m)` is exactly
    `priceCents * rate` ten-thousandths; `Math.Round(x, 2)` then rounds it to
    cents with .NET's default MidpointRounding.ToEven. */
module Money {

  /** `r` is `n / d` rounded to the nearest integer, ties to the even one. */
  predicate IsHalfEvenRounding(n: int, d: int, r: int)
    requires d > 0
  {
    var err := n - r * d;
    -d <= 2 * err <= d && ((2 * err == d || 2 * err == -d) ==> r % 2 == 0)
  }

  /** Banker's rounding of the quotient `n / d`. */
  function RoundHalfEven(n: int, d: int): (r: int)
    requires d > 0
    ensures IsHalfEvenRounding(n, d, r)
  {
    var q := n / d;
    var rem := n % d;
    assert n == q * d + rem;
    if 2 * rem < d then q
    else if 2 * rem > d then q + 1
    else if q % 2 == 0 then q
    else q + 1
  }

  /** A multiple of `d` that lies within `[-d, d]` is `-d`, `0` or `d`. */
  lemma SmallMultiple(x: int, d: int)
    requires d > 0 && -d <= x * d <= d
    ensures -1 <= x <= 1
  {
  }

  /** There is only one half-to-even rounding of a quotient. */
  lemma HalfEvenRoundingUnique(n: int, d: int, r1: int, r2: int)
    requires d > 0
    requires IsHalfEvenRounding(n, d, r1) && IsHalfEvenRounding(n, d, r2)
    ensures r1 == r2
  {
    assert (n - r2 * d) - (n - r1 * d) == (r1 - r2) * d;
    SmallMultiple(r1 - r2, d);
  }

  /** Scaling numerator and denominator alike does not change the rounding. */
  lemma HalfEvenRoundingScale(n: int, d: int, k: int, r: int)
    requires d > 0 && k > 0
    ensures IsHalfEvenRounding(n, d, r) <==> IsHalfEvenRounding(k * n, k * d, r)
  {
    var err := n - r * d;
    assert k * n - r * (k * d) == k * err;
    assert 2 * (k * err) == k * (2 * err);
    assert k * (2 * err) <= k * d <==> 2 * err <= d;
    assert -(k * d) <= k * (2 * err) <==> -d <= 2 * err;
    assert k * (2 * err) == k * d <==> 2 * err == d;
    assert k * (2 * err) == -(k * d) <==> 2 * err == -d;
  }

  function Pow10(k: nat): (p: nat)
    ensures p >= 1
  {
    if k == 0 then 1 else 10 * Pow10(k - 1)
  }

  lemma {:induction false} Pow10Add(a: nat, b: nat)
    ensures Pow10(a + b) == Pow10(a) * Pow10(b)
    decreases a
  {
    if a > 0 {
      Pow10Add(a - 1, b);
    }
  }

  /** A parsed decimal number: `units / 10^scale`. */
  datatype Decimal = Decimal(units: int, scale: nat)

  /** `Math.Round(x, 2)`, in cents. */
  function Round2(x: Decimal): (cents: int)
    ensures IsHalfEvenRounding(x.units * 100, Pow10(x.scale), cents)
  {
    if x.scale <= 2 then
      var k := Pow10(2 - x.scale);
      Pow10Add(2 - x.scale, x.scale);
      assert x.units * 100 - x.units * k * Pow10(x.scale) == 0;
      x.units * k
    else
      var d := Pow10(x.scale - 2);
      Pow10Add(2, x.scale - 2);
      var r := RoundHalfEven(x.units, d);
      HalfEvenRoundingScale(x.units, d, 100, r);
      assert 100 * x.units == x.units * 100;
      r
  }

  /** A value with two decimals is left as it is by `Math.Round(_, 2)`. */
  lemma Round2OfCents(cents: int)
    ensures Round2(Decimal(cents, 2)) == cents
  {
  }

  /** A whole number of cents written with `k` extra trailing zeros still
      rounds to itself. */
  lemma Round2OfPadded(cents: int, k: nat)
    ensures Round2(Decimal(cents * Pow10(k), 2 + k)) == cents
  {
    var x := Decimal(cents * Pow10(k), 2 + k);
    var p := Pow10(k);
    var d := Pow10(2 + k);
    Pow10Add(2, k);
    assert d == 100 * p;
    var n := x.units * 100;
    MulRearrange(cents, p, 100);
    assert n == cents * d;
    ExactQuotientRounds(n, d, cents);
    HalfEvenRoundingUnique(n, d, Round2(x), cents);
  }

  lemma MulRearrange(a: int, b: int, c: int)
    ensures (a * b) * c == a * (c * b)
  {
  }

  /** An exact quotient is its own rounding. */
  lemma ExactQuotientRounds(n: int, d: int, q: int)
    requires d > 0 && n == q * d
    ensures IsHalfEvenRounding(n, d, q)
  {
  }

  /** `Math.Round(priceCents/100 * (rate / 100m), 2)` in cents. */
  function Commission(priceCents: int, rate: int): (amount: int)
    ensures IsHalfEvenRounding(priceCents * rate, 100, amount)
    ensures priceCents >= 0 && rate >= 0 ==> amount >= 0
  {
    RoundHalfEven(priceCents * rate, 100)
  }

  /** The commission is the two-decimal rounding of the exact product, read
      as a decimal with four places. */
  lemma CommissionIsRound2(priceCents: int, rate: int)
    ensures Commission(priceCents, rate) == Round2(Decimal(priceCents * rate, 4))
  {
    var exact := priceCents * rate;
    var a := Commission(priceCents, rate);
    var b := Round2(Decimal(exact, 4));
    assert Pow10(4) == 100 * 100;
    HalfEvenRoundingScale(exact, 100, 100, b);
    assert 100 * exact == exact * 100;
    HalfEvenRoundingUnique(exact, 100, a, b);
  }

  /** 3% of 1,000,000.00 is 30,000.00. */
  lemma CommissionOnMillion()
    ensures Commission(100_000_000, 3) == 3_000_000
  {
  }

  /** Midpoints go to the even cent: 5% of 0.50 is 0.025, which rounds to
      0.02, and 5% of 1.50 is 0.075, which rounds to 0.08. */
  lemma CommissionMidpointsToEven()
    ensures Commission(50, 5) == 2
    ensures Commission(150, 5) == 8
  {
  }
}
