/** Arbitrary-precision decimals as utils/decimal computes them: value * 10^exp, with truncated quotients. */
module Decimals {
  import opened Machine
  import opened Powers

  datatype Decimal = Decimal(value: int, exp: int)

  const DIVISION_PRECISION: int := 64

  function Abs(x: int): nat { if x < 0 then -x else x }

  /** Division truncated toward zero. */
  function Quo(a: int, b: int): int
    requires b != 0
  {
    if (a >= 0) == (b > 0) then Abs(a) / Abs(b) else -(Abs(a) / Abs(b))
  }

  function Rem(a: int, b: int): int
    requires b != 0
  {
    a - b * Quo(a, b)
  }

  function FromInt(x: int): Decimal { Decimal(x, 0) }

  function Rescale(d: Decimal, exp: int): Decimal
  {
    if exp > d.exp then Decimal(Quo(d.value, Pow10(exp - d.exp)), exp)
    else Decimal(d.value * Pow10(d.exp - exp), exp)
  }

  function Times(a: Decimal, b: Decimal): Decimal { Decimal(a.value * b.value, a.exp + b.exp) }

  function Plus(a: Decimal, b: Decimal): Decimal
  {
    var exp := if a.exp <= b.exp then a.exp else b.exp;
    Decimal(Rescale(a, exp).value + Rescale(b, exp).value, exp)
  }

  predicate Less(a: Decimal, b: Decimal)
  {
    var exp := if a.exp <= b.exp then a.exp else b.exp;
    Rescale(a, exp).value < Rescale(b, exp).value
  }

  lemma ScaledIsNonzero(x: int, n: nat)
    requires x != 0
    ensures x * Pow10(n) != 0
  {
  }

  function QuoRem(a: Decimal, b: Decimal, precision: int): (Decimal, Decimal)
    requires b.value != 0
  {
    var e := a.exp - b.exp + precision;
    if e < 0 then
      ScaledIsNonzero(b.value, -e);
      var bb := b.value * Pow10(-e);
      (Decimal(Quo(a.value, bb), -precision), Decimal(Rem(a.value, bb), a.exp))
    else
      var aa := Pow10(e) * a.value;
      (Decimal(Quo(aa, b.value), -precision), Decimal(Rem(aa, b.value), b.exp - precision))
  }

  /** The quotient to 64 places, a remainder of half a place or more rounding away from zero. */
  function Div(a: Decimal, b: Decimal): Decimal
    requires b.value != 0
  {
    var (q, r) := QuoRem(a, b, DIVISION_PRECISION);
    var r2 := Decimal(2 * Abs(r.value), r.exp + DIVISION_PRECISION);
    if Less(r2, Decimal(Abs(b.value), b.exp)) then q
    else if (a.value < 0) != (b.value < 0) && a.value != 0 then Plus(q, Decimal(-1, -DIVISION_PRECISION))
    else Plus(q, Decimal(1, -DIVISION_PRECISION))
  }

  function IntegerPart(d: Decimal): int { Rescale(d, 0).value }

  /** What the statistics store for an amount of a token with the given precision: hundredths of a token. */
  function Hundredths(amount: int, precision: nat): int
  {
    IntegerPart(Times(Div(FromInt(amount), Decimal(1, precision)), FromInt(100)))
  }

  /** The conversion as a value. */
  function InHundredths(precision: nat): int -> int { amount => Hundredths(amount, precision) }

  lemma QuoByOne(a: int)
    ensures Quo(a, 1) == a && Rem(a, 1) == 0
  {
  }

  /** Dividing by a power of ten up to 10^64 is exact. */
  lemma DivByScale(amount: int, precision: nat)
    requires precision <= DIVISION_PRECISION
    ensures Div(FromInt(amount), Decimal(1, precision))
         == Decimal(Pow10(DIVISION_PRECISION - precision) * amount, 0 - DIVISION_PRECISION)
  {
    var aa := Pow10(DIVISION_PRECISION - precision) * amount;
    QuoByOne(aa);
    assert QuoRem(FromInt(amount), Decimal(1, precision), DIVISION_PRECISION)
        == (Decimal(aa, -DIVISION_PRECISION), Decimal(0, precision - DIVISION_PRECISION));
  }

  /** A common factor drops out of a truncated quotient. */
  lemma QuoCancels(a: int, b: int, k: int)
    requires b > 0 && k > 0
    ensures b * k > 0 && Quo(a * k, b * k) == Quo(a, b)
  {
    var n := Abs(a);
    assert Abs(a * k) == n * k by { if a < 0 { assert (-a) * k == -(a * k); } }
    DivCancels(n, b, k);
    assert b * k > 0;
    assert (a * k >= 0) == (a >= 0);
  }

  lemma DivCancels(n: nat, b: nat, k: nat)
    requires b > 0 && k > 0
    ensures b * k > 0 && (n * k) / (b * k) == n / b
  {
    var q, r := n / b, n % b;
    assert n == q * b + r;
    assert n * k == q * (b * k) + r * k;
    assert 0 <= r * k < b * k;
    DivUnique(n * k, b * k, q, r * k);
  }

  lemma DivUnique(n: nat, d: nat, q: nat, r: nat)
    requires d > 0 && n == q * d + r && r < d
    ensures n / d == q
  {
    var m := n / d - q;
    assert n == n / d * d + n % d;
    assert m * d == r - n % d;
    OnlyZeroIsSmall(m, d);
  }

  lemma OnlyZeroIsSmall(m: int, d: nat)
    requires 0 - d < m * d < d
    ensures m == 0
  {
  }

  lemma IntegerOfPlaces(x: int)
    ensures IntegerPart(Decimal(x, -DIVISION_PRECISION)) == Quo(x, Pow10(DIVISION_PRECISION))
  {
  }

  lemma QuoOfScaled(amount: int, p: nat, k: nat)
    requires p > 0 && k > 0
    ensures p * k > 0 && Quo((k * amount) * 100, p * k) == Quo(100 * amount, p)
  {
    assert (k * amount) * 100 == (100 * amount) * k;
    QuoCancels(100 * amount, p, k);
  }

  lemma ScaledTruncation(amount: int, precision: nat)
    requires precision <= DIVISION_PRECISION
    ensures Quo((Pow10(DIVISION_PRECISION - precision) * amount) * 100, Pow10(DIVISION_PRECISION))
         == Quo(100 * amount, Pow10(precision))
  {
    Pow10Adds(precision, DIVISION_PRECISION - precision);
    QuoOfScaled(amount, Pow10(precision), Pow10(DIVISION_PRECISION - precision));
  }

  lemma HundredthsIsQuo(amount: int, precision: nat)
    requires precision <= DIVISION_PRECISION
    ensures Hundredths(amount, precision)
         == Quo((Pow10(DIVISION_PRECISION - precision) * amount) * 100, Pow10(DIVISION_PRECISION))
  {
    DivByScale(amount, precision);
    var scaled := Pow10(DIVISION_PRECISION - precision) * amount;
    TimesHundred(scaled);
    IntegerOfPlaces(scaled * 100);
  }

  lemma TimesHundred(x: int)
    ensures Times(Decimal(x, -DIVISION_PRECISION), FromInt(100)) == Decimal(x * 100, -DIVISION_PRECISION)
  {
  }

  /** Up to a precision of 64, what is stored is the exact quotient truncated once. */
  lemma HundredthsIsTruncation(amount: int, precision: nat)
    requires precision <= DIVISION_PRECISION
    ensures Hundredths(amount, precision) == Quo(100 * amount, Pow10(precision))
  {
    HundredthsIsQuo(amount, precision);
    ScaledTruncation(amount, precision);
  }

  lemma RoundedQuotient(u: nat, t: nat)
    requires u >= 1 && t >= 1
    ensures 10 * u > 0 && t * (10 * u) - 5 * u >= 0
    ensures Quo(t * (10 * u) - 5 * u, 10 * u) == t - 1 && Rem(t * (10 * u) - 5 * u, 10 * u) == 5 * u
  {
    var a := t * (10 * u) - 5 * u;
    assert a == (t - 1) * (10 * u) + 5 * u;
    assert (t - 1) * (10 * u) >= 0;
    DivUnique(a, 10 * u, t - 1, 5 * u);
    assert (10 * u) * (t - 1) == (t - 1) * (10 * u);
  }

  lemma DivRoundsUp(precision: nat, u: nat, t: nat)
    requires precision > DIVISION_PRECISION && Pow10(precision - 64) == 10 * u && u >= 1 && t >= 1
    ensures Div(FromInt(t * (10 * u) - 5 * u), Decimal(1, precision)) == Decimal(t, -DIVISION_PRECISION)
  {
    var amount := t * (10 * u) - 5 * u;
    RoundedQuotient(u, t);
    assert QuoRem(FromInt(amount), Decimal(1, precision), DIVISION_PRECISION)
        == (Decimal(t - 1, -DIVISION_PRECISION), Decimal(5 * u, 0));
    assert Rescale(Decimal(1, precision), 64).value == 10 * u;
    assert Rescale(Decimal(10 * u, 64), 64).value == 10 * u;
  }

  lemma HundredthsRoundUp(precision: nat, u: nat)
    requires precision > DIVISION_PRECISION && Pow10(precision - 64) == 10 * u && u >= 1
    ensures Hundredths(Pow10(62) * (10 * u) - 5 * u, precision) == 1
  {
    DivRoundsUp(precision, u, Pow10(62));
    WholeOfHundred();
  }

  lemma WholeOfHundred()
    ensures IntegerPart(Times(Decimal(Pow10(62), -DIVISION_PRECISION), FromInt(100))) == 1
  {
    TimesHundred(Pow10(62));
    IntegerOfPlaces(Pow10(62) * 100);
    assert Pow10(64) == 10 * Pow10(63) && Pow10(63) == 10 * Pow10(62);
    QuoOfItself(Pow10(62) * 100);
  }

  lemma QuoOfItself(a: nat)
    requires a > 0
    ensures Quo(a, a) == 1
  {
  }

  lemma PowersApart(precision: nat, u: nat)
    requires precision > DIVISION_PRECISION && Pow10(precision - 64) == 10 * u
    ensures Pow10(precision) == 100 * (Pow10(62) * (10 * u))
  {
    Pow10Adds(62, precision - 62);
    assert Pow10(precision - 62) == 10 * Pow10(precision - 63) && Pow10(precision - 63) == 10 * (10 * u);
    HundredFactors(Pow10(62), 10 * u);
  }

  lemma HundredFactors(a: int, b: int)
    ensures a * (100 * b) == 100 * (a * b)
  {
  }

  lemma SmallQuotient(a: nat, b: nat)
    requires a < b
    ensures Quo(a, b) == 0
  {
    DivUnique(a, b, 0, a);
  }

  /** With more than 64 places the quotient is rounded before it is truncated, and may come out one too high. */
  lemma RoundsUpBeyond64(precision: nat) returns (amount: int)
    requires precision > DIVISION_PRECISION
    ensures Hundredths(amount, precision) != Quo(100 * amount, Pow10(precision))
  {
    var u := Pow10(precision - 65);
    var top: nat := Pow10(62) * (10 * u);
    amount := top - 5 * u;
    PowersApart(precision, u);
    MulMonotone(1, Pow10(62), 10 * u);
    assert Hundredths(amount, precision) == 1 by { HundredthsRoundUp(precision, u); }
    assert Quo(100 * amount, 100 * top) == 0 by { SmallQuotient(100 * amount, 100 * top); }
  }

  /** Exactly the precisions up to 64 store the truncation of the true quotient, for every amount. */
  lemma TruncationIsExactIff(precision: nat)
    ensures (forall amount :: Hundredths(amount, precision) == Quo(100 * amount, Pow10(precision)))
       <==> precision <= DIVISION_PRECISION
  {
    if precision <= DIVISION_PRECISION {
      forall amount ensures Hundredths(amount, precision) == Quo(100 * amount, Pow10(precision)) {
        HundredthsIsTruncation(amount, precision);
      }
    } else {
      var amount := RoundsUpBeyond64(precision);
    }
  }
}
