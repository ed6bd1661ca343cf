/** The arithmetic facts behind the fee formulas, over plain numbers. */
module FeeAlgebra {

  lemma CastMul(a: int, b: int)
    ensures (a * b) as real == a as real * b as real
  {
  }

  lemma CancelDiv(a: real, b: real)
    requires b > 0.0
    ensures a / b * b == a
  {
  }

  lemma PositiveProduct(a: real, b: real)
    requires a > 0.0 && b > 0.0
    ensures a * b > 0.0
  {
  }

  lemma NoZeroProduct(a: real, b: real)
    requires a != 0.0 && a * b == 0.0
    ensures b == 0.0
  {
    if b != 0.0 {
      PositiveProduct(if a < 0.0 then -a else a, if b < 0.0 then -b else b);
    }
  }

  lemma CompareScaled(x: real, y: real, m: real)
    requires m > 0.0
    ensures x >= y <==> x * m >= y * m
    ensures x > y <==> x * m > y * m
  {
  }

  lemma DistributeReal(a: real, b: real, c: real)
    ensures (a + b) * c == a * c + b * c
  {
  }

  lemma SwapFactors(a: real, b: real, s: real, c: real)
    ensures a * b * s * c == (a * b * c) * s
  {
  }

  /** Clearing the denominators s, k and t of both sides of the fee comparison. */
  lemma ClearDenominators(a: real, c: real, s: real, t: real, k: real, percent: real)
    requires s > 0.0 && t > 0.0 && k > 0.0
    ensures a / s / k >= c / k / k / t * (percent / 100.0) <==> a * k * t * 100.0 >= c * s * percent
    ensures a / s / k > c / k / k / t * (percent / 100.0) <==> a * k * t * 100.0 > c * s * percent
  {
    var x, y := a / s / k, c / k / k / t;
    assert x * k * s == a by { CancelDiv(a / s, k); CancelDiv(a, s); }
    assert y * t * k * k == c by { CancelDiv(c / k / k, t); CancelDiv(c / k, k); CancelDiv(c, k); }
    var m := s * k * k * t * 100.0;
    assert x * m == (x * k * s) * k * t * 100.0;
    assert y * (percent / 100.0) * m == (y * t * k * k) * s * percent;
    assert x * m == a * k * t * 100.0;
    assert y * (percent / 100.0) * m == c * s * percent;
    PositiveProduct(s, k);
    PositiveProduct(s * k, k);
    PositiveProduct(s * k * k, t);
    CompareScaled(x, y * (percent / 100.0), m);
  }

  lemma CastLeft(paid: int, price: int, k: int, t: int)
    ensures (paid * price) as real * k as real * t as real * 100.0 == (paid * price * k * t * 100) as real
  {
    CastMul(paid * price, k);
    CastMul(paid * price * k, t);
    CastMul(paid * price * k * t, 100);
  }

  lemma CastRight(minFee: int, price: int, s: int, percent: int)
    ensures (minFee * price) as real * s as real * percent as real == (minFee * price * s * percent) as real
  {
    CastMul(minFee * price, s);
    CastMul(minFee * price * s, percent);
  }

  /** The comparison of quotients is a comparison of integers. */
  lemma DecisionOnIntegers(paid: int, tokenPrice: int, minFee: int, chainPrice: int, s: int, t: int, k: int,
                           percent: int)
    requires s > 0 && t > 0 && k > 0
    ensures (paid * tokenPrice) as real / s as real / k as real
              >= (minFee * chainPrice) as real / k as real / k as real / t as real * (percent as real / 100.0)
       <==> paid * tokenPrice * k * t * 100 >= minFee * chainPrice * s * percent
    ensures (paid * tokenPrice) as real / s as real / k as real
              > (minFee * chainPrice) as real / k as real / k as real / t as real * (percent as real / 100.0)
       <==> paid * tokenPrice * k * t * 100 > minFee * chainPrice * s * percent
  {
    ClearDenominators((paid * tokenPrice) as real, (minFee * chainPrice) as real, s as real, t as real, k as real,
        percent as real);
    CastLeft(paid, tokenPrice, k, t);
    CastRight(minFee, chainPrice, s, percent);
  }

  /** The steps of the quote, from the proxy fee with its rate to the token fee, gathered into one quotient. */
  lemma QuoteSteps(rated: real, perFee: real, perCoin: real, usd: real, scaledUsd: real, back: real, fee: real,
                   price: real, k: real, t: real, k': real, tp: real, q: real, s: real)
    requires k > 0.0 && t > 0.0 && k' > 0.0 && tp > 0.0
    requires perFee == rated / k && perCoin == perFee / t && usd == perCoin * price
    requires scaledUsd == usd / k' && back == scaledUsd * k' && fee == back / tp
    ensures fee * q * s == (rated * price * q / (k * t)) * (s / tp)
  {
    CancelDiv(usd, k');
    assert back == usd;
    var inverse := 1.0 / (k * t);
    assert perCoin == rated * inverse;
    assert rated * price * q / (k * t) == rated * price * q * inverse;
    assert usd / tp * q * s == (usd * q) * (s / tp);
    assert usd * q == rated * price * q * inverse;
  }

  lemma L1Steps(l: real, tp: real, s: real)
    requires tp > 0.0
    ensures l / tp * s == l * (s / tp)
  {
  }

  /** A quoted amount valued the way the check values a payment. */
  lemma QuoteValue(p: real, rate: real, price: real, percent: real, k: real, t: real, l: real, s: real, tp: real)
    requires k > 0.0 && t > 0.0 && tp > 0.0
    ensures (p * rate * price * (percent / 100.0) / (k * t) + l) * (s / tp) * tp * k * t * 100.0
         == (p * rate * price * percent + l * k * t * 100.0) * s
  {
    var w := p * rate * price * (percent / 100.0);
    CancelDiv(s, tp);
    CancelDiv(w, k * t);
    var x := w / (k * t) + l;
    assert x * (s / tp) * tp == x * s;
    assert x * (k * t) == w + l * (k * t);
    assert x * s * k * t * 100.0 == (x * (k * t)) * s * 100.0;
    assert w * 100.0 == p * rate * price * percent;
  }

  /** The exact relation of quote and check: the precision of the payment token drops out. */
  lemma QuoteAgainstCheck(p: real, rate: real, price: real, percent: real, k: real, t: real, l: real, s: real,
                          tp: real, least: real, check: real)
    requires k > 0.0 && t > 0.0 && tp > 0.0 && s > 0.0
    ensures (p * rate * price * (percent / 100.0) / (k * t) + l) * (s / tp) * tp * k * t * 100.0
          >= least * price * s * check
       <==> p * rate * price * percent + l * k * t * 100.0 >= least * price * check
  {
    QuoteValue(p, rate, price, percent, k, t, l, s, tp);
    SwapFactors(least, price, s, check);
    CompareScaled(p * rate * price * percent + l * k * t * 100.0, least * price * check, s);
  }

  lemma ProductsGrow(p: real, rate: real, price: real, percent: real, least: real)
    requires 0.0 <= least <= p && rate >= 1.0 && price >= 0.0 && percent >= 0.0
    ensures p * rate * price * percent >= least * price * percent
  {
    assert p * rate >= least by { assert p * (rate - 1.0) >= 0.0; }
    var m := price * percent;
    assert (p * rate - least) * m >= 0.0;
    assert p * rate * price * percent == (p * rate) * m;
    assert least * price * percent == least * m;
  }

  lemma ProductMonotone(a: real, b: real, c: real, d: real)
    requires a <= b && c >= 0.0 && d >= 0.0
    ensures c * d * a <= c * d * b
  {
    assert c * d >= 0.0;
  }

  lemma NaturalProduct(l: real, k: real, t: real)
    requires l >= 0.0 && k > 0.0 && t > 0.0
    ensures l * k * t * 100.0 >= 0.0
  {
    assert l * k >= 0.0;
    assert l * k * t >= 0.0;
  }

  lemma MorePaid(a: real, b: real, price: real, k: real, t: real)
    requires a <= b && price >= 0.0 && k > 0.0 && t > 0.0
    ensures a * price * k * t * 100.0 <= b * price * k * t * 100.0
  {
    NaturalProduct(price, k, t);
    var m := price * k * t * 100.0;
    assert (b - a) * m >= 0.0;
    assert a * price * k * t * 100.0 == a * m;
    assert b * price * k * t * 100.0 == b * m;
  }

  lemma MorePaidWhole(a: int, b: int, price: int, k: int, t: int)
    requires a <= b && price >= 0 && k > 0 && t > 0
    ensures a * price * k * t * 100 <= b * price * k * t * 100
  {
    var m := price * k * t * 100;
    assert m >= 0 by {
      assert price * k >= 0;
      assert price * k * t >= 0;
    }
    assert (b - a) * m >= 0;
    assert a * price * k * t * 100 == a * m;
    assert b * price * k * t * 100 == b * m;
  }

  lemma PriceCancels(worth: real, price: real, unit: real)
    requires price > 0.0 && unit > 0.0
    ensures worth * (unit / price) * price / unit == worth
  {
    var amount := worth * (unit / price);
    CancelDiv(unit, price);
    assert amount * price == worth * (unit / price * price);
    assert worth * unit / unit == worth;
  }
}
