/** Go's fixed-width integers: the results of `+`, `-`, `*` wrap modulo 2^64. */
module Machine {

  const TWO_63: int := 0x8000_0000_0000_0000
  const TWO_64: int := 0x1_0000_0000_0000_0000

  type uint64 = x: int | 0 <= x < TWO_64

  function Wrap(x: int): uint64
    decreases if x < 0 then TWO_64 - x else x
  {
    if x < 0 then Wrap(x + TWO_64) else if x < TWO_64 then x else Wrap(x - TWO_64)
  }

  function Add(a: uint64, b: uint64): uint64 { Wrap(a + b) }

  function Sub(a: uint64, b: uint64): uint64 { Wrap(a - b) }

  function Mul(a: uint64, b: uint64): uint64 { Wrap(a * b) }

  /** The conversion of any integer to a signed 64-bit value. */
  function ToInt64(x: int): (r: int)
    ensures -TWO_63 <= r < TWO_63
  {
    var r := Wrap(x);
    if r < TWO_63 then r else r - TWO_64
  }

  lemma {:induction false} AddMultiple(a: int, m: int)
    ensures Wrap(a + m * TWO_64) == Wrap(a)
    decreases if m < 0 then -m else m
  {
    if m == 0 {
    } else if m > 0 {
      AddMultiple(a, m - 1);
    } else {
      AddMultiple(a, m + 1);
    }
  }

  /** A wrapped value differs from the true one by a multiple of 2^64. */
  lemma {:induction false} WrapMultiple(x: int) returns (q: int)
    ensures x == Wrap(x) + q * TWO_64
    decreases if x < 0 then TWO_64 - x else x
  {
    if x < 0 {
      q := WrapMultiple(x + TWO_64);
      q := q - 1;
    } else if x < TWO_64 {
      q := 0;
    } else {
      q := WrapMultiple(x - TWO_64);
      q := q + 1;
    }
  }

  lemma ToInt64Multiple(x: int) returns (q: int)
    ensures x == ToInt64(x) + q * TWO_64
  {
    q := WrapMultiple(x);
    if Wrap(x) >= TWO_63 {
      q := q + 1;
    }
  }

  lemma ScaleSum(w: int, q: int, m: int, k: int)
    ensures (w + q * m) * k == w * k + (q * k) * m
  {
    assert q * m * k == q * k * m;
  }

  /** Scaling a wrapped value and wrapping again is scaling and wrapping once. */
  lemma ToInt64Scale(x: int, k: int)
    ensures ToInt64(ToInt64(x) * k) == ToInt64(x * k)
  {
    var q := ToInt64Multiple(x);
    ScaleSum(ToInt64(x), q, TWO_64, k);
    AddMultiple(ToInt64(x) * k, q * k);
  }

  lemma SubAsDifference(a: uint64, b: uint64)
    ensures Sub(a, b) == if b <= a then a - b else a - b + TWO_64
  {
    if a < b {
      assert Wrap(a - b + TWO_64) == a - b + TWO_64;
    }
  }

  /** Taking two amounts away wraps to the same value in either order. */
  lemma SubCommutes(x: uint64, a: uint64, b: uint64)
    ensures Sub(Sub(x, a), b) == Sub(Sub(x, b), a)
  {
    SubAsDifference(x, a);
    SubAsDifference(x, b);
  }

  lemma Distribute(a: int, b: int, k: int)
    ensures (a + b) * k == a * k + b * k
  {
  }

  lemma MulMonotone(a: int, b: int, k: nat)
    requires a <= b
    ensures a * k <= b * k
  {
  }

  lemma QuotientTimes(a: nat, d: nat)
    requires d > 0
    ensures 0 <= a / d * d <= a
    ensures 0 <= a / d <= a
  {
    var q := a / d;
    assert a == d * q + a % d;
    assert d * q == q * d;
    MulMonotone(1, d, q);
  }
}
