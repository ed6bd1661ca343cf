/**
 Reading a decimal sum into a binary floating-point number of 64 bits and back into an integer: to nearest,
 a tie to the even neighbour.
 */
module FloatSums {
  import opened Machine

  function Pow2(n: nat): (r: nat)
    ensures r >= 1
  {
    if n == 0 then 1 else 2 * Pow2(n - 1)
  }

  /** How many low bits do not fit. */
  function Shift(x: nat): nat { if x < TWO_64 then 0 else 1 + Shift(x / 2) }

  function RoundTo(x: nat, unit: nat): int
    requires unit >= 1
  {
    var q, r := x / unit, x % unit;
    (if 2 * r > unit || (2 * r == unit && q % 2 == 1) then q + 1 else q) * unit
  }

  function ReadSum(sum: int): int
  {
    if sum < 0 then -RoundTo(-sum, Pow2(Shift(-sum))) else RoundTo(sum, Pow2(Shift(sum)))
  }

  /** The bits kept are 64: what is left of a number too large is between 2^63 and 2^64 units. */
  lemma {:induction false} ShiftBounds(x: nat)
    ensures x < Pow2(Shift(x)) * TWO_64
    ensures Shift(x) > 0 ==> Pow2(Shift(x)) * TWO_63 <= x
  {
    if x < TWO_64 {
    } else {
      ShiftBounds(x / 2);
    }
  }

  lemma RoundToIsNear(x: nat, unit: nat)
    requires unit >= 1
    ensures 2 * (RoundTo(x, unit) - x) <= unit && 2 * (x - RoundTo(x, unit)) <= unit
    ensures RoundTo(x, unit) == x <==> x % unit == 0
  {
    var q, r := x / unit, x % unit;
    assert x == q * unit + r;
    assert (q + 1) * unit == q * unit + unit;
  }

  /** No multiple of the unit is nearer; and of two that are equally near the even one is taken. */
  lemma RoundsToNearestEven(x: nat, unit: nat, m: int)
    requires unit >= 1
    ensures RoundTo(x, unit) / unit * unit == RoundTo(x, unit)
    ensures Distance(RoundTo(x, unit), x) <= Distance(m * unit, x)
    ensures Distance(RoundTo(x, unit), x) == Distance(m * unit, x) && m * unit != RoundTo(x, unit) ==>
              RoundTo(x, unit) / unit % 2 == 0
  {
    RoundChoice(x, unit);
    QuotientParts(x, unit);
    NearestEven(x, unit, x / unit, x % unit, m, RoundTo(x, unit), RoundTo(x, unit) / unit % 2);
  }

  /** The same with the quotient and the remainder named. */
  lemma NearestEven(x: nat, unit: nat, q: nat, r: nat, m: int, rounded: int, parity: int)
    requires unit >= 1 && x == q * unit + r && r < unit
    requires 2 * r > unit ==> rounded == q * unit + unit
    requires 2 * r < unit ==> rounded == q * unit
    requires 2 * r == unit ==> parity == 0 && (rounded == q * unit || rounded == q * unit + unit)
    ensures Distance(rounded, x) <= Distance(m * unit, x)
    ensures Distance(rounded, x) == Distance(m * unit, x) && m * unit != rounded ==> parity == 0
  {
    MultiplesApart(q, m, unit);
    NearestOfTwo(x, q * unit, unit, rounded, m * unit);
  }

  /** Which neighbour is taken. */
  lemma RoundChoice(x: nat, unit: nat)
    requires unit >= 1
    ensures RoundTo(x, unit) / unit * unit == RoundTo(x, unit)
    ensures 2 * (x % unit) > unit ==> RoundTo(x, unit) == x / unit * unit + unit
    ensures 2 * (x % unit) < unit ==> RoundTo(x, unit) == x / unit * unit
    ensures 2 * (x % unit) == unit ==>
      && RoundTo(x, unit) / unit % 2 == 0
      && (RoundTo(x, unit) == x / unit * unit || RoundTo(x, unit) == x / unit * unit + unit)
  {
    var q, r := x / unit, x % unit;
    Distribute(q, 1, unit);
    QuotientOfMultiple(q, unit);
    QuotientOfMultiple(q + 1, unit);
  }

  lemma QuotientParts(x: nat, unit: nat)
    requires unit >= 1
    ensures x == x / unit * unit + x % unit
  {
    assert x == unit * (x / unit) + x % unit;
  }

  /** Between neighbouring multiples there is none. */
  lemma MultiplesApart(q: int, m: int, unit: nat)
    ensures m * unit == q * unit || m * unit == q * unit + unit || m * unit <= q * unit - unit
         || m * unit >= q * unit + 2 * unit
  {
    if m < q {
      MulMonotone(m + 1, q, unit);
      Distribute(m, 1, unit);
    } else if m > q + 1 {
      MulMonotone(q + 2, m, unit);
      Distribute(q, 2, unit);
    } else if m == q + 1 {
      Distribute(q, 1, unit);
    }
  }

  lemma NearestOfTwo(x: nat, below: nat, unit: nat, rounded: int, other: int)
    requires unit >= 1 && below <= x < below + unit
    requires rounded == below || rounded == below + unit
    requires 2 * (x - below) > unit ==> rounded == below + unit
    requires 2 * (x - below) < unit ==> rounded == below
    requires other == below || other == below + unit || other <= below - unit || other >= below + 2 * unit
    ensures Distance(rounded, x) <= Distance(other, x)
    ensures Distance(rounded, x) == Distance(other, x) && other != rounded ==> 2 * (x - below) == unit
  {
  }

  function Distance(a: int, b: int): nat { if a < b then b - a else a - b }

  lemma QuotientOfMultiple(q: int, unit: nat)
    requires unit >= 1
    ensures q * unit / unit == q
  {
    var other := q * unit / unit;
    assert q * unit == unit * other + q * unit % unit;
    assert (q - other) * unit == q * unit % unit;
    if q > other {
      MulMonotone(1, q - other, unit);
    } else if q < other {
      MulMonotone(q - other, -1, unit);
    }
  }

  /** What is read is the sum itself exactly when the bits that do not fit are zero. */
  lemma ReadIsExactIff(sum: nat)
    ensures ReadSum(sum) == sum <==> sum % Pow2(Shift(sum)) == 0
  {
    RoundToIsNear(sum, Pow2(Shift(sum)));
  }

  /** The error is at most one part in 2^64 of the sum; sums below 2^64 are read exactly. */
  lemma ReadIsClose(sum: nat)
    ensures (ReadSum(sum) - sum) * TWO_64 <= sum && (sum - ReadSum(sum)) * TWO_64 <= sum
  {
    RoundToIsNear(sum, Pow2(Shift(sum)));
    ShiftBounds(sum);
    if Shift(sum) == 0 {
      assert sum % 1 == 0;
    }
  }

  /** Above 2^64 a unit can be lost. */
  lemma ReadLosesAUnit()
    ensures ReadSum(TWO_64 + 1) == TWO_64
  {
    assert Shift(TWO_64 + 1) == 1;
  }
}
