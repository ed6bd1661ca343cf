/** Powers of ten, and the loop that computes them in 64-bit signed arithmetic. */
module Powers {
  import opened Machine

  function Pow10(n: nat): (r: nat)
    ensures r >= 1
  {
    if n == 0 then 1 else 10 * Pow10(n - 1)
  }

  lemma {:induction false} Pow10Adds(a: nat, b: nat)
    ensures Pow10(a + b) == Pow10(a) * Pow10(b)
  {
    if a == 0 {
    } else {
      Pow10Adds(a - 1, b);
      assert 10 * (Pow10(a - 1) * Pow10(b)) == (10 * Pow10(a - 1)) * Pow10(b);
    }
  }

  lemma {:induction false} Pow10Grows(a: nat, b: nat)
    requires a <= b
    ensures Pow10(a) <= Pow10(b)
    decreases b - a
  {
    if a == b {
    } else {
      Pow10Grows(a + 1, b);
    }
  }

  lemma Pow10Of18()
    ensures Pow10(18) == 1_000_000_000_000_000_000
  {
    assert Pow10(6) == 1_000_000;
    Pow10Adds(6, 6);
    Pow10Adds(12, 6);
  }

  /** The value a 64-bit signed integer has after being multiplied by ten `figure` times. */
  method Int64FromFigure(figure: int) returns (x: int)
    ensures x == ToInt64(Pow10(if figure < 0 then 0 else figure))
  {
    x := 1;
    var i := 0;
    while i < figure
      invariant 0 <= i && (i <= figure || i == 0)
      invariant x == ToInt64(Pow10(i))
    {
      ToInt64Scale(Pow10(i), 10);
      x := ToInt64(x * 10);
      i := i + 1;
    }
  }

  /** The loop yields the power of ten exactly for figures up to 18. */
  lemma FigureIsExactIff(figure: nat)
    ensures ToInt64(Pow10(figure)) == Pow10(figure) <==> figure <= 18
  {
    Pow10Of18();
    if figure <= 18 {
      Pow10Grows(figure, 18);
    } else {
      Pow10Grows(19, figure);
    }
  }
}
