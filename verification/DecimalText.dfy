/** Integers as decimal text, and keys put together from them. */
module DecimalText {
  import opened Options

  function DigitChar(d: nat): char
    requires d < 10
  {
    '0' + d as char
  }

  predicate IsDigit(c: char) { '0' <= c <= '9' }

  function DigitValue(c: char): nat
    requires IsDigit(c)
  {
    (c - '0') as nat
  }

  predicate AllDigits(s: string) { forall i :: 0 <= i < |s| ==> IsDigit(s[i]) }

  function PrintNat(n: nat): (s: string)
    ensures s != [] && AllDigits(s)
  {
    if n < 10 then [DigitChar(n)] else PrintNat(n / 10) + [DigitChar(n % 10)]
  }

  function Print(n: int): string { if n < 0 then "-" + PrintNat(-n) else PrintNat(n) }

  function Digits(s: string): nat
    requires AllDigits(s)
  {
    if s == [] then 0 else Digits(s[..|s| - 1]) * 10 + DigitValue(s[|s| - 1])
  }

  /** Reading a number in base ten: an optional sign and at least one digit, nothing else. */
  function Parse(s: string): Option<int>
  {
    if s == [] then None else
    var signed := s[0] == '-' || s[0] == '+';
    var digits := if signed then s[1..] else s;
    if digits == [] || !AllDigits(digits) then None
    else
      var value: int := Digits(digits);
      Some(if s[0] == '-' then -value else value)
  }

  lemma {:induction false} DigitsOfPrint(n: nat)
    ensures Digits(PrintNat(n)) == n
  {
    if n < 10 {
      assert PrintNat(n)[..0] == [];
    } else {
      DigitsOfPrint(n / 10);
      assert PrintNat(n)[..|PrintNat(n)| - 1] == PrintNat(n / 10);
    }
  }

  /** Printing and reading a number gives it back. */
  lemma ParsePrint(n: int)
    ensures Parse(Print(n)) == Some(n)
  {
    if n < 0 {
      DigitsOfPrint(-n);
      assert Print(n)[1..] == PrintNat(-n);
    } else {
      DigitsOfPrint(n);
      assert IsDigit(Print(n)[0]);
    }
  }

  lemma PrintIsInjective(m: int, n: int)
    requires Print(m) == Print(n)
    ensures m == n
  {
    ParsePrint(m);
    ParsePrint(n);
  }

  /** Digits up to a separator can be told from what follows. */
  lemma DigitsSeparate(a: string, x: string, b: string, y: string, sep: char)
    requires AllDigits(a) && AllDigits(b) && !IsDigit(sep)
    requires a + [sep] + x == b + [sep] + y
    ensures a == b && x == y
  {
    var left, right := a + [sep] + x, b + [sep] + y;
    assert left[|a|] == sep && right[|b|] == sep;
    assert forall i :: 0 <= i < |a| ==> left[i] == a[i];
    assert forall i :: 0 <= i < |b| ==> right[i] == b[i];
    assert |a| == |b|;
    assert left[..|a|] == a && right[..|b|] == b;
    assert left[|a| + 1..] == x && right[|b| + 1..] == y;
  }

  /** Three numbers as they are written. */
  lemma PrintedNumbers()
    ensures Print(0) == "0" && Print(907) == "907" && Print(-12) == "-12"
  {
    assert PrintNat(9) == "9" && PrintNat(90) == "90" && PrintNat(1) == "1";
  }
}
