/** Transaction hashes as hexadecimal text, and the byte-wise reversal the bridge looks them up by. */
module HexText {

  predicate IsHexDigit(c: char) { '0' <= c <= '9' || 'a' <= c <= 'f' || 'A' <= c <= 'F' }

  function LowerDigit(c: char): (r: char)
  {
    if c == 'A' then 'a' else if c == 'B' then 'b' else if c == 'C' then 'c'
    else if c == 'D' then 'd' else if c == 'E' then 'e' else if c == 'F' then 'f' else c
  }

  /** Decodes bytes up to the first that is not hexadecimal, and writes them backwards in lower case. */
  function HexStringReverse(s: string): string
  {
    if |s| < 2 || !IsHexDigit(s[0]) || !IsHexDigit(s[1]) then ""
    else HexStringReverse(s[2..]) + [LowerDigit(s[0]), LowerDigit(s[1])]
  }

  /** Whole bytes in lower case. */
  predicate Canonical(s: string)
  {
    |s| % 2 == 0 && forall i :: 0 <= i < |s| ==> IsHexDigit(s[i]) && LowerDigit(s[i]) == s[i]
  }

  lemma {:induction false} ReverseIsCanonical(s: string)
    ensures Canonical(HexStringReverse(s))
  {
    if |s| < 2 || !IsHexDigit(s[0]) || !IsHexDigit(s[1]) {
    } else {
      ReverseIsCanonical(s[2..]);
    }
  }

  /** The last byte of a canonical text comes first in its reversal. */
  lemma {:induction false} ReverseSnoc(s: string, a: char, b: char)
    requires Canonical(s) && IsHexDigit(a) && IsHexDigit(b) && LowerDigit(a) == a && LowerDigit(b) == b
    ensures HexStringReverse(s + [a, b]) == [a, b] + HexStringReverse(s)
  {
    if s == [] {
      assert s + [a, b] == [a, b];
      assert [a, b][2..] == [];
    } else {
      assert (s + [a, b])[2..] == s[2..] + [a, b];
      ReverseSnoc(s[2..], a, b);
    }
  }

  /** Reversing twice gives a canonical text back, and nothing else. */
  lemma ReverseTwiceIff(s: string)
    ensures HexStringReverse(HexStringReverse(s)) == s <==> Canonical(s)
  {
    ReverseIsCanonical(HexStringReverse(s));
    if Canonical(s) {
      ReverseTwice(s);
    }
  }

  lemma {:induction false} ReverseTwice(s: string)
    requires Canonical(s)
    ensures HexStringReverse(HexStringReverse(s)) == s
  {
    if s == [] {
    } else {
      ReverseTwice(s[2..]);
      ReverseIsCanonical(s[2..]);
      ReverseSnoc(HexStringReverse(s[2..]), s[0], s[1]);
      assert s == [s[0], s[1]] + s[2..];
    }
  }

  /** Byte k of a reversed text is byte k of the text, counted from its end. */
  lemma {:induction false} ReverseAt(s: string, k: nat)
    requires Canonical(s) && 2 * k + 2 <= |s|
    ensures |HexStringReverse(s)| == |s|
    ensures HexStringReverse(s)[2 * k] == s[|s| - 2 * k - 2] && HexStringReverse(s)[2 * k + 1] == s[|s| - 2 * k - 1]
  {
    var tail := s[2..];
    var rest := HexStringReverse(tail);
    assert HexStringReverse(s) == rest + [s[0], s[1]];
    if tail == [] {
    } else if 2 * k + 2 == |s| {
      ReverseAt(tail, 0);
    } else {
      ReverseAt(tail, k);
      assert tail[|tail| - 2 * k - 2] == s[|s| - 2 * k - 2] && tail[|tail| - 2 * k - 1] == s[|s| - 2 * k - 1];
    }
  }
}
