/** Decimal text of non-negative integers: `Number.prototype.toString`, `String.prototype.padStart`, and a parser. */
module Decimal {
  import opened Values

  predicate IsDigit(c: char)
  {
    '0' <= c <= '9'
  }

  function Digit(d: nat): (c: char)
    requires d < 10
    ensures IsDigit(c)
  {
    (d + '0' as int) as char
  }

  function DigitValue(c: char): (d: nat)
    requires IsDigit(c)
    ensures d < 10 && Digit(d) == c
  {
    c as int - '0' as int
  }

  /** `n.toString()` for a non-negative integer: shortest decimal form, no leading zeros. */
  function NumberToString(n: nat): (s: string)
    ensures 1 <= |s|
    ensures forall i :: 0 <= i < |s| ==> IsDigit(s[i])
    decreases n
  {
    if n < 10 then [Digit(n)] else NumberToString(n / 10) + [Digit(n % 10)]
  }

  /** Reads a non-empty string of decimal digits; anything else has no value. */
  function ParseNat(s: string): Option<nat>
    decreases |s|
  {
    if |s| == 0 || !IsDigit(s[|s| - 1]) then None
    else if |s| == 1 then Some(DigitValue(s[0]))
    else match ParseNat(s[..|s| - 1])
      case None => None
      case Some(m) => Some(10 * m + DigitValue(s[|s| - 1]))
  }

  /** Reading back the decimal form of n gives n. */
  lemma {:induction false} ParseNumberToString(n: nat)
    ensures ParseNat(NumberToString(n)) == Some(n)
    decreases n
  {
    if n >= 10 {
      var s := NumberToString(n);
      ParseNumberToString(n / 10);
      assert s[..|s| - 1] == NumberToString(n / 10);
      assert DigitValue(s[|s| - 1]) == n % 10;
    }
  }

  /** Two numbers with the same decimal form are equal. */
  lemma NumberToStringInjective(a: nat, b: nat)
    requires NumberToString(a) == NumberToString(b)
    ensures a == b
  {
    ParseNumberToString(a);
    ParseNumberToString(b);
  }

  function Pow10(k: nat): (p: nat)
    ensures p >= 1
  {
    if k == 0 then 1 else 10 * Pow10(k - 1)
  }

  /** A number below 10^k has at most k digits. */
  lemma {:induction false} NumberToStringLength(n: nat, k: nat)
    requires 1 <= k && n < Pow10(k)
    ensures |NumberToString(n)| <= k
    decreases k
  {
    if n >= 10 {
      assert k >= 2;
      NumberToStringLength(n / 10, k - 1);
    }
  }

  /** `s.padStart(width, fill)` with a one-character fill. */
  function PadStart(s: string, width: nat, fill: char): (r: string)
    ensures |r| == if |s| >= width then |s| else width
    ensures r[|r| - |s|..] == s
    ensures forall i :: 0 <= i < |r| - |s| ==> r[i] == fill
  {
    if |s| >= width then s else seq(width - |s|, _ => fill) + s
  }
}
