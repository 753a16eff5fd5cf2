/**
 * Decimal text for non-negative integers: Python's `str()` of an `int`
 * (used to format tile names) and `int()` of a string of ASCII digits
 * (used to read the part argument and the groups of a tile name).
 */
module Decimal {
  import opened Wrappers

  predicate IsDigit(c: char) {
    '0' <= c <= '9'
  }

  predicate AllDigits(s: string) {
    forall i :: 0 <= i < |s| ==> IsDigit(s[i])
  }

  function DigitValue(c: char): (d: nat)
    requires IsDigit(c)
    ensures d < 10
  {
    c as int - '0' as int
  }

  function DigitChar(d: nat): (c: char)
    requires d < 10
    ensures IsDigit(c) && DigitValue(c) == d
  {
    ('0' as int + d) as char
  }

  /** The value of a string of ASCII digits; leading zeros are allowed, as in `int("007")`. */
  function ParseDigits(s: string): nat
    requires AllDigits(s)
    decreases |s|
  {
    if s == [] then 0 else 10 * ParseDigits(s[..|s| - 1]) + DigitValue(s[|s| - 1])
  }

  /** Python's `int(s)` on the strings this model admits: `None` stands for its ValueError. */
  function ParseNat(s: string): (r: Option<nat>)
    ensures r.Some? <==> s != [] && AllDigits(s)
  {
    if s != [] && AllDigits(s) then Some(ParseDigits(s)) else None
  }

  /** Python's `str(n)` for `n >= 0`: shortest decimal form, no leading zero. */
  function FormatNat(n: nat): (s: string)
    ensures |s| >= 1 && AllDigits(s)
    ensures |s| == 1 <==> n < 10
    ensures s[0] == '0' ==> n == 0
    decreases n
  {
    if n < 10 then [DigitChar(n)] else FormatNat(n / 10) + [DigitChar(n % 10)]
  }

  /** Python's `str(i)` for any `int`: a minus sign before the magnitude. */
  function FormatInt(i: int): (s: string)
    ensures |s| >= 1
    ensures i >= 0 ==> s == FormatNat(i)
    ensures forall k :: 0 <= k < |s| ==> IsDigit(s[k]) || s[k] == '-'
  {
    if i < 0 then "-" + FormatNat(-i) else FormatNat(i)
  }

  /** Reading back what `str()` wrote gives the number: `int(str(n)) == n`. */
  lemma {:induction false} ParseFormat(n: nat)
    ensures ParseNat(FormatNat(n)) == Some(n)
    decreases n
  {
    var s := FormatNat(n);
    if n < 10 {
      assert s[..|s| - 1] == [];
    } else {
      ParseFormat(n / 10);
      assert s[..|s| - 1] == FormatNat(n / 10);
      assert DigitValue(s[|s| - 1]) == n % 10;
      assert ParseDigits(s) == 10 * (n / 10) + n % 10;
    }
  }

  /** A one-digit number is written as that one digit. */
  lemma FormatSmall(d: nat)
    requires d < 10
    ensures FormatNat(d) == [DigitChar(d)]
  {
  }
}
