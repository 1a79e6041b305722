/**
 * Decimal text for integers, as JavaScript writes and reads it:
 * `Number.prototype.toString()` on a non-negative integer and `parseInt` in radix 10.
 * The client keeps timestamps in string-valued local storage through these two.
 */
module Decimal {
  import opened Wrappers
  import Text

  predicate IsDigit(c: char) {
    '0' <= c <= '9'
  }

  predicate AllDigits(s: string) {
    forall k :: 0 <= k < |s| ==> IsDigit(s[k])
  }

  function DigitChar(d: nat): char
    requires d < 10
  {
    ('0' as int + d) as char
  }

  function DigitValue(c: char): nat
    requires IsDigit(c)
  {
    c as int - '0' as int
  }

  /** `n.toString()`: the digits of `n`, most significant first, without leading zeros. */
  function NatToString(n: nat): (s: string)
    ensures |s| >= 1 && AllDigits(s)
    ensures s[0] == '0' ==> n == 0
  {
    if n < 10 then [DigitChar(n)] else NatToString(n / 10) + [DigitChar(n % 10)]
  }

  /** The number a run of digits denotes. */
  function DigitsValue(s: string): nat
    requires AllDigits(s)
  {
    if s == [] then 0 else DigitsValue(s[..|s| - 1]) * 10 + DigitValue(s[|s| - 1])
  }

  /** Length of the run of digits at the start of `s`. */
  function DigitRun(s: string): (n: nat)
    ensures n <= |s| && AllDigits(s[..n])
    ensures n < |s| ==> !IsDigit(s[n])
  {
    if |s| > 0 && IsDigit(s[0]) then
      var m := DigitRun(s[1..]);
      assert s[1..][..m] == s[1..m + 1];
      1 + m
    else 0
  }

  /**
   * `parseInt(s, 10)`: skip leading white space, take an optional sign and then
   * the longest run of digits; `NaN` (here `None`) when that run is empty.
   */
  function ParseInt(s: string): (r: Option<int>)
    ensures |s| > 0 && AllDigits(s) ==> r == Some(DigitsValue(s))
    ensures (forall k :: 0 <= k < |s| ==> !IsDigit(s[k])) ==> r == None
  {
    var t := s[Text.LeadingSpaces(s)..];
    var signed := |t| > 0 && (t[0] == '-' || t[0] == '+');
    var u := if signed then t[1..] else t;
    var n := DigitRun(u);
    ParseIntFacts(s, t, u, n);
    var v: int := if n == 0 then 0 else DigitsValue(u[..n]);
    if n == 0 then None else if signed && t[0] == '-' then Some(-v) else Some(v)
  }

  lemma ParseIntFacts(s: string, t: string, u: string, n: nat)
    requires t == s[Text.LeadingSpaces(s)..]
    requires u == if |t| > 0 && (t[0] == '-' || t[0] == '+') then t[1..] else t
    requires n == DigitRun(u)
    ensures |s| > 0 && AllDigits(s) ==> u == s && n == |s| && u[..n] == s
    ensures (forall k :: 0 <= k < |s| ==> !IsDigit(s[k])) ==> n == 0
  {
    if |s| > 0 && AllDigits(s) {
      assert !Text.IsSpace(s[0]);
      assert t == s;
      assert u[..n] == s;
    }
    if n > 0 && |t| > 0 {
      assert u[..n][0] == u[0];
      assert u[0] in s;
    }
  }

  /** Writing a count of milliseconds and reading it back gives the same number. */
  lemma {:induction false} ValueOfNatToString(n: nat)
    ensures DigitsValue(NatToString(n)) == n
  {
    if n >= 10 {
      ValueOfNatToString(n / 10);
      var s := NatToString(n);
      assert s[..|s| - 1] == NatToString(n / 10);
    }
  }

  /** `parseInt(n.toString())` is `n`. */
  lemma ParseNatToString(n: nat)
    ensures ParseInt(NatToString(n)) == Some(n)
  {
    ValueOfNatToString(n);
  }
}
