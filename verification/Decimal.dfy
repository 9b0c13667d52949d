/** Decimal notation: Python's str(n) on non-negative integers, and its inverse. */
module Decimal {

  predicate IsDigit(c: char) { '0' <= c <= '9' }

  predicate AllDigits(s: string) { forall i :: 0 <= i < |s| ==> IsDigit(s[i]) }

  function DigitChar(d: nat): (c: char)
    requires d < 10
    ensures IsDigit(c) && DigitValue(c) == d
  {
    '0' + d as char
  }

  function DigitValue(c: char): nat
    requires IsDigit(c)
  {
    c as int - '0' as int
  }

  function Digits(n: nat): (s: string)
    ensures s != "" && AllDigits(s)
  {
    if n < 10 then [DigitChar(n)] else Digits(n / 10) + [DigitChar(n % 10)]
  }

  function Value(s: string): nat
    requires AllDigits(s)
  {
    if s == "" then 0 else 10 * Value(s[..|s| - 1]) + DigitValue(s[|s| - 1])
  }

  lemma {:induction false} ValueOfDigits(n: nat)
    ensures Value(Digits(n)) == n
  {
    if n >= 10 {
      ValueOfDigits(n / 10);
      assert Digits(n)[..|Digits(n)| - 1] == Digits(n / 10);
    }
  }

  /** The length of the leading run of digits. */
  function Lead(s: string): nat {
    if s == "" || !IsDigit(s[0]) then 0 else 1 + Lead(s[1..])
  }

  lemma {:induction false} LeadOf(d: string, x: string)
    requires AllDigits(d) && (x != "" ==> !IsDigit(x[0]))
    ensures Lead(d + x) == |d|
  {
    if d == "" {
      assert d + x == x;
    } else {
      assert (d + x)[1..] == d[1..] + x;
      LeadOf(d[1..], x);
    }
  }

  /** Digits end where the first other character begins, so numerals need no terminator. */
  lemma DigitsSplit(d: string, e: string, x: string, y: string)
    requires AllDigits(d) && AllDigits(e) && d + x == e + y
    requires x != "" ==> !IsDigit(x[0])
    requires y != "" ==> !IsDigit(y[0])
    ensures d == e && x == y
  {
    LeadOf(d, x);
    LeadOf(e, y);
    var whole := d + x;
    assert d == whole[..|d|] && e == whole[..|d|];
    assert x == whole[|d|..] && y == whole[|d|..];
  }
}
