/**
 * Decimal notation for natural numbers: the digits that `strconvItoa` writes
 * and `fmtDur` interpolates, and the value that `atoi` accumulates from them.
 */
module Decimal {

  predicate IsDigit(c: char) {
    '0' <= c <= '9'
  }

  predicate AllDigits(s: string) {
    forall k :: 0 <= k < |s| ==> IsDigit(s[k])
  }

  function DigitChar(d: nat): (c: char)
    requires d < 10
    ensures IsDigit(c) && c as int - '0' as int == d
  {
    ('0' as int + d) as char
  }

  function DigitValue(c: char): (d: nat)
    requires IsDigit(c)
    ensures d < 10 && DigitChar(d) == c
  {
    c as int - '0' as int
  }

  function Pow10(k: nat): (p: nat)
    ensures p >= 1
  {
    if k == 0 then 1 else 10 * Pow10(k - 1)
  }

  /** The digits of `n`, most significant first, and nothing at all for zero. */
  function Digits(n: nat): (s: string)
    ensures AllDigits(s)
    ensures n > 0 ==> |s| > 0 && s[0] != '0'
    ensures n == 0 ==> s == []
  {
    if n == 0 then [] else Digits(n / 10) + [DigitChar(n % 10)]
  }

  /** How `n` is written in decimal: "0" for zero, otherwise without a leading zero. */
  function Show(n: nat): (s: string)
    ensures |s| > 0 && AllDigits(s)
    ensures s[0] == '0' <==> n == 0
  {
    if n == 0 then "0" else Digits(n)
  }

  /** The value of a digit string read from left to right, `v = v*10 + d` per digit. */
  function Value(s: string): nat
    requires AllDigits(s)
  {
    if s == [] then 0 else Value(s[..|s| - 1]) * 10 + DigitValue(s[|s| - 1])
  }

  /** Reading back the digits of `n` gives `n`. */
  lemma {:induction false} ValueOfDigits(n: nat)
    ensures Value(Digits(n)) == n
  {
    if n > 0 {
      var s := Digits(n);
      assert s[..|s| - 1] == Digits(n / 10);
      ValueOfDigits(n / 10);
    }
  }

  lemma ValueOfShow(n: nat)
    ensures Value(Show(n)) == n
  {
    ValueOfDigits(n);
  }

  /** A digit string that does not start with '0' denotes a positive number. */
  lemma {:induction false} ValuePositive(s: string)
    requires AllDigits(s) && |s| > 0 && s[0] != '0'
    ensures Value(s) > 0
  {
    if |s| > 1 {
      ValuePositive(s[..|s| - 1]);
    }
  }

  /** Writing the value of a canonical digit string gives the string back. */
  lemma {:induction false} ShowOfValue(s: string)
    requires AllDigits(s) && |s| > 0
    requires s[0] == '0' ==> |s| == 1
    ensures Show(Value(s)) == s
  {
    if |s| > 1 {
      var p := s[..|s| - 1];
      ValuePositive(p);
      ShowOfValue(p);
      assert Value(s) / 10 == Value(p);
      assert s == p + [s[|s| - 1]];
    }
  }

  /** A number below 10^k has at most k digits. */
  lemma {:induction false} DigitsLength(n: nat, k: nat)
    requires n < Pow10(k)
    ensures |Digits(n)| <= k
  {
    if n > 0 {
      DigitsLength(n / 10, k - 1);
    }
  }

  /** The last `w` digits of `n`, zero-padded on the left, as `%0wd` writes a field of width `w`. */
  function Pad(n: nat, w: nat): (s: string)
    ensures |s| == w && AllDigits(s)
  {
    if w == 0 then [] else Pad(n / 10, w - 1) + [DigitChar(n % 10)]
  }

  /** A number that fits in `w` digits is read back from its padded form. */
  lemma {:induction false} ValueOfPad(n: nat, w: nat)
    requires n < Pow10(w)
    ensures Value(Pad(n, w)) == n
  {
    if w > 0 {
      var s := Pad(n, w);
      assert s[..|s| - 1] == Pad(n / 10, w - 1);
      ValueOfPad(n / 10, w - 1);
    }
  }
}
