/**
 * The allocation-free integer formatter of the desktop app (`strconvItoa`)
 * and its alias `intToStr`, on Go's 64-bit `int`.
 */
module App {
  import opened Wrappers
  import opened Decimal

  const MinInt64: int := -0x8000_0000_0000_0000
  const MaxInt64: int := 0x7fff_ffff_ffff_ffff

  /** The size of the byte buffer `strconvItoa` fills from the right. */
  const BufSize: nat := 20

  predicate IsInt64(n: int) {
    MinInt64 <= n <= MaxInt64
  }

  /** Go's unary minus on int64: it wraps, so the most negative value is its own negation. */
  function Negate64(n: int): (r: int)
    requires IsInt64(n)
    ensures IsInt64(r)
    ensures n != MinInt64 ==> r == -n
    ensures n == MinInt64 ==> r < 0
  {
    if n == MinInt64 then MinInt64 else -n
  }

  /** The intended decimal form of an integer: '-' before the digits of its magnitude. */
  function FormatInt(n: int): (s: string)
    ensures |s| > 0
    ensures s[0] == '-' <==> n < 0
  {
    if n < 0 then "-" + Show(-n) else Show(n)
  }

  /** Reads an optional '-' and then a canonical digit string; anything else is rejected. */
  function ParseInt(s: string): (r: Option<int>)
    ensures r.Some? ==> |s| > 0
  {
    if |s| > 0 && s[0] == '-' then
      var d := s[1..];
      if |d| > 0 && AllDigits(d) && d[0] != '0' then Some(-(Value(d) as int)) else None
    else if |s| > 0 && AllDigits(s) && (s[0] == '0' ==> |s| == 1) then Some(Value(s))
    else None
  }

  /** A canonical digit string, with or without a '-' in front, is read back. */
  lemma ParseShow(k: nat)
    ensures ParseInt(Show(k)) == Some(k)
    ensures k > 0 ==> ParseInt("-" + Show(k)) == Some(-(k as int))
  {
    ValueOfShow(k);
    var s := "-" + Show(k);
    assert s[1..] == Show(k);
  }

  /** Every integer is read back from its decimal form. */
  lemma FormatIntRoundTrip(n: int)
    ensures ParseInt(FormatInt(n)) == Some(n)
  {
    if n < 0 {
      ParseShow(-n);
      assert FormatInt(n) == "-" + Show(-n);
    } else {
      ParseShow(n);
      assert FormatInt(n) == Show(n);
    }
  }

  /** Every string the parser accepts is exactly the decimal form of what it reads. */
  lemma ParseIntFormat(s: string)
    requires ParseInt(s).Some?
    ensures FormatInt(ParseInt(s).value) == s
  {
    if s[0] == '-' {
      NegativeFormat(s[1..]);
      assert s == "-" + s[1..];
    } else {
      ShowOfValue(s);
    }
  }

  /** The digits after a '-' are the decimal form of the magnitude read. */
  lemma NegativeFormat(d: string)
    requires |d| > 0 && AllDigits(d) && d[0] != '0'
    ensures FormatInt(-(Value(d) as int)) == "-" + d
  {
    ValuePositive(d);
    ShowOfValue(d);
  }

  /** Distinct integers are written differently. */
  lemma FormatIntInjective(m: int, n: int)
    requires FormatInt(m) == FormatInt(n)
    ensures m == n
  {
    FormatIntRoundTrip(m);
    FormatIntRoundTrip(n);
  }

  /** A 64-bit magnitude fits in 19 digits. */
  lemma Pow10Of19()
    ensures Pow10(19) == 10_000_000_000_000_000_000
  {
    assert Pow10(1) == 10;
    assert Pow10(5) == 100_000;
    assert Pow10(10) == 10_000_000_000;
    assert Pow10(15) == 1_000_000_000_000_000;
  }

  /** One division by ten takes the last digit off what is left to write. */
  lemma RemainingStep(k: int)
    requires k > 0
    ensures Remaining(k) == Remaining(k / 10) + [DigitChar(k % 10)]
  {
  }

  /** The magnitude of an int64 has at most 19 digits. */
  lemma Int64Digits(m: int)
    requires m <= MaxInt64 + 1
    ensures |Remaining(m)| <= 19
  {
    if m > 0 {
      Pow10Of19();
      DigitsLength(m, 19);
    }
  }

  /** What is left to write while `m` still holds digits; nothing once it is zero or negative. */
  function Remaining(m: int): string {
    if m > 0 then Digits(m) else []
  }

  /**
   * Writes `n` into a 20-byte buffer from the right, one digit per division
   * by ten, and a '-' in front for a negative number. Negating the most
   * negative int64 wraps to itself, so for it no digit is written and the
   * result is "-" alone.
   */
  method StrconvItoa(n: int) returns (s: string)
    requires IsInt64(n)
    ensures n != MinInt64 ==> s == FormatInt(n)
    ensures n == MinInt64 ==> s == "-"
    ensures |s| <= BufSize
  {
    if n == 0 {
      return "0";
    }
    var neg := false;
    var m := n;
    if m < 0 {
      neg := true;
      m := Negate64(m);
    }
    var buf := new char[BufSize];
    var i := WriteDigits(buf, m);
    if neg {
      ghost var digits := buf[i..];
      i := i - 1;
      buf[i] := '-';
      assert buf[i..] == ['-'] + digits;
    }
    s := buf[i..];
  }

  /** The digit loop of `strconvItoa`: the digits of a positive `m` end up at the right of `buf`. */
  method WriteDigits(buf: array<char>, m: int) returns (i: nat)
    requires buf.Length == BufSize && m <= MaxInt64 + 1
    modifies buf
    ensures 1 <= i <= BufSize
    ensures buf[i..] == Remaining(m)
  {
    ghost var all := Remaining(m);
    Int64Digits(m);
    var k := m;
    i := BufSize;
    while k > 0
      invariant 1 <= i <= BufSize
      invariant all == Remaining(k) + buf[i..]
      decreases k
    {
      RemainingStep(k);
      ghost var written := buf[i..];
      var c := DigitChar(k % 10);
      i := i - 1;
      buf[i] := c;
      assert buf[i..] == [c] + written;
      assert all == Remaining(k / 10) + buf[i..];
      k := k / 10;
    }
    assert Remaining(k) == [];
  }

  /** `intToStr` is `strconvItoa` under another name. */
  method IntToStr(n: int) returns (s: string)
    requires IsInt64(n)
    ensures n != MinInt64 ==> s == FormatInt(n) && ParseInt(s) == Some(n)
    ensures n == MinInt64 ==> s == "-"
  {
    s := StrconvItoa(n);
    if n != MinInt64 {
      FormatIntRoundTrip(n);
    }
  }

  /** The cases of the formatter's unit test. */
  lemma FormatIntExamples()
    ensures FormatInt(0) == "0"
    ensures FormatInt(1) == "1"
    ensures FormatInt(-1) == "-1"
    ensures FormatInt(42) == "42"
    ensures FormatInt(1234) == "1234"
  {
    assert Digits(1) == Digits(0) + ['1'];
    assert Digits(4) == Digits(0) + ['4'];
    assert Digits(42) == Digits(4) + ['2'];
    assert Digits(12) == Digits(1) + ['2'];
    assert Digits(123) == Digits(12) + ['3'];
    assert Digits(1234) == Digits(123) + ['4'];
  }

  /** The lone "-" written for the most negative int64 does not denote any integer. */
  lemma MinInt64Lost()
    ensures ParseInt("-") == None
    ensures forall n :: FormatInt(n) != "-"
  {
    forall n
      ensures FormatInt(n) != "-"
    {
      FormatIntRoundTrip(n);
    }
  }
}
