/**
 * The .NET character, integer and string primitives the identity-number code relies on,
 * restricted to ASCII digits: char.IsDigit, CharUnicodeInfo.GetDigitValue, char.IsWhiteSpace,
 * string.IsNullOrWhiteSpace, Int32.ToString, the "D<n>" format and Convert.ToInt32.
 */
module Text {
  import opened Results

  predicate IsDigit(c: char) {
    '0' <= c <= '9'
  }

  /** CharUnicodeInfo.GetDigitValue: the value of a digit, -1 for any other character. */
  function DigitValue(c: char): (v: int)
    ensures IsDigit(c) ==> 0 <= v <= 9
    ensures !IsDigit(c) ==> v == -1
  {
    if IsDigit(c) then c as int - '0' as int else -1
  }

  function DigitChar(d: int): (c: char)
    requires 0 <= d <= 9
    ensures IsDigit(c) && DigitValue(c) == d
  {
    ('0' as int + d) as char
  }

  lemma DigitCharOfValue(c: char)
    requires IsDigit(c)
    ensures DigitChar(DigitValue(c)) == c
  {
  }

  predicate AllDigits(s: string) {
    forall i :: 0 <= i < |s| ==> IsDigit(s[i])
  }

  /** char.IsWhiteSpace: the Unicode space, line and paragraph separators, U+0009..U+000D and U+0085. */
  predicate IsWhiteSpace(c: char) {
    || c == ' ' || '\t' <= c <= '\r' || c == '\U{85}' || c == '\U{A0}' || c == '\U{1680}'
    || '\U{2000}' <= c <= '\U{200A}' || c == '\U{2028}' || c == '\U{2029}' || c == '\U{202F}'
    || c == '\U{205F}' || c == '\U{3000}'
  }

  /** string.IsNullOrWhiteSpace (a Dafny string is never null): empty, or blanks only. */
  predicate IsNullOrWhiteSpace(s: string) {
    forall i :: 0 <= i < |s| ==> IsWhiteSpace(s[i])
  }

  lemma DigitIsNotBlank(s: string, i: int)
    requires 0 <= i < |s| && IsDigit(s[i])
    ensures !IsNullOrWhiteSpace(s)
  {
  }

  /** The number of digit characters in `s` (the length of Array.FindAll(s, char.IsDigit)). */
  function DigitCount(s: string): (n: nat)
    ensures n <= |s|
    ensures AllDigits(s) ==> n == |s|
    ensures n == 0 ==> forall i :: 0 <= i < |s| ==> !IsDigit(s[i])
  {
    if s == [] then 0
    else DigitCount(s[..|s| - 1]) + (if IsDigit(s[|s| - 1]) then 1 else 0)
  }

  /** The decimal value of a digit string, most significant digit first. */
  function NumValue(s: string): int
  {
    if s == [] then 0 else NumValue(s[..|s| - 1]) * 10 + DigitValue(s[|s| - 1])
  }

  /** 10 to the power n: the bound on the value of n digits. */
  function Pow10(n: nat): (r: nat)
    ensures r >= 1
  {
    if n == 0 then 1 else 10 * Pow10(n - 1)
  }

  lemma NumValueOfPair(s: string)
    requires |s| == 2
    ensures NumValue(s) == 10 * DigitValue(s[0]) + DigitValue(s[1])
  {
    var first := s[..1];
    assert first[..0] == [] && first[0] == s[0];
    assert NumValue(first) == DigitValue(s[0]);
  }

  lemma NumValueOfTriple(s: string)
    requires |s| == 3
    ensures NumValue(s) == 100 * DigitValue(s[0]) + 10 * DigitValue(s[1]) + DigitValue(s[2])
  {
    NumValueOfPair(s[..2]);
  }

  /** n digits make a value below 10^n. */
  lemma {:induction false} NumValueBounds(s: string)
    requires AllDigits(s)
    ensures 0 <= NumValue(s) < Pow10(|s|)
    decreases |s|
  {
    if s != [] {
      NumValueBounds(s[..|s| - 1]);
    }
  }

  /** The decimal digits of a natural number, without leading zeros ("0" for zero). */
  function DecimalDigits(n: nat): (s: string)
    ensures 1 <= |s| && AllDigits(s)
    decreases n
  {
    if n < 10 then [DigitChar(n)] else DecimalDigits(n / 10) + [DigitChar(n % 10)]
  }

  /** Int32.ToString() in the invariant culture. */
  function IntToString(n: int): (r: string)
    ensures |r| >= 1
    ensures r[0] == '-' <==> n < 0
    ensures n >= 0 ==> AllDigits(r)
    ensures n < 0 ==> AllDigits(r[1..])
  {
    if n < 0 then "-" + DecimalDigits(-n) else DecimalDigits(n)
  }

  /** Left-pads `s` with '0' up to `width` characters. */
  function ZeroPad(s: string, width: nat): (r: string)
    ensures |r| == if |s| >= width then |s| else width
    ensures AllDigits(s) ==> AllDigits(r)
  {
    if |s| >= width then s else seq(width - |s|, _ => '0') + s
  }

  /** Int32.ToString("D<width>"): at least `width` digits, after a '-' for a negative value. */
  function FormatD(n: int, width: nat): (r: string)
    ensures |r| >= 1 && |r| >= width
    ensures r[0] == '-' <==> n < 0
    ensures n >= 0 ==> AllDigits(r)
  {
    if n < 0 then "-" + ZeroPad(DecimalDigits(-n), width) else ZeroPad(DecimalDigits(n), width)
  }

  /**
   * Convert.ToInt32(string) for an optional sign followed by ASCII digits; any other text
   * is a FormatException.
   */
  function ToInt32(s: string): (r: Result<int>)
    ensures r.Ok? ==> s != [] && -(Pow10(|s|) as int) < r.value < Pow10(|s|)
    ensures r.Ok? && r.value < 0 ==> s[0] == '-'
    ensures AllDigits(s) && s != [] ==> r.Ok?
  {
    if |s| >= 2 && (s[0] == '-' || s[0] == '+') && AllDigits(s[1..]) then
      NumValueBounds(s[1..]);
      Ok(if s[0] == '-' then -NumValue(s[1..]) else NumValue(s[1..]))
    else if |s| >= 1 && AllDigits(s) then
      NumValueBounds(s);
      Ok(NumValue(s))
    else
      Err(FormatException)
  }

  lemma {:induction false} NumValueOfDecimalDigits(n: nat)
    ensures NumValue(DecimalDigits(n)) == n
    decreases n
  {
    if n >= 10 {
      var s := DecimalDigits(n);
      assert s[..|s| - 1] == DecimalDigits(n / 10);
      NumValueOfDecimalDigits(n / 10);
    }
  }

  /** Convert.ToInt32 reads back exactly the integer that ToString wrote. */
  lemma IntToStringRoundTrip(n: int)
    ensures ToInt32(IntToString(n)) == Ok(n)
  {
    var s := IntToString(n);
    if n < 0 {
      var digits := DecimalDigits(-n);
      assert s[0] == '-' && s[1..] == digits;
      NumValueOfDecimalDigits(-n);
      assert ToInt32(s) == Ok(-NumValue(digits));
    } else {
      assert IsDigit(s[0]);
      NumValueOfDecimalDigits(n);
      assert ToInt32(s) == Ok(NumValue(s));
    }
  }

  lemma SingleDigitText(n: int)
    requires 0 <= n <= 9
    ensures IntToString(n) == [DigitChar(n)]
  {
  }

  lemma TwoDigitFormat(n: int)
    requires 0 <= n <= 99
    ensures FormatD(n, 2) == [DigitChar(n / 10), DigitChar(n % 10)]
  {
    if n >= 10 {
      assert DecimalDigits(n) == [DigitChar(n / 10)] + [DigitChar(n % 10)];
    }
  }

  lemma ThreeDigitFormat(n: int)
    requires 0 <= n <= 999
    ensures FormatD(n, 3) == [DigitChar(n / 100), DigitChar(n / 10 % 10), DigitChar(n % 10)]
  {
    if n >= 100 {
      var m := n / 10;
      assert m / 10 == n / 100;
      TwoDecimalDigits(m);
      assert DecimalDigits(n) == DecimalDigits(m) + [DigitChar(n % 10)];
    } else if n >= 10 {
      TwoDecimalDigits(n);
    }
  }

  lemma TwoDecimalDigits(m: int)
    requires 10 <= m <= 99
    ensures DecimalDigits(m) == [DigitChar(m / 10), DigitChar(m % 10)]
  {
    assert DecimalDigits(m) == DecimalDigits(m / 10) + [DigitChar(m % 10)];
  }

  /** A number from 1000 up is written with at least four characters. */
  lemma FourDigitLength(n: int)
    requires 1000 <= n
    ensures |IntToString(n)| >= 4
  {
    assert |DecimalDigits(n / 10)| >= 3 by {
      assert |DecimalDigits(n / 100)| >= 2;
    }
  }

  lemma FourDigitText(n: int)
    requires 1000 <= n <= 9999
    ensures IntToString(n) == [DigitChar(n / 1000), DigitChar(n / 100 % 10), DigitChar(n / 10 % 10), DigitChar(n % 10)]
  {
    assert DecimalDigits(n / 100) == [DigitChar(n / 1000)] + [DigitChar(n / 100 % 10)];
    assert DecimalDigits(n / 10) == [DigitChar(n / 1000), DigitChar(n / 100 % 10)] + [DigitChar(n / 10 % 10)];
  }
}
