/**
 * CalculateLuhnChecksumDigit: the check digit of an identity-number section. Each character's
 * digit value is multiplied by 1, 2, 1, 2, ... (starting with the first character), each product
 * is collapsed to floor(p / 10) + p % 10, and the check digit is (total * 9) % 10.
 */
module Checksum {
  import opened Results
  import opened Text

  /** C#'s `%` on int: truncating division, so the remainder has the sign of the dividend. */
  function CsRem(a: int, b: int): int
    requires b > 0
  {
    if a >= 0 then a % b else -((-a) % b)
  }

  /** The multiplier of the character at 0-based position i. */
  function Weight(i: nat): int {
    i % 2 + 1
  }

  /**
   * Math.Floor((double) p / 10) + p % 10. Dafny's `/` by a positive divisor already rounds down,
   * which is what Math.Floor does on the exactly representable quotient.
   */
  function Collapse(p: int): int {
    p / 10 + CsRem(p, 10)
  }

  /** What the character c at position i adds to the total. */
  function Term(c: char, i: nat): int {
    Collapse(Weight(i) * DigitValue(c))
  }

  /** The running `total` after the loop has consumed all of `s`. */
  function LuhnTotal(s: string): int
  {
    if s == [] then 0 else LuhnTotal(s[..|s| - 1]) + Term(s[|s| - 1], |s| - 1)
  }

  /**
   * The value CalculateLuhnChecksumDigit returns for a section that is not blank: a remainder
   * of ten, negative only when the total is (which takes characters that are not digits).
   */
  function LuhnChecksum(s: string): (r: int)
    ensures -9 <= r <= 9
    ensures LuhnTotal(s) >= 0 ==> r >= 0
  {
    CsRem(LuhnTotal(s) * 9, 10)
  }

  method CalculateLuhnChecksumDigit(section: string) returns (r: Result<int>)
    ensures IsNullOrWhiteSpace(section) ==> r == Err(ArgumentException)
    ensures !IsNullOrWhiteSpace(section) ==> r == Ok(LuhnChecksum(section))
    ensures AllDigits(section) && section != [] ==> r.Ok? && 0 <= r.value <= 9
  {
    if AllDigits(section) && section != [] {
      DigitIsNotBlank(section, 0);
      ChecksumIsDigit(section);
    }
    if IsNullOrWhiteSpace(section) {
      return Err(ArgumentException);
    }
    var total := 0;
    var count := 0;
    for i := 0 to |section|
      invariant count == i
      invariant total == LuhnTotal(section[..i])
    {
      var multiple := count % 2 + 1;
      count := count + 1;
      var temp := multiple * DigitValue(section[i]);
      var subtotal := temp / 10 + CsRem(temp, 10);
      total := total + subtotal;
      assert section[..i + 1][..i] == section[..i];
    }
    assert section[..|section|] == section;
    r := Ok(CsRem(total * 9, 10));
  }

  /** On a digit, the collapse is the digit sum of a product of at most two digits. */
  lemma CollapseOfDigitProduct(w: int, d: int)
    requires 1 <= w <= 2 && 0 <= d <= 9
    ensures 0 <= Collapse(w * d) <= 9
    ensures w == 1 ==> Collapse(w * d) == d
  {
  }

  /** What a digit d at position i adds: itself at an even position, the digit sum of 2d at an odd one. */
  function DigitTerm(d: int, i: nat): int {
    if i % 2 == 0 then d else if d < 5 then 2 * d else 2 * d - 9
  }

  lemma TermOfDigit(c: char, i: nat)
    requires IsDigit(c)
    ensures Term(c, i) == DigitTerm(DigitValue(c), i)
  {
    var d := DigitValue(c);
    if i % 2 == 0 {
      assert Weight(i) * d == d;
      assert d / 10 == 0 && CsRem(d, 10) == d;
    } else if d < 5 {
      assert Weight(i) * d == 2 * d;
      assert (2 * d) / 10 == 0 && CsRem(2 * d, 10) == 2 * d;
    } else {
      assert Weight(i) * d == 2 * d;
      assert (2 * d) / 10 == 1 && CsRem(2 * d, 10) == 2 * d - 10;
    }
  }

  lemma {:induction false} LuhnTotalNonNegative(s: string)
    requires AllDigits(s)
    ensures LuhnTotal(s) >= 0
    decreases |s|
  {
    if s != [] {
      LuhnTotalNonNegative(s[..|s| - 1]);
      CollapseOfDigitProduct(Weight(|s| - 1), DigitValue(s[|s| - 1]));
      assert Term(s[|s| - 1], |s| - 1) >= 0;
    }
  }

  /** For a section of ASCII digits, of any length, the check digit is a digit. */
  lemma ChecksumIsDigit(s: string)
    requires AllDigits(s)
    ensures 0 <= LuhnChecksum(s) <= 9
  {
    LuhnTotalNonNegative(s);
  }

  /**
   * The check digit completes the Luhn sum: appending a digit c to an even-length digit section
   * (so that c gets multiplier 1) makes the weighted total a multiple of ten exactly when c is
   * the check digit of the section.
   */
  lemma ChecksumCompletesLuhn(s: string, c: char)
    requires AllDigits(s) && |s| % 2 == 0 && IsDigit(c)
    ensures LuhnTotal(s + [c]) % 10 == 0 <==> DigitValue(c) == LuhnChecksum(s)
  {
    var t, d := LuhnTotal(s), DigitValue(c);
    LuhnTotalAppend(s, c);
    TermOfDigit(c, |s|);
    assert LuhnTotal(s + [c]) == t + d;
    assert LuhnChecksum(s) == CsRem(t * 9, 10);
    LuhnTotalNonNegative(s);
    NineTimesIsComplement(t, d);
  }

  /** (9 t) mod 10 is the digit that brings t up to a multiple of ten. */
  lemma NineTimesIsComplement(t: int, d: int)
    requires t >= 0 && 0 <= d <= 9
    ensures (t + d) % 10 == 0 <==> d == CsRem(t * 9, 10)
  {
    var q, u := t / 10, t % 10;
    assert t == 10 * q + u;
    assert t * 9 == 10 * (9 * q) + 9 * u;
    assert (t * 9) % 10 == (9 * u) % 10;
    assert (t + d) % 10 == (u + d) % 10;
  }

  /** The loop's step: one more character adds its collapsed, weighted digit to the total. */
  lemma LuhnTotalStep(s: string, k: nat)
    requires k < |s|
    ensures LuhnTotal(s[..k + 1]) == LuhnTotal(s[..k]) + Term(s[k], k)
  {
    assert s[..k + 1][..k] == s[..k];
  }

  /** Appending a character adds its term at the next position. */
  lemma LuhnTotalAppend(s: string, c: char)
    ensures LuhnTotal(s + [c]) == LuhnTotal(s) + Term(c, |s|)
  {
    assert (s + [c])[..|s|] == s;
  }

  /** The total of a twelve-digit section, written out position by position. */
  lemma LuhnTotalOfTwelve(s: string)
    requires |s| == 12 && AllDigits(s)
    ensures LuhnTotal(s) ==
      DigitTerm(DigitValue(s[0]), 0) + DigitTerm(DigitValue(s[1]), 1) + DigitTerm(DigitValue(s[2]), 2) +
      DigitTerm(DigitValue(s[3]), 3) + DigitTerm(DigitValue(s[4]), 4) + DigitTerm(DigitValue(s[5]), 5) +
      DigitTerm(DigitValue(s[6]), 6) + DigitTerm(DigitValue(s[7]), 7) + DigitTerm(DigitValue(s[8]), 8) +
      DigitTerm(DigitValue(s[9]), 9) + DigitTerm(DigitValue(s[10]), 10) + DigitTerm(DigitValue(s[11]), 11)
  {
    assert s[..0] == [];
    assert s[..12] == s;
    forall k | 0 <= k < 12
      ensures LuhnTotal(s[..k + 1]) == LuhnTotal(s[..k]) + DigitTerm(DigitValue(s[k]), k)
    {
      LuhnTotalStep(s, k);
      TermOfDigit(s[k], k);
    }
  }

  // Rows of the checksum table in IdentityNumberTests, one lemma per row.

  lemma ChecksumCase650207538708()
    ensures LuhnChecksum("650207538708") == 3
  {
    assert LuhnTotal("650207538708") == 47 by { LuhnTotalOfTwelve("650207538708"); }
  }

  lemma ChecksumCase630412070608()
    ensures LuhnChecksum("630412070608") == 0
  {
    assert LuhnTotal("630412070608") == 40 by { LuhnTotalOfTwelve("630412070608"); }
  }

  lemma ChecksumCase930631755508()
    ensures LuhnChecksum("930631755508") == 6
  {
    assert LuhnTotal("930631755508") == 44 by { LuhnTotalOfTwelve("930631755508"); }
  }

  lemma ChecksumCase850631195508()
    ensures LuhnChecksum("850631195508") == 0
  {
    assert LuhnTotal("850631195508") == 40 by { LuhnTotalOfTwelve("850631195508"); }
  }

  lemma ChecksumCase770631487808()
    ensures LuhnChecksum("770631487808") == 8
  {
    assert LuhnTotal("770631487808") == 52 by { LuhnTotalOfTwelve("770631487808"); }
  }
}
