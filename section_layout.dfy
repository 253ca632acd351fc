/**
 * The layout of the numbers the generator builds, YYMMDDGSSSCAZ: which characters hold which
 * loop counter, and how the counters are read back from a number.
 */
module SectionLayout {
  import opened Text
  import opened Checksum
  import opened IdentityNumberModel
  import opened Generator

  /**
   * Every counter fits the width it is written in: two digits for month and day, three for the
   * sequence number, one for the gender, citizenship and obsolete digits.
   */
  predicate CountersFit(t: seq<int>) {
    && |t| == Levels
    && 0 <= t[0] <= 99 && 0 <= t[1] <= 99 && 0 <= t[2] <= 9
    && 0 <= t[3] <= 999 && 0 <= t[4] <= 9 && 0 <= t[5] <= 9
  }

  /** The counters read back from the characters after the year: MM, DD, G, SSS, C and A. */
  function Counters(x: string): (t: seq<int>)
    requires |x| >= 12
    ensures |t| == Levels
  {
    [NumValue(x[2..4]), NumValue(x[4..6]), DigitValue(x[6]), NumValue(x[7..10]), DigitValue(x[10]), DigitValue(x[11])]
  }

  /** The section character by character, when every counter fits its width. */
  lemma SectionCharacters(seed: SouthAfricanIdentityNumberModel, t: seq<int>)
    requires seed.Valid() && CountersFit(t)
    ensures NumberSection(seed, t) == seed.YearOfBirth() + [
      DigitChar(t[0] / 10), DigitChar(t[0] % 10), DigitChar(t[1] / 10), DigitChar(t[1] % 10),
      DigitChar(t[2]), DigitChar(t[3] / 100), DigitChar(t[3] / 10 % 10), DigitChar(t[3] % 10),
      DigitChar(t[4]), DigitChar(t[5])]
  {
    TwoDigitFormat(t[0]);
    TwoDigitFormat(t[1]);
    SingleDigitText(t[2]);
    ThreeDigitFormat(t[3]);
    SingleDigitText(t[4]);
    SingleDigitText(t[5]);
  }

  lemma ThreeDigitParts(n: int)
    requires 0 <= n <= 999
    ensures 100 * (n / 100) + 10 * (n / 10 % 10) + n % 10 == n
  {
  }

  /**
   * Reading the counters back from a section gives the counters it was formatted from: the
   * section is twelve digits and starts with the seed's two-digit year.
   */
  lemma CountersOfSection(seed: SouthAfricanIdentityNumberModel, t: seq<int>)
    requires seed.Valid() && CountersFit(t)
    ensures var x := NumberSection(seed, t);
      |x| == 12 && AllDigits(x) && x[..2] == seed.YearOfBirth() && Counters(x) == t
  {
    var x := NumberSection(seed, t);
    YearOfBirthIsLastTwoDigits(seed);
    SectionCharacters(seed, t);
    var year := seed.YearOfBirth();
    var rest := x[2..];
    assert x == year + rest;
    assert AllDigits(x) by {
      assert AllDigits(rest);
      forall i | 0 <= i < |x|
        ensures IsDigit(x[i])
      {
        if i >= 2 {
          assert x[i] == rest[i - 2];
        }
      }
    }
    assert x[..2] == year;
    NumValueOfPair(x[2..4]);
    NumValueOfPair(x[4..6]);
    NumValueOfTriple(x[7..10]);
    ThreeDigitParts(t[3]);
    assert Counters(x)[0] == t[0] && Counters(x)[1] == t[1] && Counters(x)[3] == t[3];
  }

  /** Two digit characters are the two digits of the number they form. */
  lemma PairDigits(a: char, b: char)
    requires IsDigit(a) && IsDigit(b)
    ensures var n := 10 * DigitValue(a) + DigitValue(b);
      0 <= n <= 99 && DigitChar(n / 10) == a && DigitChar(n % 10) == b
  {
    DigitCharOfValue(a);
    DigitCharOfValue(b);
  }

  /** Three digit characters are the three digits of the number they form. */
  lemma TripleDigits(a: char, b: char, c: char)
    requires IsDigit(a) && IsDigit(b) && IsDigit(c)
    ensures var n := 100 * DigitValue(a) + 10 * DigitValue(b) + DigitValue(c);
      0 <= n <= 999 && DigitChar(n / 100) == a && DigitChar(n / 10 % 10) == b && DigitChar(n % 10) == c
  {
    var n := 100 * DigitValue(a) + 10 * DigitValue(b) + DigitValue(c);
    assert n / 10 == 10 * DigitValue(a) + DigitValue(b);
    PairDigits(a, b);
    DigitCharOfValue(c);
  }

  /** The counters of a number whose characters 2 to 11 are digits, field by field. */
  lemma CountersOfDigits(x: string)
    requires |x| >= 12 && forall i :: 2 <= i < 12 ==> IsDigit(x[i])
    ensures var t := Counters(x);
      && t[0] == 10 * DigitValue(x[2]) + DigitValue(x[3])
      && t[1] == 10 * DigitValue(x[4]) + DigitValue(x[5])
      && t[3] == 100 * DigitValue(x[7]) + 10 * DigitValue(x[8]) + DigitValue(x[9])
  {
    NumValueOfPair(x[2..4]);
    NumValueOfPair(x[4..6]);
    NumValueOfTriple(x[7..10]);
  }

  /** The one-character counters of a digit string, and the first digit of its sequence number. */
  lemma CounterDigits(x: string)
    requires |x| >= 12 && AllDigits(x[..12])
    ensures var t := Counters(x);
      && t[2] == DigitValue(x[6]) && t[4] == DigitValue(x[10]) && t[5] == DigitValue(x[11])
      && DigitValue(x[7]) == t[3] / 100
      && (t[4] == 0 <==> x[10] == '0') && (t[4] == 1 <==> x[10] == '1')
      && (t[5] == 8 <==> x[11] == '8') && (t[5] == 9 <==> x[11] == '9')
  {
    assert forall i :: 0 <= i < 12 ==> x[..12][i] == x[i];
    CountersOfDigits(x);
  }

  /**
   * The other direction: a number whose first twelve characters are digits after the seed's
   * year is the section formatted from its own counters.
   */
  lemma SectionOfCounters(seed: SouthAfricanIdentityNumberModel, x: string)
    requires seed.Valid() && |x| >= 12 && AllDigits(x[..12]) && x[..2] == seed.YearOfBirth()
    ensures CountersFit(Counters(x))
    ensures NumberSection(seed, Counters(x)) == x[..12]
  {
    assert forall i :: 0 <= i < 12 ==> x[..12][i] == x[i];
    var t := Counters(x);
    CounterCharacters(x);
    SectionCharacters(seed, t);
    TwelveCharacters(x);
  }

  /** The first twelve characters: the two of the year, then the other ten one by one. */
  lemma TwelveCharacters(x: string)
    requires |x| >= 12
    ensures x[..12] == x[..2] + [x[2], x[3], x[4], x[5], x[6], x[7], x[8], x[9], x[10], x[11]]
  {
  }

  /** The counters of ten digits fit their widths, and writing them out gives the digits back. */
  lemma CounterCharacters(x: string)
    requires |x| >= 12 && forall i :: 2 <= i < 12 ==> IsDigit(x[i])
    ensures var t := Counters(x);
      && CountersFit(t)
      && DigitChar(t[0] / 10) == x[2] && DigitChar(t[0] % 10) == x[3]
      && DigitChar(t[1] / 10) == x[4] && DigitChar(t[1] % 10) == x[5]
      && DigitChar(t[2]) == x[6]
      && DigitChar(t[3] / 100) == x[7] && DigitChar(t[3] / 10 % 10) == x[8] && DigitChar(t[3] % 10) == x[9]
      && DigitChar(t[4]) == x[10] && DigitChar(t[5]) == x[11]
  {
    CountersOfDigits(x);
    PairDigits(x[2], x[3]);
    PairDigits(x[4], x[5]);
    DigitCharOfValue(x[6]);
    TripleDigits(x[7], x[8], x[9]);
    DigitCharOfValue(x[10]);
    DigitCharOfValue(x[11]);
  }

  /**
   * With one-digit fields in the seed, a candidate is thirteen digits: the section, then the
   * seed's checksum digit if it has one and otherwise the computed check digit.
   */
  lemma CandidateLayout(seed: SouthAfricanIdentityNumberModel, t: seq<int>)
    requires seed.Valid() && seed.HasDigitFields() && CountersFit(t)
    ensures var x := Candidate(seed, t);
      && |x| == 13 && AllDigits(x) && x[..12] == NumberSection(seed, t)
      && x[..2] == seed.YearOfBirth() && Counters(x) == t
      && DigitValue(x[12]) == KnownOr(seed.checksumDigit, LuhnChecksum(x[..12]))
  {
    var section := NumberSection(seed, t);
    CountersOfSection(seed, t);
    var x := Candidate(seed, t);
    if seed.checksumDigit.Some? {
      DigitFieldText(seed.checksumDigit);
    } else {
      ChecksumIsDigit(section);
      SingleDigitText(LuhnChecksum(section));
    }
    assert x[..12] == section;
    assert x[..12][..2] == x[..2];
    CountersOfPrefix(x);
    assert forall i :: 0 <= i < 12 ==> x[i] == section[i];
  }

  /** The counters depend on the first twelve characters only. */
  lemma CountersOfPrefix(x: string)
    requires |x| >= 12
    ensures Counters(x) == Counters(x[..12])
  {
    var y := x[..12];
    assert x[2..4] == y[2..4] && x[4..6] == y[4..6] && x[7..10] == y[7..10];
  }
}
