/**
 * The use the three operations are put to: mask some characters of a valid identity number,
 * parse the masked string into a seed, generate, and find the original number in the list.
 */
module Completeness {
  import opened Results
  import opened Text
  import opened Calendar
  import opened Checksum
  import opened Validator
  import opened IdentityNumberModel
  import opened Parser
  import opened Generator
  import opened SectionLayout
  import opened GeneratorProperties

  /** The string with the characters at the positions in `hidden` replaced by c. */
  function Mask(x: string, hidden: set<int>, c: char): string {
    seq(|x|, i requires 0 <= i < |x| => if i in hidden then c else x[i])
  }

  /**
   * What the theorem asks of the number and the masking: a valid number of thirteen ASCII
   * digits, a mask character that is not a digit and is one UTF-16 code unit (the code indexes
   * code units), a mask that keeps the year, a 19YY year the
   * clock has reached, a citizenship digit the generator tries (0 or 1), an obsolete digit it
   * tries when that digit is masked (8 or 9), and a gender hint that agrees with a masked
   * gender digit.
   */
  predicate Recoverable(x: string, hidden: set<int>, c: char, currentYear: int, hint: Option<GenderType>) {
    && |x| == 13 && AllDigits(x) && IsValidSouthAfricanIdentityNumber(x)
    && !IsDigit(c) && (c as int) < 0x1_0000
    && (forall i :: i in hidden ==> 2 <= i <= 12)
    && 1900 <= currentYear <= 9999 && 1900 + NumValue(x[..2]) <= currentYear
    && (x[10] == '0' || x[10] == '1')
    && (11 in hidden ==> x[11] == '8' || x[11] == '9')
    && (6 in hidden && hint == Some(Male) ==> x[6] >= '5')
    && (6 in hidden && hint == Some(Female) ==> x[6] <= '4')
  }

  /** The seed parsed from the masked number. */
  function MaskedSeed(x: string, hidden: set<int>, c: char, currentYear: int): SouthAfricanIdentityNumberModel
    requires |x| == 13 && 1900 <= currentYear <= 9999
  {
    ParseIdentityNumberStringToModel(Mask(x, hidden, c), currentYear).value
  }

  /** A valid number's birth date is real in the 1900s. */
  lemma ValidBirthDate(x: string)
    requires |x| == 13 && AllDigits(x) && IsValidSouthAfricanIdentityNumber(x)
    ensures 1 <= NumValue(x[2..4]) <= 12
    ensures 1 <= NumValue(x[4..6]) <= DaysInMonth(1900 + NumValue(x[..2]), NumValue(x[2..4]))
  {
    assert BirthDateParses(x);
  }

  /** The two-digit year of 19YY is YY. */
  lemma TwentiethCenturyYear(m: SouthAfricanIdentityNumberModel, yy: string)
    requires m.Valid() && |yy| == 2 && AllDigits(yy) && m.year == 1900 + NumValue(yy)
    ensures m.YearOfBirth() == yy
  {
    NumValueOfPair(yy);
    var a, b := DigitValue(yy[0]), DigitValue(yy[1]);
    CenturyDigits(a, b);
    YearOfBirthIsLastTwoDigits(m);
    assert m.YearOfBirth() == [DigitChar(a), DigitChar(b)];
    DigitCharOfValue(yy[0]);
    DigitCharOfValue(yy[1]);
    assert yy == [yy[0], yy[1]];
  }

  lemma CenturyDigits(a: int, b: int)
    requires 0 <= a <= 9 && 0 <= b <= 9
    ensures (1900 + 10 * a + b) / 10 % 10 == a && (1900 + 10 * a + b) % 10 == b
  {
    var y := 1900 + 10 * a + b;
    assert y == 10 * (190 + a) + b;
    assert y / 10 == 190 + a;
  }

  /** The year is kept: the seed's year is 19YY and its two-digit year is the number's first two characters. */
  lemma MaskedYear(x: string, hidden: set<int>, c: char, currentYear: int, hint: Option<GenderType>)
    requires Recoverable(x, hidden, c, currentYear, hint)
    ensures var seed := MaskedSeed(x, hidden, c, currentYear);
      seed.year == 1900 + NumValue(x[..2]) && seed.YearOfBirth() == x[..2]
  {
    var s := Mask(x, hidden, c);
    assert s[..2] == x[..2] by {
      assert 0 !in hidden && 1 !in hidden;
    }
    ParsedYear(s, currentYear);
    TwentiethCenturyYear(MaskedSeed(x, hidden, c, currentYear), x[..2]);
  }

  /** Month and day are known exactly when neither of their characters is masked, and then hold the number's. */
  lemma MaskedMonthAndDay(x: string, hidden: set<int>, c: char, currentYear: int, hint: Option<GenderType>)
    requires Recoverable(x, hidden, c, currentYear, hint)
    ensures var seed := MaskedSeed(x, hidden, c, currentYear);
      && (seed.monthOfBirth.Some? ==> seed.monthOfBirth.value == NumValue(x[2..4]))
      && (seed.dayOfBirth.Some? ==> seed.dayOfBirth.value == NumValue(x[4..6]))
  {
    var s := Mask(x, hidden, c);
    ParsedMonthAndDay(s, currentYear);
    if 2 !in hidden && 3 !in hidden {
      assert s[2..4] == x[2..4];
    } else {
      assert !AllDigits(s[2..4]) by {
        if 2 in hidden { assert s[2..4][0] == c; } else { assert s[2..4][1] == c; }
      }
    }
    if 4 !in hidden && 5 !in hidden {
      assert s[4..6] == x[4..6];
    } else {
      assert !AllDigits(s[4..6]) by {
        if 4 in hidden { assert s[4..6][0] == c; } else { assert s[4..6][1] == c; }
      }
    }
  }

  /** A one-character field at position k is unknown when masked and the number's digit otherwise. */
  lemma MaskedDigitField(x: string, hidden: set<int>, c: char, currentYear: int, hint: Option<GenderType>, k: int)
    requires Recoverable(x, hidden, c, currentYear, hint) && 6 <= k <= 12
    ensures FieldAt(MaskedSeed(x, hidden, c, currentYear), k) == if k in hidden then None else Some(DigitValue(x[k]))
  {
    ParsedDigitFields(Mask(x, hidden, c), currentYear, k);
  }

  /** The citizenship is unknown when masked, and otherwise SA for '0' and Other for '1'. */
  lemma MaskedCitizenship(x: string, hidden: set<int>, c: char, currentYear: int, hint: Option<GenderType>)
    requires Recoverable(x, hidden, c, currentYear, hint)
    ensures var seed := MaskedSeed(x, hidden, c, currentYear);
      && (10 in hidden ==> seed.citizenship == None)
      && (10 !in hidden && x[10] == '0' ==> seed.citizenship == Some(SA))
      && (10 !in hidden && x[10] == '1' ==> seed.citizenship == Some(Other))
  {
    ParsedCitizenship(Mask(x, hidden, c), currentYear);
  }

  /** The month, day and gender counters of the number lie in the ranges their loops take. */
  lemma DateAndGenderInRange(x: string, hidden: set<int>, c: char, currentYear: int, hint: Option<GenderType>)
    requires Recoverable(x, hidden, c, currentYear, hint)
    ensures var seed, t := MaskedSeed(x, hidden, c, currentYear), Counters(x);
      && seed.Valid()
      && InLevelRange(seed, hint, t, 0) && InLevelRange(seed, hint, t, 1) && InLevelRange(seed, hint, t, 2)
  {
    var seed, t := MaskedSeed(x, hidden, c, currentYear), Counters(x);
    ValidBirthDate(x);
    MaskedYear(x, hidden, c, currentYear, hint);
    MaskedMonthAndDay(x, hidden, c, currentYear, hint);
    MaskedDigitField(x, hidden, c, currentYear, hint, 6);
    assert |t[..0]| == 0 && |t[..1]| == 1 && t[..1][0] == t[0] && |t[..2]| == 2;
    assert IsDigit(x[6]);
  }

  /** The sequence counter of the number lies in the range its loop takes. */
  lemma SequenceInRange(x: string, hidden: set<int>, c: char, currentYear: int, hint: Option<GenderType>)
    requires Recoverable(x, hidden, c, currentYear, hint)
    ensures var seed, t := MaskedSeed(x, hidden, c, currentYear), Counters(x);
      seed.Valid() && InLevelRange(seed, hint, t, 3)
  {
    var t := Counters(x);
    MaskedDigitField(x, hidden, c, currentYear, hint, 7);
    MaskedDigitField(x, hidden, c, currentYear, hint, 8);
    MaskedDigitField(x, hidden, c, currentYear, hint, 9);
    CountersOfDigits(x);
    assert IsDigit(x[7]) && IsDigit(x[8]) && IsDigit(x[9]);
    assert |t[..3]| == 3;
  }

  /** The citizenship and obsolete counters of the number lie in the ranges their loops take. */
  lemma CitizenshipAndObsoleteInRange(x: string, hidden: set<int>, c: char, currentYear: int, hint: Option<GenderType>)
    requires Recoverable(x, hidden, c, currentYear, hint)
    ensures var seed, t := MaskedSeed(x, hidden, c, currentYear), Counters(x);
      seed.Valid() && InLevelRange(seed, hint, t, 4) && InLevelRange(seed, hint, t, 5)
  {
    var t := Counters(x);
    MaskedDigitField(x, hidden, c, currentYear, hint, 11);
    MaskedCitizenship(x, hidden, c, currentYear, hint);
    CounterDigits(x);
    assert IsDigit(x[11]);
    assert |t[..4]| == 4 && |t[..5]| == 5;
  }

  /** The counters read back from the number are visited by the generator's loops. */
  lemma MaskedCountersVisited(x: string, hidden: set<int>, c: char, currentYear: int, hint: Option<GenderType>)
    requires Recoverable(x, hidden, c, currentYear, hint)
    ensures var seed := MaskedSeed(x, hidden, c, currentYear);
      seed.Valid() && Visited(seed, hint, Counters(x))
  {
    DateAndGenderInRange(x, hidden, c, currentYear, hint);
    SequenceInRange(x, hidden, c, currentYear, hint);
    CitizenshipAndObsoleteInRange(x, hidden, c, currentYear, hint);
    var seed, t := MaskedSeed(x, hidden, c, currentYear), Counters(x);
    assert t[..0] == [];
    forall k | 0 <= k < Levels
      ensures InLevelRange(seed, hint, t, k)
    {
    }
  }

  /**
   * A valid number of thirteen digits that starts with the seed's two-digit year is the
   * candidate of its own counters, when the seed's checksum digit is unknown or is the
   * number's last digit.
   */
  lemma NumberIsItsOwnCandidate(seed: SouthAfricanIdentityNumberModel, x: string)
    requires seed.Valid() && |x| == 13 && AllDigits(x) && IsValidSouthAfricanIdentityNumber(x)
    requires x[..2] == seed.YearOfBirth()
    requires seed.checksumDigit == None || seed.checksumDigit == Some(DigitValue(x[12]))
    ensures Candidate(seed, Counters(x)) == x
  {
    assert forall i :: 0 <= i < 12 ==> x[..12][i] == x[i];
    SectionOfCounters(seed, x);
    var section := NumberSection(seed, Counters(x));
    assert section == x[..12];
    assert DigitValue(x[12]) == LuhnChecksum(x[..12]);
    if seed.checksumDigit == None {
      SingleDigitText(DigitValue(x[12]));
    } else {
      DigitFieldText(seed.checksumDigit);
    }
    DigitCharOfValue(x[12]);
    assert x == x[..12] + [x[12]];
  }

  /**
   * Masking any characters after the year of a valid number, parsing the result and generating
   * from that seed lists the original number (under the conditions of Recoverable).
   */
  lemma MaskedNumberIsGenerated(x: string, hidden: set<int>, c: char, currentYear: int, hint: Option<GenderType>)
    requires Recoverable(x, hidden, c, currentYear, hint)
    ensures x in ValidIdentityNumbers(MaskedSeed(x, hidden, c, currentYear), hint)
  {
    var seed := MaskedSeed(x, hidden, c, currentYear);
    var t := Counters(x);
    MaskedYear(x, hidden, c, currentYear, hint);
    MaskedDigitField(x, hidden, c, currentYear, hint, 12);
    NumberIsItsOwnCandidate(seed, x);
    MaskedCountersVisited(x, hidden, c, currentYear, hint);
    UnderComplete(seed, hint, [], t);
  }

  // The first row of PermutationContainsIdentityNumber in IdentityNumberTests, which masks
  // positions 6 to 9 with '*'.

  lemma PermutationSampleIsValid(x: string)
    requires x == "6004090561081"
    ensures AllDigits(x) && IsValidSouthAfricanIdentityNumber(x) && NumValue(x[..2]) == 60
  {
    var id := x[..12];
    assert id == "600409056108";
    BirthDateDigits(id);
    assert LuhnTotal(id) == 39 by {
      LuhnTotalOfTwelve(id);
    }
    AcceptsCheckDigit(id, '1');
    assert x == id + ['1'];
    NumValueOfPair(x[..2]);
  }

  lemma PermutationSampleMask(x: string)
    requires x == "6004090561081"
    ensures Mask(x, {6, 7, 8, 9}, '*') == "600409****081"
  {
  }

  /** With the sequence and gender digits masked and no gender hint, the number is generated again. */
  lemma PermutationCase6004090561081(x: string, currentYear: int)
    requires x == "6004090561081" && 1960 <= currentYear <= 9999
    ensures x in ValidIdentityNumbers(ParseIdentityNumberStringToModel("600409****081", currentYear).value, None)
  {
    PermutationSampleIsValid(x);
    PermutationSampleMask(x);
    MaskedNumberIsGenerated(x, {6, 7, 8, 9}, '*', currentYear, None);
  }
}
