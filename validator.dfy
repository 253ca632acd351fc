/**
 * IsValidSouthAfricanIdentityNumber: a string is accepted when it is not blank, holds exactly
 * 13 digit characters, its first six characters read as the date 19YY-MM-DD, and its last
 * character is the check digit of everything before it.
 */
module Validator {
  import opened Text
  import opened Calendar
  import opened Checksum

  /**
   * DateTime.TryParse of "19" + s[0..2] + "-" + s[2..4] + "-" + s[4..6]: the six characters are
   * ASCII digits and name a day of the Gregorian calendar in the 1900s.
   */
  predicate BirthDateParses(s: string)
    requires |s| >= 6
    ensures BirthDateParses(s) ==> 1 <= NumValue(s[2..4]) <= 12 && 1 <= NumValue(s[4..6]) <= 31
  {
    AllDigits(s[..6]) && IsRealDate(1900 + NumValue(s[..2]), NumValue(s[2..4]), NumValue(s[4..6]))
  }

  /** Only the digit count is checked: an accepted string has 13 digits but may be longer. */
  predicate IsValidSouthAfricanIdentityNumber(s: string)
    ensures IsValidSouthAfricanIdentityNumber(s) ==> DigitCount(s) == 13 && |s| >= 13 && BirthDateParses(s)
  {
    if IsNullOrWhiteSpace(s) then false
    else if DigitCount(s) != 13 then false
    else if !BirthDateParses(s) then false
    else DigitValue(s[|s| - 1]) == LuhnChecksum(s[..|s| - 1])
  }

  /**
   * The validator never throws on a string with 13 digits: the three substrings of the date
   * exist, and the section before the last character holds digits, so it is not blank and
   * CalculateLuhnChecksumDigit returns a value rather than raising ArgumentException.
   */
  lemma ValidatorNeverThrows(s: string)
    requires DigitCount(s) == 13
    ensures |s| >= 13
    ensures !IsNullOrWhiteSpace(s[..|s| - 1])
  {
    var prefix := s[..|s| - 1];
    assert DigitCount(prefix) >= 12;
    var i := SomeDigit(prefix);
    DigitIsNotBlank(prefix, i);
  }

  /** A string with a positive digit count has a digit somewhere. */
  lemma {:induction false} SomeDigit(s: string) returns (i: nat)
    requires DigitCount(s) > 0
    ensures i < |s| && IsDigit(s[i])
    decreases |s|
  {
    if IsDigit(s[|s| - 1]) {
      i := |s| - 1;
    } else {
      var init := s[..|s| - 1];
      i := SomeDigit(init);
      assert s[i] == init[i];
    }
  }

  /**
   * On a string of 13 ASCII digits the validator is the Luhn test: it accepts exactly when the
   * birth date is real and the weighted digit sum of the whole number is a multiple of ten.
   */
  lemma ValidIffDateAndLuhn(s: string)
    requires |s| == 13 && AllDigits(s)
    ensures IsValidSouthAfricanIdentityNumber(s) <==> BirthDateParses(s) && LuhnTotal(s) % 10 == 0
  {
    DigitIsNotBlank(s, 0);
    var section := s[..12];
    assert s == section + [s[12]];
    ChecksumCompletesLuhn(section, s[12]);
  }

  /** The birth-date step on six ASCII digits, read as three two-digit numbers. */
  lemma BirthDateDigits(s: string)
    requires |s| >= 6 && AllDigits(s[..6])
    ensures BirthDateParses(s) <==> IsRealDate(
      1900 + 10 * DigitValue(s[0]) + DigitValue(s[1]),
      10 * DigitValue(s[2]) + DigitValue(s[3]),
      10 * DigitValue(s[4]) + DigitValue(s[5]))
  {
    NumValueOfPair(s[..2]);
    NumValueOfPair(s[2..4]);
    NumValueOfPair(s[4..6]);
  }

  /** Twelve digits with a real birth date followed by their check digit are accepted. */
  lemma AcceptsCheckDigit(id: string, z: char)
    requires |id| == 12 && AllDigits(id) && BirthDateParses(id)
    requires IsDigit(z) && DigitValue(z) == LuhnChecksum(id)
    ensures IsValidSouthAfricanIdentityNumber(id + [z])
  {
    var s := id + [z];
    assert s[..|s| - 1] == id;
    assert s[..6] == id[..6];
    assert s[..2] == id[..2] && s[2..4] == id[2..4] && s[4..6] == id[4..6];
    DigitIsNotBlank(s, 0);
  }

  /** A birth date that does not exist is rejected, whatever the check digit. */
  lemma RejectsUnrealDate(s: string)
    requires |s| >= 6 && !BirthDateParses(s)
    ensures !IsValidSouthAfricanIdentityNumber(s)
  {
  }

  /**
   * Only the digit count is checked, not the length: twelve digits with a real date, then any
   * character that is not a digit, then the digit the checksum gives for all thirteen
   * characters, make a fourteen-character string the validator accepts.
   */
  lemma AcceptsInsertedCharacter(id: string, c: char, z: char)
    requires |id| == 12 && AllDigits(id) && BirthDateParses(id)
    requires !IsDigit(c) && IsDigit(z) && DigitValue(z) == LuhnChecksum(id + [c])
    ensures IsValidSouthAfricanIdentityNumber(id + [c, z])
  {
    var s := id + [c, z];
    assert s[..|s| - 1] == id + [c];
    assert s[..6] == id[..6];
    assert s[..2] == id[..2] && s[2..4] == id[2..4] && s[4..6] == id[4..6];
    assert DigitCount(s) == 13 by {
      assert s[..|s| - 1][..12] == id;
    }
    DigitIsNotBlank(s, 0);
  }

  // Rows of the validation table in IdentityNumberTests, and the inserted-character instance.
  // Each literal is a parameter pinned by a requires, which keeps the literal evaluation small.

  lemma SampleBirthDate(id: string)
    requires id == "650207538708"
    ensures BirthDateParses(id)
  {
    BirthDateDigits(id);
  }

  lemma SampleLuhnTotal(id: string)
    requires id == "650207538708"
    ensures AllDigits(id) && LuhnTotal(id) == 47
  {
    LuhnTotalOfTwelve(id);
  }

  /** "6502075387083" is accepted. */
  lemma ValidationCaseAccepted(s: string)
    requires s == "6502075387083"
    ensures IsValidSouthAfricanIdentityNumber(s)
  {
    var id := s[..12];
    assert id == "650207538708";
    SampleBirthDate(id);
    SampleLuhnTotal(id);
    AcceptsCheckDigit(id, '3');
    assert s == id + ['3'];
  }

  /** "9306317555086" carries the right check digit but is rejected: June has no 31st day. */
  lemma ValidationCaseRejected(s: string)
    requires s == "9306317555086"
    ensures DigitValue(s[12]) == LuhnChecksum(s[..12])
    ensures !IsValidSouthAfricanIdentityNumber(s)
  {
    assert LuhnTotal(s[..12]) == 44 by {
      LuhnTotalOfTwelve(s[..12]);
    }
    BirthDateDigits(s);
    RejectsUnrealDate(s);
  }

  /** "650207538708x5" is accepted, although it has fourteen characters. */
  lemma AcceptsNonDigitCharacter(s: string)
    requires s == "650207538708x5"
    ensures IsValidSouthAfricanIdentityNumber(s)
  {
    var id := s[..12];
    assert id == "650207538708";
    SampleBirthDate(id);
    SampleLuhnTotal(id);
    LuhnTotalAppend(id, 'x');
    assert Term('x', 12) == -2;
    assert LuhnChecksum(id + ['x']) == 5 by {
      assert LuhnTotal(id + ['x']) == 45;
    }
    AcceptsInsertedCharacter(id, 'x', '5');
    assert s == id + ['x', '5'];
  }
}
