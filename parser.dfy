/**
 * ParseIdentityNumberStringToModel: reads a (possibly masked) identity number position by
 * position into the constructor's arguments. A non-digit at a position leaves its field
 * unknown (-1); year, month and day are known only when both of their characters are digits.
 */
module Parser {
  import opened Results
  import opened Text
  import opened IdentityNumberModel

  /** The digit at a position, or -1 for any other character. */
  function DigitOrUnknown(c: char): int {
    if IsDigit(c) then DigitValue(c) else Unknown
  }

  /** The two-digit number at positions i and i + 1, or -1 unless both are digits. */
  function TwoDigitField(s: string, i: nat): int
    requires i + 2 <= |s|
  {
    if IsDigit(s[i]) && IsDigit(s[i + 1]) then 10 * DigitValue(s[i]) + DigitValue(s[i + 1]) else Unknown
  }

  /** The local function yy: a year of the 1900s when both characters are digits, and -1 otherwise. */
  function Yy(s: string): (y: int)
    requires |s| >= 2
    ensures y == Unknown || 1900 <= y <= 1999
    ensures y != Unknown <==> IsDigit(s[0]) && IsDigit(s[1])
  {
    if IsDigit(s[0]) && IsDigit(s[1]) then 1900 + TwoDigitField(s, 0) else Unknown
  }

  /**
   * The local function mm: a number in 0..99 when both characters are digits, and -1 otherwise.
   * It does not check the range 1..12; the constructor does.
   */
  function Mm(s: string): (m: int)
    requires |s| >= 4
    ensures m == Unknown || 0 <= m <= 99
    ensures m != Unknown <==> IsDigit(s[2]) && IsDigit(s[3])
  {
    TwoDigitField(s, 2)
  }

  /** The local function dd, like mm on characters 4 and 5; the constructor checks 1..31. */
  function Dd(s: string): (d: int)
    requires |s| >= 6
    ensures d == Unknown || 0 <= d <= 99
    ensures d != Unknown <==> IsDigit(s[4]) && IsDigit(s[5])
  {
    TwoDigitField(s, 4)
  }

  /** The argument is -1 or a single digit. */
  predicate DigitArgument(v: int) {
    v == Unknown || 0 <= v <= 9
  }

  /**
   * The arguments the parser hands to the constructor: each one-character argument is -1
   * exactly when its character is not a digit, and a single digit otherwise.
   */
  function ParseArguments(s: string): (a: ModelArguments)
    requires |s| >= 13
    ensures a.yearOfBirth == Yy(s) && a.monthOfBirth == Mm(s) && a.dayOfBirth == Dd(s)
    ensures DigitArgument(a.gender) && DigitArgument(a.genderSequence1) && DigitArgument(a.genderSequence2)
    ensures DigitArgument(a.genderSequence3) && DigitArgument(a.citizenship) && DigitArgument(a.obsolete)
    ensures DigitArgument(a.checksum)
    ensures (a.gender == Unknown <==> !IsDigit(s[6])) && (a.genderSequence1 == Unknown <==> !IsDigit(s[7]))
    ensures (a.genderSequence2 == Unknown <==> !IsDigit(s[8])) && (a.genderSequence3 == Unknown <==> !IsDigit(s[9]))
    ensures (a.citizenship == Unknown <==> !IsDigit(s[10])) && (a.obsolete == Unknown <==> !IsDigit(s[11]))
    ensures a.checksum == Unknown <==> !IsDigit(s[12])
  {
    ModelArguments(
      Yy(s), Mm(s), Dd(s),
      DigitOrUnknown(s[6]), DigitOrUnknown(s[7]), DigitOrUnknown(s[8]), DigitOrUnknown(s[9]),
      DigitOrUnknown(s[10]), DigitOrUnknown(s[11]), DigitOrUnknown(s[12]))
  }

  /**
   * The parser reads characters 0 to 12 of the string; a shorter string makes that read throw
   * IndexOutOfRangeException. The clock's current year is a parameter of the constructor.
   */
  function ParseIdentityNumberStringToModel(s: string, currentYear: int): (r: Result<SouthAfricanIdentityNumberModel>)
    requires 1900 <= currentYear <= 9999
    ensures r.Err? <==> |s| < 13
    ensures r.Err? ==> r.error == IndexOutOfRangeException
    ensures r.Ok? ==> r.value.Valid() && r.value.HasDigitFields()
  {
    if |s| < 13 then Err(IndexOutOfRangeException) else Ok(New(ParseArguments(s), currentYear))
  }

  /** The one-character field the parser fills from position k (6 to 12). */
  function FieldAt(m: SouthAfricanIdentityNumberModel, k: int): Option<int>
    requires 6 <= k <= 12
  {
    match k
    case 6 => m.genderDigit
    case 7 => m.genderSequence1
    case 8 => m.genderSequence2
    case 9 => m.genderSequence3
    case 10 => m.citizenshipDigit
    case 11 => m.obsoleteDigit
    case _ => m.checksumDigit
  }

  /** The expected content of a one-character field: the digit there, if any. */
  function DigitAt(s: string, k: int): Option<int>
    requires 0 <= k < |s|
  {
    if IsDigit(s[k]) then Some(DigitValue(s[k])) else None
  }

  /**
   * Each of positions 6 to 12 is its own field: known exactly when the character is a digit,
   * and then holding that digit.
   */
  lemma ParsedDigitFields(s: string, currentYear: int, k: int)
    requires 1900 <= currentYear <= 9999 && |s| >= 13 && 6 <= k <= 12
    ensures FieldAt(ParseIdentityNumberStringToModel(s, currentYear).value, k) == DigitAt(s, k)
  {
  }

  /**
   * Month and day are known exactly when both of their characters are digits and the number
   * they form lies in 1..12 (month) or 1..31 (day).
   */
  lemma ParsedMonthAndDay(s: string, currentYear: int)
    requires 1900 <= currentYear <= 9999 && |s| >= 13
    ensures var m := ParseIdentityNumberStringToModel(s, currentYear).value;
      && (m.monthOfBirth.Some? <==> AllDigits(s[2..4]) && 1 <= NumValue(s[2..4]) <= 12)
      && (m.monthOfBirth.Some? ==> m.monthOfBirth.value == NumValue(s[2..4]))
      && (m.dayOfBirth.Some? <==> AllDigits(s[4..6]) && 1 <= NumValue(s[4..6]) <= 31)
      && (m.dayOfBirth.Some? ==> m.dayOfBirth.value == NumValue(s[4..6]))
  {
    NumValueOfPair(s[2..4]);
    NumValueOfPair(s[4..6]);
    assert AllDigits(s[2..4]) <==> IsDigit(s[2]) && IsDigit(s[3]) by {
      assert s[2..4][0] == s[2] && s[2..4][1] == s[3];
    }
    assert AllDigits(s[4..6]) <==> IsDigit(s[4]) && IsDigit(s[5]) by {
      assert s[4..6][0] == s[4] && s[4..6][1] == s[5];
    }
  }

  /**
   * A known two-digit year is 19YY; with a character that is not a digit, or a 19YY after the
   * current year, the year is the current year.
   */
  lemma ParsedYear(s: string, currentYear: int)
    requires 1900 <= currentYear <= 9999 && |s| >= 13
    ensures var m := ParseIdentityNumberStringToModel(s, currentYear).value;
      && (AllDigits(s[..2]) && 1900 + NumValue(s[..2]) <= currentYear ==> m.year == 1900 + NumValue(s[..2]))
      && (!AllDigits(s[..2]) || 1900 + NumValue(s[..2]) > currentYear ==> m.year == currentYear)
  {
    NumValueOfPair(s[..2]);
    assert AllDigits(s[..2]) <==> IsDigit(s[0]) && IsDigit(s[1]) by {
      assert s[..2][0] == s[0] && s[..2][1] == s[1];
    }
  }

  /**
   * Gender is decided by the character at position 6: a digit below 5 is Female, 5 to 9 is
   * Male, and anything else leaves it unknown.
   */
  lemma ParsedGender(s: string, currentYear: int)
    requires 1900 <= currentYear <= 9999 && |s| >= 13
    ensures var m := ParseIdentityNumberStringToModel(s, currentYear).value;
      && (m.gender == Some(Female) <==> IsDigit(s[6]) && s[6] < '5')
      && (m.gender == Some(Male) <==> IsDigit(s[6]) && s[6] >= '5')
      && (m.gender == None <==> !IsDigit(s[6]))
  {
  }

  /**
   * Citizenship is decided by the character at position 10: '0' is SA, any other digit is
   * Other (so '5' is Other), and anything else leaves it unknown.
   */
  lemma ParsedCitizenship(s: string, currentYear: int)
    requires 1900 <= currentYear <= 9999 && |s| >= 13
    ensures var m := ParseIdentityNumberStringToModel(s, currentYear).value;
      && (m.citizenship == Some(SA) <==> s[10] == '0')
      && (m.citizenship == Some(Other) <==> IsDigit(s[10]) && s[10] != '0')
      && (m.citizenship == None <==> !IsDigit(s[10]))
  {
  }

  // Rows of the gender table in IdentityNumberTests.

  lemma GenderCaseFemale(s: string, currentYear: int)
    requires s == "7802220494084" && 1900 <= currentYear <= 9999
    ensures ParseIdentityNumberStringToModel(s, currentYear).value.gender == Some(Female)
  {
    ParsedGender(s, currentYear);
  }

  lemma GenderCaseMale(s: string, currentYear: int)
    requires s == "8704305219080" && 1900 <= currentYear <= 9999
    ensures ParseIdentityNumberStringToModel(s, currentYear).value.gender == Some(Male)
  {
    ParsedGender(s, currentYear);
  }
}
