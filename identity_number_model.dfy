/**
 * SouthAfricanIdentityNumberModel: the seed of the generator. Every field is readonly and set
 * once by the constructor, so the model is an immutable value; the constructor is the function
 * New, which takes the clock's current year as a parameter.
 */
module IdentityNumberModel {
  import opened Results
  import opened Text

  datatype GenderType = Female | Male

  datatype CitizenshipType = SA | Other {
    /** The enum's underlying integer, which the generator uses as the citizenship digit. */
    function Value(): int {
      match this
      case SA => 0
      case Other => 1
    }
  }

  /** The value -1 that every constructor parameter defaults to, meaning "not known". */
  const Unknown := -1

  /** The constructor's parameters. */
  datatype ModelArguments = ModelArguments(
    yearOfBirth: int, monthOfBirth: int, dayOfBirth: int,
    gender: int, genderSequence1: int, genderSequence2: int, genderSequence3: int,
    citizenship: int, obsolete: int, checksum: int)

  /** Nullable<int>.ToString(): the empty string when there is no value. */
  function OptionalText(o: Option<int>): string {
    match o
    case None => ""
    case Some(v) => IntToString(v)
  }

  /**
   * The fields of the model. `year` is both the private _yearOfBirth and the public Year, which
   * the constructor always sets to the same value. An Option is a nullable field.
   */
  datatype SouthAfricanIdentityNumberModel = SouthAfricanIdentityNumberModel(
    year: int,
    monthOfBirth: Option<int>,
    dayOfBirth: Option<int>,
    genderDigit: Option<int>,
    genderSequence1: Option<int>,
    genderSequence2: Option<int>,
    genderSequence3: Option<int>,
    citizenshipDigit: Option<int>,
    obsoleteDigit: Option<int>,
    checksumDigit: Option<int>,
    gender: Option<GenderType>,
    citizenship: Option<CitizenshipType>)
  {
    /** What the constructor guarantees of every model it builds (for a clock year up to 9999). */
    predicate Valid() {
      && 1900 <= year <= 9999
      && (monthOfBirth.Some? ==> 1 <= monthOfBirth.value <= 12)
      && (dayOfBirth.Some? ==> 1 <= dayOfBirth.value <= 31)
      && (genderDigit.Some? ==> genderDigit.value != Unknown)
      && gender == GenderOf(genderDigit)
      && (citizenshipDigit.Some? ==> citizenshipDigit.value != Unknown)
      && citizenship == CitizenshipOf(citizenshipDigit)
      && (genderSequence1.Some? ==> genderSequence1.value != Unknown)
      && (genderSequence2.Some? ==> genderSequence2.value != Unknown)
      && (genderSequence3.Some? ==> genderSequence3.value != Unknown)
      && (obsoleteDigit.Some? ==> obsoleteDigit.value != Unknown)
      && (checksumDigit.Some? ==> checksumDigit.value != Unknown)
    }

    /** Every known one-character field holds a single decimal digit, as a parsed model does. */
    predicate HasDigitFields() {
      && (genderDigit.Some? ==> 0 <= genderDigit.value <= 9)
      && (genderSequence1.Some? ==> 0 <= genderSequence1.value <= 9)
      && (genderSequence2.Some? ==> 0 <= genderSequence2.value <= 9)
      && (genderSequence3.Some? ==> 0 <= genderSequence3.value <= 9)
      && (citizenshipDigit.Some? ==> 0 <= citizenshipDigit.value <= 9)
      && (obsoleteDigit.Some? ==> 0 <= obsoleteDigit.value <= 9)
      && (checksumDigit.Some? ==> 0 <= checksumDigit.value <= 9)
    }

    /**
     * The last two characters of the year's decimal text (Substring(2, 2), which needs four
     * characters; every year the constructor keeps is at least 1900).
     */
    function YearOfBirth(): (r: string)
      requires year >= 1000
      ensures |r| == 2 && AllDigits(r)
    {
      FourDigitLength(year);
      IntToString(year)[2..4]
    }

    // The text views the generator reads: empty when the field is unknown, and otherwise text
    // that Convert.ToInt32 turns back into the stored value.

    function MonthOfBirth(): (r: string)
      ensures r == "" <==> monthOfBirth.None?
      ensures monthOfBirth.Some? ==> ToInt32(r) == Ok(monthOfBirth.value)
    {
      OptionalTextRoundTrip(monthOfBirth);
      OptionalText(monthOfBirth)
    }

    function DayOfBirth(): (r: string)
      ensures r == "" <==> dayOfBirth.None?
      ensures dayOfBirth.Some? ==> ToInt32(r) == Ok(dayOfBirth.value)
    {
      OptionalTextRoundTrip(dayOfBirth);
      OptionalText(dayOfBirth)
    }

    function GenderDigit(): (r: string)
      ensures r == "" <==> genderDigit.None?
      ensures genderDigit.Some? ==> ToInt32(r) == Ok(genderDigit.value)
    {
      OptionalTextRoundTrip(genderDigit);
      OptionalText(genderDigit)
    }

    function GenderSequenceDigit1(): (r: string)
      ensures r == "" <==> genderSequence1.None?
      ensures genderSequence1.Some? ==> ToInt32(r) == Ok(genderSequence1.value)
    {
      OptionalTextRoundTrip(genderSequence1);
      OptionalText(genderSequence1)
    }

    function GenderSequenceDigit2(): (r: string)
      ensures r == "" <==> genderSequence2.None?
      ensures genderSequence2.Some? ==> ToInt32(r) == Ok(genderSequence2.value)
    {
      OptionalTextRoundTrip(genderSequence2);
      OptionalText(genderSequence2)
    }

    function GenderSequenceDigit3(): (r: string)
      ensures r == "" <==> genderSequence3.None?
      ensures genderSequence3.Some? ==> ToInt32(r) == Ok(genderSequence3.value)
    {
      OptionalTextRoundTrip(genderSequence3);
      OptionalText(genderSequence3)
    }

    function ObsoleteDigit(): (r: string)
      ensures r == "" <==> obsoleteDigit.None?
      ensures obsoleteDigit.Some? ==> ToInt32(r) == Ok(obsoleteDigit.value)
    {
      OptionalTextRoundTrip(obsoleteDigit);
      OptionalText(obsoleteDigit)
    }

    function ChecksumDigit(): (r: string)
      ensures r == "" <==> checksumDigit.None?
      ensures checksumDigit.Some? ==> ToInt32(r) == Ok(checksumDigit.value)
    {
      OptionalTextRoundTrip(checksumDigit);
      OptionalText(checksumDigit)
    }
  }

  /** Gender from the gender digit: below 5 is female, anything else male. */
  function GenderOf(digit: Option<int>): Option<GenderType> {
    match digit
    case None => None
    case Some(g) => Some(if g < 5 then Female else Male)
  }

  /** Citizenship from the citizenship digit: 0 is a South African citizen, anything else Other. */
  function CitizenshipOf(digit: Option<int>): Option<CitizenshipType> {
    match digit
    case None => None
    case Some(c) => Some(if c == 0 then SA else Other)
  }

  /** An argument kept when it is not -1. */
  function Given(v: int): Option<int> {
    if v != Unknown then Some(v) else None
  }

  /** An argument kept when it lies in lo..hi. */
  function InRange(v: int, lo: int, hi: int): Option<int> {
    if lo <= v <= hi then Some(v) else None
  }

  /**
   * The constructor. A year outside 1900..currentYear becomes the current year; a month outside
   * 1..12 or a day outside 1..31 is dropped; every other field is kept unless it is -1; Gender
   * and Citizenship are derived from their digits.
   */
  function New(args: ModelArguments, currentYear: int): (m: SouthAfricanIdentityNumberModel)
    requires 1900 <= currentYear <= 9999
    ensures m.Valid()
    ensures 1900 <= m.year <= currentYear
    ensures 1900 <= args.yearOfBirth <= currentYear ==> m.year == args.yearOfBirth
    ensures !(1900 <= args.yearOfBirth <= currentYear) ==> m.year == currentYear
    ensures m.monthOfBirth.Some? <==> 1 <= args.monthOfBirth <= 12
    ensures m.monthOfBirth.Some? ==> m.monthOfBirth.value == args.monthOfBirth
    ensures m.dayOfBirth.Some? <==> 1 <= args.dayOfBirth <= 31
    ensures m.dayOfBirth.Some? ==> m.dayOfBirth.value == args.dayOfBirth
    ensures m.gender == Some(Female) <==> args.gender != Unknown && args.gender < 5
    ensures m.gender == Some(Male) <==> args.gender >= 5
    ensures m.gender == None <==> args.gender == Unknown
    ensures m.citizenship == Some(SA) <==> args.citizenship == 0
    ensures m.citizenship == Some(Other) <==> args.citizenship != Unknown && args.citizenship != 0
    ensures m.citizenship == None <==> args.citizenship == Unknown
    ensures m.genderDigit.Some? <==> args.gender != Unknown
    ensures m.genderDigit.Some? ==> m.genderDigit.value == args.gender
    ensures m.genderSequence1.Some? <==> args.genderSequence1 != Unknown
    ensures m.genderSequence1.Some? ==> m.genderSequence1.value == args.genderSequence1
    ensures m.genderSequence2.Some? <==> args.genderSequence2 != Unknown
    ensures m.genderSequence2.Some? ==> m.genderSequence2.value == args.genderSequence2
    ensures m.genderSequence3.Some? <==> args.genderSequence3 != Unknown
    ensures m.genderSequence3.Some? ==> m.genderSequence3.value == args.genderSequence3
    ensures m.citizenshipDigit.Some? <==> args.citizenship != Unknown
    ensures m.citizenshipDigit.Some? ==> m.citizenshipDigit.value == args.citizenship
    ensures m.obsoleteDigit.Some? <==> args.obsolete != Unknown
    ensures m.obsoleteDigit.Some? ==> m.obsoleteDigit.value == args.obsolete
    ensures m.checksumDigit.Some? <==> args.checksum != Unknown
    ensures m.checksumDigit.Some? ==> m.checksumDigit.value == args.checksum
  {
    var year := if args.yearOfBirth < 1900 || args.yearOfBirth > currentYear then currentYear else args.yearOfBirth;
    SouthAfricanIdentityNumberModel(
      year,
      InRange(args.monthOfBirth, 1, 12),
      InRange(args.dayOfBirth, 1, 31),
      Given(args.gender),
      Given(args.genderSequence1),
      Given(args.genderSequence2),
      Given(args.genderSequence3),
      Given(args.citizenship),
      Given(args.obsolete),
      Given(args.checksum),
      GenderOf(Given(args.gender)),
      CitizenshipOf(Given(args.citizenship)))
  }

  /**
   * YearOfBirth is the last two decimal digits of the four-digit year, which is what the
   * generator writes at the front of every number.
   */
  lemma YearOfBirthIsLastTwoDigits(m: SouthAfricanIdentityNumberModel)
    requires 1000 <= m.year <= 9999
    ensures |IntToString(m.year)| == 4
    ensures m.YearOfBirth() == [DigitChar(m.year / 10 % 10), DigitChar(m.year % 10)]
    ensures AllDigits(m.YearOfBirth()) && NumValue(m.YearOfBirth()) == m.year % 100
  {
    FourDigitText(m.year);
    var t := m.YearOfBirth();
    assert t == [DigitChar(m.year / 10 % 10), DigitChar(m.year % 10)];
    NumValueOfPair(t);
    LastTwoDigits(m.year);
  }

  lemma LastTwoDigits(n: int)
    requires 0 <= n
    ensures 10 * (n / 10 % 10) + n % 10 == n % 100
  {
    var q := n / 100;
    var r := n % 100;
    assert n == 100 * q + r;
    assert n / 10 == 10 * q + r / 10;
  }

  /**
   * The text view of a field is empty exactly when the field is unknown, and otherwise
   * Convert.ToInt32 reads the stored value back from it.
   */
  lemma OptionalTextRoundTrip(o: Option<int>)
    ensures OptionalText(o) == "" <==> o.None?
    ensures o.Some? ==> ToInt32(OptionalText(o)) == Ok(o.value)
  {
    if o.Some? {
      IntToStringRoundTrip(o.value);
    }
  }

  /** A known single digit is shown as that one digit character. */
  lemma DigitFieldText(o: Option<int>)
    requires o.Some? && 0 <= o.value <= 9
    ensures OptionalText(o) == [DigitChar(o.value)]
  {
    SingleDigitText(o.value);
  }
}
