# South African identity number utility — a Dafny model

This project models the core of a small C# tool that recovers a South African identity number
from a partly masked copy (as printed on a bank statement). An identity number has thirteen
characters laid out as `YYMMDDSSSSCAZ`:

- `YYMMDD` is the date of birth, read as 19YY.
- `S` is the gender digit: below 5 is female, otherwise male.
- `SSS` is a sequence number.
- `C` is the citizenship digit: 0 is a citizen, otherwise not.
- `A` is an obsolete digit, in practice 8 or 9.
- `Z` is a Luhn check digit.

The model covers four operations and the model class:

- **CalculateLuhnChecksumDigit** computes the check digit of a 12-character section.
- **IsValidSouthAfricanIdentityNumber** accepts a number when all of these hold:
  - it is not blank;
  - it holds exactly 13 digit characters;
  - `19YY-MM-DD` is a real date;
  - its last character is the check digit of the rest.
- **ParseIdentityNumberStringToModel** reads a masked number into a `SouthAfricanIdentityNumberModel`. Every non-digit position becomes an unknown field.
- **GenerateValidIdentityNumbers** runs six nested loops over the unknown fields. The loops go over month, day, gender digit, sequence number, citizenship digit and obsolete digit. It formats each candidate, appends the known or computed check digit, and keeps the candidates the validator accepts.

Modules:

| module | file | content |
|---|---|---|
| `Results` | results.dfy | `Option`, the exceptions the code can throw, `Result` |
| `Text` | text.dfy | `char.IsDigit`, `GetDigitValue`, `char.IsWhiteSpace`, `string.IsNullOrWhiteSpace`, `Int32.ToString`, the `D2`/`D3` formats, `Convert.ToInt32` (ASCII) |
| `Calendar` | calendar.dfy | `DateTime.DaysInMonth` and the Gregorian leap-year rule |
| `Checksum` | checksum.dfy | the checksum loop as a method, specified by the function `LuhnChecksum` |
| `Validator` | validator.dfy | the validator as a predicate and what it accepts and rejects |
| `IdentityNumberModel` | identity_number_model.dfy | the model class (immutable: readonly fields set once by its constructor), its getters and enums |
| `Parser` | parser.dfy | the parser and what each position becomes |
| `Generator` | generator.dfy | the generator: one method per loop level, each proved equal to the recursive specification `CandidatesUnder`/`CandidatesBetween` of the nested loops |
| `SectionLayout` | section_layout.dfy | the layout of a candidate: the loop counters can be read back from the formatted number and vice versa |
| `GeneratorProperties` | generator_properties.dfy | membership in the generated list, its loop order (hence no duplicates), and what every listed number keeps of the seed: the year, month, day, gender digit, first sequence digit, obsolete digit and checksum digit verbatim, a sequence number no lower than the known sequence digits give, and citizenship 0 for SA and 1 for Other |
| `Completeness` | completeness.dfy | masking a valid number, parsing and generating lists that number again |

The model follows the code in these details:

- `GetDigitValue` of an ASCII non-digit is -1.
- `Math.Floor` of a quotient by 10 is Dafny's `/`.
- C#'s `%` truncates toward zero, modelled as `CsRem`.
- The checksum of a section with an ASCII non-digit is still the number the C# loop computes.
- The `D2` format applied to the string `YearOfBirth` has no effect, so the generator writes the two-character year as it is.
- The model constructor reads the clock (`DateTime.UtcNow.Year`). The model takes that year as the parameter `currentYear`, and assumes the clock is not before 1900: 1900 ≤ `currentYear` ≤ 9999.

## Model

| member | source | states |
|---|---|---|
| Text.DigitValue | src/StatementBruteForce.Core/SouthAfricanIdentityNumberUtil.cs:35 | `GetDigitValue` gives 0..9 for an ASCII digit and -1 for any other character; for non-ASCII characters this is weaker than .NET (see "## Left out") |
| Text.DigitChar | src/StatementBruteForce.Core/SouthAfricanIdentityNumberUtil.cs:194 | the character written for a digit value is a digit whose value is that digit |
| Text.DigitCharOfValue | src/StatementBruteForce.Core/SouthAfricanIdentityNumberUtil.cs:270-276 | a digit character read by the parser and written back by the generator is the same character |
| Text.DigitIsNotBlank | src/StatementBruteForce.Core/SouthAfricanIdentityNumberUtil.cs:23 | a string holding a digit is not null-or-white-space |
| Text.DigitCount | src/StatementBruteForce.Core/SouthAfricanIdentityNumberUtil.cs:58-59 | the number of digit characters is at most the length, equals it for an all-digit string, and is 0 only when no character is a digit |
| Text.NumValueOfPair | src/StatementBruteForce.Core/SouthAfricanIdentityNumberUtil.cs:237-238 | the value of two digit characters is ten times the first plus the second, as the parser computes it |
| Text.DecimalDigits | src/StatementBruteForce.Core/SouthAfricanIdentityNumberModel.cs:135 | `ToString` of a non-negative integer is a non-empty string of digits |
| Text.ZeroPad | src/StatementBruteForce.Core/SouthAfricanIdentityNumberUtil.cs:194 | padding for a `Dn` format yields exactly n characters unless the text is already longer |
| Text.IntToString | src/StatementBruteForce.Core/SouthAfricanIdentityNumberModel.cs:135 | `Int32.ToString()` is non-empty, starts with `-` exactly for a negative value, and is digits otherwise (digits after the sign when negative) |
| Text.FormatD | src/StatementBruteForce.Core/SouthAfricanIdentityNumberUtil.cs:194 | the `Dn` format of an integer has at least n characters, starts with `-` exactly for a negative value, and is all digits for a non-negative one |
| Text.ToInt32 | src/StatementBruteForce.Core/SouthAfricanIdentityNumberUtil.cs:104 | `Convert.ToInt32` succeeds on every non-empty digit string; a value it returns has magnitude below 10 to the text's length, and is negative only after a leading `-` |
| Text.NumValueBounds | src/StatementBruteForce.Core/SouthAfricanIdentityNumberUtil.cs:104 | n digits have a value in 0..10^n - 1 |
| Text.NumValueOfDecimalDigits | src/StatementBruteForce.Core/SouthAfricanIdentityNumberUtil.cs:104 | reading back the decimal text of n gives n |
| Text.IntToStringRoundTrip | src/StatementBruteForce.Core/SouthAfricanIdentityNumberUtil.cs:104 | `Convert.ToInt32` of `ToString` of any integer, negative included, gives the integer back |
| Text.SingleDigitText | src/StatementBruteForce.Core/SouthAfricanIdentityNumberUtil.cs:202 | `ToString` of 0..9 is that one digit character |
| Text.TwoDigitFormat | src/StatementBruteForce.Core/SouthAfricanIdentityNumberUtil.cs:194 | `D2` of 0..99 is its tens digit then its units digit |
| Text.ThreeDigitFormat | src/StatementBruteForce.Core/SouthAfricanIdentityNumberUtil.cs:194 | `D3` of 0..999 is its hundreds, tens and units digits |
| Text.FourDigitLength | src/StatementBruteForce.Core/SouthAfricanIdentityNumberModel.cs:133 | a year of at least 1000 has at least four characters, so `Substring(2, 2)` is in range |
| Text.FourDigitText | src/StatementBruteForce.Core/SouthAfricanIdentityNumberModel.cs:133 | the text of a four-digit year is its four decimal digits in order |
| Checksum.CalculateLuhnChecksumDigit | src/StatementBruteForce.Core/SouthAfricanIdentityNumberUtil.cs:21-42 | a blank section throws `ArgumentException`; otherwise the loop's result is `LuhnChecksum` of the section, a digit 0..9 when the section is non-empty ASCII digits |
| Checksum.LuhnChecksum | src/StatementBruteForce.Core/SouthAfricanIdentityNumberUtil.cs:40-41 | `total * 9 % 10` with C#'s truncating `%` lies in -9..9, and in 0..9 whenever the total is not negative |
| Checksum.CollapseOfDigitProduct | src/StatementBruteForce.Core/SouthAfricanIdentityNumberUtil.cs:33-36 | for a digit times the weight 1 or 2, the subtotal (floor of a tenth plus the remainder) is a digit, and the digit itself for weight 1 |
| Checksum.TermOfDigit | src/StatementBruteForce.Core/SouthAfricanIdentityNumberUtil.cs:33-37 | a digit adds itself at even positions and its double, less 9 when the double exceeds 9, at odd positions (the Luhn rule) |
| Checksum.LuhnTotalNonNegative | src/StatementBruteForce.Core/SouthAfricanIdentityNumberUtil.cs:29-38 | the running total over ASCII digits never goes below zero |
| Checksum.ChecksumIsDigit | src/StatementBruteForce.Core/SouthAfricanIdentityNumberUtil.cs:40-41 | the checksum of ASCII digits is 0..9 |
| Checksum.NineTimesIsComplement | src/StatementBruteForce.Core/SouthAfricanIdentityNumberUtil.cs:40 | `total * 9 % 10` is the one digit that brings the total to a multiple of ten |
| Checksum.ChecksumCompletesLuhn | src/StatementBruteForce.Core/SouthAfricanIdentityNumberUtil.cs:73-78 | after an even number of digits, a digit is the checksum exactly when appending it makes the Luhn total a multiple of ten |
| Checksum.LuhnTotalStep | src/StatementBruteForce.Core/SouthAfricanIdentityNumberUtil.cs:31-38 | one loop iteration adds the term of character i to the total |
| Checksum.LuhnTotalAppend | src/StatementBruteForce.Core/SouthAfricanIdentityNumberUtil.cs:31-38 | appending a character adds its term at the next position |
| Checksum.LuhnTotalOfTwelve | src/StatementBruteForce.Core/SouthAfricanIdentityNumberUtil.cs:31-38 | the total of twelve digits is the sum of their twelve Luhn terms |
| Checksum.ChecksumCase650207538708 | tests/StatementBruteForce.Core.Tests/IdentityNumberTests.cs:37 | the checksum of 650207538708 is 3 |
| Checksum.ChecksumCase630412070608 | tests/StatementBruteForce.Core.Tests/IdentityNumberTests.cs:38 | the checksum of 630412070608 is 0 |
| Checksum.ChecksumCase930631755508 | tests/StatementBruteForce.Core.Tests/IdentityNumberTests.cs:40 | the checksum of 930631755508 is 6 |
| Checksum.ChecksumCase850631195508 | tests/StatementBruteForce.Core.Tests/IdentityNumberTests.cs:44 | the checksum of 850631195508 is 0 |
| Checksum.ChecksumCase770631487808 | tests/StatementBruteForce.Core.Tests/IdentityNumberTests.cs:56 | the checksum of 770631487808 is 8 |
| Calendar.DaysInMonth | src/StatementBruteForce.Core/SouthAfricanIdentityNumberUtil.cs:112 | a month has 28 to 31 days, and 29 exactly for February of a leap year |
| Calendar.CenturyYearHasNoMoreDays | src/StatementBruteForce.Core/SouthAfricanIdentityNumberUtil.cs:112 | a month of 19YY never has more days than the same month of a later year ending in YY, so the validator's 19YY reading can only reject a day the generator tries |
| Calendar.LeapDayOf2000Not1900 | src/StatementBruteForce.Core/SouthAfricanIdentityNumberUtil.cs:66 | 29 February is a real date in 2000 but not in 1900, which is how the validator reads a "00" year |
| Validator.ValidatorNeverThrows | src/StatementBruteForce.Core/SouthAfricanIdentityNumberUtil.cs:73-78 | once 13 digits are counted, the string is long enough for the date substrings and the section passed to the checksum is not blank, so the validator never throws |
| Validator.IsValidSouthAfricanIdentityNumber | src/StatementBruteForce.Core/SouthAfricanIdentityNumberUtil.cs:51-79 | an accepted string holds exactly 13 digit characters, so at least 13 characters, and its first six characters name a real 19YY date |
| Validator.BirthDateParses | src/StatementBruteForce.Core/SouthAfricanIdentityNumberUtil.cs:64-71 | a date that parses has a month in 1..12 and a day in 1..31 |
| Validator.ValidIffDateAndLuhn | src/StatementBruteForce.Core/SouthAfricanIdentityNumberUtil.cs:51-79 | thirteen ASCII digits are accepted exactly when 19YY-MM-DD is a real date and the Luhn total of all thirteen is a multiple of ten |
| Validator.BirthDateDigits | src/StatementBruteForce.Core/SouthAfricanIdentityNumberUtil.cs:64-71 | for six leading digits the date check is the calendar check of 19YY, MM and DD |
| Validator.AcceptsCheckDigit | src/StatementBruteForce.Core/SouthAfricanIdentityNumberUtil.cs:73-78 | twelve digits with a real birth date followed by their checksum digit are accepted |
| Validator.RejectsUnrealDate | src/StatementBruteForce.Core/SouthAfricanIdentityNumberUtil.cs:64-71 | a string whose birth date is not a real date is rejected |
| Validator.AcceptsInsertedCharacter | src/StatementBruteForce.Core/SouthAfricanIdentityNumberUtil.cs:58-59 | twelve digits, one non-digit and the checksum digit of those thirteen characters are accepted: only digits are counted |
| Validator.ValidationCaseAccepted | tests/StatementBruteForce.Core.Tests/IdentityNumberTests.cs:66 | 6502075387083 is accepted |
| Validator.ValidationCaseRejected | tests/StatementBruteForce.Core.Tests/IdentityNumberTests.cs:69 | 9306317555086 carries its correct check digit and is rejected, because 31 June is not a date |
| Validator.AcceptsNonDigitCharacter | src/StatementBruteForce.Core/SouthAfricanIdentityNumberUtil.cs:58-59 | the fourteen-character string 650207538708x5 is accepted |
| IdentityNumberModel.New | src/StatementBruteForce.Core/SouthAfricanIdentityNumberModel.cs:70-131 | a year outside 1900..current year becomes the current year; month and day are kept only within 1..12 and 1..31; every other field is kept unless it is -1; gender is Female below 5 and Male otherwise; citizenship is SA for 0 and Other otherwise |
| IdentityNumberModel.SouthAfricanIdentityNumberModel.YearOfBirth | src/StatementBruteForce.Core/SouthAfricanIdentityNumberModel.cs:133 | `Substring(2, 2)` of the year's text is two digit characters |
| IdentityNumberModel.SouthAfricanIdentityNumberModel.MonthOfBirth | src/StatementBruteForce.Core/SouthAfricanIdentityNumberModel.cs:135 | the text is empty exactly when `monthOfBirth` is unknown, and otherwise `Convert.ToInt32` reads the stored value back from it |
| IdentityNumberModel.SouthAfricanIdentityNumberModel.DayOfBirth | src/StatementBruteForce.Core/SouthAfricanIdentityNumberModel.cs:137 | the text is empty exactly when `dayOfBirth` is unknown, and otherwise `Convert.ToInt32` reads the stored value back from it |
| IdentityNumberModel.SouthAfricanIdentityNumberModel.GenderDigit | src/StatementBruteForce.Core/SouthAfricanIdentityNumberModel.cs:139 | the text is empty exactly when `genderDigit` is unknown, and otherwise `Convert.ToInt32` reads the stored value back from it |
| IdentityNumberModel.SouthAfricanIdentityNumberModel.GenderSequenceDigit1 | src/StatementBruteForce.Core/SouthAfricanIdentityNumberModel.cs:141 | the text is empty exactly when `genderSequence1` is unknown, and otherwise `Convert.ToInt32` reads the stored value back from it |
| IdentityNumberModel.SouthAfricanIdentityNumberModel.GenderSequenceDigit2 | src/StatementBruteForce.Core/SouthAfricanIdentityNumberModel.cs:142 | the text is empty exactly when `genderSequence2` is unknown, and otherwise `Convert.ToInt32` reads the stored value back from it |
| IdentityNumberModel.SouthAfricanIdentityNumberModel.GenderSequenceDigit3 | src/StatementBruteForce.Core/SouthAfricanIdentityNumberModel.cs:143 | the text is empty exactly when `genderSequence3` is unknown, and otherwise `Convert.ToInt32` reads the stored value back from it |
| IdentityNumberModel.SouthAfricanIdentityNumberModel.ObsoleteDigit | src/StatementBruteForce.Core/SouthAfricanIdentityNumberModel.cs:144 | the text is empty exactly when `obsoleteDigit` is unknown, and otherwise `Convert.ToInt32` reads the stored value back from it |
| IdentityNumberModel.SouthAfricanIdentityNumberModel.ChecksumDigit | src/StatementBruteForce.Core/SouthAfricanIdentityNumberModel.cs:145 | the text is empty exactly when `checksumDigit` is unknown, and otherwise `Convert.ToInt32` reads the stored value back from it |
| IdentityNumberModel.YearOfBirthIsLastTwoDigits | src/StatementBruteForce.Core/SouthAfricanIdentityNumberModel.cs:133 | for a four-digit year, `YearOfBirth` is its tens and units digits, whose value is the year modulo 100 |
| IdentityNumberModel.OptionalTextRoundTrip | src/StatementBruteForce.Core/SouthAfricanIdentityNumberModel.cs:135-145 | a field's text is empty exactly when the field is unknown, and otherwise `Convert.ToInt32` reads the stored value back |
| IdentityNumberModel.DigitFieldText | src/StatementBruteForce.Core/SouthAfricanIdentityNumberModel.cs:139 | a known single-digit field is shown as that one digit character |
| Parser.ParseIdentityNumberStringToModel | src/StatementBruteForce.Core/SouthAfricanIdentityNumberUtil.cs:227-278 | a string shorter than 13 throws `IndexOutOfRangeException`; otherwise the model satisfies the constructor's guarantees and every known one-character field holds a single digit |
| Parser.Yy | src/StatementBruteForce.Core/SouthAfricanIdentityNumberUtil.cs:233-242 | the year is 1900..1999 when both characters are digits and -1 otherwise |
| Parser.Mm | src/StatementBruteForce.Core/SouthAfricanIdentityNumberUtil.cs:244-253 | the month is a number 0..99 when both characters are digits and -1 otherwise; the range 1..12 is left to the constructor |
| Parser.Dd | src/StatementBruteForce.Core/SouthAfricanIdentityNumberUtil.cs:255-264 | the day is a number 0..99 when both characters are digits and -1 otherwise; the range 1..31 is left to the constructor |
| Parser.ParseArguments | src/StatementBruteForce.Core/SouthAfricanIdentityNumberUtil.cs:269-276 | year, month and day come from yy, mm and dd; each one-character argument is -1 exactly when its character is not a digit, and a single digit otherwise |
| Parser.ParsedYear | src/StatementBruteForce.Core/SouthAfricanIdentityNumberUtil.cs:233-242 | two leading digits give the year 19YY when the clock has reached it; otherwise the year is the current year |
| Parser.ParsedMonthAndDay | src/StatementBruteForce.Core/SouthAfricanIdentityNumberUtil.cs:244-264 | month (day) is known exactly when both of its characters are digits and their value is in 1..12 (1..31), and then it is that value |
| Parser.ParsedDigitFields | src/StatementBruteForce.Core/SouthAfricanIdentityNumberUtil.cs:270-276 | each of positions 6 to 12 becomes its own field: known exactly when the character is a digit, and then holding that digit |
| Parser.ParsedGender | src/StatementBruteForce.Core/SouthAfricanIdentityNumberUtil.cs:270 | gender is Female for a digit below 5 at position 6, Male for 5 to 9, unknown for a non-digit |
| Parser.ParsedCitizenship | src/StatementBruteForce.Core/SouthAfricanIdentityNumberUtil.cs:274 | citizenship is SA for '0' at position 10, Other for any other digit, unknown for a non-digit |
| Parser.GenderCaseFemale | tests/StatementBruteForce.Core.Tests/IdentityNumberTests.cs:9 | 7802220494084 parses as Female |
| Parser.GenderCaseMale | tests/StatementBruteForce.Core.Tests/IdentityNumberTests.cs:10 | 8704305219080 parses as Male |
| Generator.ReadField | src/StatementBruteForce.Core/SouthAfricanIdentityNumberUtil.cs:102-107 | a field is known exactly when its text view is not empty, and its value is then `Convert.ToInt32` of that text, which by the getters' contracts is the stored field |
| Generator.NumberSection | src/StatementBruteForce.Core/SouthAfricanIdentityNumberUtil.cs:194 | the interpolated section has at least twelve characters and starts with the seed's two-character year |
| Generator.Candidate | src/StatementBruteForce.Core/SouthAfricanIdentityNumberUtil.cs:195-203 | the candidate is the section with the check-digit text appended |
| Generator.GenerateValidIdentityNumbers | src/StatementBruteForce.Core/SouthAfricanIdentityNumberUtil.cs:94-217 | the list is exactly the candidates of the nested month, day, gender, sequence, citizenship and obsolete loops that the validator accepts, in loop order, and every listed number is valid |
| Generator.DayLoop | src/StatementBruteForce.Core/SouthAfricanIdentityNumberUtil.cs:111-213 | the day loop for month m appends exactly the candidates under m |
| Generator.GenderLoop | src/StatementBruteForce.Core/SouthAfricanIdentityNumberUtil.cs:122-212 | the gender loop for (m, d) appends exactly the candidates under (m, d), with the hint and a known gender digit narrowing its range |
| Generator.SequenceLoop | src/StatementBruteForce.Core/SouthAfricanIdentityNumberUtil.cs:145-211 | the sequence loop appends exactly the candidates under (m, d, g), starting at the known sequence digits and ending at 999, or 99 past the first known digit |
| Generator.CitizenshipLoop | src/StatementBruteForce.Core/SouthAfricanIdentityNumberUtil.cs:166-210 | the citizenship loop appends exactly the candidates under (m, d, g, s): 0 to 1, only 0 for SA, only 1 for Other |
| Generator.ObsoleteLoop | src/StatementBruteForce.Core/SouthAfricanIdentityNumberUtil.cs:183-209 | the obsolete loop appends exactly the candidates under its five outer counters: 8 to 9, or only the known digit |
| Generator.AddIfValid | src/StatementBruteForce.Core/SouthAfricanIdentityNumberUtil.cs:194-208 | one innermost iteration appends the candidate for its six counters when the validator accepts it, and nothing otherwise |
| Generator.SectionIsNotBlank | src/StatementBruteForce.Core/SouthAfricanIdentityNumberUtil.cs:202 | the section the generator passes to the checksum is never blank, so generation never throws |
| Generator.CandidatesAreValid | src/StatementBruteForce.Core/SouthAfricanIdentityNumberUtil.cs:205-208 | every number the nested loops list passes the validator |
| Generator.CandidatesBetweenAreValid | src/StatementBruteForce.Core/SouthAfricanIdentityNumberUtil.cs:205-208 | every number one loop level lists over a range of its counter passes the validator |
| SectionLayout.SectionCharacters | src/StatementBruteForce.Core/SouthAfricanIdentityNumberUtil.cs:194 | the formatted section is the two-character year followed by the digits of MM, DD, G, SSS, C and A |
| SectionLayout.CountersOfSection | src/StatementBruteForce.Core/SouthAfricanIdentityNumberUtil.cs:194 | a formatted section is twelve digits starting with the year, and reading its counters back gives the counters it was made from |
| SectionLayout.SectionOfCounters | src/StatementBruteForce.Core/SouthAfricanIdentityNumberUtil.cs:194 | any twelve digits starting with the seed's year are the section formatted from their own counters |
| SectionLayout.CandidateLayout | src/StatementBruteForce.Core/SouthAfricanIdentityNumberUtil.cs:194-203 | a candidate is thirteen digits: its section, then the seed's known check digit or else the Luhn checksum of the section |
| GeneratorProperties.UnderSound | src/StatementBruteForce.Core/SouthAfricanIdentityNumberUtil.cs:109-209 | everything the loops below a prefix list comes from a counter tuple the loops reach from that prefix |
| GeneratorProperties.BetweenSound | src/StatementBruteForce.Core/SouthAfricanIdentityNumberUtil.cs:109-209 | everything one loop level lists over lo..hi comes from a reached tuple whose counter at that level lies in lo..hi |
| GeneratorProperties.UnderComplete | src/StatementBruteForce.Core/SouthAfricanIdentityNumberUtil.cs:109-209 | every counter tuple the loops reach from a prefix has its valid candidate listed |
| GeneratorProperties.BetweenComplete | src/StatementBruteForce.Core/SouthAfricanIdentityNumberUtil.cs:109-209 | every reached tuple whose counter at one level lies in lo..hi has its valid candidate listed by that level over lo..hi |
| GeneratorProperties.Membership | src/StatementBruteForce.Core/SouthAfricanIdentityNumberUtil.cs:94-217 | a string is in the generated list exactly when some counter tuple the loops visit formats to it and the validator accepts it |
| GeneratorProperties.ReachedIsVisited | src/StatementBruteForce.Core/SouthAfricanIdentityNumberUtil.cs:109-192 | a tuple reached from a prefix whose counters are in their loop ranges is visited by the whole loop nest |
| GeneratorProperties.VisitedCountersFit | src/StatementBruteForce.Core/SouthAfricanIdentityNumberUtil.cs:194 | every visited counter fits its field of the format: two digits for MM and DD, one for G, C and A, three for SSS |
| GeneratorProperties.VisitedCandidateCounters | src/StatementBruteForce.Core/SouthAfricanIdentityNumberUtil.cs:194-208 | the counters read back from a listed candidate are the tuple that produced it |
| GeneratorProperties.UnderInLoopOrder | src/StatementBruteForce.Core/SouthAfricanIdentityNumberUtil.cs:109-209 | the loops below an in-range prefix list their numbers in the lexicographic order of their counters |
| GeneratorProperties.BetweenInLoopOrder | src/StatementBruteForce.Core/SouthAfricanIdentityNumberUtil.cs:109-209 | one loop level over part of its range lists its numbers in counter order: every number of an earlier turn comes before every number of a later one |
| GeneratorProperties.EarlierTurnComesFirst | src/StatementBruteForce.Core/SouthAfricanIdentityNumberUtil.cs:109-209 | a number added by an earlier turn of a loop has the same outer counters and a smaller counter at that loop than one added by a later turn |
| GeneratorProperties.ListInLoopOrder | src/StatementBruteForce.Core/SouthAfricanIdentityNumberUtil.cs:94-217 | the generated list is ordered by month, then day, gender digit, sequence number, citizenship digit and obsolete digit, as the nested loops run |
| GeneratorProperties.NoDuplicateNumbers | src/StatementBruteForce.Core/SouthAfricanIdentityNumberUtil.cs:94-217 | the generated list holds no number twice, because it is in loop order |
| GeneratorProperties.VisitedRanges | src/StatementBruteForce.Core/SouthAfricanIdentityNumberUtil.cs:100-192 | the loop ranges: known month, day, gender and obsolete digits are fixed; the hint limits an unknown gender digit to 5..9 or 0..4; the sequence runs from its start to its end; citizenship is 0..1, fixed by a known citizenship; an unknown obsolete digit is 8 or 9 |
| GeneratorProperties.GeneratedNumberCarriesSeed | src/StatementBruteForce.Core/SouthAfricanIdentityNumberUtil.cs:94-217 | every listed number is thirteen valid digits that start with the seed's two-digit year and keep the known month, day, gender digit, first sequence digit, obsolete digit and checksum digit verbatim; an unknown gender digit follows the hint; the sequence number is at least the start the known sequence digits give (the second and third sequence digits are not kept); the citizenship digit is 0 for SA and 1 for Other, whatever digit the seed held; an unknown obsolete digit is 8 or 9 |
| GeneratorProperties.DayLoopCoversValidatorDays | src/StatementBruteForce.Core/SouthAfricanIdentityNumberUtil.cs:111-120 | a day the validator accepts for month m (real in 19YY, read from the two-character year) lies in the day loop's range 1..DaysInMonth of the seed's four-digit year |
| GeneratorProperties.SequenceDigitNotKept | src/StatementBruteForce.Core/SouthAfricanIdentityNumberUtil.cs:145-164 | a seed that knows sequence digit 2 as 2 still lists 6502075100080, whose position 8 is 0: the second and third sequence digits only raise the loop's start |
| Completeness.ValidBirthDate | src/StatementBruteForce.Core/SouthAfricanIdentityNumberUtil.cs:64-71 | an accepted all-digit number has a month in 1..12 and a day within that month of 19YY |
| Completeness.TwentiethCenturyYear | src/StatementBruteForce.Core/SouthAfricanIdentityNumberModel.cs:133 | the two-character year of the year 19YY is YY |
| Completeness.MaskedYear | src/StatementBruteForce.Core/SouthAfricanIdentityNumberUtil.cs:233-242 | with the year unmasked and reached by the clock, the parsed seed's year is 19YY and its `YearOfBirth` is the number's first two characters |
| Completeness.MaskedMonthAndDay | src/StatementBruteForce.Core/SouthAfricanIdentityNumberUtil.cs:244-264 | a month or day the parser keeps from a masked valid number is the number's own |
| Completeness.MaskedDigitField | src/StatementBruteForce.Core/SouthAfricanIdentityNumberUtil.cs:270-276 | a one-character field is unknown when masked and the number's digit otherwise |
| Completeness.MaskedCitizenship | src/StatementBruteForce.Core/SouthAfricanIdentityNumberUtil.cs:274 | citizenship is unknown when masked, and otherwise SA for '0' and Other for '1' |
| Completeness.DateAndGenderInRange | src/StatementBruteForce.Core/SouthAfricanIdentityNumberUtil.cs:100-143 | the number's month, day and gender digit lie in the ranges the month, day and gender loops take for the parsed seed |
| Completeness.SequenceInRange | src/StatementBruteForce.Core/SouthAfricanIdentityNumberUtil.cs:145-164 | the number's sequence lies in the range the sequence loop takes for the parsed seed |
| Completeness.CitizenshipAndObsoleteInRange | src/StatementBruteForce.Core/SouthAfricanIdentityNumberUtil.cs:166-192 | the number's citizenship and obsolete digits lie in the ranges their loops take for the parsed seed |
| Completeness.MaskedCountersVisited | src/StatementBruteForce.Core/SouthAfricanIdentityNumberUtil.cs:100-192 | the counters read back from the original number are visited by the loops run on the parsed seed |
| Completeness.NumberIsItsOwnCandidate | src/StatementBruteForce.Core/SouthAfricanIdentityNumberUtil.cs:194-203 | a valid thirteen-digit number that starts with the seed's year is the candidate of its own counters when the seed's check digit is unknown or equal to its own |
| Completeness.MaskedNumberIsGenerated | tests/StatementBruteForce.Core.Tests/IdentityNumberTests.cs:113-122 | masking any characters after the year of a valid number, parsing and generating lists the original number, given the conditions the loops need |
| Completeness.PermutationCase6004090561081 | tests/StatementBruteForce.Core.Tests/IdentityNumberTests.cs:95 | 6004090561081 with positions 6 to 9 masked is generated again from the parsed seed, whenever the clock is at 1960 or later |

## Left out

- The rest of the repository is not part of this model: `BruteForceUtil.cs` (which tries the generated numbers against a statement) and `Program.cs` (the console application).
- The clock: the model constructor reads `DateTime.UtcNow.Year`. It is the parameter `currentYear` instead. `DateTime` represents the years 1..9999; the model assumes the clock is not before 1900, so clock years 1..1899 are left out. The upper bound 9999 is the largest year `DateTime` represents.
- Unicode: `char.IsDigit` and `GetDigitValue` are restricted to the ASCII digits. Other Unicode decimal digits are not modelled. `char.IsWhiteSpace` is modelled on its full list.
- Characters outside the Basic Multilingual Plane: a Dafny string is a sequence of Unicode scalar values, so such a character is one position in the model, while a C# string holds it as two UTF-16 surrogate code units. The checksum loop, the digit count and the parser's `ToCharArray()` positions therefore differ from the code's for a string containing one. The code gives each surrogate a term of its own. For example, the model accepts "650207538708\u{1F600}5" while the code accepts "650207538708\u{1F600}8". The completeness theorem is stated only for a mask character below U+10000.
- Text.DigitValue: .NET's `GetDigitValue` also gives a value to characters that are not decimal digits, such as superscripts ('²' is 2) and circled digits ('⑨' is 9). The model gives every non-ASCII character -1. `char.IsDigit` rejects these characters, so they do not change the digit count. They do change the checksum term, so for a string containing one the model's checksum and the validator's verdict can differ from the code's. For example, the code accepts "650207538708²1", and the model accepts "650207538708²5" instead.
- Validator.BirthDateParses: `DateTime.TryParse` with `AllowWhiteSpaces` is reduced to "the first six characters are ASCII digits and 19YY-MM-DD is a real Gregorian date". The parser's other leniencies, such as blanks, signs or other separators inside the date text, are not modelled.
- The validator does not check the string's length, only its digit count. A string of 13 digits plus other characters can be accepted (`Validator.AcceptsNonDigitCharacter`). This is modelled as the code does it.
- Text.ToInt32: `Convert.ToInt32` is modelled only for an optional sign followed by ASCII digits. Surrounding white space and Int32 overflow are not modelled. The model only applies it to text produced by `ToString`.
- Int32 overflow in the checksum total and the loop counters is not modelled, because integers are unbounded. For a section of identity-number length the total is at most 9 per character, far below 2^31.
- C# `null` strings are not modelled: a Dafny string is never null.
- The generator's `List<string>` is modelled as a sequence value that each loop method receives and returns with the new numbers appended. Aliasing of the list is not modelled.
- IdentityNumberModel.SouthAfricanIdentityNumberModel.YearOfBirth requires a year of at least 1000. The C# getter would throw for a shorter year text, but the constructor never keeps a year below 1900.
- GeneratorProperties.NoDuplicateNumbers, GeneratorProperties.ListInLoopOrder and GeneratorProperties.GeneratedNumberCarriesSeed are proved only for seeds whose known one-character fields are single digits (`HasDigitFields`). Every seed the parser builds has this property. A hand-built seed with, say, a gender digit of 12 is not covered.
- Completeness.MaskedNumberIsGenerated needs these conditions:
  - the year is unmasked and reached by the clock;
  - the mask character is not a digit, and is one UTF-16 code unit (below U+10000);
  - the citizenship digit is 0 or 1, because the generator tries only those;
  - a masked obsolete digit is 8 or 9;
  - a gender hint agrees with a masked gender digit.

  Each condition reflects a limit of the code. For example, a citizenship digit of 2 parses as Other, and the citizenship loop then writes only 1.
- Only some rows of the test tables are stated as lemmas: five checksum rows, two validation rows, two gender rows and one masking row.
