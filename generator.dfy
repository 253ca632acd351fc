/**
 * GenerateValidIdentityNumbers: six nested loops over month, day, gender digit, three-digit
 * sequence, citizenship digit and obsolete digit. Each loop runs over a range taken from the
 * seed (a known field pins it to one value); the body formats a twelve-character section,
 * appends the seed's checksum digit or the computed one, and keeps the number if the validator
 * accepts it.
 *
 * The specification names the loop counters fixed so far, outermost first, as a sequence p:
 * CandidatesUnder(p) is what the loops inside p add to the list, and CandidatesBetween(p, lo, hi)
 * is what the loop at level |p| adds while its counter runs from lo to hi.
 */
module Generator {
  import opened Results
  import opened Text
  import opened Calendar
  import opened Checksum
  import opened Validator
  import opened IdentityNumberModel

  /** The number of nested loops. */
  const Levels := 6

  function KnownOr(field: Option<int>, default: int): int {
    if field.Some? then field.value else default
  }

  /**
   * The last day of month m in the seed's four-digit year (DateTime.DaysInMonth). The months
   * the loop visits are always in 1..12; the other case only makes the function total.
   */
  function DayEnd(seed: SouthAfricanIdentityNumberModel, m: int): int {
    if 1 <= m <= 12 then DaysInMonth(seed.year, m) else 0
  }

  /** The first sequence number: the known sequence digits, each at its own decimal place. */
  function SequenceStart(seed: SouthAfricanIdentityNumberModel): int {
    KnownOr(seed.genderSequence1, 0) * 100 + KnownOr(seed.genderSequence2, 0) * 10 + KnownOr(seed.genderSequence3, 0)
  }

  /** The last sequence number: only the first sequence digit narrows it. */
  function SequenceEnd(seed: SouthAfricanIdentityNumberModel): int {
    if seed.genderSequence1.Some? then seed.genderSequence1.value * 100 + 99 else 999
  }

  /** The first value of the loop at level |p|, once the outer counters p are fixed. */
  function LevelStart(seed: SouthAfricanIdentityNumberModel, hint: Option<GenderType>, p: seq<int>): int
    requires |p| < Levels
  {
    if |p| == 0 then KnownOr(seed.monthOfBirth, 1)
    else if |p| == 1 then KnownOr(seed.dayOfBirth, 1)
    else if |p| == 2 then KnownOr(seed.genderDigit, if hint == Some(Male) then 5 else 0)
    else if |p| == 3 then SequenceStart(seed)
    else if |p| == 4 then (if seed.citizenship == Some(Other) then Other.Value() else 0)
    else KnownOr(seed.obsoleteDigit, 8)
  }

  /** The last value of the loop at level |p|. */
  function LevelEnd(seed: SouthAfricanIdentityNumberModel, hint: Option<GenderType>, p: seq<int>): int
    requires |p| < Levels
  {
    if |p| == 0 then KnownOr(seed.monthOfBirth, 12)
    else if |p| == 1 then KnownOr(seed.dayOfBirth, DayEnd(seed, p[0]))
    else if |p| == 2 then KnownOr(seed.genderDigit, if hint == Some(Female) then 4 else 9)
    else if |p| == 3 then SequenceEnd(seed)
    else if |p| == 4 then (if seed.citizenship == Some(SA) then SA.Value() else 1)
    else KnownOr(seed.obsoleteDigit, 9)
  }

  /**
   * The twelve-character section for the counters t = [m, d, g, s, c, o]: the seed's two-digit
   * year, then m and d on two digits, g, s on three digits, c and o. (The format "D2" applied
   * to the YearOfBirth string has no effect: it is already text.)
   */
  function NumberSection(seed: SouthAfricanIdentityNumberModel, t: seq<int>): (r: string)
    requires seed.Valid() && |t| == Levels
    ensures |r| >= 12 && r[..2] == seed.YearOfBirth()
  {
    seed.YearOfBirth() + FormatD(t[0], 2) + FormatD(t[1], 2) + IntToString(t[2]) + FormatD(t[3], 3)
      + IntToString(t[4]) + IntToString(t[5])
  }

  /** The candidate: the section followed by the seed's checksum digit, or else the computed one. */
  function Candidate(seed: SouthAfricanIdentityNumberModel, t: seq<int>): (r: string)
    requires seed.Valid() && |t| == Levels
    ensures |r| > |NumberSection(seed, t)| && r[..|NumberSection(seed, t)|] == NumberSection(seed, t)
  {
    var section := NumberSection(seed, t);
    section + (if seed.ChecksumDigit() != "" then seed.ChecksumDigit() else IntToString(LuhnChecksum(section)))
  }

  /** What the innermost loop body adds to the list. */
  function Emitted(seed: SouthAfricanIdentityNumberModel, t: seq<int>): seq<string>
    requires seed.Valid() && |t| == Levels
  {
    var x := Candidate(seed, t);
    if IsValidSouthAfricanIdentityNumber(x) then [x] else []
  }

  function CandidatesUnder(seed: SouthAfricanIdentityNumberModel, hint: Option<GenderType>, p: seq<int>): seq<string>
    requires seed.Valid() && |p| <= Levels
    decreases Levels - |p|, 1, 0
  {
    if |p| == Levels then Emitted(seed, p)
    else CandidatesBetween(seed, hint, p, LevelStart(seed, hint, p), LevelEnd(seed, hint, p))
  }

  function CandidatesBetween(seed: SouthAfricanIdentityNumberModel, hint: Option<GenderType>, p: seq<int>, lo: int, hi: int): seq<string>
    requires seed.Valid() && |p| < Levels
    decreases Levels - |p|, 0, if hi < lo then 0 else hi - lo + 1
  {
    if hi < lo then []
    else CandidatesBetween(seed, hint, p, lo, hi - 1) + CandidatesUnder(seed, hint, p + [hi])
  }

  /** The list GenerateValidIdentityNumbers returns. */
  function ValidIdentityNumbers(seed: SouthAfricanIdentityNumberModel, hint: Option<GenderType>): seq<string>
    requires seed.Valid()
  {
    CandidatesUnder(seed, hint, [])
  }

  /**
   * A field read through its text view: known when the text is not empty (string.IsNullOrEmpty),
   * and then its value is Convert.ToInt32 of the text. The field the text shows is a ghost
   * parameter, so that the result can be stated in terms of the field.
   */
  method ReadField(text: string, ghost field: Option<int>) returns (known: bool, value: int)
    requires text == OptionalText(field)
    ensures known <==> text != ""
    ensures known == field.Some? && (known ==> value == field.value)
  {
    OptionalTextRoundTrip(field);
    known := text != "";
    value := 0;
    if known {
      value := ToInt32(text).value;
    }
  }

  /**
   * The method is split at each loop: the body of every loop is the method for the next loop
   * in, which appends to the list what the C# code adds with list.Add while that body runs.
   */
  method GenerateValidIdentityNumbers(seed: SouthAfricanIdentityNumberModel, genderType: Option<GenderType>)
    returns (list: seq<string>)
    requires seed.Valid()
    ensures list == ValidIdentityNumbers(seed, genderType)
    ensures forall x :: x in list ==> IsValidSouthAfricanIdentityNumber(x)
  {
    list := [];
    var startMonth, endMonth := 1, 12;
    var monthKnown, month := ReadField(seed.MonthOfBirth(), seed.monthOfBirth);
    if monthKnown {
      startMonth, endMonth := month, month;
    }
    var m := startMonth;
    while m <= endMonth
      invariant 1 <= startMonth && endMonth <= 12
      invariant m == startMonth || startMonth < m <= endMonth + 1
      invariant list == CandidatesBetween(seed, genderType, [], startMonth, m - 1)
      decreases endMonth - m
    {
      var before := list;
      list := DayLoop(seed, genderType, m, list);
      assert [] + [m] == [m];
      SingleTurn(seed, genderType, [], m);
      m := m + 1;
      TurnAppends(seed, genderType, [], startMonth, m - 1, [], before, list);
    }
    LoopExit(seed, genderType, [], startMonth, endMonth, m);
    UnderIsBetween(seed, genderType, []);
    assert startMonth == LevelStart(seed, genderType, []) && endMonth == LevelEnd(seed, genderType, []);
    CandidatesAreValid(seed, genderType, []);
  }

  method DayLoop(seed: SouthAfricanIdentityNumberModel, genderType: Option<GenderType>, m: int, list: seq<string>)
    returns (result: seq<string>)
    requires seed.Valid() && 1 <= m <= 12
    ensures result == list + CandidatesUnder(seed, genderType, [m])
  {
    result := list;
    var startDay := 1;
    var endDay := DaysInMonth(seed.year, m);
    var dayKnown, day := ReadField(seed.DayOfBirth(), seed.dayOfBirth);
    if dayKnown {
      startDay, endDay := day, day;
    }
    var d := startDay;
    while d <= endDay
      invariant d == startDay || startDay < d <= endDay + 1
      invariant result == list + CandidatesBetween(seed, genderType, [m], startDay, d - 1)
      decreases endDay - d
    {
      var before := result;
      result := GenderLoop(seed, genderType, m, d, result);
      assert [m] + [d] == [m, d];
      SingleTurn(seed, genderType, [m], d);
      d := d + 1;
      TurnAppends(seed, genderType, [m], startDay, d - 1, list, before, result);
    }
    LoopExit(seed, genderType, [m], startDay, endDay, d);
    UnderIsBetween(seed, genderType, [m]);
    assert startDay == LevelStart(seed, genderType, [m]) && endDay == LevelEnd(seed, genderType, [m]);
  }

  method GenderLoop(seed: SouthAfricanIdentityNumberModel, genderType: Option<GenderType>, m: int, d: int, list: seq<string>)
    returns (result: seq<string>)
    requires seed.Valid()
    ensures result == list + CandidatesUnder(seed, genderType, [m, d])
  {
    result := list;
    var startGender, endGender := 0, 9;
    if genderType.Some? {
      if genderType.value == Male {
        startGender := 5;
      } else {
        endGender := 4;
      }
    }
    var genderKnown, gender := ReadField(seed.GenderDigit(), seed.genderDigit);
    if genderKnown {
      startGender, endGender := gender, gender;
    }
    var g := startGender;
    while g <= endGender
      invariant g == startGender || startGender < g <= endGender + 1
      invariant result == list + CandidatesBetween(seed, genderType, [m, d], startGender, g - 1)
      decreases endGender - g
    {
      var before := result;
      result := SequenceLoop(seed, genderType, m, d, g, result);
      assert [m, d] + [g] == [m, d, g];
      SingleTurn(seed, genderType, [m, d], g);
      g := g + 1;
      TurnAppends(seed, genderType, [m, d], startGender, g - 1, list, before, result);
    }
    LoopExit(seed, genderType, [m, d], startGender, endGender, g);
    UnderIsBetween(seed, genderType, [m, d]);
    assert startGender == LevelStart(seed, genderType, [m, d]) && endGender == LevelEnd(seed, genderType, [m, d]);
  }

  method SequenceLoop(seed: SouthAfricanIdentityNumberModel, genderType: Option<GenderType>, m: int, d: int, g: int, list: seq<string>)
    returns (result: seq<string>)
    requires seed.Valid()
    ensures result == list + CandidatesUnder(seed, genderType, [m, d, g])
  {
    result := list;
    var startSequence, endSequence := 0, 999;
    var known1, digit1 := ReadField(seed.GenderSequenceDigit1(), seed.genderSequence1);
    if known1 {
      startSequence := startSequence + digit1 * 100;
      endSequence := startSequence + 99;
    }
    var known2, digit2 := ReadField(seed.GenderSequenceDigit2(), seed.genderSequence2);
    if known2 {
      startSequence := startSequence + digit2 * 10;
    }
    var known3, digit3 := ReadField(seed.GenderSequenceDigit3(), seed.genderSequence3);
    if known3 {
      startSequence := startSequence + digit3;
    }
    var s := startSequence;
    while s <= endSequence
      invariant s == startSequence || startSequence < s <= endSequence + 1
      invariant result == list + CandidatesBetween(seed, genderType, [m, d, g], startSequence, s - 1)
      decreases endSequence - s
    {
      var before := result;
      result := CitizenshipLoop(seed, genderType, m, d, g, s, result);
      assert [m, d, g] + [s] == [m, d, g, s];
      SingleTurn(seed, genderType, [m, d, g], s);
      s := s + 1;
      TurnAppends(seed, genderType, [m, d, g], startSequence, s - 1, list, before, result);
    }
    LoopExit(seed, genderType, [m, d, g], startSequence, endSequence, s);
    UnderIsBetween(seed, genderType, [m, d, g]);
    assert startSequence == LevelStart(seed, genderType, [m, d, g]) && endSequence == LevelEnd(seed, genderType, [m, d, g]);
  }

  method CitizenshipLoop(seed: SouthAfricanIdentityNumberModel, genderType: Option<GenderType>, m: int, d: int, g: int, s: int, list: seq<string>)
    returns (result: seq<string>)
    requires seed.Valid()
    ensures result == list + CandidatesUnder(seed, genderType, [m, d, g, s])
  {
    result := list;
    var startCitizenship, endCitizenship := 0, 1;
    if seed.citizenship.Some? {
      if seed.citizenship.value == SA {
        endCitizenship := SA.Value();
      } else {
        startCitizenship := Other.Value();
      }
    }
    var c := startCitizenship;
    while c <= endCitizenship
      invariant c == startCitizenship || startCitizenship < c <= endCitizenship + 1
      invariant result == list + CandidatesBetween(seed, genderType, [m, d, g, s], startCitizenship, c - 1)
      decreases endCitizenship - c
    {
      var before := result;
      result := ObsoleteLoop(seed, genderType, [m, d, g, s, c], result);
      assert [m, d, g, s] + [c] == [m, d, g, s, c];
      SingleTurn(seed, genderType, [m, d, g, s], c);
      c := c + 1;
      TurnAppends(seed, genderType, [m, d, g, s], startCitizenship, c - 1, list, before, result);
    }
    LoopExit(seed, genderType, [m, d, g, s], startCitizenship, endCitizenship, c);
    UnderIsBetween(seed, genderType, [m, d, g, s]);
    assert startCitizenship == LevelStart(seed, genderType, [m, d, g, s]) && endCitizenship == LevelEnd(seed, genderType, [m, d, g, s]);
  }

  /** The counters of the outer loops arrive as p = [m, d, g, s, c]. */
  method ObsoleteLoop(seed: SouthAfricanIdentityNumberModel, genderType: Option<GenderType>, p: seq<int>, list: seq<string>)
    returns (result: seq<string>)
    requires seed.Valid() && |p| == Levels - 1
    ensures result == list + CandidatesUnder(seed, genderType, p)
  {
    result := list;
    var startObsolete, endObsolete := 8, 9;
    var obsoleteKnown, obsolete := ReadField(seed.ObsoleteDigit(), seed.obsoleteDigit);
    if obsoleteKnown {
      startObsolete, endObsolete := obsolete, obsolete;
    }
    var o := startObsolete;
    while o <= endObsolete
      invariant o == startObsolete || startObsolete < o <= endObsolete + 1
      invariant result == list + CandidatesBetween(seed, genderType, p, startObsolete, o - 1)
      decreases endObsolete - o
    {
      var before := result;
      result := AddIfValid(seed, genderType, p, o, result);
      o := o + 1;
      TurnAppends(seed, genderType, p, startObsolete, o - 1, list, before, result);
    }
    LoopExit(seed, genderType, p, startObsolete, endObsolete, o);
    UnderIsBetween(seed, genderType, p);
    assert startObsolete == LevelStart(seed, genderType, p) && endObsolete == LevelEnd(seed, genderType, p);
  }

  /** The innermost loop body: format the number, complete it with a check digit, validate it. */
  method AddIfValid(seed: SouthAfricanIdentityNumberModel, genderType: Option<GenderType>, p: seq<int>, o: int, list: seq<string>)
    returns (result: seq<string>)
    requires seed.Valid() && |p| == Levels - 1
    ensures result == list + CandidatesBetween(seed, genderType, p, o, o)
  {
    var t := p + [o];
    SingleTurn(seed, genderType, p, o);
    var numberSection := NumberSection(seed, t);
    if seed.ChecksumDigit() != "" {
      numberSection := numberSection + seed.ChecksumDigit();
    } else {
      SectionIsNotBlank(seed, t);
      var checksum := CalculateLuhnChecksumDigit(numberSection);
      numberSection := numberSection + IntToString(checksum.value);
    }
    result := list;
    if IsValidSouthAfricanIdentityNumber(numberSection) {
      result := result + [numberSection];
    }
  }

  /** A loop that runs for one value v adds what the loops under v add. */
  lemma SingleTurn(seed: SouthAfricanIdentityNumberModel, hint: Option<GenderType>, p: seq<int>, v: int)
    requires seed.Valid() && |p| < Levels
    ensures CandidatesBetween(seed, hint, p, v, v) == CandidatesUnder(seed, hint, p + [v])
  {
  }

  /** The turns of a loop from lo to v are the turns up to v - 1, then the turn for v. */
  lemma BetweenSplit(seed: SouthAfricanIdentityNumberModel, hint: Option<GenderType>, p: seq<int>, lo: int, v: int)
    requires seed.Valid() && |p| < Levels && lo <= v
    ensures CandidatesBetween(seed, hint, p, lo, v)
      == CandidatesBetween(seed, hint, p, lo, v - 1) + CandidatesBetween(seed, hint, p, v, v)
  {
    SingleTurn(seed, hint, p, v);
  }

  /** A list holding the turns up to v - 1, extended by the turn for v, holds the turns up to v. */
  lemma TurnAppends(seed: SouthAfricanIdentityNumberModel, hint: Option<GenderType>, p: seq<int>, lo: int, v: int,
                    list: seq<string>, before: seq<string>, after: seq<string>)
    requires seed.Valid() && |p| < Levels && lo <= v
    requires before == list + CandidatesBetween(seed, hint, p, lo, v - 1)
    requires after == before + CandidatesBetween(seed, hint, p, v, v)
    ensures after == list + CandidatesBetween(seed, hint, p, lo, v)
  {
    BetweenSplit(seed, hint, p, lo, v);
    AppendAssociates(list, CandidatesBetween(seed, hint, p, lo, v - 1), CandidatesBetween(seed, hint, p, v, v));
  }

  lemma AppendAssociates(a: seq<string>, b: seq<string>, c: seq<string>)
    ensures (a + b) + c == a + (b + c)
  {
  }

  /**
   * When a loop from lo to hi stops at v (v > hi, and v is lo or a value past lo up to hi + 1),
   * it has taken every turn from lo to hi.
   */
  lemma LoopExit(seed: SouthAfricanIdentityNumberModel, hint: Option<GenderType>, p: seq<int>, lo: int, hi: int, v: int)
    requires seed.Valid() && |p| < Levels
    requires (v == lo || lo < v <= hi + 1) && v > hi
    ensures CandidatesBetween(seed, hint, p, lo, v - 1) == CandidatesBetween(seed, hint, p, lo, hi)
  {
    if lo <= hi {
      assert v - 1 == hi;
    }
  }

  /** Above the innermost level, the loops under p are the loop at level |p| over its range. */
  lemma UnderIsBetween(seed: SouthAfricanIdentityNumberModel, hint: Option<GenderType>, p: seq<int>)
    requires seed.Valid() && |p| < Levels
    ensures CandidatesUnder(seed, hint, p)
      == CandidatesBetween(seed, hint, p, LevelStart(seed, hint, p), LevelEnd(seed, hint, p))
  {
  }

  /** The section starts with the year's digits, so it is never blank. */
  lemma SectionIsNotBlank(seed: SouthAfricanIdentityNumberModel, t: seq<int>)
    requires seed.Valid() && |t| == Levels
    ensures !IsNullOrWhiteSpace(NumberSection(seed, t))
  {
    YearOfBirthIsLastTwoDigits(seed);
    DigitIsNotBlank(NumberSection(seed, t), 0);
  }

  /** Every number the loops under p add passes the validator. */
  lemma {:induction false} CandidatesAreValid(seed: SouthAfricanIdentityNumberModel, hint: Option<GenderType>, p: seq<int>)
    requires seed.Valid() && |p| <= Levels
    ensures forall x :: x in CandidatesUnder(seed, hint, p) ==> IsValidSouthAfricanIdentityNumber(x)
    decreases Levels - |p|, 1, 0
  {
    if |p| < Levels {
      CandidatesBetweenAreValid(seed, hint, p, LevelStart(seed, hint, p), LevelEnd(seed, hint, p));
    }
  }

  lemma {:induction false} CandidatesBetweenAreValid(seed: SouthAfricanIdentityNumberModel, hint: Option<GenderType>, p: seq<int>, lo: int, hi: int)
    requires seed.Valid() && |p| < Levels
    ensures forall x :: x in CandidatesBetween(seed, hint, p, lo, hi) ==> IsValidSouthAfricanIdentityNumber(x)
    decreases Levels - |p|, 0, if hi < lo then 0 else hi - lo + 1
  {
    if lo <= hi {
      CandidatesBetweenAreValid(seed, hint, p, lo, hi - 1);
      CandidatesAreValid(seed, hint, p + [hi]);
    }
  }
}
