/**
 * What GenerateValidIdentityNumbers returns, stated without the loops: exactly the valid
 * candidates of the counters the loops visit, none twice, each carrying what the seed knows.
 */
module GeneratorProperties {
  import opened Results
  import opened Text
  import opened Calendar
  import opened Checksum
  import opened Validator
  import opened IdentityNumberModel
  import opened Generator
  import opened SectionLayout

  /** Counter k of t lies in the range the loop at level k takes from the counters before it. */
  predicate InLevelRange(seed: SouthAfricanIdentityNumberModel, hint: Option<GenderType>, t: seq<int>, k: int)
    requires seed.Valid() && 0 <= k < |t| && k < Levels
  {
    LevelStart(seed, hint, t[..k]) <= t[k] <= LevelEnd(seed, hint, t[..k])
  }

  /** Starting from the counters p, the loops inside them reach the full counters t. */
  predicate Reaches(seed: SouthAfricanIdentityNumberModel, hint: Option<GenderType>, p: seq<int>, t: seq<int>)
    requires seed.Valid()
  {
    && |p| <= |t| == Levels
    && t[..|p|] == p
    && forall k :: |p| <= k < Levels ==> InLevelRange(seed, hint, t, k)
  }

  /** The counters t are a turn of the innermost loop. */
  predicate Visited(seed: SouthAfricanIdentityNumberModel, hint: Option<GenderType>, t: seq<int>)
    requires seed.Valid()
  {
    Reaches(seed, hint, [], t)
  }

  /** Every number the loops inside p add comes from counters they reach. */
  lemma {:induction false} UnderSound(seed: SouthAfricanIdentityNumberModel, hint: Option<GenderType>, p: seq<int>, x: string)
    returns (t: seq<int>)
    requires seed.Valid() && |p| <= Levels && x in CandidatesUnder(seed, hint, p)
    ensures Reaches(seed, hint, p, t) && x in Emitted(seed, t)
    decreases Levels - |p|, 1, 0
  {
    if |p| == Levels {
      t := p;
      assert t[..|p|] == p;
    } else {
      t := BetweenSound(seed, hint, p, LevelStart(seed, hint, p), LevelEnd(seed, hint, p), x);
      assert InLevelRange(seed, hint, t, |p|);
    }
  }

  lemma {:induction false} BetweenSound(seed: SouthAfricanIdentityNumberModel, hint: Option<GenderType>, p: seq<int>, lo: int, hi: int, x: string)
    returns (t: seq<int>)
    requires seed.Valid() && |p| < Levels && x in CandidatesBetween(seed, hint, p, lo, hi)
    ensures |t| == Levels && t[..|p|] == p && lo <= t[|p|] <= hi
    ensures forall k :: |p| < k < Levels ==> InLevelRange(seed, hint, t, k)
    ensures x in Emitted(seed, t)
    decreases Levels - |p|, 0, if hi < lo then 0 else hi - lo + 1
  {
    LastTurnOrEarlier(seed, hint, p, lo, hi, x);
    if x in CandidatesBetween(seed, hint, p, lo, hi - 1) {
      t := BetweenSound(seed, hint, p, lo, hi - 1, x);
    } else {
      t := UnderSound(seed, hint, p + [hi], x);
      ReachesFromTurn(seed, hint, p, hi, t);
    }
  }

  /** A number one loop level lists over lo..hi comes from its last turn or from the turns before it. */
  lemma LastTurnOrEarlier(seed: SouthAfricanIdentityNumberModel, hint: Option<GenderType>, p: seq<int>, lo: int, hi: int, x: string)
    requires seed.Valid() && |p| < Levels && x in CandidatesBetween(seed, hint, p, lo, hi)
    ensures lo <= hi
    ensures x in CandidatesBetween(seed, hint, p, lo, hi - 1) || x in CandidatesUnder(seed, hint, p + [hi])
  {
  }

  /** Counters reached from p + [v] have p as their prefix and v at level |p|. */
  lemma ReachesFromTurn(seed: SouthAfricanIdentityNumberModel, hint: Option<GenderType>, p: seq<int>, v: int, t: seq<int>)
    requires seed.Valid() && |p| < Levels && Reaches(seed, hint, p + [v], t)
    ensures |t| == Levels && t[..|p|] == p && t[|p|] == v
    ensures forall k :: |p| < k < Levels ==> InLevelRange(seed, hint, t, k)
  {
    var q := p + [v];
    assert t[..|p|] == t[..|q|][..|p|];
    assert t[|p|] == t[..|q|][|p|];
  }

  /** The loops inside p add the candidate of every counters they reach, if it is valid. */
  lemma {:induction false} UnderComplete(seed: SouthAfricanIdentityNumberModel, hint: Option<GenderType>, p: seq<int>, t: seq<int>)
    requires seed.Valid() && Reaches(seed, hint, p, t)
    ensures forall x :: x in Emitted(seed, t) ==> x in CandidatesUnder(seed, hint, p)
    decreases Levels - |p|, 1, 0
  {
    if |p| == Levels {
      assert t == t[..|p|];
    } else {
      assert InLevelRange(seed, hint, t, |p|);
      BetweenComplete(seed, hint, p, LevelStart(seed, hint, p), LevelEnd(seed, hint, p), t);
    }
  }

  lemma {:induction false} BetweenComplete(seed: SouthAfricanIdentityNumberModel, hint: Option<GenderType>, p: seq<int>, lo: int, hi: int, t: seq<int>)
    requires seed.Valid() && |p| < Levels && |t| == Levels && t[..|p|] == p && lo <= t[|p|] <= hi
    requires forall k :: |p| < k < Levels ==> InLevelRange(seed, hint, t, k)
    ensures forall x :: x in Emitted(seed, t) ==> x in CandidatesBetween(seed, hint, p, lo, hi)
    decreases Levels - |p|, 0, hi - lo
  {
    if t[|p|] < hi {
      BetweenComplete(seed, hint, p, lo, hi - 1, t);
    } else {
      var q := p + [hi];
      assert t[..|q|] == q;
      UnderComplete(seed, hint, q, t);
    }
  }

  /**
   * The generator's list holds exactly the candidates of the visited counters that the
   * validator accepts.
   */
  lemma Membership(seed: SouthAfricanIdentityNumberModel, hint: Option<GenderType>, x: string)
    requires seed.Valid()
    ensures x in ValidIdentityNumbers(seed, hint) <==>
      exists t :: Visited(seed, hint, t) && x == Candidate(seed, t) && IsValidSouthAfricanIdentityNumber(x)
  {
    if x in ValidIdentityNumbers(seed, hint) {
      var t := UnderSound(seed, hint, [], x);
      assert Visited(seed, hint, t) && x == Candidate(seed, t) && IsValidSouthAfricanIdentityNumber(x);
    } else {
      forall t | Visited(seed, hint, t) && x == Candidate(seed, t)
        ensures !IsValidSouthAfricanIdentityNumber(x)
      {
        UnderComplete(seed, hint, [], t);
      }
    }
  }

  /** The counters p so far lie in the ranges of their own loops. */
  predicate PrefixInRange(seed: SouthAfricanIdentityNumberModel, hint: Option<GenderType>, p: seq<int>)
    requires seed.Valid() && |p| <= Levels
  {
    forall k :: 0 <= k < |p| ==> InLevelRange(seed, hint, p, k)
  }

  lemma ReachedIsVisited(seed: SouthAfricanIdentityNumberModel, hint: Option<GenderType>, p: seq<int>, t: seq<int>)
    requires seed.Valid() && |p| <= Levels && PrefixInRange(seed, hint, p) && Reaches(seed, hint, p, t)
    ensures Visited(seed, hint, t)
  {
    forall k | 0 <= k < |p|
      ensures InLevelRange(seed, hint, t, k)
    {
      assert t[..k] == p[..k] && t[k] == p[k];
      assert InLevelRange(seed, hint, p, k);
    }
  }

  /**
   * With one-digit fields in the seed, every visited counter fits the width it is written in:
   * months 1..12, days 1..31, the gender, citizenship and obsolete digits 0..9 and the sequence
   * number 0..999.
   */
  lemma VisitedCountersFit(seed: SouthAfricanIdentityNumberModel, hint: Option<GenderType>, t: seq<int>)
    requires seed.Valid() && seed.HasDigitFields() && Visited(seed, hint, t)
    ensures CountersFit(t)
  {
    assert InLevelRange(seed, hint, t, 0) && |t[..0]| == 0;
    assert InLevelRange(seed, hint, t, 1) && |t[..1]| == 1 && t[..1][0] == t[0];
    assert InLevelRange(seed, hint, t, 2) && |t[..2]| == 2;
    assert InLevelRange(seed, hint, t, 3) && |t[..3]| == 3;
    assert InLevelRange(seed, hint, t, 4) && |t[..4]| == 4;
    assert InLevelRange(seed, hint, t, 5) && |t[..5]| == 5;
  }

  predicate Distinct(list: seq<string>) {
    forall i, j :: 0 <= i < j < |list| ==> list[i] != list[j]
  }

  /**
   * Counters a come before counters b in the order of the nested loops: they agree on the outer
   * counters down to some level, and a's counter there is smaller.
   */
  predicate CountersBefore(a: seq<int>, b: seq<int>) {
    exists k :: 0 <= k < |a| && k < |b| && a[..k] == b[..k] && a[k] < b[k]
  }

  /** x is listed before y: both have counters, and x's come first. */
  predicate ListedBefore(x: string, y: string) {
    |x| >= 12 && |y| >= 12 && CountersBefore(Counters(x), Counters(y))
  }

  /** Every element of the list stands in the relation `before` to every element after it. */
  predicate Ordered<T>(list: seq<T>, before: (T, T) -> bool) {
    forall i, j :: 0 <= i < j < |list| ==> before(list[i], list[j])
  }

  /** Every listed number comes from counters before those of every number listed after it. */
  predicate InLoopOrder(list: seq<string>) {
    Ordered(list, ListedBefore)
  }

  lemma OrderedConcat<T>(a: seq<T>, b: seq<T>, before: (T, T) -> bool)
    requires Ordered(a, before) && Ordered(b, before)
    requires forall x, y :: x in a && y in b ==> before(x, y)
    ensures Ordered(a + b, before)
  {
    forall i, j | 0 <= i < j < |a + b|
      ensures before((a + b)[i], (a + b)[j])
    {
      if j < |a| {
        assert (a + b)[i] == a[i] && (a + b)[j] == a[j];
      } else if i >= |a| {
        assert (a + b)[i] == b[i - |a|] && (a + b)[j] == b[j - |a|];
      } else {
        assert (a + b)[i] == a[i] && (a + b)[j] == b[j - |a|];
        assert a[i] in a && b[j - |a|] in b;
      }
    }
  }

  /** The candidate of visited counters reads back as those counters. */
  lemma VisitedCandidateCounters(seed: SouthAfricanIdentityNumberModel, hint: Option<GenderType>, t: seq<int>, x: string)
    requires seed.Valid() && seed.HasDigitFields() && Visited(seed, hint, t) && x in Emitted(seed, t)
    ensures |x| >= 12 && Counters(x) == t
  {
    VisitedCountersFit(seed, hint, t);
    CandidateLayout(seed, t);
  }

  /** The loops below an in-range prefix list their numbers in the order of their counters. */
  lemma {:induction false} UnderInLoopOrder(seed: SouthAfricanIdentityNumberModel, hint: Option<GenderType>, p: seq<int>)
    requires seed.Valid() && seed.HasDigitFields() && |p| <= Levels && PrefixInRange(seed, hint, p)
    ensures InLoopOrder(CandidatesUnder(seed, hint, p))
    decreases Levels - |p|, 1, 0
  {
    if |p| < Levels {
      BetweenInLoopOrder(seed, hint, p, LevelStart(seed, hint, p), LevelEnd(seed, hint, p));
    } else {
      CandidateLength(seed, p);
    }
  }

  lemma {:induction false} BetweenInLoopOrder(seed: SouthAfricanIdentityNumberModel, hint: Option<GenderType>, p: seq<int>, lo: int, hi: int)
    requires seed.Valid() && seed.HasDigitFields() && |p| < Levels && PrefixInRange(seed, hint, p)
    requires LevelStart(seed, hint, p) <= lo && hi <= LevelEnd(seed, hint, p)
    ensures InLoopOrder(CandidatesBetween(seed, hint, p, lo, hi))
    decreases Levels - |p|, 0, if hi < lo then 0 else hi - lo + 1
  {
    if lo <= hi {
      var q := p + [hi];
      BetweenInLoopOrder(seed, hint, p, lo, hi - 1);
      PrefixExtends(seed, hint, p, hi);
      UnderInLoopOrder(seed, hint, q);
      forall x, y | x in CandidatesBetween(seed, hint, p, lo, hi - 1) && y in CandidatesUnder(seed, hint, q)
        ensures ListedBefore(x, y)
      {
        EarlierTurnComesFirst(seed, hint, p, lo, hi, x, y);
      }
      OrderedConcat(CandidatesBetween(seed, hint, p, lo, hi - 1), CandidatesUnder(seed, hint, q), ListedBefore);
    }
  }

  /** A candidate is longer than its twelve-character section. */
  lemma CandidateLength(seed: SouthAfricanIdentityNumberModel, t: seq<int>)
    requires seed.Valid() && |t| == Levels
    ensures |Candidate(seed, t)| >= 12
  {
  }

  /** A number the loops inside p add reads back as counters those loops reach. */
  lemma UnderReadsBack(seed: SouthAfricanIdentityNumberModel, hint: Option<GenderType>, p: seq<int>, x: string)
    requires seed.Valid() && seed.HasDigitFields() && |p| <= Levels && PrefixInRange(seed, hint, p)
    requires x in CandidatesUnder(seed, hint, p)
    ensures |x| >= 12 && Reaches(seed, hint, p, Counters(x))
  {
    var t := UnderSound(seed, hint, p, x);
    ReachedIsVisited(seed, hint, p, t);
    VisitedCandidateCounters(seed, hint, t, x);
  }

  /** A number the loop at level |p| adds while running from lo to hi has its counter there in lo..hi. */
  lemma BetweenReadsBack(seed: SouthAfricanIdentityNumberModel, hint: Option<GenderType>, p: seq<int>, lo: int, hi: int, x: string)
    requires seed.Valid() && seed.HasDigitFields() && |p| < Levels && PrefixInRange(seed, hint, p)
    requires LevelStart(seed, hint, p) <= lo && hi <= LevelEnd(seed, hint, p)
    requires x in CandidatesBetween(seed, hint, p, lo, hi)
    ensures |x| >= 12 && Counters(x)[..|p|] == p && lo <= Counters(x)[|p|] <= hi
  {
    var t := BetweenSound(seed, hint, p, lo, hi, x);
    assert InLevelRange(seed, hint, t, |p|);
    ReachedIsVisited(seed, hint, p, t);
    VisitedCandidateCounters(seed, hint, t, x);
  }

  /**
   * A number an earlier turn of the loop at level |p| added comes before any number the turn for
   * hi adds: both carry the counters p, and at level |p| the earlier one's counter is below hi.
   */
  lemma EarlierTurnComesFirst(seed: SouthAfricanIdentityNumberModel, hint: Option<GenderType>, p: seq<int>, lo: int, hi: int, x: string, y: string)
    requires seed.Valid() && seed.HasDigitFields() && |p| < Levels && PrefixInRange(seed, hint, p)
    requires LevelStart(seed, hint, p) <= lo && hi <= LevelEnd(seed, hint, p)
    requires x in CandidatesBetween(seed, hint, p, lo, hi - 1) && y in CandidatesUnder(seed, hint, p + [hi])
    ensures ListedBefore(x, y)
  {
    var q := p + [hi];
    BetweenReadsBack(seed, hint, p, lo, hi - 1, x);
    PrefixExtends(seed, hint, p, hi);
    UnderReadsBack(seed, hint, q, y);
    var a, b := Counters(x), Counters(y);
    assert b[..|p|] == b[..|q|][..|p|] && b[|p|] == b[..|q|][|p|];
    assert a[..|p|] == b[..|p|] && a[|p|] < b[|p|];
  }

  /** A counter in the range of its loop extends counters that lie in the ranges of theirs. */
  lemma PrefixExtends(seed: SouthAfricanIdentityNumberModel, hint: Option<GenderType>, p: seq<int>, v: int)
    requires seed.Valid() && |p| < Levels && PrefixInRange(seed, hint, p)
    requires LevelStart(seed, hint, p) <= v <= LevelEnd(seed, hint, p)
    ensures PrefixInRange(seed, hint, p + [v])
  {
    var q := p + [v];
    forall k | 0 <= k < |q|
      ensures InLevelRange(seed, hint, q, k)
    {
      if k < |p| {
        assert q[..k] == p[..k] && q[k] == p[k];
        assert InLevelRange(seed, hint, p, k);
      } else {
        assert q[..k] == p;
      }
    }
  }

  /**
   * For a seed with one-digit fields, the generator lists its numbers in the order of the nested
   * loops: by month, then day, gender digit, sequence number, citizenship digit and obsolete digit.
   */
  lemma ListInLoopOrder(seed: SouthAfricanIdentityNumberModel, hint: Option<GenderType>)
    requires seed.Valid() && seed.HasDigitFields()
    ensures InLoopOrder(ValidIdentityNumbers(seed, hint))
  {
    UnderInLoopOrder(seed, hint, []);
  }

  /** Since the list is in loop order, the generator never lists the same number twice. */
  lemma NoDuplicateNumbers(seed: SouthAfricanIdentityNumberModel, hint: Option<GenderType>)
    requires seed.Valid() && seed.HasDigitFields()
    ensures Distinct(ValidIdentityNumbers(seed, hint))
  {
    var list := ValidIdentityNumbers(seed, hint);
    ListInLoopOrder(seed, hint);
    forall i, j | 0 <= i < j < |list|
      ensures list[i] != list[j]
    {
      assert ListedBefore(list[i], list[j]);
    }
  }

  /** The range of each visited counter, as the loops take it from the seed and the gender hint. */
  lemma VisitedRanges(seed: SouthAfricanIdentityNumberModel, hint: Option<GenderType>, t: seq<int>)
    requires seed.Valid() && Visited(seed, hint, t)
    ensures seed.monthOfBirth.Some? ==> t[0] == seed.monthOfBirth.value
    ensures seed.dayOfBirth.Some? ==> t[1] == seed.dayOfBirth.value
    ensures seed.genderDigit.Some? ==> t[2] == seed.genderDigit.value
    ensures seed.genderDigit.None? ==> 0 <= t[2] <= 9
    ensures seed.genderDigit.None? && hint == Some(Male) ==> t[2] >= 5
    ensures seed.genderDigit.None? && hint == Some(Female) ==> t[2] <= 4
    ensures SequenceStart(seed) <= t[3] <= SequenceEnd(seed)
    ensures 0 <= t[4] <= 1
    ensures seed.citizenship == Some(SA) ==> t[4] == 0
    ensures seed.citizenship == Some(Other) ==> t[4] == 1
    ensures seed.obsoleteDigit.Some? ==> t[5] == seed.obsoleteDigit.value
    ensures seed.obsoleteDigit.None? ==> 8 <= t[5] <= 9
  {
    assert InLevelRange(seed, hint, t, 0) && |t[..0]| == 0;
    assert InLevelRange(seed, hint, t, 1) && |t[..1]| == 1;
    assert InLevelRange(seed, hint, t, 2) && |t[..2]| == 2;
    assert InLevelRange(seed, hint, t, 3) && |t[..3]| == 3;
    assert InLevelRange(seed, hint, t, 4) && |t[..4]| == 4;
    assert InLevelRange(seed, hint, t, 5) && |t[..5]| == 5;
  }

  /**
   * Every number the generator lists (for a seed with one-digit fields) is thirteen digits the
   * validator accepts, starts with the seed's two-digit year, and carries every field the seed
   * knows: month, day, gender digit, first sequence digit, obsolete digit and checksum digit
   * verbatim. An unknown gender digit follows the gender hint, the sequence number never falls
   * below the one the known sequence digits give, the citizenship digit is 0 for SA and 1 for
   * Other whatever digit the seed held, and an unknown obsolete digit is 8 or 9.
   */
  lemma GeneratedNumberCarriesSeed(seed: SouthAfricanIdentityNumberModel, hint: Option<GenderType>, x: string)
    requires seed.Valid() && seed.HasDigitFields() && x in ValidIdentityNumbers(seed, hint)
    ensures |x| == 13 && AllDigits(x) && IsValidSouthAfricanIdentityNumber(x)
    ensures x[..2] == seed.YearOfBirth()
    ensures seed.monthOfBirth.Some? ==> NumValue(x[2..4]) == seed.monthOfBirth.value
    ensures seed.dayOfBirth.Some? ==> NumValue(x[4..6]) == seed.dayOfBirth.value
    ensures seed.genderDigit.Some? ==> DigitValue(x[6]) == seed.genderDigit.value
    ensures seed.genderDigit.None? && hint == Some(Male) ==> DigitValue(x[6]) >= 5
    ensures seed.genderDigit.None? && hint == Some(Female) ==> DigitValue(x[6]) <= 4
    ensures seed.genderSequence1.Some? ==> DigitValue(x[7]) == seed.genderSequence1.value
    ensures NumValue(x[7..10]) >= SequenceStart(seed)
    ensures x[10] == '0' || x[10] == '1'
    ensures seed.citizenship == Some(SA) ==> x[10] == '0'
    ensures seed.citizenship == Some(Other) ==> x[10] == '1'
    ensures seed.obsoleteDigit.Some? ==> DigitValue(x[11]) == seed.obsoleteDigit.value
    ensures seed.obsoleteDigit.None? ==> x[11] == '8' || x[11] == '9'
    ensures seed.checksumDigit.Some? ==> DigitValue(x[12]) == seed.checksumDigit.value
  {
    CandidatesAreValid(seed, hint, []);
    var t := GeneratedCounters(seed, hint, x);
    VisitedRanges(seed, hint, t);
    CounterDigits(x);
  }

  /** A listed number is thirteen digits that read back as visited counters. */
  lemma GeneratedCounters(seed: SouthAfricanIdentityNumberModel, hint: Option<GenderType>, x: string)
    returns (t: seq<int>)
    requires seed.Valid() && seed.HasDigitFields() && x in ValidIdentityNumbers(seed, hint)
    ensures Visited(seed, hint, t) && |x| == 13 && AllDigits(x) && Counters(x) == t
    ensures x[..2] == seed.YearOfBirth()
    ensures DigitValue(x[12]) == KnownOr(seed.checksumDigit, LuhnChecksum(x[..12]))
  {
    t := UnderSound(seed, hint, [], x);
    VisitedCountersFit(seed, hint, t);
    CandidateLayout(seed, t);
  }

  /**
   * The day loop's range, taken from the seed's four-digit year, never stops short of a day the
   * validator accepts: that day is real in the year 19YY the validator reads from the two-digit
   * year, and no month of 19YY is longer than the same month of the four-digit year.
   */
  lemma DayLoopCoversValidatorDays(seed: SouthAfricanIdentityNumberModel, m: int, d: int)
    requires seed.Valid() && IsRealDate(1900 + NumValue(seed.YearOfBirth()), m, d)
    ensures 1 <= d <= DayEnd(seed, m)
  {
    YearOfBirthIsLastTwoDigits(seed);
    CenturyYearHasNoMoreDays(seed.year, m);
  }

  /** The seed of the sequence example: 1965-02-07, gender digit 5, sequence digit 2 known as 2. */
  predicate SequenceExampleSeed(seed: SouthAfricanIdentityNumberModel) {
    seed == SouthAfricanIdentityNumberModel(1965, Some(2), Some(7), Some(5), None, Some(2), None,
      Some(0), Some(8), None, Some(Male), Some(SA))
  }

  /** 6502075100080 is the valid candidate of the counters [2, 7, 5, 100, 0, 8] of that seed. */
  lemma SequenceExampleCandidate(seed: SouthAfricanIdentityNumberModel, x: string)
    requires SequenceExampleSeed(seed) && x == "6502075100080"
    ensures seed.Valid() && x == Candidate(seed, [2, 7, 5, 100, 0, 8]) && IsValidSouthAfricanIdentityNumber(x)
  {
    var section := x[..12];
    assert section == "650207510008";
    YearOfBirthIsLastTwoDigits(seed);
    assert seed.YearOfBirth() == "65";
    CountersOfDigits(x);
    assert Counters(x) == [2, 7, 5, 100, 0, 8];
    SectionOfCounters(seed, x);
    assert LuhnTotal(section) == 30 by {
      LuhnTotalOfTwelve(section);
    }
    BirthDateDigits(section);
    AcceptsCheckDigit(section, '0');
    SingleDigitText(0);
    assert x == section + ['0'];
  }

  /** The loops visit the counters [2, 7, 5, 100, 0, 8] of that seed: 100 lies in 20..999. */
  lemma SequenceExampleVisited(seed: SouthAfricanIdentityNumberModel)
    requires SequenceExampleSeed(seed)
    ensures seed.Valid() && Visited(seed, None, [2, 7, 5, 100, 0, 8])
  {
    var t := [2, 7, 5, 100, 0, 8];
    assert SequenceStart(seed) == 20 && SequenceEnd(seed) == 999;
    assert |t[..0]| == 0 && |t[..1]| == 1 && t[..1][0] == 2 && |t[..2]| == 2;
    assert |t[..3]| == 3 && |t[..4]| == 4 && |t[..5]| == 5;
    forall k | 0 <= k < Levels
      ensures InLevelRange(seed, None, t, k)
    {
    }
  }

  /**
   * Known second and third sequence digits only raise the sequence loop's start. A seed that
   * knows sequence digit 2 (position 8) as 2 lists 6502075100080, whose position 8 holds '0'.
   */
  lemma SequenceDigitNotKept(seed: SouthAfricanIdentityNumberModel, x: string)
    requires SequenceExampleSeed(seed) && x == "6502075100080"
    ensures seed.Valid() && seed.genderSequence2 == Some(2)
    ensures x in ValidIdentityNumbers(seed, None) && x[8] != '2'
  {
    SequenceExampleCandidate(seed, x);
    SequenceExampleVisited(seed);
    UnderComplete(seed, None, [], [2, 7, 5, 100, 0, 8]);
  }
}
