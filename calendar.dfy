/** The Gregorian calendar rules behind DateTime.DaysInMonth and DateTime.TryParse. */
module Calendar {

  predicate IsLeapYear(year: int) {
    year % 4 == 0 && (year % 100 != 0 || year % 400 == 0)
  }

  /** DateTime.DaysInMonth, which throws for a month outside 1..12. */
  function DaysInMonth(year: int, month: int): (n: int)
    requires 1 <= month <= 12
    ensures 28 <= n <= 31
    ensures n == 29 <==> month == 2 && IsLeapYear(year)
  {
    if month == 2 then (if IsLeapYear(year) then 29 else 28)
    else if month == 4 || month == 6 || month == 9 || month == 11 then 30
    else 31
  }

  /** The date year-month-day exists. */
  predicate IsRealDate(year: int, month: int, day: int) {
    1 <= month <= 12 && 1 <= day <= DaysInMonth(year, month)
  }

  /**
   * A year and the year of the 1900s with the same last two digits: every date that exists in
   * the 1900s year also exists in the other, so a day range taken from the four-digit year never
   * misses a day of the 19YY date that the validator reads.
   */
  lemma CenturyYearHasNoMoreDays(year: int, month: int)
    requires year >= 1900 && 1 <= month <= 12
    ensures DaysInMonth(1900 + year % 100, month) <= DaysInMonth(year, month)
  {
    var r := year % 100;
    var q := year / 100;
    assert year == 100 * q + r && 0 <= r < 100;
    if month == 2 && IsLeapYear(1900 + r) {
      assert (1900 + r) % 100 == r && (1900 + r) / 100 == 19;
      assert r != 0;
      assert r % 4 == 0 by {
        assert 1900 + r == 4 * 475 + r;
      }
      assert year % 4 == 0 by {
        assert year == 4 * (25 * q + r / 4);
      }
    }
  }

  /** The reverse does not hold: 2000 is a leap year and 1900 is not. */
  lemma LeapDayOf2000Not1900()
    ensures IsRealDate(2000, 2, 29) && !IsRealDate(1900 + 2000 % 100, 2, 29)
  {
  }
}
