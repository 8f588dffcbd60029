/** Some dates, and the limits of the conversions, as numbers. */
module CivilKnown {
  import opened Calendar
  import opened CivilTime

  /** Thursday, 1 January 1970, midnight */
  lemma Epoch()
    ensures Denotes(Tm(0, 0, 0, 1, 0, 70, 4, 0), 0)
  {
    hide YearStart, MonthStart;
    assert YearStart(1970) == 0 by { YearStartIs(1970); }
    assert MonthStart(false, 0) == 0 by { MonthTables(false, 0); }
  }

  /** Wednesday, 31 December 1969, 23:59:59 */
  lemma SecondBefore()
    ensures Denotes(Tm(59, 59, 23, 31, 11, 69, 3, 364), -1)
  {
    hide YearStart, MonthStart;
    assert YearStart(1969) == -365 by { YearStartIs(1969); }
    assert MonthStart(false, 11) == 334 by { MonthTables(false, 11); }
  }

  /** Tuesday, 29 February 2000 */
  lemma LeapDay()
    ensures Denotes(Tm(0, 0, 0, 29, 1, 100, 2, 59), 951782400)
  {
    hide YearStart, MonthStart;
    assert YearStart(2000) == 10957 by { YearStartIs(2000); }
    assert MonthStart(true, 1) == 31 by { MonthTables(true, 1); }
  }

  /** Thursday, 29 February 2024, 12:34:56 */
  lemma LeapDayNoon()
    ensures Denotes(Tm(56, 34, 12, 29, 1, 124, 4, 59), 1709210096)
  {
    hide YearStart, MonthStart;
    assert YearStart(2024) == 19723 by { YearStartIs(2024); }
    assert MonthStart(true, 1) == 31 by { MonthTables(true, 1); }
  }

  /** Monday, 1 March 2100: that year has no leap day */
  lemma NoLeapDay()
    ensures Denotes(Tm(0, 0, 0, 1, 2, 200, 1, 59), 4107542400)
  {
    hide YearStart, MonthStart;
    assert YearStart(2100) == 47482 by { YearStartIs(2100); }
    assert MonthStart(false, 2) == 59 by { MonthTables(false, 2); }
  }

  /** Monday, 1 January of year 1 */
  lemma YearOne()
    ensures Denotes(Tm(0, 0, 0, 1, 0, -1899, 1, 0), -62135596800)
  {
    hide YearStart, MonthStart;
    assert YearStart(1) == -719162 by { YearStartIs(1); }
    assert MonthStart(false, 0) == 0 by { MonthTables(false, 0); }
  }

  /** The leap years are the multiples of 4 that are not multiples of 100, and the multiples of 400. */
  lemma LeapYears(year: int)
    ensures IsLeapYear(year) <==> year % 400 == 0 || (year % 4 == 0 && year % 100 != 0)
  {
  }

  /** An `int` has 32 bits and a `time_t` 64; the earliest timestamp converted is a whole number of
      400-year cycles before the epoch. */
  lemma Limits()
    ensures forall n :: FitsInt(n) <==> -2147483648 <= n <= 2147483647
    ensures MIN_TIME == -9223372029693628800 && I64_LIMIT == 9223372036854775808
  {
  }
}
