/** The Gregorian calendar, counted out year by year and month by month.

A day is numbered from 1 January 1970, in both directions.  `Denotes` says which broken-down time
belongs to a number of seconds; there is exactly one (`Unique`).
*/
module Calendar {

  const SECONDS_PER_DAY := 86400

  /** `struct tm`, without the fields that never change; years are counted from 1900. */
  datatype Tm = Tm(sec: int, min: int, hour: int, mday: int, mon: int, year: int, wday: int, yday: int)

  /** `IsLeapYear` */
  predicate IsLeapYear(year: int) {
    if year % 4 != 0 then false else if year % 100 != 0 then true else year % 400 == 0
  }

  function YearSize(year: int): (n: int)
    ensures 365 <= n <= 366
  {
    if IsLeapYear(year) then 366 else 365
  }

  function MonthSize(leap: bool, mon: int): int {
    if mon == 1 then (if leap then 29 else 28)
    else if mon == 3 || mon == 5 || mon == 8 || mon == 10 then 30
    else 31
  }

  /** The number of the first day of a year. */
  ghost function YearStart(year: int): int
    decreases if year >= 1970 then year - 1970 else 1970 - year
  {
    if year == 1970 then 0
    else if year > 1970 then YearStart(year - 1) + YearSize(year - 1)
    else YearStart(year + 1) - YearSize(year)
  }

  /** The day of the year on which a month begins. */
  function MonthStart(leap: bool, mon: nat): int {
    if mon == 0 then 0 else MonthStart(leap, mon - 1) + MonthSize(leap, mon - 1)
  }

  /** The date of a day. */
  ghost predicate IsDate(t: Tm, day: int) {
    && YearStart(1900 + t.year) + t.yday == day
    && 0 <= t.yday < YearSize(1900 + t.year)
    && 0 <= t.mon < 12
    && t.yday == MonthStart(IsLeapYear(1900 + t.year), t.mon) + t.mday - 1
    && 1 <= t.mday <= MonthSize(IsLeapYear(1900 + t.year), t.mon)
  }

  /** Day 0 was a Thursday. */
  predicate IsWeekday(t: Tm, day: int) {
    t.wday == (day + 4) % 7
  }

  /** `s` seconds after midnight */
  predicate IsClock(t: Tm, s: int) {
    0 <= t.sec < 60 && 0 <= t.min < 60 && 0 <= t.hour && s == t.hour * 3600 + t.min * 60 + t.sec
  }

  ghost predicate Denotes(t: Tm, time: int) {
    var day := time / SECONDS_PER_DAY;
    IsDate(t, day) && IsWeekday(t, day) && IsClock(t, time % SECONDS_PER_DAY)
  }

  lemma {:induction false} YearAfterYear(a: int, b: int)
    requires a < b
    ensures YearStart(a) + YearSize(a) <= YearStart(b)
    decreases b - a
  {
    if a + 1 < b { YearAfterYear(a + 1, b); }
    NextYear(a);
  }

  lemma NextYear(year: int)
    ensures YearStart(year + 1) == YearStart(year) + YearSize(year)
  {
  }

  lemma {:induction false} MonthAfterMonth(leap: bool, a: nat, b: nat)
    requires a < b
    ensures MonthStart(leap, a) + MonthSize(leap, a) <= MonthStart(leap, b)
    decreases b - a
  {
    if a + 1 < b { MonthAfterMonth(leap, a + 1, b); }
  }

  /** A day has one date. */
  lemma DateUnique(a: Tm, b: Tm, day: int)
    requires IsDate(a, day) && IsDate(b, day)
    ensures a.year == b.year && a.yday == b.yday && a.mon == b.mon && a.mday == b.mday
  {
    if a.year < b.year { YearAfterYear(1900 + a.year, 1900 + b.year); }
    if b.year < a.year { YearAfterYear(1900 + b.year, 1900 + a.year); }
    var leap := IsLeapYear(1900 + a.year);
    if a.mon < b.mon { MonthAfterMonth(leap, a.mon, b.mon); }
    if b.mon < a.mon { MonthAfterMonth(leap, b.mon, a.mon); }
  }

  /** A number of seconds denotes one broken-down time. */
  lemma Unique(a: Tm, b: Tm, time: int)
    requires Denotes(a, time) && Denotes(b, time)
    ensures a == b
  {
    hide IsDate, IsClock;
    DateUnique(a, b, time / SECONDS_PER_DAY);
    ClockUnique(a, b, time % SECONDS_PER_DAY);
  }

  lemma ClockUnique(a: Tm, b: Tm, s: int)
    requires IsClock(a, s) && IsClock(b, s)
    ensures a.hour == b.hour && a.min == b.min && a.sec == b.sec
  {
    assert a.hour == s / 3600 && b.hour == s / 3600;
    assert a.min == (s - a.hour * 3600) / 60 && b.min == (s - b.hour * 3600) / 60;
  }

  /** The year of a day, found by going from year to year. */
  ghost function YearOf(day: int): (year: int)
    ensures YearStart(year) <= day < YearStart(year) + YearSize(year)
  {
    YearFrom(1970, day)
  }

  ghost function YearFrom(year: int, day: int): (r: int)
    ensures YearStart(r) <= day < YearStart(r) + YearSize(r)
    decreases if day < YearStart(year) then 1000 + YearStart(year) - day else day - YearStart(year)
  {
    NextYear(year - 1);
    NextYear(year);
    if day < YearStart(year) then YearFrom(year - 1, day)
    else if day >= YearStart(year + 1) then YearFrom(year + 1, day)
    else year
  }

  lemma YearIs(t: Tm, day: int)
    requires IsDate(t, day)
    ensures YearOf(day) == 1900 + t.year
  {
    var a, b := YearOf(day), 1900 + t.year;
    if a < b { YearAfterYear(a, b); }
    if b < a { YearAfterYear(b, a); }
  }

  // ---------------------------------------------------------------- closed forms

  /** `LeapYearCount` */
  function LeapYearCount(years: int): int {
    years / 4 - years / 100 + years / 400
  }

  lemma Carry(n: int, m: int)
    requires m == 4 || m == 100 || m == 400
    ensures n / m == (n - 1) / m + if n % m == 0 then 1 else 0
  {
  }

  lemma OneMoreLeap(n: int)
    ensures LeapYearCount(n) == LeapYearCount(n - 1) + if IsLeapYear(n) then 1 else 0
  {
    Carry(n, 4);
    Carry(n, 100);
    Carry(n, 400);
    Multiples(n);
  }

  lemma Multiples(n: int)
    ensures n % 400 == 0 ==> n % 100 == 0
    ensures n % 100 == 0 ==> n % 4 == 0
  {
    Factors(n / 400, n / 100);
  }

  lemma Factors(a: int, b: int)
    ensures (400 * a) % 100 == 0 && (100 * b) % 4 == 0
  {
  }

  /** The days of the years 1 to `n`. */
  function Elapsed(n: int): int {
    n * 365 + LeapYearCount(n)
  }

  lemma OneMoreYear(n: int)
    ensures Elapsed(n) == Elapsed(n - 1) + YearSize(n)
  {
    OneMoreLeap(n);
  }

  /** 719162 days lie between the start of year 1 and 1970. */
  lemma {:induction false} YearStartIs(year: int)
    ensures YearStart(year) == Elapsed(year - 1) - 719162
    decreases if year >= 1970 then year - 1970 else 1970 - year
  {
    if year > 1970 {
      YearStartIs(year - 1);
      OneMoreYear(year - 1);
    } else if year < 1970 {
      YearStartIs(year + 1);
      OneMoreYear(year);
    }
  }

  /** Four centuries are always equally long. */
  lemma FourCenturies(n: int, k: int)
    ensures Elapsed(n + 400 * k) == Elapsed(n) + 146097 * k
    ensures IsLeapYear(n + 400 * k) == IsLeapYear(n)
  {
    assert (n + 400 * k) / 4 == n / 4 + 100 * k;
    assert (n + 400 * k) / 100 == n / 100 + 4 * k;
    assert (n + 400 * k) / 400 == n / 400 + k;
    assert (n + 400 * k) % 4 == n % 4 && (n + 400 * k) % 100 == n % 100 && (n + 400 * k) % 400 == n % 400;
  }
}
