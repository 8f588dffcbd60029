/** `GmTimeR` and `TimeGM`.

`GmTimeR` finds the year either in a table of year ends or by reducing to one cycle of four
centuries; the month comes from a multiplication and a shift.  Both are measured against the
calendar that counts days.
*/
module CivilTime {
  import opened Calendar

  const TABLE_SIZE := 128
  const FOUR_CENTURY_DAYS := 146097
  const CYCLE := FOUR_CENTURY_DAYS * SECONDS_PER_DAY
  const I64_LIMIT := 0x8000_0000_0000_0000
  const INT_LIMIT := 0x8000_0000

  /** The cycles are added in signed arithmetic: below this they do not fit. */
  const MIN_TIME := -((I64_LIMIT - 1) / CYCLE * CYCLE)
  const MAX_TABLE_TIME := TABLE_SIZE * 366 * SECONDS_PER_DAY - 1

  predicate FitsInt(n: int) {
    -INT_LIMIT <= n < INT_LIMIT
  }

  /** Conversion to `int` */
  function ToInt(n: int): (r: int)
    ensures FitsInt(r) && (FitsInt(n) <==> r == n)
  {
    (n + INT_LIMIT) % (2 * INT_LIMIT) - INT_LIMIT
  }

  /** C's `%` */
  function Remainder(n: int, m: int): int
    requires m > 0
  {
    if n >= 0 then n % m else -(-n % m)
  }

  // ---------------------------------------------------------------- the month

  lemma MonthTable(leap: bool)
    ensures var l := if leap then 1 else 0;
            && MonthStart(leap, 0) == 0 && MonthStart(leap, 1) == 31 && MonthStart(leap, 2) == 59 + l
            && MonthStart(leap, 3) == 90 + l && MonthStart(leap, 4) == 120 + l && MonthStart(leap, 5) == 151 + l
            && MonthStart(leap, 6) == 181 + l && MonthStart(leap, 7) == 212 + l && MonthStart(leap, 8) == 243 + l
            && MonthStart(leap, 9) == 273 + l && MonthStart(leap, 10) == 304 + l && MonthStart(leap, 11) == 334 + l
            && MonthStart(leap, 12) == 365 + l
  {
    var l := if leap then 1 else 0;
    assert MonthStart(leap, 1) == 31;
    assert MonthStart(leap, 2) == 59 + l;
    assert MonthStart(leap, 3) == 90 + l;
    assert MonthStart(leap, 4) == 120 + l;
    assert MonthStart(leap, 5) == 151 + l;
    assert MonthStart(leap, 6) == 181 + l;
    assert MonthStart(leap, 7) == 212 + l;
    assert MonthStart(leap, 8) == 243 + l;
    assert MonthStart(leap, 9) == 273 + l;
    assert MonthStart(leap, 10) == 304 + l;
    assert MonthStart(leap, 11) == 334 + l;
    assert MonthStart(leap, 12) == 365 + l;
  }

  /** `DayOfYearToMonth` */
  method DayOfYearToMonth(yday: int, leap: bool) returns (mon: int, mday0: int)
    requires 0 <= yday < if leap then 366 else 365
    ensures 0 <= mon < 12 && 0 <= mday0 < MonthSize(leap, mon) && MonthStart(leap, mon) + mday0 == yday
  {
    hide MonthStart;
    var d := yday;
    var l := if leap then 1 else 0;
    if d >= 31 + 28 + l { d := d + 2 - l; }
    mon := (d * 67 + 35) / 2048;
    mday0 := d - (mon * 489 + 8) / 16;
    MonthTable(leap);
    assert 0 <= mon < 12;
  }

  // ---------------------------------------------------------------- the year

  /** The day on which each year of the table ends. */
  ghost predicate IsTable(t: seq<int>) {
    |t| == TABLE_SIZE && forall i | 0 <= i < TABLE_SIZE :: t[i] == YearStart(1971 + i)
  }

  /** After 1970 a year begins between 365 and 366 days for every year passed. */
  lemma {:induction false} YearStartBounds(n: nat)
    ensures 365 * n <= YearStart(1970 + n) <= 366 * n
  {
    if n > 0 { YearStartBounds(n - 1); }
  }

  /** The constructor of `TDayNoToYearLookupTable`: the sums fit 16 bits. */
  method BuildTable() returns (t: array<int>)
    ensures fresh(t) && IsTable(t[..])
  {
    t := new int[TABLE_SIZE];
    var accumulated := 0;
    var year := 1970;
    while year < 1970 + TABLE_SIZE
      invariant 1970 <= year <= 1970 + TABLE_SIZE && accumulated == YearStart(year)
      invariant forall i | 0 <= i < year - 1970 :: t[i] == YearStart(1971 + i)
    {
      YearStartBounds(year + 1 - 1970);
      accumulated := accumulated + YearSize(year);
      assert 0 <= accumulated < 0x10000;
      t[year - 1970] := accumulated;
      year := year + 1;
    }
  }

  /** `FindYear`: the estimate misses by at most one year. */
  method FindYear(t: seq<int>, days: int) returns (year: int, yday: int)
    requires IsTable(t) && 0 <= days < TABLE_SIZE * 366
    ensures YearStart(year) + yday == days && 0 <= yday < YearSize(year) && 1970 <= year
  {
    hide YearStart;
    var index := days / 366;
    YearStartBounds(index);
    YearStartBounds(index + 2);
    NextYear(1970 + index);
    NextYear(1971 + index);
    assert t[index] == YearStart(1971 + index);
    var diff := t[index];
    if diff <= days { return 1971 + index, days - diff; }
    if index > 0 {
      assert t[index - 1] == YearStart(1971 + (index - 1));
      return 1970 + index, days - t[index - 1];
    }
    YearStartBounds(0);
    return 1970 + index, days;
  }

  lemma LeapBounds(n: nat)
    requires n <= 400
    ensures 0 <= LeapYearCount(n) <= 97
  {
  }

  /** `FindYearWithin4Centuries`: counts from year 1, and misses by at most one year. */
  method FindYearWithin4Centuries(dayno: int) returns (years: int, yday: int)
    requires 0 <= dayno < FOUR_CENTURY_DAYS
    ensures 0 <= years < 400
    ensures Elapsed(years) + yday == dayno && 0 <= yday < YearSize(years + 1)
  {
    years := dayno / 365;
    var diff := years * 365 + LeapYearCount(years);
    LeapBounds(years);
    OneMoreYear(years);
    OneMoreYear(years + 1);
    hide LeapYearCount, IsLeapYear;
    assert diff == Elapsed(years);
    if diff <= dayno {
      NotYet400(years, dayno);
      yday := dayno - diff;
    } else {
      yday := dayno - (diff - YearSize(years));
      years := years - 1;
    }
  }

  lemma NotYet400(years: int, dayno: int)
    requires 0 <= years <= 400 && Elapsed(years) <= dayno < FOUR_CENTURY_DAYS
    ensures years < 400
  {
    assert Elapsed(400) == FOUR_CENTURY_DAYS;
  }

  // ---------------------------------------------------------------- GmTimeR

  /** The fields that do not depend on how the year was found. */
  method Fill(year: int, yday0: int, leap: bool, wday: int, clock: int) returns (t: Tm)
    requires 0 <= yday0 < YearSize(year) && leap == IsLeapYear(year) && 0 <= clock < SECONDS_PER_DAY
    ensures t.year == year - 1900 && t.wday == wday && IsClock(t, clock)
    ensures IsDate(t, YearStart(year) + yday0)
  {
    hide YearStart;
    var mon, mday0 := DayOfYearToMonth(yday0, leap);
    t := Tm(clock % 60, clock % 3600 / 60, clock / 3600, mday0 + 1, mon, year - 1900, wday, yday0);
  }

  /** The path through the table. */
  method ByTable(time: int, table: seq<int>) returns (t: Tm)
    requires IsTable(table) && 0 <= time <= MAX_TABLE_TIME
    ensures Denotes(t, time)
  {
    hide IsTable, IsDate, IsClock, YearStart, IsLeapYear;
    var days := time / SECONDS_PER_DAY;
    var year, yday := FindYear(table, days);
    t := Fill(year, yday, IsLeapYear(year), (days + 4) % 7, time % SECONDS_PER_DAY);
  }

  /** Cycles of four centuries leave the weekday and the time of day alone. */
  lemma WholeCycles(time: int, k: int)
    ensures (time + k * CYCLE) / SECONDS_PER_DAY == time / SECONDS_PER_DAY + k * FOUR_CENTURY_DAYS
    ensures (time + k * CYCLE) % SECONDS_PER_DAY == time % SECONDS_PER_DAY
    ensures ((time + k * CYCLE) / SECONDS_PER_DAY + 4) % 7 == (time / SECONDS_PER_DAY + 4) % 7
  {
    DayShift(time, k * FOUR_CENTURY_DAYS);
    WeekShift(time / SECONDS_PER_DAY + 4, k * 20871);
  }

  lemma DayShift(time: int, days: int)
    ensures (time + days * SECONDS_PER_DAY) / SECONDS_PER_DAY == time / SECONDS_PER_DAY + days
    ensures (time + days * SECONDS_PER_DAY) % SECONDS_PER_DAY == time % SECONDS_PER_DAY
  {
  }

  lemma WeekShift(day: int, weeks: int)
    ensures (day + 7 * weeks) % 7 == day % 7
  {
  }

  /** Before the epoch, as many cycles are added as make the time non-negative.  They fit a signed
      number exactly from `MIN_TIME` on. */
  lemma ShiftFits(time: int)
    requires time < 0
    ensures var shift := (-time - 1) / CYCLE + 1;
            && 0 < shift * CYCLE && 0 <= time + shift * CYCLE < CYCLE
            && (shift * CYCLE < I64_LIMIT <==> MIN_TIME <= time)
  {
    var q := (-time - 1) / CYCLE;
    var m := (I64_LIMIT - 1) / CYCLE;
    assert q < m <==> q * CYCLE < m * CYCLE;
    assert (q + 1) * CYCLE <= m * CYCLE <==> q < m;
    assert (q + 1) * CYCLE >= (m + 1) * CYCLE <==> q >= m;
  }

  /** The years since the last start of a cycle: a cycle starts in a year 1 modulo 400. */
  lemma CycleStart(shift: nat)
    ensures var r := Remainder(1970 - shift * 400 - 1, 400);
            (if r < 0 then r + 400 else r) == 369
  {
    var n := 1969 - shift * 400;
    if n < 0 {
      assert -n == 31 + 400 * (shift - 5);
      assert -n % 400 == 31;
    } else {
      assert n % 400 == 369;
    }
  }

  /** The year and the day in it, counted from the start of a cycle. */
  lemma YearFound(year: int, yearDiff: int, yday: int, day: int, k: int)
    requires Elapsed(yearDiff) + yday == day + 134774 - k * FOUR_CENTURY_DAYS && year == 1601 + k * 400 + yearDiff
    ensures YearStart(year) + yday == day && IsLeapYear(yearDiff + 1) == IsLeapYear(year)
  {
    hide YearStart, LeapYearCount, IsLeapYear;
    YearStartIs(year);
    FourCenturies(yearDiff, k + 4);
    FourCenturies(yearDiff + 1, k + 4);
  }

  /** The path through cycles of four centuries; the year may be out of the range of `tm_year`. */
  method ByCycles(time0: int) returns (t: Tm)
    requires MIN_TIME <= time0 < I64_LIMIT
    ensures Denotes(t, time0)
  {
    hide YearStart, IsLeapYear, Elapsed, IsDate, IsClock, Remainder;
    var time, year, shift := time0, 1970, 0;
    if time < 0 {
      ShiftFits(time);
      shift := (-time - 1) / CYCLE + 1;
      time := time + shift * CYCLE;
      year := year - shift * 400;
    }
    WholeCycles(time0, shift);
    var clock := time % SECONDS_PER_DAY;
    var dayNo := time / SECONDS_PER_DAY;
    var wday := (dayNo + 4) % 7;
    CycleStart(shift);
    var shiftYears := Remainder(year - 1, 400);
    if shiftYears != 0 {
      if shiftYears < 0 { shiftYears := shiftYears + 400; }
      year := year - shiftYears;
      dayNo := dayNo + shiftYears * 365 + LeapYearCount(shiftYears);
    }
    assert shiftYears == 369 && LeapYearCount(369) == 89;
    hide LeapYearCount;
    var cycles := 0;
    if dayNo >= FOUR_CENTURY_DAYS {
      cycles := dayNo / FOUR_CENTURY_DAYS;
      year := year + 400 * cycles;
      dayNo := dayNo % FOUR_CENTURY_DAYS;
    }
    var yearDiff, yday := FindYearWithin4Centuries(dayNo);
    YearFound(year + yearDiff, yearDiff, yday, time0 / SECONDS_PER_DAY, cycles - shift);
    t := Fill(year + yearDiff, yday, IsLeapYear(yearDiff + 1), wday, clock);
  }

  /** `GmTimeR`: null exactly when the year does not fit; otherwise the date of the timestamp. */
  method GmTime(time: int, table: seq<int>) returns (ok: bool, t: Tm)
    requires IsTable(table) && MIN_TIME <= time < I64_LIMIT
    ensures var year := YearOf(time / SECONDS_PER_DAY) - 1900;
            && Denotes(t.(year := year), time)
            && (ok <==> FitsInt(year)) && t.year == ToInt(year)
  {
    hide IsDate, IsTable, YearOf, IsClock;
    if 0 <= time <= MAX_TABLE_TIME {
      t := ByTable(time, table);
      YearIs(t, time / SECONDS_PER_DAY);
      TableYear(t, time);
      return true, t;
    }
    t := ByCycles(time);
    YearIs(t, time / SECONDS_PER_DAY);
    var full := t.year;
    t := t.(year := ToInt(full));
    assert t.(year := full).year == full;
    return full == t.year, t;
  }

  lemma TableYear(t: Tm, time: int)
    requires Denotes(t, time) && 0 <= time <= MAX_TABLE_TIME
    ensures FitsInt(t.year)
  {
    var year := 1900 + t.year;
    if year < 1970 { YearAfterYear(year, 1970); }
    if year >= 1970 { YearStartBounds(year - 1970); }
  }

  /** Where both paths apply they give the same fields. */
  method BothPaths(time: int, table: seq<int>) returns (a: Tm, b: Tm)
    requires IsTable(table) && 0 <= time <= MAX_TABLE_TIME
    ensures a == b
  {
    a := ByTable(time, table);
    b := ByCycles(time);
    Unique(a, b, time);
  }

  // ---------------------------------------------------------------- TimeGM

  const MONTH_TO_DAYS: seq<int> := [0, 31, 59, 90, 120, 151, 181, 212, 243, 273, 304, 334]
  const MONTH_TO_DAYS_LEAP: seq<int> := [0, 31, 60, 91, 121, 152, 182, 213, 244, 274, 305, 335]

  /** The days in front of the month. */
  ghost function MonthDay(t: Tm): int
    requires 0 <= t.mon
  {
    YearStart(1900 + t.year) + MonthStart(IsLeapYear(1900 + t.year), t.mon)
  }

  /** The days in front of a date, however large its day of the month. */
  ghost function DayOf(t: Tm): int
    requires 0 <= t.mon
  {
    MonthDay(t) + t.mday - 1
  }

  /** No product or sum of the fields leaves the range of an int. */
  ghost predicate FieldsFit(t: Tm) {
    && t.year >= 70 && 0 <= t.mon < 12
    && FitsInt(MonthDay(t)) && FitsInt(t.mday - 1) && FitsInt(DayOf(t))
    && FitsInt(t.hour * 3600) && FitsInt(t.min * 60) && FitsInt(t.sec)
  }

  lemma MonthTables(leap: bool, mon: int)
    requires 0 <= mon < 12
    ensures MonthStart(leap, mon) == if leap then MONTH_TO_DAYS_LEAP[mon] else MONTH_TO_DAYS[mon]
  {
    MonthTable(leap);
    hide MonthStart;
  }

  /** The closed form for the days in front of a year. */
  lemma DaysBeforeYear(y: int)
    requires y >= 70
    ensures 365 * (y - 70) + (y - 1 - 68) / 4 - (y - 1) / 100 + (y - 1 + 300) / 400 == YearStart(1900 + y)
  {
    hide YearStart;
    YearStartIs(1900 + y);
    var n := 1899 + y;
    assert n / 4 == (y - 69) / 4 + 492;
    assert n / 100 == (y - 1) / 100 + 19;
    assert n / 400 == (y + 299) / 400 + 4;
  }

  /** Conversion to `unsigned long` and back to `time_t` */
  function ToTime(n: int): (r: int)
    ensures -I64_LIMIT <= n < I64_LIMIT ==> r == n
  {
    var secs := n % (2 * I64_LIMIT);
    if secs < I64_LIMIT then secs else secs - 2 * I64_LIMIT
  }

  /** `TimeGM`: minus one for a year before 1970 or a month out of range; otherwise the seconds. */
  method TimeGM(t: Tm) returns (time: int)
    requires t.year >= 70 && 0 <= t.mon < 12 ==> FieldsFit(t)
    ensures t.year < 70 || t.mon < 0 || t.mon >= 12 ==> time == -1
    ensures t.year >= 70 && 0 <= t.mon < 12 ==> time == DayOf(t) * SECONDS_PER_DAY + t.hour * 3600 + t.min * 60 + t.sec
  {
    hide YearStart, MonthStart, IsLeapYear;
    if t.year < 70 { return -1; }
    var days := 365 * (t.year - 70);
    days := days + (t.year - 1 - 68) / 4 - (t.year - 1) / 100 + (t.year - 1 + 300) / 400;
    if t.mon < 0 || t.mon >= 12 { return -1; }
    DaysBeforeYear(t.year);
    MonthTables(IsLeapYear(1900 + t.year), t.mon);
    if IsLeapYear(1900 + t.year) {
      days := days + MONTH_TO_DAYS_LEAP[t.mon];
    } else {
      days := days + MONTH_TO_DAYS[t.mon];
    }
    days := days + t.mday - 1;
    hide ToTime;
    time := ToTime(days * 86400 + t.hour * 3600 + t.min * 60 + t.sec);
  }

  // ---------------------------------------------------------------- the two are inverse

  /** `TimeGM` undoes `GmTimeR` on every timestamp from 1970 on whose day count fits. */
  method ThereAndBack(time: int, table: seq<int>) returns (ok: bool, back: int)
    requires IsTable(table) && 0 <= time < I64_LIMIT && FitsInt(time / SECONDS_PER_DAY)
    ensures ok && back == time
  {
    hide YearStart, MonthStart, IsLeapYear;
    var t;
    ok, t := GmTime(time, table);
    ghost var full := t.(year := YearOf(time / SECONDS_PER_DAY) - 1900);
    FarYear(full, time);
    assert t == full;
    ClockFits(t, time % SECONDS_PER_DAY);
    back := TimeGM(t);
  }

  lemma ClockFits(t: Tm, s: int)
    requires IsClock(t, s) && s < SECONDS_PER_DAY
    ensures t.hour < 24
  {
  }

  lemma FarYear(t: Tm, time: int)
    requires Denotes(t, time) && 0 <= time && FitsInt(time / SECONDS_PER_DAY)
    ensures 70 <= t.year && FitsInt(t.year)
  {
    var year := 1900 + t.year;
    if year < 1970 { YearAfterYear(year, 1970); }
    if year >= 1970 { YearStartBounds(year - 1970); }
  }

  /** A set of fields as a calendar and a clock show them, from 1970 on. */
  ghost predicate ValidFields(t: Tm) {
    && t.year >= 70 && 0 <= t.mon < 12 && 1 <= t.mday <= MonthSize(IsLeapYear(1900 + t.year), t.mon)
    && 0 <= t.hour < 24 && 0 <= t.min < 60 && 0 <= t.sec < 60
    && FitsInt(DayOf(t))
  }

  /** `GmTimeR` undoes `TimeGM` on every valid set of fields; the weekday and the day of the year are
      filled in. */
  method BackAndThere(t: Tm, table: seq<int>) returns (ok: bool, again: Tm)
    requires IsTable(table) && ValidFields(t)
    ensures ok && again == t.(wday := again.wday, yday := again.yday)
    ensures IsDate(again, DayOf(t)) && IsWeekday(again, DayOf(t))
  {
    hide DayOf, FieldsFit, IsLeapYear, IsTable, Denotes, IsDate;
    ValidFit(t);
    var time := TimeGM(t);
    ok, again := GmTime(time, table);
    ghost var full := again.(year := YearOf(time / SECONDS_PER_DAY) - 1900);
    SameFields(t, full, time);
    FarYear(full, time);
  }

  lemma SameFields(t: Tm, full: Tm, time: int)
    requires ValidFields(t) && time == DayOf(t) * SECONDS_PER_DAY + t.hour * 3600 + t.min * 60 + t.sec
    requires Denotes(full, time)
    ensures time / SECONDS_PER_DAY == DayOf(t)
    ensures full == t.(wday := full.wday, yday := full.yday)
    ensures IsDate(full, DayOf(t)) && IsWeekday(full, DayOf(t))
  {
    hide YearStart, MonthStart, IsLeapYear, DayOf, IsClock;
    var day, clock := DayOf(t), t.hour * 3600 + t.min * 60 + t.sec;
    DateOf(t);
    DaySplit(day, clock);
    assert IsClock(t, clock) by { ClockOf(t); }
    ClockUnique(t, full, clock);
    DateUnique(t.(yday := day - YearStart(1900 + t.year)), full, day);
  }

  lemma ClockOf(t: Tm)
    requires 0 <= t.hour && 0 <= t.min < 60 && 0 <= t.sec < 60
    ensures IsClock(t, t.hour * 3600 + t.min * 60 + t.sec)
  {
  }

  lemma DaySplit(day: int, clock: int)
    requires 0 <= clock < SECONDS_PER_DAY
    ensures (day * SECONDS_PER_DAY + clock) / SECONDS_PER_DAY == day
    ensures (day * SECONDS_PER_DAY + clock) % SECONDS_PER_DAY == clock
  {
  }

  lemma ValidFit(t: Tm)
    requires ValidFields(t)
    ensures DayOf(t) >= 0 && FieldsFit(t)
  {
    YearStartBounds(t.year - 70);
    MonthStartPositive(IsLeapYear(1900 + t.year), t.mon);
  }

  lemma {:induction false} MonthStartPositive(leap: bool, mon: nat)
    ensures MonthStart(leap, mon) >= 0
  {
    if mon > 0 { MonthStartPositive(leap, mon - 1); }
  }

  lemma DateOf(t: Tm)
    requires 0 <= t.mon < 12 && 1 <= t.mday <= MonthSize(IsLeapYear(1900 + t.year), t.mon)
    ensures IsDate(t.(yday := DayOf(t) - YearStart(1900 + t.year)), DayOf(t))
  {
    hide YearStart;
    var leap := IsLeapYear(1900 + t.year);
    MonthTable(leap);
    MonthStartPositive(leap, t.mon);
    MonthAfterMonth(leap, t.mon, 12);
  }
}
