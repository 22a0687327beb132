/** Broken-down UTC time: `TimeZone::toUtcTime` and `TimeZone::fromUtcTime` (base/timeZone.cc). */
module UtcTime {
  import opened CInts
  import opened Options
  import opened Calendar

  /** The fields of `struct tm` that the code sets. */
  datatype Tm = Tm(sec: int, min: int, hour: int, mday: int, mon: int, year: int,
                   wday: int, yday: int, isdst: bool, gmtoff: int)

  const SECONDS_PER_DAY: int := 24 * 60 * 60
  const ZERO_TM := Tm(0, 0, 0, 0, 0, 0, 0, 0, false, 0)

  function DateOf(utc: Tm): Date {
    Date(utc.year + 1900, utc.mon + 1, utc.mday)
  }

  function SecondsOfDay(utc: Tm): int {
    utc.hour * 3600 + utc.min * 60 + utc.sec
  }

  predicate ValidClock(utc: Tm) {
    0 <= utc.sec < 60 && 0 <= utc.min < 60 && 0 <= utc.hour < 24
  }

  // ---------------------------------------------------------------- the code

  function WithHMS(seconds: nat, utc: Tm): (r: Tm)
    ensures SecondsOfDay(r) == seconds && 0 <= r.sec < 60 && 0 <= r.min < 60 && 0 <= r.hour
    ensures seconds < SECONDS_PER_DAY ==> ValidClock(r)
    ensures r == utc.(sec := r.sec, min := r.min, hour := r.hour)
  {
    utc.(sec := seconds % 60, min := seconds / 60 % 60, hour := seconds / 60 / 60)
  }

  /** `fillHMS`: writes the time of day into the struct, field by field. */
  method FillHMS(seconds: nat, utc: Tm) returns (r: Tm)
    ensures r == WithHMS(seconds, utc)
  {
    r := utc.(sec := seconds % 60);
    var minutes := seconds / 60;
    r := r.(min := minutes % 60);
    r := r.(hour := minutes / 60);
  }

  /** The day number and second of day that truncating division and its
      correction for negative times arrive at. */
  function SplitDay(s: int): Option<(int, nat)> {
    var seconds := TruncMod(s, SECONDS_PER_DAY);
    var days := WrapInt32(TruncDiv(s, SECONDS_PER_DAY));
    if seconds < 0 then
      var corrected :- Sub32(days, 1);
      Some((corrected, seconds + SECONDS_PER_DAY))
    else
      Some((days, seconds))
  }

  /** `toUtcTime` as a function of its argument; `None` when an `int` overflows. */
  function ToUtc(s: int, yday: bool): Option<Tm> {
    var split :- SplitDay(s);
    var day :- Add32(split.0, DAY_OF_1970_01_01);
    var ymd :- YearMonthDay(day);
    var tomorrow :- Add32(day, 1);
    var utc := WithHMS(split.1, ZERO_TM).(year := ymd.year - 1900, mon := ymd.month - 1,
                                          mday := ymd.day, wday := TruncMod(tomorrow, 7));
    if yday then
      var startOfYear :- JulianDayNumber(Date(ymd.year, 1, 1));
      var n :- Sub32(day, startOfYear);
      Some(utc.(yday := n))
    else
      Some(utc)
  }

  /** `toUtcTime`, filling the struct in the source's order. */
  method ToUtcTime(secondsSinceEpoch: int, yday: bool) returns (r: Option<Tm>)
    ensures r == ToUtc(secondsSinceEpoch, yday)
  {
    hide YearMonthDay, JulianDayNumber, WrapInt32, TruncDiv, TruncMod;
    var utc := ZERO_TM;
    var seconds := TruncMod(secondsSinceEpoch, SECONDS_PER_DAY);
    var days := WrapInt32(TruncDiv(secondsSinceEpoch, SECONDS_PER_DAY));
    if seconds < 0 {
      seconds := seconds + SECONDS_PER_DAY;
      days :- Sub32(days, 1);
    }
    utc := FillHMS(seconds, utc);
    var day :- Add32(days, DAY_OF_1970_01_01);
    var ymd :- YearMonthDay(day);
    utc := utc.(year := ymd.year - 1900);
    utc := utc.(mon := ymd.month - 1);
    utc := utc.(mday := ymd.day);
    var tomorrow :- Add32(day, 1);
    utc := utc.(wday := TruncMod(tomorrow, 7));
    if yday {
      var startOfYear :- JulianDayNumber(Date(ymd.year, 1, 1));
      var n :- Sub32(day, startOfYear);
      utc := utc.(yday := n);
    }
    r := Some(utc);
  }

  /** `fromUtcTime`; the final sum is in the 64-bit `time_t`. */
  function FromUtc(utc: Tm): Option<int> {
    var day :- JulianDayNumber(DateOf(utc));
    var h :- Mul32(utc.hour, 3600);
    var m :- Mul32(utc.min, 60);
    var hm :- Add32(h, m);
    var secondsInDay :- Add32(hm, utc.sec);
    var days :- Sub32(day, DAY_OF_1970_01_01);
    Some(days * SECONDS_PER_DAY + secondsInDay)
  }

  // ------------------------------------------------------------- properties

  /** Days since `FIRST_DATE` of the day that holds second `s`, rounding down. */
  function DayIndex(s: int): int {
    s / SECONDS_PER_DAY + DAY_OF_1970_01_01 - FIRST_DAY
  }

  /** The seconds of the days the calendar functions cover, negative ones included. */
  predicate UtcRange(s: int) {
    0 <= DayIndex(s) <= LAST_DAY - FIRST_DAY
  }

  /** Truncating division plus the correction is division rounding down. */
  lemma SplitDayRoundsDown(s: int)
    requires FitsInt32(s / SECONDS_PER_DAY)
    ensures SplitDay(s) == Some((s / SECONDS_PER_DAY, s % SECONDS_PER_DAY))
  {
    var q, r := s / SECONDS_PER_DAY, s % SECONDS_PER_DAY;
    assert s == q * SECONDS_PER_DAY + r;
    if s < 0 {
      assert -s == -q * SECONDS_PER_DAY - r;
      if r == 0 {
        assert -s / SECONDS_PER_DAY == -q;
      } else {
        assert -s / SECONDS_PER_DAY == -q - 1;
      }
    }
  }

  /** The fields are the date, time of day and weekday of the second. */
  lemma ToUtcExact(s: int)
    requires UtcRange(s)
    ensures ValidDate(NthDate(DayIndex(s)))
    ensures var utc := ToUtc(s, false);
            && utc.Some?
            && DateOf(utc.value) == NthDate(DayIndex(s))
            && ValidClock(utc.value)
            && SecondsOfDay(utc.value) == s % SECONDS_PER_DAY
            && utc.value.wday == TruncMod(s / SECONDS_PER_DAY + DAY_OF_1970_01_01 + 1, 7)
  {
    hide YearMonthDay, JulianDayNumber, SplitDay, TruncMod, NthDate;
    SplitDayRoundsDown(s);
    ClosedFormsCountDays(s / SECONDS_PER_DAY + DAY_OF_1970_01_01);
  }

  /** The day of the year is computed from -4799 on, and changes no other field. */
  lemma ToUtcWithYearDay(s: int)
    requires UtcRange(s) && NthDate(DayIndex(s)).year > -4800
    ensures ToUtc(s, true).Some? && ToUtc(s, false).Some?
    ensures var utc := ToUtc(s, true).value;
            utc == ToUtc(s, false).value.(yday := utc.yday)
  {
    hide YearMonthDay, JulianDayNumber, SplitDay, TruncMod, NthDate;
    var date := NthDate(DayIndex(s));
    SplitDayRoundsDown(s);
    ClosedFormsCountDays(s / SECONDS_PER_DAY + DAY_OF_1970_01_01);
    DaysIntoYear(date);
    NthDateCount(DayIndex(s));
    EveryDateIsCounted(Date(date.year, 1, 1));
  }

  /** Any date from -4799 on lies less than a year's length after its 1 January. */
  lemma DaysIntoYear(date: Date)
    requires ValidDate(date) && date.year > -4800
    ensures var newYear := Date(date.year, 1, 1);
            && ValidDate(newYear) && FromFirstDate(newYear)
            && 0 <= DayCount(date) - DayCount(newYear) < (if IsLeap(date.year) then 366 else 365)
  {
    var newYear := Date(date.year, 1, 1);
    MarchDayBounds(date);
    MarchDayBounds(newYear);
    YearLength(MarchYear(newYear));
    LeapShift(date.year);
    if date.month > 2 {
      assert MarchYear(date) == MarchYear(newYear) + 1;
      MonthEnds(date);
    } else {
      assert MarchYear(date) == MarchYear(newYear);
    }
  }

  lemma MonthEnds(date: Date)
    requires ValidDate(date) && date.month > 2
    ensures MarchDay(date) <= 305
  {
    var m := MarchMonth(date);
    assert m == 0 || m == 1 || m == 2 || m == 3 || m == 4 || m == 5 || m == 6 || m == 7 || m == 8 || m == 9;
  }

  /** A valid broken-down time names exactly one second. */
  lemma FromUtcExact(utc: Tm)
    requires ValidClock(utc) && ValidDate(DateOf(utc)) && FromFirstDate(DateOf(utc))
    requires DayCount(DateOf(utc)) <= LAST_DAY - FIRST_DAY
    ensures FromUtc(utc).Some?
    ensures DayIndex(FromUtc(utc).value) == DayCount(DateOf(utc))
    ensures FromUtc(utc).value % SECONDS_PER_DAY == SecondsOfDay(utc)
  {
    hide JulianDayNumber, FromUtc, MarchYear, MarchDay, DaysBeforeYear;
    JulianDayIsDayCount(DateOf(utc));
    SumOfDay(utc, DayCount(DateOf(utc)) + FIRST_DAY);
    DayAndSecond(DayCount(DateOf(utc)) + FIRST_DAY - DAY_OF_1970_01_01, SecondsOfDay(utc));
  }

  lemma SumOfDay(utc: Tm, day: int)
    requires ValidClock(utc) && JulianDayNumber(DateOf(utc)) == Some(day)
    requires FIRST_DAY <= day <= LAST_DAY
    ensures FromUtc(utc) == Some((day - DAY_OF_1970_01_01) * SECONDS_PER_DAY + SecondsOfDay(utc))
  {
    hide JulianDayNumber;
  }

  lemma DayAndSecond(days: int, second: int)
    requires 0 <= second < SECONDS_PER_DAY
    ensures (days * SECONDS_PER_DAY + second) / SECONDS_PER_DAY == days
    ensures (days * SECONDS_PER_DAY + second) % SECONDS_PER_DAY == second
  {
  }

  lemma ZoneDoesNotMatter(utc: Tm, isdst: bool, gmtoff: int)
    ensures FromUtc(utc.(isdst := isdst, gmtoff := gmtoff)) == FromUtc(utc)
  {
    hide JulianDayNumber;
  }

  /** `fromUtcTime` undoes `toUtcTime` for every second the calendar covers, the
      negative ones included, and the fields are a valid date and time of day. */
  lemma UtcRoundTrip(s: int)
    requires UtcRange(s)
    ensures var utc := ToUtc(s, false);
            && utc.Some?
            && FromUtc(utc.value) == Some(s)
            && ValidDate(DateOf(utc.value)) && ValidClock(utc.value)
  {
    hide ToUtc, FromUtc, NthDate, ValidDate, FromFirstDate, MarchYear, MarchDay, DaysBeforeYear;
    ToUtcExact(s);
    NthDateCount(DayIndex(s));
    FromUtcExact(ToUtc(s, false).value);
  }

  /** And `toUtcTime` undoes `fromUtcTime` on every valid broken-down time. */
  lemma UtcRoundTripBack(utc: Tm)
    requires ValidClock(utc) && ValidDate(DateOf(utc)) && FromFirstDate(DateOf(utc))
    requires DayCount(DateOf(utc)) <= LAST_DAY - FIRST_DAY
    ensures FromUtc(utc).Some? && ToUtc(FromUtc(utc).value, false).Some?
    ensures var back := ToUtc(FromUtc(utc).value, false).value;
            DateOf(back) == DateOf(utc)
            && back.hour == utc.hour && back.min == utc.min && back.sec == utc.sec
  {
    hide ToUtc, FromUtc;
    FromUtcExact(utc);
    var s := FromUtc(utc).value;
    ToUtcExact(s);
    DateOfItsCount(DateOf(utc));
    SameTimeOfDay(ToUtc(s, false).value, utc);
  }

  lemma DateOfItsCount(date: Date)
    requires ValidDate(date) && FromFirstDate(date) && DayCount(date) <= LAST_DAY - FIRST_DAY
    ensures 0 <= DayCount(date) && NthDate(DayCount(date)) == date
  {
    hide YearMonthDay, JulianDayNumber;
    JulianDayIsDayCount(date);
    EveryDateIsCounted(date);
    ClosedFormsCountDays(DayCount(date) + FIRST_DAY);
  }

  lemma SameTimeOfDay(a: Tm, b: Tm)
    requires ValidClock(a) && ValidClock(b) && SecondsOfDay(a) == SecondsOfDay(b)
    ensures a.hour == b.hour && a.min == b.min && a.sec == b.sec
  {
  }

  /** `tm_wday` counts days of the week, but only from Julian day -1 on: before
      that the truncating `%` makes it negative unless the day is a Sunday. */
  lemma WeekdayInRangeExactlyFromDayMinusOne(s: int)
    requires UtcRange(s)
    ensures ToUtc(s, false).Some?
    ensures var day := s / SECONDS_PER_DAY + DAY_OF_1970_01_01;
            0 <= ToUtc(s, false).value.wday < 7 <==> day >= -1 || (day + 1) % 7 == 0
  {
    hide ToUtc, NthDate;
    ToUtcExact(s);
    WeekdayRange(s / SECONDS_PER_DAY + DAY_OF_1970_01_01 + 1);
  }

  lemma WeekdayRange(n: int)
    ensures 0 <= TruncMod(n, 7) < 7 <==> n >= 0 || n % 7 == 0
  {
    if n < 0 {
      var q := -n / 7;
      assert -n == 7 * q + (-n) % 7;
      assert TruncMod(n, 7) == n + 7 * q;
    }
  }

  lemma WeekdayStep(n: int)
    requires 0 <= n
    ensures TruncMod(n + 1, 7) == (TruncMod(n, 7) + 1) % 7
    ensures n == DAY_OF_1970_01_01 + 1 ==> TruncMod(n, 7) == 4
  {
    assert n == 7 * (n / 7) + n % 7;
  }

  /** The weekday advances by one from each day to the next, from Thursday 1 January 1970. */
  lemma WeekdayAdvances(s: int)
    requires UtcRange(s) && UtcRange(s + SECONDS_PER_DAY)
    requires s / SECONDS_PER_DAY + DAY_OF_1970_01_01 >= -1
    ensures ToUtc(s, false).Some? && ToUtc(s + SECONDS_PER_DAY, false).Some?
    ensures ToUtc(s + SECONDS_PER_DAY, false).value.wday == (ToUtc(s, false).value.wday + 1) % 7
    ensures s / SECONDS_PER_DAY == 0 ==> ToUtc(s, false).value.wday == 4
  {
    hide ToUtc, NthDate, TruncMod;
    assert (s + SECONDS_PER_DAY) / SECONDS_PER_DAY == s / SECONDS_PER_DAY + 1;
    ToUtcExact(s);
    ToUtcExact(s + SECONDS_PER_DAY);
    WeekdayStep(s / SECONDS_PER_DAY + DAY_OF_1970_01_01 + 1);
  }

  /** `tm_yday` days back through the calendar is 1 January of the same year. */
  lemma YearDayCountsFromNewYear(s: int)
    requires UtcRange(s) && NthDate(DayIndex(s)).year > -4800
    ensures ToUtc(s, true).Some?
    ensures var utc := ToUtc(s, true).value;
            && 0 <= utc.yday < (if IsLeap(utc.year + 1900) then 366 else 365)
            && utc.yday <= DayIndex(s)
            && NthDate(DayIndex(s) - utc.yday) == Date(utc.year + 1900, 1, 1)
  {
    hide YearMonthDay, JulianDayNumber;
    var date := NthDate(DayIndex(s));
    var newYear := Date(date.year, 1, 1);
    ToUtcWithYearDay(s);
    NthDateCount(DayIndex(s));
    DaysIntoYear(date);
    YearDayIsDifference(s);
    DateOfItsCount(newYear);
  }

  lemma YearDayIsDifference(s: int)
    requires UtcRange(s) && NthDate(DayIndex(s)).year > -4800
    ensures ToUtc(s, true).Some?
    ensures ToUtc(s, true).value.year + 1900 == NthDate(DayIndex(s)).year
    ensures ToUtc(s, true).value.yday
         == DayIndex(s) - DayCount(Date(NthDate(DayIndex(s)).year, 1, 1))
  {
    hide YearMonthDay, JulianDayNumber, SplitDay, WithHMS, TruncMod, MarchYear, MarchDay, NthDate, DaysBeforeYear;
    var date := NthDate(DayIndex(s));
    NthDateCount(DayIndex(s));
    DaysIntoYear(date);
    JulianDayIsDayCount(Date(date.year, 1, 1));
    ClosedFormsCountDays(s / SECONDS_PER_DAY + DAY_OF_1970_01_01);
    SplitDayRoundsDown(s);
  }
}
