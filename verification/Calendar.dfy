/** Gregorian dates and Julian day numbers (base/date.cc). */
module Calendar {
  import opened CInts
  import opened Options

  datatype Date = Date(year: int, month: int, day: int)

  // ---------------------------------------------------------------- the code

  /** `getJulianDayNumber`, operation by operation; `None` when an `int` overflows. */
  function JulianDayNumber(date: Date): Option<int> {
    var a0 :- Sub32(14, date.month);
    var a := TruncDiv(a0, 12);
    var y0 :- Add32(date.year, 4800);
    var y :- Sub32(y0, a);
    var a12 :- Mul32(12, a);
    var m0 :- Add32(date.month, a12);
    var m :- Sub32(m0, 3);
    JulianDaySum(y, m, date.day)
  }

  /** Its last line, on the March-based year and month. */
  function JulianDaySum(y: int, m: int, day: int): Option<int> {
    var m1 :- Mul32(153, m);
    var m2 :- Add32(m1, 2);
    var s0 :- Add32(day, TruncDiv(m2, 5));
    var y365 :- Mul32(y, 365);
    var s1 :- Add32(s0, y365);
    var s2 :- Add32(s1, TruncDiv(y, 4));
    var s3 :- Sub32(s2, TruncDiv(y, 100));
    var s4 :- Add32(s3, TruncDiv(y, 400));
    Sub32(s4, 32045)
  }

  /** `getYearMonthDay`, operation by operation; `None` when an `int` overflows. */
  function YearMonthDay(julianDayNumber: int): Option<Date> {
    var a :- Add32(julianDayNumber, 32044);
    var a4 :- Mul32(4, a);
    var a43 :- Add32(a4, 3);
    var b := TruncDiv(a43, 146097);
    var b1 :- Mul32(b, 146097);
    var c :- Sub32(a, TruncDiv(b1, 4));
    DateInCentury(b, c)
  }

  /** Day `c` of century `b`: the year within it. */
  function DateInCentury(b: int, c: int): Option<Date> {
    var c4 :- Mul32(4, c);
    var c43 :- Add32(c4, 3);
    var d := TruncDiv(c43, 1461);
    var d1 :- Mul32(1461, d);
    var e :- Sub32(c, TruncDiv(d1, 4));
    DateInYear(b, d, e)
  }

  /** Day `e` of year `d` of century `b`: the month and the day. */
  function DateInYear(b: int, d: int, e: int): Option<Date> {
    var e5 :- Mul32(5, e);
    var e52 :- Add32(e5, 2);
    var m := TruncDiv(e52, 153);
    var m1 :- Mul32(153, m);
    var m2 :- Add32(m1, 2);
    var day0 :- Sub32(e, TruncDiv(m2, 5));
    var day :- Add32(day0, 1);
    var month0 :- Add32(m, 3);
    var month1 :- Mul32(12, TruncDiv(m, 10));
    var month :- Sub32(month0, month1);
    var year0 :- Mul32(b, 100);
    var year1 :- Add32(year0, d);
    var year2 :- Sub32(year1, 4800);
    var year :- Add32(year2, TruncDiv(m, 10));
    Some(Date(year, month, day))
  }

  // ------------------------------------------- the calendar, independently

  predicate IsLeap(year: int) {
    year % 4 == 0 && (year % 100 != 0 || year % 400 == 0)
  }

  function DaysInMonth(year: int, month: int): int {
    if month == 2 then (if IsLeap(year) then 29 else 28)
    else if month in {4, 6, 9, 11} then 30
    else 31
  }

  predicate ValidDate(date: Date) {
    1 <= date.month <= 12 && 1 <= date.day <= DaysInMonth(date.year, date.month)
  }

  function NextDate(date: Date): Date {
    if date.day < DaysInMonth(date.year, date.month) then date.(day := date.day + 1)
    else if date.month < 12 then Date(date.year, date.month + 1, 1)
    else Date(date.year + 1, 1, 1)
  }

  /** 1 March of year -4800, the first day the closed forms handle. */
  const FIRST_DATE := Date(-4800, 3, 1)
  const FIRST_DAY: int := -32044
  /** The last day for which `4 * a + 3` fits an `int`. */
  const LAST_DAY: int := 536838867

  /** The date `n` days after the first one, counted day by day. */
  function NthDate(n: nat): Date {
    if n == 0 then FIRST_DATE else NextDate(NthDate(n - 1))
  }

  predicate FromFirstDate(date: Date) {
    date.year > -4800 || (date.year == -4800 && date.month >= 3)
  }

  // ------------------------------------------------------ March-based years

  /** Years since -4800 that start in March, and the month counted from March. */
  function MarchYear(date: Date): int {
    date.year + 4800 - (if date.month <= 2 then 1 else 0)
  }

  function MarchMonth(date: Date): int {
    if date.month <= 2 then date.month + 9 else date.month - 3
  }

  /** Days since 1 March. */
  function MarchDay(date: Date): int {
    (153 * MarchMonth(date) + 2) / 5 + date.day - 1
  }

  function DaysBeforeYear(y: int): int {
    365 * y + y / 4 - y / 100 + y / 400
  }

  function DayCount(date: Date): int {
    DaysBeforeYear(MarchYear(date)) + MarchDay(date)
  }

  lemma MarchDayBounds(date: Date)
    requires ValidDate(date)
    ensures 0 <= MarchMonth(date) <= 11
    ensures 0 <= MarchDay(date) <= 365
    ensures MarchDay(date) == 365 ==> IsLeap(MarchYear(date) + 1)
    ensures (5 * MarchDay(date) + 2) / 153 == MarchMonth(date)
  {
    var m := MarchMonth(date);
    assert m == 0 || m == 1 || m == 2 || m == 3 || m == 4 || m == 5
        || m == 6 || m == 7 || m == 8 || m == 9 || m == 10 || m == 11;
    LeapShift(date.year);
  }

  lemma LeapTermBounds(y: int)
    requires 0 <= y
    ensures 0 <= y / 100 <= y / 4 <= y
    ensures 0 <= y / 400
    ensures 365 * y <= DaysBeforeYear(y)
  {
  }

  lemma JulianDaySumExact(y: int, m: int, day: int)
    requires 0 <= y && 0 <= m <= 11 && 1 <= day <= 31
    requires DaysBeforeYear(y) + (153 * m + 2) / 5 + day - 1 <= LAST_DAY - FIRST_DAY
    ensures JulianDaySum(y, m, day) == Some(DaysBeforeYear(y) + (153 * m + 2) / 5 + day - 32045)
  {
    LeapTermBounds(y);
    var q4, q100, q400 := y / 4, y / 100, y / 400;
    assert TruncDiv(y, 4) == q4 && TruncDiv(y, 100) == q100 && TruncDiv(y, 400) == q400;
    assert TruncDiv(153 * m + 2, 5) == (153 * m + 2) / 5;
  }

  lemma MarchShift(date: Date)
    requires 1 <= date.month <= 12
    requires -4800 <= date.year <= 0x7000_0000
    ensures JulianDayNumber(date) == JulianDaySum(MarchYear(date), MarchMonth(date), date.day)
  {
    hide JulianDaySum;
    assert TruncDiv(14 - date.month, 12) == if date.month <= 2 then 1 else 0;
  }

  /** The first closed form is the day count, shifted. */
  lemma JulianDayIsDayCount(date: Date)
    requires ValidDate(date) && FromFirstDate(date)
    requires DayCount(date) <= LAST_DAY - FIRST_DAY
    ensures JulianDayNumber(date) == Some(DayCount(date) + FIRST_DAY)
    ensures 0 <= DayCount(date) && 0 <= MarchYear(date)
  {
    hide JulianDaySum, JulianDayNumber;
    MarchDayBounds(date);
    LeapTermBounds(MarchYear(date));
    MarchShift(date);
    JulianDaySumExact(MarchYear(date), MarchMonth(date), date.day);
  }

  lemma MonthLength(date: Date)
    requires ValidDate(date) && date.month != 2
    ensures (153 * (MarchMonth(date) + 1) + 2) / 5 - (153 * MarchMonth(date) + 2) / 5
         == DaysInMonth(date.year, date.month)
  {
    var m := MarchMonth(date);
    assert m == 0 || m == 1 || m == 2 || m == 3 || m == 4 || m == 5
        || m == 6 || m == 7 || m == 8 || m == 9 || m == 10;
  }

  lemma NextDayCount(date: Date)
    requires ValidDate(date)
    ensures ValidDate(NextDate(date))
    ensures DayCount(NextDate(date)) == DayCount(date) + 1
    ensures FromFirstDate(date) ==> FromFirstDate(NextDate(date))
  {
    if date.day < DaysInMonth(date.year, date.month) {
      assert MarchDay(NextDate(date)) == MarchDay(date) + 1;
    } else if date.month == 2 {
      EndOfFebruary(date);
    } else {
      MonthLength(date);
      assert MarchYear(NextDate(date)) == MarchYear(date);
      assert MarchMonth(NextDate(date)) == MarchMonth(date) + 1;
    }
  }

  lemma LeapShift(year: int)
    ensures IsLeap(year + 4800) == IsLeap(year)
  {
    assert (year + 4800) / 400 == year / 400 + 12;
    assert (year + 4800) / 100 == year / 100 + 48;
    assert (year + 4800) / 4 == year / 4 + 1200;
  }

  lemma EndOfFebruary(date: Date)
    requires date.month == 2 && date.day == DaysInMonth(date.year, 2)
    ensures DayCount(Date(date.year, 3, 1)) == DayCount(date) + 1
  {
    var y := MarchYear(date);
    YearLength(y);
    LeapShift(date.year);
    assert MarchYear(Date(date.year, 3, 1)) == y + 1;
    assert MarchDay(Date(date.year, 3, 1)) == 0;
    assert MarchDay(date) == 336 + date.day;
  }

  lemma YearLength(y: int)
    ensures DaysBeforeYear(y + 1) - DaysBeforeYear(y) == if IsLeap(y + 1) then 366 else 365
  {
    DivStep(y, 4);
    DivStep(y, 100);
    DivStep(y, 400);
  }

  lemma DivStep(y: int, k: int)
    requires k == 4 || k == 100 || k == 400
    ensures (y + 1) / k == y / k + (if (y + 1) % k == 0 then 1 else 0)
  {
  }

  // ------------------------------------------------------------ the inverse

  /** Days before year `y` of century `c = y / 100`. */
  lemma CenturySplit(y: int)
    requires 0 <= y
    ensures DaysBeforeYear(y) == 36524 * (y / 100) + y / 400 + 365 * (y % 100) + y % 100 / 4
    ensures y / 400 == y / 100 / 4
  {
    var c, r := y / 100, y % 100;
    assert y == 100 * c + r;
    assert y / 4 == 25 * c + r / 4;
  }

  /** The longest day number in a century is only reached in one that ends in a leap year. */
  lemma LastDayOfCentury(y: int, doy: int)
    requires 0 <= y && 0 <= doy <= 365 && (doy == 365 ==> IsLeap(y + 1))
    ensures var inner := 365 * (y % 100) + y % 100 / 4 + doy;
            0 <= inner <= if y / 100 % 4 == 3 then 36524 else 36523
  {
    var c, r := y / 100, y % 100;
    assert y == 100 * c + r;
    if r == 99 && doy == 365 {
      assert y + 1 == 100 * (c + 1);
      assert (y + 1) % 100 == 0;
      assert (y + 1) % 400 == 0;
    } else if r < 99 {
      assert r / 4 <= 24;
    }
  }

  /** What `getYearMonthDay` finds first: the century and the day within it. */
  lemma CenturyOfDay(y: int, doy: int)
    requires 0 <= y && 0 <= doy <= 365 && (doy == 365 ==> IsLeap(y + 1))
    ensures var a := DaysBeforeYear(y) + doy;
            && (4 * a + 3) / 146097 == y / 100
            && a - y / 100 * 146097 / 4 == 365 * (y % 100) + y % 100 / 4 + doy
  {
    CenturySplit(y);
    LastDayOfCentury(y, doy);
    CenturyQuotient(y / 100, 365 * (y % 100) + y % 100 / 4 + doy);
  }

  lemma CenturyQuotient(c: int, inner: int)
    requires 0 <= c && 0 <= inner <= if c % 4 == 3 then 36524 else 36523
    ensures var a := 36524 * c + c / 4 + inner;
            (4 * a + 3) / 146097 == c && a - c * 146097 / 4 == inner
  {
    var a, q := 36524 * c + c / 4 + inner, c / 4;
    assert c == 4 * q + c % 4;
    assert c * 146097 / 4 == 36524 * c + q;
    assert 146097 * c <= 4 * a + 3 < 146097 * c + 146097;
  }

  /** Then the year within the century and the day within the year. */
  lemma YearOfDay(r: int, doy: int)
    requires 0 <= r < 100 && 0 <= doy <= 365 && (doy == 365 ==> (r + 1) % 4 == 0)
    ensures var c := 365 * r + r / 4 + doy;
            && (4 * c + 3) / 1461 == r
            && c - 1461 * r / 4 == doy
  {
    var c := 365 * r + r / 4 + doy;
    assert 1461 * r / 4 == 365 * r + r / 4;
    assert 1461 * r <= 4 * c + 3 < 1461 * (r + 1);
  }

  lemma DateInYearExact(b: int, d: int, e: int, m: int)
    requires 0 <= b <= 14700 && 0 <= d < 100 && 0 <= e <= 365
    requires 0 <= m <= 11 && (5 * e + 2) / 153 == m
    ensures DateInYear(b, d, e)
         == Some(Date(b * 100 + d - 4800 + m / 10, m + 3 - 12 * (m / 10), e - (153 * m + 2) / 5 + 1))
  {
  }

  lemma DateInCenturyExact(b: int, r: int, doy: int)
    requires 0 <= b <= 14700
    requires 0 <= r < 100 && 0 <= doy <= 365 && (doy == 365 ==> (r + 1) % 4 == 0)
    ensures DateInCentury(b, 365 * r + r / 4 + doy) == DateInYear(b, r, doy)
  {
    hide DateInYear;
    YearOfDay(r, doy);
  }

  lemma YearMonthDayExact(y: int, doy: int)
    requires 0 <= y && 0 <= doy <= 365 && (doy == 365 ==> IsLeap(y + 1))
    requires DaysBeforeYear(y) + doy <= LAST_DAY - FIRST_DAY
    ensures YearMonthDay(DaysBeforeYear(y) + doy + FIRST_DAY)
         == DateInCentury(y / 100, 365 * (y % 100) + y % 100 / 4 + doy)
    ensures y / 100 <= 14700
  {
    hide DateInCentury;
    var a := DaysBeforeYear(y) + doy;
    LeapTermBounds(y);
    CenturyOfDay(y, doy);
    assert y / 100 * 146097 <= 4 * a + 3;
  }

  /** The second closed form undoes the first on every valid date it can reach. */
  lemma YearMonthDayOfDayCount(date: Date)
    requires ValidDate(date) && FromFirstDate(date)
    requires DayCount(date) <= LAST_DAY - FIRST_DAY
    ensures YearMonthDay(DayCount(date) + FIRST_DAY) == Some(date)
  {
    hide YearMonthDay, DateInCentury, DateInYear;
    MarchDayBounds(date);
    var y, doy, m := MarchYear(date), MarchDay(date), MarchMonth(date);
    YearMonthDayExact(y, doy);
    DateInCenturyExact(y / 100, y % 100, doy);
    DateInYearExact(y / 100, y % 100, doy, m);
    assert date == Date(y / 100 * 100 + y % 100 - 4800 + m / 10, m + 3 - 12 * (m / 10),
                        doy - (153 * m + 2) / 5 + 1);
  }

  // ---------------------------------------------------------- main results

  lemma {:induction false} NthDateCount(n: nat)
    ensures ValidDate(NthDate(n)) && FromFirstDate(NthDate(n)) && DayCount(NthDate(n)) == n
  {
    if n > 0 {
      NthDateCount(n - 1);
      NextDayCount(NthDate(n - 1));
    }
  }

  /** On every day from 1 March -4800 up to the last one whose arithmetic fits
      32 bits, `getYearMonthDay` gives the date reached by counting day by day
      through the calendar, and `getJulianDayNumber` leads back. */
  lemma ClosedFormsCountDays(julianDay: int)
    requires FIRST_DAY <= julianDay <= LAST_DAY
    ensures YearMonthDay(julianDay) == Some(NthDate(julianDay - FIRST_DAY))
    ensures ValidDate(NthDate(julianDay - FIRST_DAY))
    ensures JulianDayNumber(NthDate(julianDay - FIRST_DAY)) == Some(julianDay)
  {
    hide YearMonthDay, DateInCentury, DateInYear, JulianDayNumber, JulianDaySum;
    NthDateCount(julianDay - FIRST_DAY);
    YearMonthDayOfDayCount(NthDate(julianDay - FIRST_DAY));
    JulianDayIsDayCount(NthDate(julianDay - FIRST_DAY));
  }

  /** The last day is sharp: on every later `int` the arithmetic overflows. */
  lemma OverflowsExactlyAfterLastDay(julianDay: int)
    requires FIRST_DAY <= julianDay && FitsInt32(julianDay)
    ensures YearMonthDay(julianDay).None? <==> julianDay > LAST_DAY
  {
    if julianDay <= LAST_DAY {
      ClosedFormsCountDays(julianDay);
    }
  }

  /** Conversely every valid date from 1 March -4800 on that the day count can
      reach is the date of its own Julian day. */
  lemma EveryDateIsCounted(date: Date)
    requires ValidDate(date) && FromFirstDate(date)
    requires DayCount(date) <= LAST_DAY - FIRST_DAY
    ensures JulianDayNumber(date).Some?
    ensures FIRST_DAY <= JulianDayNumber(date).value <= LAST_DAY
    ensures YearMonthDay(JulianDayNumber(date).value) == Some(date)
  {
    hide YearMonthDay, DateInCentury, DateInYear, JulianDayNumber, JulianDaySum;
    JulianDayIsDayCount(date);
    YearMonthDayOfDayCount(date);
  }

  /** In particular every valid date of a year the header promises. */
  lemma PromisedYearsAreCounted(date: Date)
    requires ValidDate(date) && -4799 <= date.year <= 1400000
    ensures FromFirstDate(date) && DayCount(date) <= LAST_DAY - FIRST_DAY
  {
    MarchDayBounds(date);
    LeapTermBounds(MarchYear(date));
    assert DaysBeforeYear(MarchYear(date)) <= 366 * MarchYear(date);
  }

  /** The first date is sharp too: the day before it gets its Julian day. */
  lemma DayBeforeFirstCollides()
    ensures ValidDate(Date(-4800, 2, 29)) && NextDate(Date(-4800, 2, 29)) == FIRST_DATE
    ensures JulianDayNumber(Date(-4800, 2, 29)) == JulianDayNumber(FIRST_DATE) == Some(FIRST_DAY)
  {
    assert TruncDiv(-1, 4) == 0 && TruncDiv(-1, 100) == 0 && TruncDiv(-1, 400) == 0;
  }

  /** The constant the time code starts from. */
  const DAY_OF_1970_01_01: int := 2440588

  lemma UnixEpochDay()
    ensures JulianDayNumber(Date(1970, 1, 1)) == Some(DAY_OF_1970_01_01)
    ensures YearMonthDay(DAY_OF_1970_01_01) == Some(Date(1970, 1, 1))
  {
    hide YearMonthDay, DateInCentury, DateInYear, JulianDayNumber, JulianDaySum;
    PromisedYearsAreCounted(Date(1970, 1, 1));
    assert DayCount(Date(1970, 1, 1)) == DAY_OF_1970_01_01 - FIRST_DAY;
    JulianDayIsDayCount(Date(1970, 1, 1));
    YearMonthDayOfDayCount(Date(1970, 1, 1));
  }
}
