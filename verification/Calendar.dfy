/** Proleptic Gregorian days, as section 21.4.1 of ECMA-262 computes them, against the calendar
    rule they must agree with.  Day 0 is 1 January 1970; months count from 0. */
module Calendar {

  datatype Civil = Civil(year: int, month: int, day: int)

  predicate Leap(year: int) {
    year % 4 == 0 && (year % 100 != 0 || year % 400 == 0)
  }

  function DaysInMonth(year: int, month: int): int {
    if month == 1 then (if Leap(year) then 29 else 28)
    else if month in {3, 5, 8, 10} then 30
    else 31
  }

  predicate RealDate(c: Civil) {
    0 <= c.month <= 11 && 1 <= c.day <= DaysInMonth(c.year, c.month)
  }

  /** DayFromYear. */
  function DayFromYear(year: int): int {
    365 * (year - 1970) + (year - 1969) / 4 - (year - 1901) / 100 + (year - 1601) / 400
  }

  /** Days of the year before the month begins; the last entry is the year's length. */
  function DaysBefore(month: int, leap: bool): int
    requires 0 <= month <= 12
  {
    [0, 31, 59, 90, 120, 151, 181, 212, 243, 273, 304, 334, 365][month] + (if leap && month >= 2 then 1 else 0)
  }

  /** MakeDay, for any integer month and date. */
  function MakeDay(year: int, month: int, date: int): int {
    var y := year + month / 12;
    DayFromYear(y) + DaysBefore(month % 12, Leap(y)) + date - 1
  }

  function ToDay(c: Civil): int {
    MakeDay(c.year, c.month, c.day)
  }

  lemma YearLength(year: int)
    ensures DayFromYear(year + 1) == DayFromYear(year) + (if Leap(year) then 366 else 365)
  {
    Fourth(year);
    Hundredth(year);
    FourHundredth(year);
    Multiples(year);
  }

  lemma Fourth(year: int)
    ensures (year + 1 - 1969) / 4 == (year - 1969) / 4 + (if year % 4 == 0 then 1 else 0)
  {
  }

  lemma Hundredth(year: int)
    ensures (year + 1 - 1901) / 100 == (year - 1901) / 100 + (if year % 100 == 0 then 1 else 0)
  {
  }

  lemma FourHundredth(year: int)
    ensures (year + 1 - 1601) / 400 == (year - 1601) / 400 + (if year % 400 == 0 then 1 else 0)
  {
  }

  lemma Multiples(year: int)
    ensures year % 400 == 0 ==> year % 100 == 0
    ensures year % 100 == 0 ==> year % 4 == 0
  {
    if year % 400 == 0 { MultipleOfHundred(4 * (year / 400)); }
    if year % 100 == 0 { MultipleOfFour(25 * (year / 100)); }
  }

  lemma MultipleOfHundred(k: int)
    ensures (100 * k) % 100 == 0
  {
  }

  lemma MultipleOfFour(k: int)
    ensures (4 * k) % 4 == 0
  {
  }

  lemma {:induction false} YearsGrow(a: int, b: int)
    requires a <= b
    ensures DayFromYear(a) + 365 * (b - a) <= DayFromYear(b)
    decreases b - a
  {
    hide DayFromYear;
    if a == b {
    } else {
      YearLength(a);
      YearsGrow(a + 1, b);
    }
  }

  /** The largest year from `year` on that begins no later than `day`. */
  function YearUp(day: int, year: int): (y: int)
    requires DayFromYear(year) <= day
    ensures DayFromYear(y) <= day < DayFromYear(y + 1)
    decreases day - DayFromYear(year)
  {
    YearLength(year);
    if DayFromYear(year + 1) > day then year else YearUp(day, year + 1)
  }

  /** A year up to `year` that begins no later than `day`. */
  function YearDown(day: int, year: int): (y: int)
    ensures DayFromYear(y) <= day
    decreases DayFromYear(year) - day
  {
    YearLength(year - 1);
    if DayFromYear(year) <= day then year else YearDown(day, year - 1)
  }

  /** YearFromTime: the largest year that begins no later than the day. */
  function YearFromDay(day: int): (y: int)
    ensures DayFromYear(y) <= day < DayFromYear(y + 1)
  {
    YearUp(day, YearDown(day, 1970))
  }

  /** MonthFromTime. */
  function MonthFromDay(dayInYear: int, leap: bool): (m: int)
    requires 0 <= dayInYear < DaysBefore(12, leap)
    ensures 0 <= m <= 11 && DaysBefore(m, leap) <= dayInYear < DaysBefore(m + 1, leap)
  {
    if dayInYear < DaysBefore(1, leap) then 0
    else if dayInYear < DaysBefore(2, leap) then 1
    else if dayInYear < DaysBefore(3, leap) then 2
    else if dayInYear < DaysBefore(4, leap) then 3
    else if dayInYear < DaysBefore(5, leap) then 4
    else if dayInYear < DaysBefore(6, leap) then 5
    else if dayInYear < DaysBefore(7, leap) then 6
    else if dayInYear < DaysBefore(8, leap) then 7
    else if dayInYear < DaysBefore(9, leap) then 8
    else if dayInYear < DaysBefore(10, leap) then 9
    else if dayInYear < DaysBefore(11, leap) then 10
    else 11
  }

  function FromDay(day: int): Civil {
    var year := YearFromDay(day);
    YearLength(year);
    var dayInYear := day - DayFromYear(year);
    var month := MonthFromDay(dayInYear, Leap(year));
    Civil(year, month, dayInYear - DaysBefore(month, Leap(year)) + 1)
  }

  lemma MonthLength(year: int, month: int)
    requires 0 <= month <= 11
    ensures DaysBefore(month + 1, Leap(year)) == DaysBefore(month, Leap(year)) + DaysInMonth(year, month)
  {
  }

  /** Every day number is the number of the real date it denotes. */
  lemma DayRoundTrip(day: int)
    ensures RealDate(FromDay(day)) && ToDay(FromDay(day)) == day
  {
    hide YearFromDay, DayFromYear, Leap, DaysBefore, DaysInMonth;
    var year := YearFromDay(day);
    YearLength(year);
    MonthLength(year, FromDay(day).month);
  }

  lemma MonthUnique(leap: bool, d: int, m: int, n: int)
    requires 0 <= m <= 11 && DaysBefore(m, leap) <= d < DaysBefore(m + 1, leap)
    requires 0 <= n <= 11 && DaysBefore(n, leap) <= d < DaysBefore(n + 1, leap)
    ensures m == n
  {
  }

  lemma YearUnique(day: int, a: int, b: int)
    requires DayFromYear(a) <= day < DayFromYear(a + 1)
    requires DayFromYear(b) <= day < DayFromYear(b + 1)
    ensures a == b
  {
    hide DayFromYear;
    if a < b { YearsGrow(a + 1, b); }
    if b < a { YearsGrow(b + 1, a); }
  }

  lemma DaysBeforeBounds(month: int, leap: bool)
    requires 0 <= month <= 11
    ensures 0 <= DaysBefore(month, leap) < DaysBefore(month + 1, leap) <= DaysBefore(12, leap)
    ensures DaysBefore(12, leap) == if leap then 366 else 365
  {
  }

  /** Every real date is the date of its day number. */
  lemma DateRoundTrip(c: Civil)
    requires RealDate(c)
    ensures FromDay(ToDay(c)) == c
  {
    hide YearFromDay, DayFromYear, Leap, DaysBefore, DaysInMonth, MonthFromDay;
    var leap := Leap(c.year);
    var day := ToDay(c);
    MonthLength(c.year, c.month);
    DaysBeforeBounds(c.month, leap);
    YearLength(c.year);
    YearUnique(day, c.year, YearFromDay(day));
    MonthUnique(leap, day - DayFromYear(c.year), c.month, FromDay(day).month);
  }

  /** The calendar rule: the date after `c`. */
  function NextDate(c: Civil): Civil {
    if c.day < DaysInMonth(c.year, c.month) then Civil(c.year, c.month, c.day + 1)
    else if c.month < 11 then Civil(c.year, c.month + 1, 1)
    else Civil(c.year + 1, 0, 1)
  }

  lemma NextDateIsNextDay(c: Civil)
    requires RealDate(c)
    ensures RealDate(NextDate(c)) && ToDay(NextDate(c)) == ToDay(c) + 1
  {
    hide DayFromYear;
    MonthLength(c.year, c.month);
    YearLength(c.year);
  }

  /** The day arithmetic is the calendar: day 0 is 1 January 1970, and counting one day on is
      turning one page. */
  lemma DaysFollowTheCalendar(day: int)
    ensures FromDay(0) == Civil(1970, 0, 1)
    ensures FromDay(day + 1) == NextDate(FromDay(day))
  {
    hide YearFromDay, DayFromYear, DaysBefore, DaysInMonth, MonthFromDay, FromDay, MakeDay, NextDate, Leap;
    assert ToDay(Civil(1970, 0, 1)) == 0 && RealDate(Civil(1970, 0, 1)) by { Epoch(); }
    DateRoundTrip(Civil(1970, 0, 1));
    DayRoundTrip(day);
    NextDateIsNextDay(FromDay(day));
    DateRoundTrip(NextDate(FromDay(day)));
  }

  lemma EpochYear()
    ensures DayFromYear(1970) == 0
  {
  }

  lemma Epoch()
    ensures ToDay(Civil(1970, 0, 1)) == 0 && RealDate(Civil(1970, 0, 1))
  {
    hide DayFromYear, Leap;
    EpochYear();
  }

  predicate Earlier(a: Civil, b: Civil) {
    a.year < b.year || (a.year == b.year && (a.month < b.month || (a.month == b.month && a.day < b.day)))
  }

  lemma MonthsGrow(year: int, m: int, n: int)
    requires 0 <= m < n <= 11
    ensures DaysBefore(m, Leap(year)) + DaysInMonth(year, m) <= DaysBefore(n, Leap(year))
  {
  }

  lemma EarlierMeansFewerDays(a: Civil, b: Civil)
    requires RealDate(a) && RealDate(b) && Earlier(a, b)
    ensures ToDay(a) < ToDay(b)
  {
    hide DayFromYear, DaysBefore, DaysInMonth, Leap;
    if a.year < b.year {
      YearLength(a.year);
      YearsGrow(a.year + 1, b.year);
      MonthLength(a.year, a.month);
      DaysBeforeBounds(a.month, Leap(a.year));
      DaysBeforeBounds(b.month, Leap(b.year));
    } else if a.month < b.month {
      MonthsGrow(a.year, a.month, b.month);
    }
  }

  /** Dates are ordered as their day numbers are. */
  lemma DateOrderIsDayOrder(a: Civil, b: Civil)
    requires RealDate(a) && RealDate(b)
    ensures Earlier(a, b) <==> ToDay(a) < ToDay(b)
  {
    hide RealDate, ToDay;
    if Earlier(a, b) { EarlierMeansFewerDays(a, b); }
    if Earlier(b, a) { EarlierMeansFewerDays(b, a); }
  }
}
