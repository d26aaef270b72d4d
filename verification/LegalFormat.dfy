/** Cairo date inputs: adding days to one, and finding the instant a local date and time names.

    Time values are counted in whole minutes; the inputs hold no smaller unit. */
module LegalFormat {
  import opened Wrappers
  import opened Calendar
  import opened DateText

  const MINUTES_PER_DAY := 1440
  /** TimeClip: no time value lies more than this many days from the epoch. */
  const MAX_DAY := 100_000_000

  /** A JavaScript number argument, as far as Number.isInteger tells. */
  datatype Amount = Whole(n: int) | NotWhole

  /** The day of Date.UTC, which takes a year 0 to 99 for one of the twentieth century. */
  function UtcDay(c: Civil): int {
    MakeDay(if 0 <= c.year <= 99 then 1900 + c.year else c.year, c.month, c.day)
  }

  /** The day a date input denotes: a real Gregorian date that Date.UTC takes at its word. */
  function DayOfInput(value: string): Option<int> {
    match ParseDate(value)
    case None => None
    case Some(c) => if FromDay(UtcDay(c)) == c then Some(UtcDay(c)) else None
  }

  /** The text of a day; an invalid Date prints its three parts as NaN. */
  function TextOfDay(day: int): string {
    if -MAX_DAY <= day <= MAX_DAY then FormatDate(FromDay(day)) else "0NaN-NaN-NaN"
  }

  function AddDays(value: string, days: Amount): Option<string> {
    if days.NotWhole? then None
    else match DayOfInput(value)
      case None => None
      case Some(day) => Some(TextOfDay(day + days.n))
  }

  /** A Date object at midnight UTC: its day, or None for an invalid date. */
  class UtcDate {
    var day: Option<int>

    constructor (day: int)
      ensures this.day == Clip(day)
    {
      this.day := Clip(day);
    }

    static function Clip(day: int): Option<int> {
      if -MAX_DAY <= day <= MAX_DAY then Some(day) else None
    }

    method SetUtcDate(date: int)
      requires day.Some?
      modifies this
      ensures day == Clip(MakeDay(FromDay(old(day).value).year, FromDay(old(day).value).month, date))
    {
      var c := FromDay(day.value);
      day := Clip(MakeDay(c.year, c.month, date));
    }
  }

  lemma ShiftDate(day: int, days: int)
    ensures var c := FromDay(day); MakeDay(c.year, c.month, c.day + days) == day + days
  {
    hide YearFromDay, DayFromYear, Leap, DaysBefore;
    DayRoundTrip(day);
  }

  lemma InputDaysInRange(c: Civil)
    requires 0 <= c.year < 10000 && -1 <= c.month <= 98 && 0 <= c.day <= 99
    ensures -MAX_DAY <= UtcDay(c) <= MAX_DAY
  {
  }

  method AddCairoDateInputDays(value: string, days: Amount) returns (result: Option<string>)
    ensures result == AddDays(value, days)
  {
    hide MakeDay, FromDay, Number4, Number2, FormatDate;
    var match_ := ParseDate(value);
    if match_.None? || days.NotWhole? {
      return None;
    }
    var c := match_.value;
    DigitsOfNumber4(value[..4]);
    DigitsOfNumber2(value[5..7]);
    DigitsOfNumber2(value[8..]);
    InputDaysInRange(c);
    var ordinal := new UtcDate(UtcDay(c));
    if FromDay(ordinal.day.value) != c {
      return None;
    }
    ShiftDate(ordinal.day.value, days.n);
    ordinal.SetUtcDate(FromDay(ordinal.day.value).day + days.n);
    if ordinal.day.None? {
      return Some("0NaN-NaN-NaN");
    }
    return Some(FormatDate(FromDay(ordinal.day.value)));
  }

  // ---------------------------------------------------------------- adding days

  /** First and last day of the years whose dates an input can hold. */
  function FirstDay(): int { ToDay(Civil(100, 0, 1)) }
  function LastDay(): int { ToDay(Civil(9999, 11, 31)) }

  lemma InputRange(day: int)
    ensures -MAX_DAY < FirstDay() && LastDay() < MAX_DAY
    ensures FirstDay() <= day <= LastDay() <==> 100 <= FromDay(day).year <= 9999
  {
    RangeEnds();
    hide FromDay, ToDay, DaysInMonth;
    DayRoundTrip(day);
    DateOrderIsDayOrder(FromDay(day), Civil(100, 0, 1));
    DateOrderIsDayOrder(Civil(9999, 11, 31), FromDay(day));
  }

  lemma RangeEnds()
    ensures -MAX_DAY < FirstDay() && LastDay() < MAX_DAY
    ensures RealDate(Civil(100, 0, 1)) && RealDate(Civil(9999, 11, 31))
    ensures forall c :: RealDate(c) ==> c.day <= 31 && c.month <= 11 && c.day >= 1 && c.month >= 0
  {
  }

  /** An input is accepted exactly when it is the text of a real date of the years 100 to 9999,
      and it then denotes that date's day. */
  lemma AcceptedExactly(value: string, c: Civil)
    requires RealDate(c)
    ensures 100 <= c.year <= 9999 ==> DayOfInput(FormatDate(c)) == Some(ToDay(c))
    ensures !(100 <= c.year <= 9999) ==> DayOfInput(FormatDate(c)).None?
    ensures DayOfInput(value).Some? ==>
              && 100 <= FromDay(DayOfInput(value).value).year <= 9999
              && value == FormatDate(FromDay(DayOfInput(value).value))
  {
    hide FromDay, MakeDay, ParseDate, FormatDate;
    if 0 <= c.year <= 9999 {
      ParseFormat(c);
      DateRoundTrip(c);
      if c.year <= 99 {
        DayRoundTrip(UtcDay(c));
        CenturyLater(c);
      }
    } else {
      OddYearsDoNotParse(c);
    }
    if DayOfInput(value).Some? {
      var d := ParseDate(value).value;
      DayRoundTrip(UtcDay(d));
      FormatParse(value);
      if d.year <= 99 { CenturyLater(d); }
    }
  }

  /** Date.UTC moves a year 0 to 99 away from itself. */
  lemma CenturyLater(c: Civil)
    requires RealDate(c) && 0 <= c.year <= 99
    ensures FromDay(UtcDay(c)) != c
  {
    hide FromDay, ToDay, MakeDay;
    var day := UtcDay(c);
    if FromDay(day) == c {
      DayRoundTrip(day);
      assert day == MakeDay(1900 + c.year, c.month, c.day);
      assert ToDay(c) == MakeDay(c.year, c.month, c.day) by { ToDayIs(c); }
      TwentiethCentury(c);
    }
  }

  lemma ToDayIs(c: Civil)
    ensures ToDay(c) == MakeDay(c.year, c.month, c.day)
  {
  }

  lemma TwentiethCentury(c: Civil)
    requires RealDate(c)
    ensures MakeDay(1900 + c.year, c.month, c.day) > MakeDay(c.year, c.month, c.day)
  {
    hide DayFromYear, Leap;
    YearsGrow(c.year, 1900 + c.year);
    assert c.month % 12 == c.month && c.month / 12 == 0;
  }

  /** Every day of the accepted years has a text that denotes it; no other day's text is accepted. */
  lemma TextDenotesDay(day: int)
    ensures FirstDay() <= day <= LastDay() ==> DayOfInput(TextOfDay(day)) == Some(day)
    ensures !(FirstDay() <= day <= LastDay()) ==> DayOfInput(TextOfDay(day)).None?
  {
    hide FromDay, MakeDay, DayOfInput, FormatDate;
    InputRange(day);
    DayRoundTrip(day);
    AcceptedExactly("", FromDay(day));
    assert DayOfInput("0NaN-NaN-NaN").None? by { NaNRejected(); }
  }

  lemma NaNRejected()
    ensures DayOfInput("0NaN-NaN-NaN").None?
  {
    assert |"0NaN-NaN-NaN"| == 12;
  }

  lemma InputDayInRange(value: string)
    requires DayOfInput(value).Some?
    ensures FirstDay() <= DayOfInput(value).value <= LastDay()
    ensures TextOfDay(DayOfInput(value).value) == value
  {
    hide FromDay, MakeDay, DayOfInput, FormatDate, FirstDay, LastDay;
    var day := DayOfInput(value).value;
    DayRoundTrip(day);
    AcceptedExactly(value, FromDay(day));
    InputRange(day);
  }

  /** A result exists exactly for a whole amount and the text of a real date of the years 100 to 9999. */
  lemma AddDaysDomain(value: string, days: Amount)
    ensures AddDays(value, days).Some?
            <==> days.Whole? && exists c :: RealDate(c) && 100 <= c.year <= 9999 && value == FormatDate(c)
  {
    hide FromDay, MakeDay, DayOfInput, FormatDate, RealDate, ToDay;
    if DayOfInput(value).Some? {
      DayRoundTrip(DayOfInput(value).value);
      AcceptedExactly(value, FromDay(DayOfInput(value).value));
    }
    if c :| RealDate(c) && 100 <= c.year <= 9999 && value == FormatDate(c) {
      AcceptedExactly(value, c);
    }
  }

  /** Adding days is an action of the integers: two additions are one, whether or not the last
      result is still an input, as long as the middle one is; and if the middle result left the
      years 100 to 9999, the second addition has no result. */
  lemma AddDaysActs(value: string, a: int, b: int)
    requires DayOfInput(value).Some?
    ensures var day := DayOfInput(value).value;
            var middle := AddDays(value, Whole(a));
            && middle.Some?
            && AddDays(middle.value, Whole(b))
               == if FirstDay() <= day + a <= LastDay() then AddDays(value, Whole(a + b)) else None
  {
    hide DayOfInput, TextOfDay, FirstDay, LastDay;
    TextDenotesDay(DayOfInput(value).value + a);
  }

  /** Adding nothing changes nothing, and subtracting undoes adding while the years allow. */
  lemma AddDaysUndoes(value: string, a: int)
    requires DayOfInput(value).Some?
    ensures AddDays(value, Whole(0)) == Some(value)
    ensures FirstDay() <= DayOfInput(value).value + a <= LastDay()
            ==> AddDays(AddDays(value, Whole(a)).value, Whole(-a)) == Some(value)
  {
    hide DayOfInput, TextOfDay, FirstDay, LastDay;
    InputDayInRange(value);
    AddDaysActs(value, a, -a);
  }

  /** Text order of date inputs is the order of the days they denote. */
  lemma InputOrderIsDayOrder(v: string, w: string)
    requires DayOfInput(v).Some? && DayOfInput(w).Some?
    ensures TextBefore(v, w) <==> DayOfInput(v).value < DayOfInput(w).value
  {
    hide FromDay, MakeDay, DayOfInput, FormatDate, TextBefore, RealDate, ToDay;
    var a, b := FromDay(DayOfInput(v).value), FromDay(DayOfInput(w).value);
    DayRoundTrip(DayOfInput(v).value);
    DayRoundTrip(DayOfInput(w).value);
    AcceptedExactly(v, a);
    AcceptedExactly(w, b);
    TextOrderIsDateOrder(a, b);
    DateOrderIsDayOrder(a, b);
  }

  /** Adding n days to an input gives the text of the day n days on: the input that denotes it, if its year
      allows, and one day on is the next date of the calendar. */
  lemma AddDaysCounts(c: Civil, n: int)
    requires RealDate(c) && 100 <= c.year <= 9999
    ensures var result := AddDays(FormatDate(c), Whole(n));
            && result.Some?
            && DayOfInput(result.value) == if FirstDay() <= ToDay(c) + n <= LastDay() then Some(ToDay(c) + n) else None
    ensures AddDays(FormatDate(c), Whole(1)) == Some(FormatDate(NextDate(c)))
  {
    hide FromDay, ToDay, MakeDay, UtcDay, DayOfInput, ParseDate, FormatDate, FirstDay, LastDay, RealDate, NextDate;
    AcceptedExactly("", c);
    TextDenotesDay(ToDay(c) + n);
    NextDateIsNextDay(c);
    DateRoundTrip(NextDate(c));
    assert -MAX_DAY <= ToDay(c) + 1 <= MAX_DAY by { NextInRange(c); }
  }

  lemma NextInRange(c: Civil)
    requires RealDate(c) && 100 <= c.year <= 9999
    ensures -MAX_DAY <= ToDay(c) + 1 <= MAX_DAY
  {
    hide FromDay, ToDay, RealDate, FirstDay, LastDay;
    InputRange(ToDay(c));
    DateRoundTrip(c);
  }

  /** 28 February is followed by 29 February in 2024 and by 1 March in 2026. */
  lemma EndOfFebruary()
    ensures AddDays("2024-02-28", Whole(1)) == Some("2024-02-29")
    ensures AddDays("2026-02-28", Whole(1)) == Some("2026-03-01")
  {
    hide AddDays, FormatDate;
    FebruaryTexts();
    AddDaysCounts(Civil(2024, 1, 28), 1);
    AddDaysCounts(Civil(2026, 1, 28), 1);
  }

  lemma FebruaryTexts()
    ensures FormatDate(Civil(2024, 1, 28)) == "2024-02-28" && FormatDate(Civil(2024, 1, 29)) == "2024-02-29"
    ensures FormatDate(Civil(2026, 1, 28)) == "2026-02-28" && FormatDate(Civil(2026, 2, 1)) == "2026-03-01"
  {
    hide Digits2, FormatDate;
    FebruaryDigits();
    FormatDateIs(Civil(2024, 1, 28));
    FormatDateIs(Civil(2024, 1, 29));
    FormatDateIs(Civil(2026, 1, 28));
    FormatDateIs(Civil(2026, 2, 1));
  }

  lemma FebruaryDigits()
    ensures Digits2(1) == "01" && Digits2(2) == "02" && Digits2(3) == "03" && Digits2(20) == "20"
    ensures Digits2(24) == "24" && Digits2(26) == "26" && Digits2(28) == "28" && Digits2(29) == "29"
  {
  }

  lemma DigitTexts()
    ensures Digits2(0) == "00" && Digits2(1) == "01" && Digits2(12) == "12"
    ensures Digits2(31) == "31" && Digits2(99) == "99"
  {
  }

  /** The last day of the year 99 is a real date whose text is not an input. */
  lemma FirstCenturyIsRejected()
    ensures FormatDate(Civil(99, 11, 31)) == "0099-12-31" && RealDate(Civil(99, 11, 31))
    ensures DayOfInput("0099-12-31").None?
  {
    hide FromDay, UtcDay, ToDay, DayOfInput, Digits2, FormatDate;
    FormatDateIs(Civil(99, 11, 31));
    DigitTexts();
    AcceptedExactly("", Civil(99, 11, 31));
  }

  lemma LastText()
    ensures FormatDate(Civil(9999, 11, 31)) == "9999-12-31"
  {
    hide Digits2, FormatDate;
    FormatDateIs(Civil(9999, 11, 31));
    DigitTexts();
  }

  lemma TextAfterLast()
    ensures FormatDate(Civil(10000, 0, 1)) == "10000-01-01"
  {
    hide Digits2, PadStart, DecimalNat;
    DigitTexts();
    Pad2Is(1);
    DecimalSplits(10000);
    DecimalSplits(100);
    assert DecimalNat(1) == "1" by { OneText(); }
    var year := "1" + Digits2(0) + Digits2(0);
    assert Decimal(10000) == year && year == "10000";
    assert PadStart(year, 4) == year by { LongStays(year); }
  }

  lemma OneText()
    ensures DecimalNat(1) == "1"
  {
  }

  lemma LongStays(s: string)
    requires |s| >= 4
    ensures PadStart(s, 4) == s
  {
  }

  lemma AfterLast()
    ensures NextDate(Civil(9999, 11, 31)) == Civil(10000, 0, 1) && RealDate(Civil(10000, 0, 1))
    ensures -MAX_DAY <= ToDay(Civil(10000, 0, 1)) <= MAX_DAY
  {
  }

  /** The day after the last of the year 9999 has a text, and the text is not an input. */
  lemma YearTenThousandIsNotRead()
    ensures AddDays("9999-12-31", Whole(1)) == Some("10000-01-01")
    ensures DayOfInput("10000-01-01").None?
  {
    hide FromDay, ToDay, MakeDay, UtcDay, DayOfInput, ParseDate, FormatDate;
    var last, first := Civil(9999, 11, 31), Civil(10000, 0, 1);
    RangeEnds();
    LastText();
    TextAfterLast();
    AfterLast();
    AcceptedExactly("", last);
    AcceptedExactly("", first);
    DateRoundTrip(last);
    DateRoundTrip(first);
    NextDateIsNextDay(last);
  }
}
