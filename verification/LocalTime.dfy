/** The instant at which Cairo's clocks show a given local date and time, found by correcting a
    first guess at most four times.  The zone is any function from instants (minutes since the
    epoch, UTC) to offsets in minutes. */
module LocalTime {
  import opened Wrappers
  import opened Calendar
  import opened DateText
  import opened LegalFormat

  type Zone = int -> int

  /** A wall clock reading, as minutes since the epoch if it were UTC. */
  function LocalOrdinal(zone: Zone, instant: int): int {
    instant + zone(instant)
  }

  datatype LocalInput = LocalInput(date: Civil, hour: int, minute: int)

  /** The match of `^(\d{4})-(\d{2})-(\d{2})T(\d{2}):(\d{2})$`. */
  function ParseLocal(s: string): Option<LocalInput> {
    if |s| == 16 && ParseDate(s[..10]).Some? && s[10] == 'T'
       && AllDigits(s[11..13]) && s[13] == ':' && AllDigits(s[14..])
    then Some(LocalInput(ParseDate(s[..10]).value, Number2(s[11..13]), Number2(s[14..])))
    else None
  }

  /** Date.UTC of the parts. */
  function UtcMinutes(v: LocalInput): int {
    MINUTES_PER_DAY * UtcDay(v.date) + 60 * v.hour + v.minute
  }

  /** The getUTC parts of a time value. */
  function UtcParts(t: int): LocalInput {
    LocalInput(FromDay(t / MINUTES_PER_DAY), t % MINUTES_PER_DAY / 60, t % 60)
  }

  /** The reading an input asks for, when it is a calendar time. */
  function Desired(value: string): Option<int> {
    match ParseLocal(value)
    case None => None
    case Some(v) => if UtcParts(UtcMinutes(v)) == v then Some(UtcMinutes(v)) else None
  }

  /** The correcting loop: stop when the clock shows the desired reading, or after `attempts`. */
  function Settle(zone: Zone, desired: int, candidate: int, attempts: nat): int
    decreases attempts
  {
    if attempts == 0 then candidate
    else
      var difference := desired - LocalOrdinal(zone, candidate);
      if difference == 0 then candidate else Settle(zone, desired, candidate + difference, attempts - 1)
  }

  function InstantOf(zone: Zone, desired: int): Option<int> {
    var candidate := Settle(zone, desired, desired, 4);
    if LocalOrdinal(zone, candidate) == desired then Some(candidate) else None
  }

  /** toISOString of a time value of the years 0 to 9999. */
  function IsoText(t: int): string {
    var v := UtcParts(t);
    FormatDate(v.date) + "T" + Digits2(v.hour) + ":" + Digits2(v.minute) + ":00.000Z"
  }

  function LocalToIso(zone: Zone, value: string): Option<string> {
    match Desired(value)
    case None => None
    case Some(desired) =>
      match InstantOf(zone, desired)
      case None => None
      case Some(instant) => Some(IsoText(instant))
  }

  method CairoLocalDateTimeToIso(zone: Zone, value: string) returns (result: Option<string>)
    ensures result == LocalToIso(zone, value)
  {
    hide UtcParts, UtcMinutes, ParseLocal, IsoText;
    var match_ := ParseLocal(value);
    if match_.None? || UtcParts(UtcMinutes(match_.value)) != match_.value {
      return None;
    }
    var desired := UtcMinutes(match_.value);
    var candidate := desired;
    var settled := false;
    for attempt := 0 to 4
      invariant settled ==> LocalOrdinal(zone, candidate) == desired
      invariant Settle(zone, desired, desired, 4)
                == if settled then candidate else Settle(zone, desired, candidate, 4 - attempt)
    {
      var difference := desired - LocalOrdinal(zone, candidate);
      candidate := candidate + difference;
      if difference == 0 {
        settled := true;
        break;
      }
    }
    if LocalOrdinal(zone, candidate) != desired {
      return None;
    }
    return Some(IsoText(candidate));
  }

  // ---------------------------------------------------------------- which instant

  /** Offsets are positive and at most `bound`; in the minutes from `desired - bound` to `desired`
      the zone has offset `before` up to `transition` and `after` from then on. */
  ghost predicate OneTransition(zone: Zone, desired: int, bound: int, transition: int, before: int, after: int) {
    && (forall t: int :: 0 < zone(t) <= bound)
    && (forall t: int :: desired - bound <= t <= desired ==> zone(t) == if t < transition then before else after)
  }

  /** `t` is the last instant that shows `reading`. */
  ghost predicate Latest(zone: Zone, reading: int, t: int) {
    LocalOrdinal(zone, t) == reading && forall u: int :: LocalOrdinal(zone, u) == reading ==> u <= t
  }

  /** With one transition in the window, the loop answers exactly when some instant shows the
      reading, and of the two instants of a repeated reading it answers the later one. */
  lemma FindsTheInstant(zone: Zone, desired: int, bound: int, transition: int, before: int, after: int)
    requires OneTransition(zone, desired, bound, transition, before, after)
    ensures InstantOf(zone, desired).Some? <==> exists t: int :: LocalOrdinal(zone, t) == desired
    ensures InstantOf(zone, desired).Some? ==> Latest(zone, desired, InstantOf(zone, desired).value)
  {
    var early, late := desired - before, desired - after;
    assert zone(desired) == if desired < transition then before else after;
    if desired < transition {
      WindowOffsets(zone, desired, bound, transition, before, after, early);
      SettlesAt(zone, desired, desired, 3, early);
    } else if late >= transition {
      WindowOffsets(zone, desired, bound, transition, before, after, late);
      SettlesAt(zone, desired, desired, 3, late);
    } else {
      WindowOffsets(zone, desired, bound, transition, before, after, late);
      assert zone(late) == before;
      assert late + (desired - LocalOrdinal(zone, late)) == early;
      assert desired + (desired - LocalOrdinal(zone, desired)) == late;
      if early < transition {
        EarlyInWindow(zone, desired, bound, transition, before, after);
        SettlesAt(zone, desired, late, 2, early);
        assert Settle(zone, desired, desired, 4) == Settle(zone, desired, late, 3);
      } else {
        EarlyInWindow(zone, desired, bound, transition, before, after);
        NeverSettles(zone, desired, early, late);
      }
    }
    forall t: int | LocalOrdinal(zone, t) == desired
      ensures (t == early && t < transition) || (t == late && t >= transition)
    {
      assert t == desired - zone(t);
      assert desired - bound <= t <= desired;
    }
  }

  lemma WindowOffsets(zone: Zone, desired: int, bound: int, transition: int, before: int, after: int, t: int)
    requires OneTransition(zone, desired, bound, transition, before, after)
    requires t == desired - zone(desired)
    ensures zone(t) == if t < transition then before else after
  {
  }

  lemma EarlyInWindow(zone: Zone, desired: int, bound: int, transition: int, before: int, after: int)
    requires OneTransition(zone, desired, bound, transition, before, after)
    requires transition <= desired && desired - after < transition
    ensures zone(desired - before) == if desired - before < transition then before else after
  {
    var late := desired - after;
    assert zone(desired) == after;
    assert zone(late) == before;
  }

  lemma SettlesAt(zone: Zone, desired: int, from: int, attempts: nat, to: int)
    requires from + (desired - LocalOrdinal(zone, from)) == to && LocalOrdinal(zone, to) == desired && attempts >= 1
    ensures Settle(zone, desired, from, attempts + 1) == to
  {
  }

  /** In a skipped reading the guesses alternate between the two sides of the gap. */
  lemma NeverSettles(zone: Zone, desired: int, early: int, late: int)
    requires LocalOrdinal(zone, early) != desired && LocalOrdinal(zone, late) != desired
    requires desired + (desired - LocalOrdinal(zone, desired)) == late && late != desired
    requires late + (desired - LocalOrdinal(zone, late)) == early
    requires early + (desired - LocalOrdinal(zone, early)) == late
    ensures Settle(zone, desired, desired, 4) == early
  {
    assert Settle(zone, desired, desired, 4) == Settle(zone, desired, late, 3);
    assert Settle(zone, desired, late, 3) == Settle(zone, desired, early, 2);
    assert Settle(zone, desired, early, 2) == Settle(zone, desired, late, 1);
  }

  /** The hypothesis of one transition cannot be dropped from `FindsTheInstant`: for some zone with bounded
      positive offsets and more transitions, the loop misses an instant that shows the reading. */
  lemma OneTransitionIsNeeded()
    ensures var zone := (t: int) => if t == 0 || t == -1 then 2 else if t == -2 then 1 else 3;
            && (forall t: int :: 0 < zone(t) <= 3)
            && LocalOrdinal(zone, -3) == 0
            && InstantOf(zone, 0).None?
  {
    var zone := (t: int) => if t == 0 || t == -1 then 2 else if t == -2 then 1 else 3;
    NeverSettles(zone, 0, -1, -2);
  }

  // ---------------------------------------------------------------- the text of inputs and answers

  function LocalText(v: LocalInput): string
    requires 0 <= v.hour < 24 && 0 <= v.minute < 60
  {
    FormatDate(v.date) + "T" + Digits2(v.hour) + ":" + Digits2(v.minute)
  }

  predicate CalendarTime(v: LocalInput) {
    RealDate(v.date) && 100 <= v.date.year <= 9999 && 0 <= v.hour < 24 && 0 <= v.minute < 60
  }

  /** The reading of a calendar time. */
  function Reading(v: LocalInput): int {
    MINUTES_PER_DAY * ToDay(v.date) + 60 * v.hour + v.minute
  }

  lemma PartsOfMinutes(t: int)
    ensures var v := UtcParts(t);
            && 0 <= v.hour < 24 && 0 <= v.minute < 60
            && RealDate(v.date) && t == Reading(v)
  {
    hide FromDay, ToDay, RealDate;
    DayRoundTrip(t / MINUTES_PER_DAY);
    assert t % MINUTES_PER_DAY % 60 == t % 60;
  }

  lemma MinutesOfParts(v: LocalInput)
    requires RealDate(v.date) && 0 <= v.hour < 24 && 0 <= v.minute < 60
    ensures UtcParts(Reading(v)) == v
  {
    hide FromDay, ToDay, RealDate;
    DateRoundTrip(v.date);
    DayAndTime(ToDay(v.date), v.hour, v.minute);
  }

  lemma DayPart(day: int, rest: int)
    requires 0 <= rest < MINUTES_PER_DAY
    ensures (MINUTES_PER_DAY * day + rest) / MINUTES_PER_DAY == day
    ensures (MINUTES_PER_DAY * day + rest) % MINUTES_PER_DAY == rest
  {
  }

  lemma HourPart(hours: int, minute: int)
    requires 0 <= minute < 60
    ensures (60 * hours + minute) / 60 == hours && (60 * hours + minute) % 60 == minute
  {
  }

  lemma DayAndTime(day: int, hour: int, minute: int)
    requires 0 <= hour < 24 && 0 <= minute < 60
    ensures var t := MINUTES_PER_DAY * day + 60 * hour + minute;
            t / MINUTES_PER_DAY == day && t % MINUTES_PER_DAY / 60 == hour && t % 60 == minute
  {
    var t := MINUTES_PER_DAY * day + 60 * hour + minute;
    DayPart(day, 60 * hour + minute);
    HourPart(hour, minute);
    HourPart(24 * day + hour, minute);
    assert t == MINUTES_PER_DAY * day + (60 * hour + minute) == 60 * (24 * day + hour) + minute;
  }

  lemma ParseLocalText(v: LocalInput)
    requires CalendarTime(v)
    ensures ParseLocal(LocalText(v)) == Some(v)
  {
    hide ParseDate, FormatDate, Digits2, Number2, AllDigits, RealDate;
    ParseFormat(v.date);
    FormatDateIs(v.date);
    Digits2Read(v.hour);
    Digits2Read(v.minute);
    var s := LocalText(v);
    assert s[..10] == FormatDate(v.date) && s[11..13] == Digits2(v.hour) && s[14..] == Digits2(v.minute);
    assert s[10] == 'T' && s[13] == ':';
  }

  lemma ReadingOfText(v: LocalInput)
    requires CalendarTime(v)
    ensures Desired(LocalText(v)) == Some(Reading(v))
  {
    hide UtcParts, ParseLocal, LocalText, RealDate, ToDay, FromDay, MakeDay;
    ParseLocalText(v);
    MinutesOfParts(v);
    assert UtcDay(v.date) == ToDay(v.date) by { ToDayIs(v.date); }
  }

  /** An input asks for a reading exactly when it is the text of a calendar time of the years 100
      to 9999, and the reading is that time's minute. */
  lemma DesiredExactly(value: string)
    ensures Desired(value).Some? <==> exists v :: CalendarTime(v) && value == LocalText(v)
    ensures forall v :: CalendarTime(v) && value == LocalText(v) ==> Desired(value) == Some(Reading(v))
  {
    hide UtcParts, ParseLocal, LocalText, RealDate, ToDay, FromDay, MakeDay, Reading;
    forall v | CalendarTime(v) && value == LocalText(v) ensures Desired(value) == Some(Reading(v)) { ReadingOfText(v); }
    if Desired(value).Some? {
      var w := ParseLocal(value).value;
      PartsOfMinutes(UtcMinutes(w));
      YearOfAcceptedDate(w);
      TextOfParsed(value);
      assert CalendarTime(w) && value == LocalText(w);
    }
  }

  lemma YearOfAcceptedDate(w: LocalInput)
    requires RealDate(w.date) && 0 <= w.hour < 24 && 0 <= w.minute < 60 && UtcParts(UtcMinutes(w)) == w
    ensures !(0 <= w.date.year <= 99)
  {
    hide FromDay, MakeDay, RealDate;
    var t := UtcMinutes(w);
    assert t / MINUTES_PER_DAY == UtcDay(w.date);
    if 0 <= w.date.year <= 99 { CenturyLater(w.date); }
  }

  lemma TextOfParsed(value: string)
    requires ParseLocal(value).Some? && RealDate(ParseLocal(value).value.date)
    requires var w := ParseLocal(value).value; 0 <= w.hour < 24 && 0 <= w.minute < 60
    ensures 0 <= ParseLocal(value).value.date.year <= 9999
    ensures value == LocalText(ParseLocal(value).value)
  {
    hide ParseDate, FormatDate, Digits2, Number2, AllDigits, RealDate;
    FormatParse(value[..10]);
    DigitsOfNumber2(value[11..13]);
    DigitsOfNumber2(value[14..]);
    assert value == value[..10] + [value[10]] + value[11..13] + [value[13]] + value[14..];
  }

  /** The answer's text determines the instant. */
  lemma IsoTextIsInjective(s: int, t: int)
    requires 0 <= UtcParts(s).date.year <= 9999 && 0 <= UtcParts(t).date.year <= 9999
    requires IsoText(s) == IsoText(t)
    ensures s == t
  {
    hide UtcParts, FormatDate, Digits2, Number2, AllDigits, RealDate, ToDay, ParseDate;
    PartsOfMinutes(s);
    PartsOfMinutes(t);
    var v, w := UtcParts(s), UtcParts(t);
    FormatDateIs(v.date);
    FormatDateIs(w.date);
    var a, b := IsoText(s), IsoText(t);
    assert a[..10] == FormatDate(v.date) && a[11..13] == Digits2(v.hour) && a[14..16] == Digits2(v.minute);
    assert b[..10] == FormatDate(w.date) && b[11..13] == Digits2(w.hour) && b[14..16] == Digits2(w.minute);
    ParseFormat(v.date);
    ParseFormat(w.date);
    Digits2Read(v.hour);
    Digits2Read(w.hour);
    Digits2Read(v.minute);
    Digits2Read(w.minute);
  }

  /** The text reads, up to its seconds, as the minute `t` of a clock at UTC. */
  predicate Names(text: string, t: int) {
    |text| == 24 && Desired(text[..16]) == Some(t) && text[16..] == ":00.000Z"
  }

  /** The minute has a date of the years 100 to 9999 at UTC. */
  predicate FourDigitMinute(t: int) {
    MINUTES_PER_DAY * FirstDay() <= t < MINUTES_PER_DAY * (LastDay() + 1)
  }

  /** The text of an instant names it. */
  lemma IsoTextNames(t: int)
    requires FourDigitMinute(t)
    ensures Names(IsoText(t), t)
  {
    hide UtcParts, Desired, FormatDate, Digits2, RealDate, ToDay, FirstDay, LastDay, FromDay;
    PartsOfMinutes(t);
    var v := UtcParts(t);
    InputRange(ToDay(v.date));
    DateRoundTrip(v.date);
    FormatDateIs(v.date);
    assert FirstDay() <= ToDay(v.date) <= LastDay();
    ReadingOfText(v);
    assert IsoText(t) == LocalText(v) + ":00.000Z";
    assert IsoText(t)[..16] == LocalText(v);
  }

  /** Whatever the zone, an answer is the text of an instant that shows the desired reading, and names it. */
  lemma AnswersAreRight(zone: Zone, value: string)
    requires LocalToIso(zone, value).Some?
    ensures exists instant: int :: && Desired(value) == Some(LocalOrdinal(zone, instant))
                                   && LocalToIso(zone, value) == Some(IsoText(instant))
                                   && (FourDigitMinute(instant) ==> Names(LocalToIso(zone, value).value, instant))
  {
    hide Desired, IsoText, Settle, FourDigitMinute, Names;
    var instant := InstantOf(zone, Desired(value).value).value;
    if FourDigitMinute(instant) { IsoTextNames(instant); }
    assert Desired(value) == Some(LocalOrdinal(zone, instant)) && LocalToIso(zone, value) == Some(IsoText(instant));
  }

  /** The whole conversion, for a calendar time: no answer exactly when no instant shows the time;
      otherwise the text that names the latest instant that does. */
  lemma ConversionIsExact(zone: Zone, v: LocalInput, bound: int, transition: int, before: int, after: int)
    requires CalendarTime(v)
    requires OneTransition(zone, Reading(v), bound, transition, before, after)
    ensures var answer := LocalToIso(zone, LocalText(v));
            && (answer.None? <==> forall t: int :: LocalOrdinal(zone, t) != Reading(v))
            && (forall t: int :: Latest(zone, Reading(v), t) ==> answer == Some(IsoText(t)))
            && (forall t: int :: Latest(zone, Reading(v), t) && MINUTES_PER_DAY * FirstDay() <= t ==>
                  Names(answer.value, t))
  {
    hide Desired, LocalText, Reading, Settle, IsoText, OneTransition, CalendarTime, InstantOf, Names, FirstDay, LastDay;
    ReadingOfText(v) by { assert CalendarTime(v); }
    FindsTheInstant(zone, Reading(v), bound, transition, before, after);
    forall t: int | Latest(zone, Reading(v), t) && MINUTES_PER_DAY * FirstDay() <= t
      ensures Names(IsoText(t), t)
    {
      assert t < Reading(v) by { OffsetsPositive(zone, Reading(v), bound, transition, before, after, t); }
      assert Reading(v) < MINUTES_PER_DAY * (LastDay() + 1) by { ReadingInRange(v); }
      IsoTextNames(t);
    }
  }

  lemma OffsetsPositive(zone: Zone, reading: int, bound: int, transition: int, before: int, after: int, t: int)
    requires OneTransition(zone, reading, bound, transition, before, after)
    ensures t < LocalOrdinal(zone, t)
  {
  }

  lemma ReadingInRange(v: LocalInput)
    requires CalendarTime(v)
    ensures Reading(v) < MINUTES_PER_DAY * (LastDay() + 1)
  {
    hide ToDay, RealDate, FromDay, FirstDay, LastDay;
    InputRange(ToDay(v.date));
    DateRoundTrip(v.date);
  }

  // ---------------------------------------------------------------- two summer mornings in Cairo

  /** Three hours ahead of UTC. */
  function Summer(): Zone {
    t => 180
  }

  lemma SummerInstant(desired: int)
    ensures InstantOf(Summer(), desired) == Some(desired - 180)
  {
    assert Settle(Summer(), desired, desired, 4) == Settle(Summer(), desired, desired - 180, 3);
  }

  lemma SummerConversion(v: LocalInput, w: LocalInput)
    requires CalendarTime(v) && CalendarTime(w) && Reading(w) == Reading(v) - 180
    ensures LocalToIso(Summer(), LocalText(v)) == Some(LocalText(w) + ":00.000Z")
  {
    hide Desired, Reading, UtcParts, FormatDate, Digits2, InstantOf, RealDate, Summer;
    ReadingOfText(v);
    SummerInstant(Reading(v));
    MinutesOfParts(w);
    assert IsoText(Reading(w)) == LocalText(w) + ":00.000Z";
  }

  lemma SummerTexts()
    ensures LocalText(LocalInput(Civil(2026, 6, 22), 0, 0)) == "2026-07-22T00:00"
    ensures LocalText(LocalInput(Civil(2026, 6, 21), 21, 0)) == "2026-07-21T21:00"
    ensures LocalText(LocalInput(Civil(2026, 6, 22), 10, 30)) == "2026-07-22T10:30"
    ensures LocalText(LocalInput(Civil(2026, 6, 22), 7, 30)) == "2026-07-22T07:30"
  {
    hide Digits2, FormatDate;
    SummerDigits();
    FormatDateIs(Civil(2026, 6, 21));
    FormatDateIs(Civil(2026, 6, 22));
  }

  lemma SummerDigits()
    ensures Digits2(0) == "00" && Digits2(7) == "07" && Digits2(10) == "10" && Digits2(20) == "20"
    ensures Digits2(21) == "21" && Digits2(22) == "22" && Digits2(26) == "26" && Digits2(30) == "30"
  {
  }

  /** With Cairo three hours ahead, midnight of 22 July 2026 is nine in the evening before, and half past ten
      is half past seven. */
  lemma SummerMornings()
    ensures LocalToIso(Summer(), "2026-07-22T00:00") == Some("2026-07-21T21:00:00.000Z")
    ensures LocalToIso(Summer(), "2026-07-22T10:30") == Some("2026-07-22T07:30:00.000Z")
  {
    hide LocalToIso, LocalText, ToDay;
    var first, second := Civil(2026, 6, 21), Civil(2026, 6, 22);
    SummerTexts();
    NextDateIsNextDay(first);
    SummerConversion(LocalInput(second, 0, 0), LocalInput(first, 21, 0));
    SummerConversion(LocalInput(second, 10, 30), LocalInput(second, 7, 30));
    assert "2026-07-21T21:00" + ":00.000Z" == "2026-07-21T21:00:00.000Z";
    assert "2026-07-22T07:30" + ":00.000Z" == "2026-07-22T07:30:00.000Z";
  }
}
