/** Calendar dates from day numbers (days since 1970-01-01), and back. */
module Calendar {
  import opened Arithmetic

  datatype Date = Date(year: int, month: int, day: int)

  datatype DateTime = DateTime(date: Date, hour: int, minute: int, second: int, weekday: int)

  // The Gregorian calendar.

  predicate IsLeap(year: int) { year % 4 == 0 && (year % 100 != 0 || year % 400 == 0) }

  function DaysInMonth(year: int, month: int): int {
    if month == 2 then (if IsLeap(year) then 29 else 28)
    else if month in {4, 6, 9, 11} then 30
    else 31
  }

  predicate IsDate(date: Date) {
    1 <= date.month <= 12 && 1 <= date.day <= DaysInMonth(date.year, date.month)
  }

  function Tomorrow(date: Date): Date {
    if date.day < DaysInMonth(date.year, date.month) then date.(day := date.day + 1)
    else if date.month < 12 then Date(date.year, date.month + 1, 1)
    else Date(date.year + 1, 1, 1)
  }

  /** The date `n` days after 1970-01-01, counted day by day. */
  function Counted(n: nat): Date { if n == 0 then Date(1970, 1, 1) else Tomorrow(Counted(n - 1)) }

  // The conversions, by eras of 400 years from March on.

  /** Days from 1970-01-01 to a date. Month 13 is January of the next year. */
  function DaysFromCivil(year: int, month: int, day: int): int {
    var (year, month) := if month > 12 then (year + 1, month - 12) else (year, month);
    var year := if month <= 2 then year - 1 else year;
    var era, yoe := year / 400, year % 400;
    var mp := (month + 9) % 12;
    var doy := (153 * mp + 2) / 5 + day - 1;
    var doe := yoe * 365 + yoe / 4 - yoe / 100 + doy;
    era * 146_097 + doe - 719_468
  }

  function YearOfEra(doe: int): int { (doe - doe / 1460 + doe / 36_524 - doe / 146_096) / 365 }

  function CivilFromDays(days: int): Date {
    var z := days + 719_468;
    var era, doe := z / 146_097, z % 146_097;
    var yoe := YearOfEra(doe);
    var doy := doe - (365 * yoe + yoe / 4 - yoe / 100);
    var mp := (5 * doy + 2) / 153;
    var day := doy - (153 * mp + 2) / 5 + 1;
    var month := if mp < 10 then mp + 3 else mp - 9;
    Date(yoe + era * 400 + (if month <= 2 then 1 else 0), month, day)
  }

  /** `doy` is a day of year `yoe` of an era, counted from March. */
  predicate InYear(yoe: int, doy: int) {
    0 <= yoe < 400 && 0 <= doy <= 365 && (doy == 365 ==> IsLeap(yoe + 1))
  }

  function FirstOfYear(yoe: int): int { 365 * yoe + yoe / 4 - yoe / 100 }

  /** Centuries, spans of four years, years and days in a day of an era, as the divisions find them. */
  lemma Divisions(c: int, q: int, a: int, doy: int)
    requires 0 <= c < 4 && 0 <= q < 25 && 0 <= a < 4 && 0 <= doy <= 365
             && (doy == 365 ==> a == 3 && (q != 24 || c == 3))
    ensures var doe, last := 36_524 * c + 1461 * q + 365 * a + doy, if c == 3 && q == 24 && a == 3 && doy == 365 then 1
            else 0;
            && doe / 36_524 == c + last && doe / 146_096 == last
            && doe / 1460 == 25 * c + q + (if 24 * c + q + 365 * a + doy >= 1460 then 1 else 0)
  {
  }

  /** A year of an era as centuries, spans of four years and years. */
  lemma YearParts(yoe: int) returns (c: int, q: int, a: int)
    requires 0 <= yoe < 400
    ensures 0 <= c < 4 && 0 <= q < 25 && 0 <= a < 4 && yoe == 100 * c + 4 * q + a
    ensures yoe / 100 == c && yoe / 4 == 25 * c + q
    ensures IsLeap(yoe + 1) <==> a == 3 && (q != 24 || c == 3)
    ensures FirstOfYear(yoe) == 36_524 * c + 1461 * q + 365 * a
  {
    c, q, a := yoe / 100, yoe % 100 / 4, yoe % 4;
    DivMod(4, 25 * c + q, a);
    DivMod(100, c, 4 * q + a);
    if a == 3 {
      DivMod(4, 25 * c + q + 1, 0);
      if q == 24 {
        DivMod(100, c + 1, 0);
      } else {
        DivMod(100, c, 4 * q + 4);
      }
    } else {
      DivMod(4, 25 * c + q, a + 1);
    }
  }

  lemma YearOfEraIs(yoe: int, doy: int)
    requires InYear(yoe, doy)
    ensures var doe := FirstOfYear(yoe) + doy; 0 <= doe < 146_097 && YearOfEra(doe) == yoe
  {
    hide IsLeap, FirstOfYear;
    var c, q, a := YearParts(yoe);
    Divisions(c, q, a, doy);
    var doe := FirstOfYear(yoe) + doy;
    var carry := if 24 * c + q + 365 * a + doy >= 1460 then 1 else 0;
    assert doe - doe / 1460 + doe / 36_524 - doe / 146_096 == 365 * yoe + (doy - carry);
    DivMod(365, yoe, doy - carry);
  }

  /** Every day of an era is a day of one of its years. */
  lemma EraHasYear(doe: int) returns (yoe: int, doy: int)
    requires 0 <= doe < 146_097
    ensures InYear(yoe, doy) && doe == FirstOfYear(yoe) + doy
  {
    var c := if doe / 36_524 < 3 then doe / 36_524 else 3;
    var r := doe - 36_524 * c;
    var q := r / 1461;
    var s := r - 1461 * q;
    var a := if s / 365 < 3 then s / 365 else 3;
    yoe, doy := 100 * c + 4 * q + a, s - 365 * a;
    assert yoe / 100 == c && yoe / 4 == 25 * c + q;
  }

  /** The first day of a month, in days from March 1. */
  function FirstOfMonth(mp: int): int { (153 * mp + 2) / 5 }

  lemma MonthLengths(mp: int)
    requires 0 <= mp < 11
    ensures FirstOfMonth(mp + 1) - FirstOfMonth(mp) == if mp in {1, 3, 6, 8} then 30 else 31
    ensures FirstOfMonth(0) == 0 && FirstOfMonth(11) == 337
  {
  }

  /** A day number within a year gives the month it lies in. */
  lemma MonthIs(mp: int, doy: int)
    requires 0 <= mp < 12 && FirstOfMonth(mp) <= doy && (if mp == 11 then doy <= 365 else doy < FirstOfMonth(mp + 1))
    ensures (5 * doy + 2) / 153 == mp
  {
  }

  lemma {:induction false} YearHasMonth(doy: int, from: int) returns (mp: int)
    requires 0 <= from <= 11 && FirstOfMonth(from) <= doy <= 365
    ensures from <= mp < 12 && FirstOfMonth(mp) <= doy && (if mp == 11 then doy <= 365 else doy < FirstOfMonth(mp + 1))
    decreases 12 - from
  {
    if from == 11 || doy < FirstOfMonth(from + 1) {
      mp := from;
    } else {
      mp := YearHasMonth(doy, from + 1);
    }
  }

  function MarchYear(date: Date): int { if date.month <= 2 then date.year - 1 else date.year }

  function MarchMonth(date: Date): int { (date.month + 9) % 12 }

  function DayOfYear(date: Date): int { FirstOfMonth(MarchMonth(date)) + date.day - 1 }

  lemma SameModulo(era: int, k: int)
    ensures (400 * era + k) % 400 == k % 400
    ensures (400 * era + k) % 100 == k % 100
    ensures (400 * era + k) % 4 == k % 4
  {
    Shifted(400, era, k);
    Shifted(100, 4 * era, k);
    Shifted(4, 100 * era, k);
  }

  lemma Shifted(n: nat, q: int, k: int)
    requires n > 0
    ensures (n * q + k) % n == k % n
  {
    DivMod(n, q + k / n, k % n);
    assert n * q + k == n * (q + k / n) + k % n;
  }

  lemma LeapInEra(year: int)
    ensures IsLeap(year) <==> IsLeap((year - 1) % 400 + 1)
  {
    var era, yoe := (year - 1) / 400, (year - 1) % 400;
    assert year == 400 * era + (yoe + 1);
    SameModulo(era, yoe + 1);
  }

  /** Where a date lies in its year from March, which is a day the era has. */
  lemma DateInYear(date: Date)
    requires IsDate(date)
    ensures var mp, doy := MarchMonth(date), DayOfYear(date);
            && 0 <= mp < 12 && FirstOfMonth(mp) <= doy && (if mp == 11 then doy <= 365 else doy < FirstOfMonth(mp + 1))
            && date.month == (if mp < 10 then mp + 3 else mp - 9) && InYear(MarchYear(date) % 400, doy)
  {
    var mp := MarchMonth(date);
    assert mp == if date.month >= 3 then date.month - 3 else date.month + 9;
    MonthLengths(if mp == 11 then 0 else mp);
    LeapInEra(date.year);
    MonthsRise(mp);
  }

  lemma {:induction false} MonthsRise(mp: int)
    requires 0 <= mp <= 11
    ensures 0 <= FirstOfMonth(mp) <= 337 && (mp < 11 ==> FirstOfMonth(mp + 1) <= 337)
  {
  }

  // Days by the year from March they lie in, and the day of that year.

  function FromMarch(year: int, doy: int): int { year / 400 * 146_097 + FirstOfYear(year % 400) + doy - 719_468 }

  function MarchOf(days: int): (int, int) {
    var z := days + 719_468;
    var yoe := YearOfEra(z % 146_097);
    (z / 146_097 * 400 + yoe, z % 146_097 - FirstOfYear(yoe))
  }

  function DateOf(year: int, doy: int): Date {
    var mp := (5 * doy + 2) / 153;
    var month := if mp < 10 then mp + 3 else mp - 9;
    Date(year + (if month <= 2 then 1 else 0), month, doy - FirstOfMonth(mp) + 1)
  }

  lemma InMarchYears(date: Date, days: int)
    requires 1 <= date.month <= 12
    ensures DaysFromCivil(date.year, date.month, date.day) == FromMarch(MarchYear(date), DayOfYear(date))
    ensures CivilFromDays(days) == DateOf(MarchOf(days).0, MarchOf(days).1)
  {
    hide IsLeap, YearOfEra;
  }

  lemma EraAndDay(era: int, doe: int)
    requires 0 <= doe < 146_097
    ensures (era * 146_097 + doe) / 146_097 == era && (era * 146_097 + doe) % 146_097 == doe
  {
  }

  lemma MarchRoundTrip(year: int, doy: int)
    requires InYear(year % 400, doy)
    ensures MarchOf(FromMarch(year, doy)) == (year, doy)
  {
    hide IsLeap, YearOfEra, FirstOfYear;
    YearOfEraIs(year % 400, doy);
    EraAndDay(year / 400, FirstOfYear(year % 400) + doy);
  }

  lemma DaysInMarchYears(days: int)
    ensures InYear(MarchOf(days).0 % 400, MarchOf(days).1)
    ensures FromMarch(MarchOf(days).0, MarchOf(days).1) == days
  {
    hide IsLeap, YearOfEra, FirstOfYear;
    var z := days + 719_468;
    var yoe, doy := EraHasYear(z % 146_097);
    YearOfEraIs(yoe, doy);
    var year := z / 146_097 * 400 + yoe;
    assert year / 400 == z / 146_097 && year % 400 == yoe;
  }

  /** A date comes back from its day number. */
  lemma DateRoundTrip(date: Date)
    requires IsDate(date)
    ensures CivilFromDays(DaysFromCivil(date.year, date.month, date.day)) == date
  {
    hide IsLeap, DaysInMonth, CivilFromDays, DaysFromCivil, MarchOf, FromMarch;
    DateInYear(date);
    var year, mp, doy := MarchYear(date), MarchMonth(date), DayOfYear(date);
    InMarchYears(date, FromMarch(year, doy));
    MarchRoundTrip(year, doy);
    MonthIs(mp, doy);
  }

  /** A day number comes back from its date, which is one of the calendar. */
  lemma DayRoundTrip(days: int)
    ensures IsDate(CivilFromDays(days))
    ensures var date := CivilFromDays(days); DaysFromCivil(date.year, date.month, date.day) == days
  {
    hide CivilFromDays, DaysFromCivil, MarchOf, FromMarch;
    DaysInMarchYears(days);
    var (year, doy) := MarchOf(days);
    DateOfMarch(year, doy);
    InMarchYears(DateOf(year, doy), days);
  }

  lemma DateOfMarch(year: int, doy: int)
    requires InYear(year % 400, doy)
    ensures var date := DateOf(year, doy); IsDate(date) && MarchYear(date) == year && DayOfYear(date) == doy
  {
    hide IsLeap;
    var mp := YearHasMonth(doy, 0);
    MonthIs(mp, doy);
    MonthLengths(if mp == 11 then 0 else mp);
    LeapInEra(year + 1);
    var date := DateOf(year, doy);
    assert MarchMonth(date) == mp;
  }

  // Day after day.

  /** A year from March has one day more if February of the next year has. */
  lemma YearAfter(year: int)
    ensures FromMarch(year + 1, 0) == FromMarch(year, 0) + (if IsLeap(year + 1) then 366 else 365)
  {
    var era, yoe := year / 400, year % 400;
    LeapInEra(year + 1);
    if yoe == 399 {
      assert year + 1 == 400 * (era + 1);
      assert (year + 1) / 400 == era + 1 && (year + 1) % 400 == 0;
    } else {
      assert (year + 1) / 400 == era && (year + 1) % 400 == yoe + 1;
      FirstOfNext(yoe);
    }
  }

  lemma FirstOfNext(yoe: int)
    requires 0 <= yoe < 399
    ensures FirstOfYear(yoe + 1) == FirstOfYear(yoe) + (if IsLeap(yoe + 1) then 366 else 365)
  {
    hide IsLeap, FirstOfYear;
    var c, q, a := YearParts(yoe);
    var c', q', a' := YearParts(yoe + 1);
    assert a < 3 ==> c' == c && q' == q && a' == a + 1;
    assert a == 3 && q < 24 ==> c' == c && q' == q + 1 && a' == 0;
    assert a == 3 && q == 24 ==> c' == c + 1 && q' == 0 && a' == 0;
  }

  lemma TomorrowIsNext(date: Date)
    requires IsDate(date)
    ensures IsDate(Tomorrow(date))
    ensures var next := Tomorrow(date);
            DaysFromCivil(next.year, next.month, next.day) == DaysFromCivil(date.year, date.month, date.day) + 1
  {
    hide DaysFromCivil, CivilFromDays, IsLeap, FromMarch, DayOfYear, MarchYear;
    var next := Tomorrow(date);
    NextInMarchYears(date);
    InMarchYears(date, 0);
    InMarchYears(next, 0);
    FromFirst(MarchYear(date), DayOfYear(date));
    FromFirst(MarchYear(next), DayOfYear(next));
    YearAfter(MarchYear(date));
  }

  /** The day after is the next of the year from March, or the first of the next such year. */
  lemma NextInMarchYears(date: Date)
    requires IsDate(date)
    ensures var next, year, doy := Tomorrow(date), MarchYear(date), DayOfYear(date);
            && IsDate(next)
            && if MarchYear(next) == year then DayOfYear(next) == doy + 1
               else MarchYear(next) == year + 1 && DayOfYear(next) == 0 && doy + 1 == if IsLeap(year + 1) then 366
                    else 365
  {
    hide IsLeap, FirstOfMonth;
    var next, mp := Tomorrow(date), MarchMonth(date);
    assert mp == if date.month >= 3 then date.month - 3 else date.month + 9;
    MonthLengths(if mp == 11 then 0 else mp);
    assert MarchMonth(next) == if next.month == date.month then mp else if mp == 11 then 0 else mp + 1;
  }

  lemma FromFirst(year: int, doy: int)
    ensures FromMarch(year, doy) == FromMarch(year, 0) + doy
  {
  }

  /** The conversion is counting day by day. */
  lemma {:induction false} ConversionCounts(n: nat)
    ensures CivilFromDays(n) == Counted(n)
  {
    hide CivilFromDays, DaysFromCivil, IsDate, Tomorrow;
    if n == 0 {
      Epoch();
      DateRoundTrip(Date(1970, 1, 1));
    } else {
      ConversionCounts(n - 1);
      DayRoundTrip(n - 1);
      TomorrowIsNext(CivilFromDays(n - 1));
      DateRoundTrip(Tomorrow(CivilFromDays(n - 1)));
    }
  }

  lemma Epoch()
    ensures IsDate(Date(1970, 1, 1)) && DaysFromCivil(1970, 1, 1) == 0
  {
  }

  // Weekdays.

  /** 0 for Monday to 6 for Sunday. */
  function Weekday(days: int): int { (days + 3) % 7 }

  /** The weekdays, counted on from Thursday 1970-01-01. */
  function CountedWeekday(n: nat): int { if n == 0 then 3 else (CountedWeekday(n - 1) + 1) % 7 }

  lemma {:induction false} WeekdayCounts(n: nat)
    ensures Weekday(n) == CountedWeekday(n)
  {
    if n > 0 {
      WeekdayCounts(n - 1);
    }
  }

  function LastSunday(year: int, month: int): int {
    var last := DaysFromCivil(year, month + 1, 1) - 1;
    last - (Weekday(last) + 1) % 7
  }

  /** The first of the month after, month 13 or not, is one day past a month's last. */
  lemma MonthEnds(year: int, month: int)
    requires 1 <= month <= 12
    ensures DaysFromCivil(year, month + 1, 1) == DaysFromCivil(year, month, DaysInMonth(year, month)) + 1
    ensures forall day :: DaysFromCivil(year, month, day) == DaysFromCivil(year, month, 1) + day - 1
  {
    hide IsLeap;
    TomorrowIsNext(Date(year, month, DaysInMonth(year, month)));
    assert month == 12 ==> DaysFromCivil(year, 13, 1) == DaysFromCivil(year + 1, 1, 1);
  }

  /** The last Sunday of a month is a Sunday of that month, and no later day of the month is one. */
  lemma LastSundayIsLast(year: int, month: int)
    requires 1 <= month <= 12
    ensures var sunday := LastSunday(year, month);
            && Weekday(sunday) == 6
            && CivilFromDays(sunday).year == year && CivilFromDays(sunday).month == month
            && forall day :: CivilFromDays(sunday).day < day <= DaysInMonth(year, month) ==>
                 Weekday(DaysFromCivil(year, month, day)) != 6
  {
    hide DaysFromCivil, CivilFromDays, IsLeap;
    MonthEnds(year, month);
    var length := DaysInMonth(year, month);
    var last := DaysFromCivil(year, month, length);
    var back := (Weekday(last) + 1) % 7;
    var date := Date(year, month, length - back);
    DateRoundTrip(date);
    assert DaysFromCivil(year, month, length - back) == last - back == LastSunday(year, month);
    forall day | length - back < day <= length ensures Weekday(DaysFromCivil(year, month, day)) != 6 {
      assert DaysFromCivil(year, month, day) == last - (length - day);
      SundaysApart(last, length - day);
    }
  }

  lemma SundaysApart(last: int, k: int)
    requires 0 <= k < (Weekday(last) + 1) % 7
    ensures Weekday(last - k) != 6
  {
  }

  // Times.

  function FromUnix(unix: nat): DateTime {
    var days, seconds := unix / 86_400, unix % 86_400;
    DateTime(CivilFromDays(days), seconds / 3600, seconds / 60 % 60, seconds % 60, Weekday(days))
  }

  /** A time comes back from its date and time of day, which are ones of the calendar. */
  lemma TimeRoundTrip(unix: nat)
    ensures var t := FromUnix(unix);
            && t.date == Counted(unix / 86_400) && IsDate(t.date) && t.weekday == CountedWeekday(unix / 86_400)
            && 0 <= t.hour < 24 && 0 <= t.minute < 60 && 0 <= t.second < 60
            && unix == DaysFromCivil(t.date.year, t.date.month, t.date.day) * 86_400 + t.hour * 3600 + t.minute * 60
               + t.second
  {
    hide DaysFromCivil, CivilFromDays, IsDate, Counted, CountedWeekday, Weekday;
    DayRoundTrip(unix / 86_400);
    ConversionCounts(unix / 86_400);
    WeekdayCounts(unix / 86_400);
    TimeOfDay(unix % 86_400);
  }

  lemma TimeOfDay(seconds: nat)
    requires seconds < 86_400
    ensures seconds / 3600 < 24 && seconds == seconds / 3600 * 3600 + seconds / 60 % 60 * 60 + seconds % 60
  {
  }

  // Summer time in Sweden.

  /** What is left of `x` in a signed 64-bit number. */
  function Signed64(x: int): int { (x + 0x8000_0000_0000_0000) % 0x1_0000_0000_0000_0000 - 0x8000_0000_0000_0000 }

  /** 01:00 UTC on the last Sunday of a month. */
  function Switch(year: int, month: int): int { LastSunday(year, month) * 86_400 + 3600 }

  /** Seconds local time is ahead of UTC. Everything is compared as signed 64-bit numbers. */
  function SwedenOffset(unix: nat): nat {
    var year := FromUnix(unix).date.year;
    var start, end := Signed64(Switch(year, 3)), Signed64(Switch(year, 10));
    if start <= Signed64(unix) < end then 7200 else 3600
  }

  /** `t` is at or past 01:00 on the last Sunday of its month. */
  predicate PastSwitch(t: DateTime) {
    var sunday := CivilFromDays(LastSunday(t.date.year, t.date.month)).day;
    t.date.day > sunday || (t.date.day == sunday && t.hour >= 1)
  }

  predicate IsSummer(t: DateTime) {
    3 < t.date.month < 10 || (t.date.month == 3 && PastSwitch(t)) || (t.date.month == 10 && !PastSwitch(t))
  }

  /** Summer time is from 01:00 UTC on the last Sunday of March to 01:00 UTC on the last Sunday of October. */
  lemma SummerTime(unix: nat)
    requires unix < 0x1_0000_0000_0000_0000
    ensures SwedenOffset(unix) == if IsSummer(FromUnix(unix)) then 7200 else 3600
  {
    hide DaysFromCivil, CivilFromDays, IsDate, LastSunday, PastSwitch, Signed64, Switch;
    var t := FromUnix(unix);
    TimeRoundTrip(unix);
    Switches(t, 3);
    Switches(t, 10);
    SwitchesFit(unix);
    WrappedOrder(Switch(t.date.year, 3), Switch(t.date.year, 10), unix);
  }

  /** Bounds on one side of 63 bits compare the same when everything wraps around. */
  lemma WrappedOrder(start: int, end: int, x: nat)
    requires 0 <= start <= end < 0x1_0000_0000_0000_0000 && x < 0x1_0000_0000_0000_0000
    requires start < 0x8000_0000_0000_0000 <==> end < 0x8000_0000_0000_0000
    ensures Signed64(start) <= Signed64(x) < Signed64(end) <==> start <= x < end
  {
  }

  const LAST_YEAR := 292_277_026_596

  /**
   * The switches of the year of a time fit a signed 64-bit number exactly up to the end of the year
   * in which the seconds themselves stop doing so.
   */
  lemma SwitchesFit(unix: nat)
    requires unix < 0x1_0000_0000_0000_0000
    ensures var year := FromUnix(unix).date.year;
            && (Switch(year, 3) < 0x8000_0000_0000_0000 <==> unix < DaysFromCivil(LAST_YEAR + 1, 1, 1) * 86_400)
            && (Switch(year, 10) < 0x8000_0000_0000_0000 <==> unix < DaysFromCivil(LAST_YEAR + 1, 1, 1) * 86_400)
            && 0 <= Switch(year, 3) <= Switch(year, 10) < 0x1_0000_0000_0000_0000
    ensures FromUnix(0x8000_0000_0000_0000).date.year == LAST_YEAR
  {
    hide DaysFromCivil, CivilFromDays, FromMarch, LastSunday, Weekday;
    var year := FromUnix(unix).date.year;
    YearStarts(unix / 86_400, 1969);
    YearStarts(unix / 86_400, LAST_YEAR);
    YearStarts(unix / 86_400, 584_554_051_223);
    YearStarts(0x8000_0000_0000_0000 / 86_400, LAST_YEAR - 1);
    YearStarts(0x8000_0000_0000_0000 / 86_400, LAST_YEAR);
    BigYears();
    JanuaryFirst(1969);
    JanuaryFirst(LAST_YEAR - 1);
    JanuaryFirst(LAST_YEAR);
    JanuaryFirst(584_554_051_223);
    SwitchesWithin(year);
    YearsInOrder(1970, year);
    if year <= LAST_YEAR {
      YearsInOrder(year, LAST_YEAR);
    } else {
      YearsInOrder(LAST_YEAR + 1, year);
    }
    YearsInOrder(year, 584_554_051_223);
  }

  /** The first days, from March, of the years in which the seconds leave 63 and 64 bits. */
  lemma BigYears()
    ensures FromMarch(1969, 0) == -306 && FromMarch(1970, 0) == 59
    ensures FromMarch(LAST_YEAR - 1, 0) == 106_751_991_166_656 && FromMarch(LAST_YEAR, 0) == 106_751_991_167_022
    ensures FromMarch(LAST_YEAR + 1, 0) == 106_751_991_167_387 && FromMarch(584_554_051_223, 0) == 213_503_982_334_348
  {
    hide FromMarch;
    FirstFromMarch(4, 369);
    FirstFromMarch(4, 370);
    FirstFromMarch(730_692_566, 195);
    FirstFromMarch(730_692_566, 196);
    FirstFromMarch(730_692_566, 197);
    FirstFromMarch(1_461_385_128, 23);
  }

  lemma FirstFromMarch(era: int, yoe: int)
    requires 0 <= yoe < 400
    ensures FromMarch(400 * era + yoe, 0) == era * 146_097 + FirstOfYear(yoe) - 719_468
  {
    hide FirstOfYear;
    DivMod(400, era, yoe);
  }

  lemma JanuaryFirst(year: int)
    ensures DaysFromCivil(year + 1, 1, 1) == FromMarch(year, 0) + 306
  {
    hide FromMarch, DaysFromCivil, CivilFromDays, MarchOf, DateOf;
    InMarchYears(Date(year + 1, 1, 1), 0);
    FromFirst(year, 306);
  }

  lemma SundayNear(year: int, month: int)
    ensures -7 <= LastSunday(year, month) - DaysFromCivil(year, month + 1, 1) < 0
  {
    hide DaysFromCivil;
  }

  /** The switches of a year lie between its first of March and its first of November. */
  lemma SwitchesWithin(year: int)
    ensures FromMarch(year, 0) <= LastSunday(year, 3) < LastSunday(year, 10) < FromMarch(year, 0) + 245
  {
    hide FromMarch, CivilFromDays, DaysFromCivil, MarchOf, DateOf, LastSunday;
    SundayNear(year, 3);
    SundayNear(year, 10);
    InMarchYears(Date(year, 4, 1), 0);
    InMarchYears(Date(year, 11, 1), 0);
    FromFirst(year, 31);
    FromFirst(year, 245);
  }

  lemma {:induction false} YearsInOrder(year: int, later: int)
    ensures year <= later ==> FromMarch(year, 0) <= FromMarch(later, 0)
    decreases later - year
  {
    hide FromMarch, IsLeap;
    if year < later {
      YearsInOrder(year, later - 1);
      YearAfter(later - 1);
    }
  }

  /** January and February are the last days of a year from March. */
  lemma DayInYear(date: Date)
    requires IsDate(date)
    ensures 1 <= date.month <= 12 && 0 <= DayOfYear(date) < if IsLeap(MarchYear(date) + 1) then 366 else 365
    ensures date.month >= 3 <==> DayOfYear(date) < 306
  {
    hide IsLeap;
    DateInYear(date);
    LeapInEra(MarchYear(date) + 1);
  }

  /** A year has begun exactly from its first of January on. */
  lemma YearStarts(days: int, year: int)
    ensures CivilFromDays(days).year > year <==> days >= DaysFromCivil(year + 1, 1, 1)
  {
    hide DaysFromCivil, CivilFromDays, FromMarch, IsLeap, IsDate, DayOfYear, MarchOf, DateOf;
    var date := CivilFromDays(days);
    DayRoundTrip(days);
    DayInYear(date);
    InMarchYears(date, days);
    JanuaryFirst(year);
    var march, doy := MarchYear(date), DayOfYear(date);
    FromFirst(march, doy);
    YearAfter(march);
    YearAfter(year);
    YearsInOrder(year + 1, march);
    YearsInOrder(march + 1, year);
  }

  /** A time of a year is past the switch of a month exactly if it lies in a later month, or past it within that
      month. */
  lemma Switches(t: DateTime, month: int)
    requires IsDate(t.date) && 1 <= month <= 12 && 0 <= t.hour < 24 && 0 <= t.minute < 60 && 0 <= t.second < 60
    ensures var d := t.date;
            var unix := DaysFromCivil(d.year, d.month, d.day) * 86_400 + t.hour * 3600 + t.minute * 60 + t.second;
            Switch(d.year, month) <= unix <==> d.month > month || (d.month == month && PastSwitch(t))
  {
    hide DaysFromCivil, CivilFromDays, LastSunday, IsLeap;
    var d := t.date;
    LastSundayIsLast(d.year, month);
    var sunday := CivilFromDays(LastSunday(d.year, month));
    DayRoundTrip(LastSunday(d.year, month));
    MonthEnds(d.year, month);
    MonthEnds(d.year, d.month);
    if d.month < month {
      MonthsInOrder(d.year, d.month, month);
    } else if d.month > month {
      MonthsInOrder(d.year, month, d.month);
    }
    DayOrder(LastSunday(d.year, month), DaysFromCivil(d.year, d.month, d.day),
             t.hour * 3600 + t.minute * 60 + t.second);
  }

  lemma DayOrder(sunday: int, day: int, seconds: int)
    requires 0 <= seconds < 86_400
    ensures sunday * 86_400 + 3600 <= day * 86_400 + seconds <==> sunday < day || (sunday == day && seconds >= 3600)
  {
  }

  lemma {:induction false} MonthsInOrder(year: int, month: int, later: int)
    requires 1 <= month < later <= 12
    ensures DaysFromCivil(year, month, DaysInMonth(year, month)) < DaysFromCivil(year, later, 1)
    decreases later
  {
    hide DaysFromCivil, IsLeap;
    MonthEnds(year, later - 1);
    if month < later - 1 {
      MonthsInOrder(year, month, later - 1);
    }
  }
}
