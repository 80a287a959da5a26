/**
 gmtime_r of crt/gmtime.c against a calendar that counts one day after the other.
 */
module Calendar {
  import opened Machine

  /** A day as in struct tm: years since 1900, months since January, days since January 1 and since Sunday. */
  datatype Date = Date(year: int, mon: int, mday: int, yday: int, wday: int)

  // --- The Gregorian calendar, day by day ---

  predicate Leap(year: int) {
    var y := 1900 + year;
    y % 4 == 0 && (y % 100 != 0 || y % 400 == 0)
  }

  function YearLength(year: int): int {
    if Leap(year) then 366 else 365
  }

  function MonthLength(leap: bool, mon: int): int {
    if mon == 1 then (if leap then 29 else 28)
    else if mon == 3 || mon == 5 || mon == 8 || mon == 10 then 30
    else 31
  }

  function Next(d: Date): Date {
    var wday := (d.wday + 1) % 7;
    if d.mday < MonthLength(Leap(d.year), d.mon) then Date(d.year, d.mon, d.mday + 1, d.yday + 1, wday)
    else if d.mon < 11 then Date(d.year, d.mon + 1, 1, d.yday + 1, wday)
    else Date(d.year + 1, 0, 1, 0, wday)
  }

  /** Day n after Thursday, January 1, 1970. */
  function DateOf(n: nat): Date {
    if n == 0 then Date(70, 0, 1, 0, 4) else Next(DateOf(n - 1))
  }

  // --- The other way: counting the days of whole years and months ---

  function DaysBeforeYear(year: int): int
    requires year >= 69
  {
    if year == 69 then -365 else DaysBeforeYear(year - 1) + YearLength(year - 1)
  }

  function DaysBeforeMonth(leap: bool, mon: int): int
    requires mon >= 0
    decreases mon
  {
    if mon == 0 then 0 else DaysBeforeMonth(leap, mon - 1) + MonthLength(leap, mon - 1)
  }

  /** The number of the day a date denotes, from its year, month and day of the month alone. */
  function DayNumber(d: Date): int
    requires d.year >= 69 && d.mon >= 0
  {
    DaysBeforeYear(d.year) + DaysBeforeMonth(Leap(d.year), d.mon) + d.mday - 1
  }

  /** A date of the calendar whose redundant fields agree with the others. */
  predicate Valid(d: Date) {
    69 <= d.year && 0 <= d.mon < 12 && 1 <= d.mday <= MonthLength(Leap(d.year), d.mon) &&
    d.yday == DaysBeforeMonth(Leap(d.year), d.mon) + d.mday - 1 &&
    d.wday == (DayNumber(d) + 4) % 7
  }

  // --- The arithmetic of gmtime_r ---

  const DAY_SEC := 86400
  const YEAR_SEC := 365 * DAY_SEC
  const FOUR_YEAR_SEC := 1461 * DAY_SEC

  /** The tables _lpdays and _days: days before each month, less one. */
  function DaysTo(leap: bool, mon: nat): int {
    if mon == 0 then -1 else if mon == 1 then 30
    else if leap then
      if mon == 2 then 59 else if mon == 3 then 90 else if mon == 4 then 120 else if mon == 5 then 151
      else if mon == 6 then 181 else if mon == 7 then 212 else if mon == 8 then 243 else if mon == 9 then 273
      else if mon == 10 then 304 else if mon == 11 then 334 else 365
    else
      if mon == 2 then 58 else if mon == 3 then 89 else if mon == 4 then 119 else if mon == 5 then 150
      else if mon == 6 then 180 else if mon == 7 then 211 else if mon == 8 then 242 else if mon == 9 then 272
      else if mon == 10 then 303 else if mon == 11 then 333 else 364
  }

  /** Every fourth year has a leap day. */
  predicate FourthYear(year: int) {
    year % 4 == 0
  }

  /** The year of a day, from the number of four-year intervals before it. */
  function YearAt(n: nat): int {
    var r := n % 1461;
    70 + n / 1461 * 4 + if r < 365 then 0 else if r < 730 then 1 else if r < 1096 then 2 else 3
  }

  function YdayAt(n: nat): nat {
    var r := n % 1461;
    if r < 365 then r else if r < 730 then r - 365 else if r < 1096 then r - 730 else r - 1096
  }

  /** The loop over the table of month starts, from month i on. */
  function MonthFrom(mdays: seq<int>, i: nat, yday: int): (m: nat)
    requires |mdays| == 13 && 1 <= i <= 12 && mdays[i - 1] < yday <= mdays[12]
    ensures i <= m <= 12 && mdays[m - 1] < yday <= mdays[m]
    decreases 12 - i
  {
    if mdays[i] < yday then MonthFrom(mdays, i + 1, yday) else i
  }

  function Table(leap: bool): (mdays: seq<int>)
    ensures |mdays| == 13 && forall i :: 0 <= i <= 12 ==> mdays[i] == DaysTo(leap, i)
  {
    seq(13, i requires 0 <= i < 13 => DaysTo(leap, i))
  }

  function MonthAt(leap: bool, yday: nat): (mon: nat)
    requires yday <= DaysTo(leap, 12)
    ensures mon < 12 && DaysTo(leap, mon) < yday <= DaysTo(leap, mon + 1)
  {
    MonthFrom(Table(leap), 1, yday) - 1
  }

  lemma YdayFits(n: nat)
    ensures YdayAt(n) <= DaysTo(FourthYear(YearAt(n)), 12) <= 365
  {
  }

  /** The date gmtime_r computes for day n. */
  function GmDate(n: nat): Date {
    var year, yday := YearAt(n), YdayAt(n);
    var leap := FourthYear(year);
    YdayFits(n);
    var mon := MonthAt(leap, yday);
    Date(year, mon, yday - DaysTo(leap, mon), yday, (n + 4) % 7)
  }

  // --- Agreement ---

  /** The first day the two disagree on: February 29 of the year 2100, which does not exist. */
  const END := 47541

  lemma LeapIs(year: int)
    requires 69 <= year < 200
    ensures Leap(year) <==> FourthYear(year)
  {
  }

  lemma MonthLengthIs(leap: bool, mon: nat)
    requires mon < 12
    ensures MonthLength(leap, mon) == DaysTo(leap, mon + 1) - DaysTo(leap, mon)
  {
  }

  lemma {:induction false} DaysToIncreases(leap: bool, i: nat, j: nat)
    requires i <= j <= 12
    ensures DaysTo(leap, i) <= DaysTo(leap, j)
    decreases j - i
  {
    if i < j { DaysToIncreases(leap, i + 1, j); }
  }

  lemma MonthIs(leap: bool, yday: nat, mon: nat)
    requires mon < 12 && yday <= DaysTo(leap, 12) && DaysTo(leap, mon) < yday <= DaysTo(leap, mon + 1)
    ensures MonthAt(leap, yday) == mon
  {
    hide DaysTo;
    var m := MonthAt(leap, yday);
    if m < mon { DaysToIncreases(leap, m + 1, mon); }
    if mon < m { DaysToIncreases(leap, mon + 1, m); }
  }

  lemma NextYearAt(n: nat)
    ensures if YdayAt(n) < DaysTo(FourthYear(YearAt(n)), 12)
            then YearAt(n + 1) == YearAt(n) && YdayAt(n + 1) == YdayAt(n) + 1
            else YearAt(n + 1) == YearAt(n) + 1 && YdayAt(n + 1) == 0
  {
  }

  /** Up to the day after, the two calendars step alike. */
  lemma GmDateSteps(n: nat)
    requires Leap(YearAt(n)) <==> FourthYear(YearAt(n))
    ensures GmDate(n + 1) == Next(GmDate(n))
  {
    hide YearAt, YdayAt, Leap, FourthYear, DaysTo, MonthFrom, MonthAt, MonthLength;
    var year, yday := YearAt(n), YdayAt(n);
    var leap := FourthYear(year);
    NextYearAt(n);
    YdayFits(n);
    YdayFits(n + 1);
    var mon := MonthAt(leap, yday);
    MonthLengthIs(leap, mon);
    LastMonth(leap);
    if yday < DaysTo(leap, mon + 1) {
      DaysToIncreases(leap, mon + 1, 12);
      MonthIs(leap, yday + 1, mon);
    } else if mon < 11 {
      DaysToIncreases(leap, mon + 2, 12);
      MonthGrows(leap, mon + 1);
      MonthIs(leap, yday + 1, mon + 1);
    } else {
      LastMonth(FourthYear(year + 1));
      MonthIs(FourthYear(year + 1), 0, 0);
    }
  }

  lemma LastMonth(leap: bool)
    ensures DaysTo(leap, 0) == -1 && DaysTo(leap, 1) == 30 && DaysTo(leap, 12) >= 364
  {
  }

  lemma MonthGrows(leap: bool, mon: nat)
    requires mon < 12
    ensures DaysTo(leap, mon) < DaysTo(leap, mon + 1)
  {
  }

  lemma YearBound(n: nat)
    requires n < END
    ensures 70 <= YearAt(n) <= 200 && (YearAt(n) == 200 ==> YdayAt(n) == n - 47482 <= 58)
  {
  }

  /** Until the end of February 2100, gmtime_r computes the Gregorian date. */
  lemma {:induction false} GmDateIsGregorian(n: nat)
    requires n < END
    ensures GmDate(n) == DateOf(n)
    decreases n
  {
    hide GmDate, YearAt, YdayAt, Leap, FourthYear, Next;
    if n == 0 {
      FirstDay();
    } else {
      GmDateIsGregorian(n - 1);
      YearBound(n - 1);
      if YearAt(n - 1) < 200 {
        LeapIs(YearAt(n - 1));
        GmDateSteps(n - 1);
      } else {
        EarlyInYear(n - 1);
      }
    }
  }

  lemma FirstMonths(leap: bool, leap': bool)
    ensures DaysTo(leap, 0) == -1 && DaysTo(leap, 1) == 30 && 58 <= DaysTo(leap, 2) <= DaysTo(leap, 12)
    ensures MonthLength(leap', 0) == 31 && MonthLength(leap', 1) >= 28
  {
  }

  /** January and February up to the 28th need no leap year. */
  lemma EarlyInYear(n: nat)
    requires YdayAt(n) < 58
    ensures GmDate(n + 1) == Next(GmDate(n))
  {
    hide YearAt, YdayAt, Leap, FourthYear, DaysTo, MonthAt, MonthLength;
    var leap, yday := FourthYear(YearAt(n)), YdayAt(n);
    FirstMonths(leap, Leap(YearAt(n)));
    NextYearAt(n);
    YdayFits(n);
    if yday <= 30 {
      MonthIs(leap, yday, 0);
      if yday < 30 { MonthIs(leap, yday + 1, 0); } else { MonthIs(leap, yday + 1, 1); }
    } else {
      MonthIs(leap, yday, 1);
      MonthIs(leap, yday + 1, 1);
    }
  }

  lemma FirstDay()
    ensures GmDate(0) == DateOf(0)
  {
    hide DaysTo, MonthAt, FourthYear, Next;
    LastMonth(FourthYear(70));
    MonthIs(FourthYear(70), 0, 0);
  }

  // --- Counting back ---

  lemma {:induction false} MonthStartsAgree(leap: bool, mon: nat)
    requires mon <= 12
    ensures DaysBeforeMonth(leap, mon) == DaysTo(leap, mon) + 1
    decreases mon
  {
    hide DaysTo, MonthLength;
    if mon == 0 {
      LastMonth(leap);
    } else {
      MonthStartsAgree(leap, mon - 1);
      MonthLengthIs(leap, mon - 1);
    }
  }

  lemma TwelveMonths(leap: bool)
    ensures DaysBeforeMonth(leap, 11) + MonthLength(leap, 11) == if leap then 366 else 365
  {
    hide DaysBeforeMonth;
    MonthStartsAgree(leap, 11);
  }

  /** The day after a date has the next number. */
  lemma NextCounts(d: Date)
    requires Valid(d)
    ensures Valid(Next(d)) && DayNumber(Next(d)) == DayNumber(d) + 1
  {
    hide Leap, MonthLength, DaysBeforeYear;
    YearAfter(d.year);
    TwelveMonths(Leap(d.year));
    LengthsArePositive(Leap(d.year), d.mon + 1);
    LengthsArePositive(Leap(d.year + 1), 0);
  }

  lemma LengthsArePositive(leap: bool, mon: int)
    ensures 28 <= MonthLength(leap, mon) <= 31
    ensures MonthLength(leap, 11) == 31
  {
  }

  lemma YearAfter(year: int)
    requires year >= 69
    ensures DaysBeforeYear(year + 1) == DaysBeforeYear(year) + if Leap(year) then 366 else 365
  {
  }

  lemma {:induction false} DateOfCounts(n: nat)
    ensures Valid(DateOf(n)) && DayNumber(DateOf(n)) == n
    decreases n
  {
    hide Valid, Next, DayNumber;
    if n == 0 {
      FirstDayCounts();
    } else {
      DateOfCounts(n - 1);
      NextCounts(DateOf(n - 1));
    }
  }

  lemma FirstDayCounts()
    ensures Valid(Date(70, 0, 1, 0, 4)) && DayNumber(Date(70, 0, 1, 0, 4)) == 0
  {
    hide Valid, DayNumber, DaysBeforeYear;
    NothingBefore();
    JanuaryFirst(Date(70, 0, 1, 0, 4));
  }

  lemma JanuaryFirst(d: Date)
    requires d.year >= 69 && DaysBeforeYear(d.year) == 0 && d.mon == 0 && d.mday == 1 && d.yday == 0 && d.wday == 4
    ensures Valid(d) && DayNumber(d) == 0
  {
    hide DaysBeforeYear, Leap, MonthLength;
    LengthsArePositive(Leap(d.year), 0);
  }

  lemma NothingBefore()
    ensures DaysBeforeYear(70) == 0
  {
    assert !Leap(69);
  }

  lemma {:induction false} YearsGrow(x: int, y: int)
    requires 69 <= x <= y
    ensures DaysBeforeYear(x) <= DaysBeforeYear(y)
    decreases y
  {
    if x < y { YearsGrow(x, y - 1); }
  }

  lemma {:induction false} MonthsGrow(leap: bool, x: int, y: int)
    requires 0 <= x <= y
    ensures DaysBeforeMonth(leap, x) <= DaysBeforeMonth(leap, y)
    decreases y
  {
    if x < y {
      MonthsGrow(leap, x, y - 1);
      LengthsArePositive(leap, y - 1);
    }
  }

  /** A date lies within its year. */
  lemma WithinYear(d: Date)
    requires Valid(d)
    ensures DaysBeforeYear(d.year) <= DayNumber(d) < DaysBeforeYear(d.year + 1)
  {
    hide Leap, MonthLength;
    MonthsGrow(Leap(d.year), 0, d.mon);
    MonthsGrow(Leap(d.year), d.mon + 1, 12);
    TwelveMonths(Leap(d.year));
  }

  /** Different dates have different numbers. */
  lemma NumberDetermines(d: Date, e: Date)
    requires Valid(d) && Valid(e) && DayNumber(d) == DayNumber(e)
    ensures d == e
  {
    hide Leap, MonthLength;
    WithinYear(d);
    WithinYear(e);
    if d.year < e.year { YearsGrow(d.year + 1, e.year); }
    if e.year < d.year { YearsGrow(e.year + 1, d.year); }
    if d.mon < e.mon { MonthsGrow(Leap(d.year), d.mon + 1, e.mon); }
    if e.mon < d.mon { MonthsGrow(Leap(d.year), e.mon + 1, d.mon); }
  }

  // --- Beyond the end ---

  lemma {:induction false} YearsBefore(year: int)
    requires 69 <= year < 300
    ensures DaysBeforeYear(year) == (year - 70) * 365 + (year - 69) / 4 - if year > 200 then 1 else 0
    decreases year
  {
    if year > 69 {
      YearsBefore(year - 1);
      assert Leap(year - 1) <==> year - 1 != 200 && FourthYear(year - 1);
    }
  }

  lemma YearCounts(n: nat)
    ensures YearAt(n) >= 70 && n == (YearAt(n) - 70) * 365 + (YearAt(n) - 69) / 4 + YdayAt(n)
  {
    var q, r := n / 1461, n % 1461;
    assert n == 1461 * q + r;
  }

  lemma YearAtBeyond(n: nat)
    requires END <= n < 84000
    ensures 200 <= YearAt(n) < 300 && (YearAt(n) == 200 ==> YdayAt(n) == n - 47482 >= 59)
  {
  }

  /** From then on the date is one day behind, or is no date at all. */
  lemma GmDateFallsBehind(n: nat)
    requires END <= n < 84000
    ensures GmDate(n) != DateOf(n)
  {
    hide YearAt, YdayAt, Leap, FourthYear, DaysTo, MonthAt, DaysBeforeYear, DaysBeforeMonth, DateOf;
    DateOfCounts(n);
    YearAtBeyond(n);
    YearCounts(n);
    YdayFits(n);
    var year, yday := YearAt(n), YdayAt(n);
    var mon := MonthAt(FourthYear(year), yday);
    YearsBefore(year);
    CenturyLeaps(year);
    MonthStartsAgree(FourthYear(year), mon);
    if year == 200 {
      MarchIn2100(yday);
      if yday > 59 { MonthStartsAgree(false, mon); }
    }
  }

  lemma CenturyLeaps(year: int)
    requires 200 <= year < 300
    ensures Leap(year) <==> year != 200 && FourthYear(year)
    ensures FourthYear(200)
  {
  }

  /** The two tables differ by one from March on. */
  lemma MarchIn2100(yday: nat)
    requires 59 <= yday <= 365
    ensures yday == 59 ==> MonthAt(true, yday) == 1 && DaysTo(true, 1) == 30 && MonthLength(false, 1) == 28
    ensures yday > 59 ==> var mon := MonthAt(true, yday); mon >= 2 && DaysTo(false, mon) == DaysTo(true, mon) - 1
  {
    hide MonthAt;
    var mon := MonthAt(true, yday);
  }

  /** gmtime_r agrees with the Gregorian calendar exactly until the end of February 2100, of all 32 bit times. */
  lemma GmDateAgreesIff(n: nat)
    requires n < WORD / DAY_SEC
    ensures GmDate(n) == DateOf(n) <==> n < END
  {
    hide GmDate, DateOf;
    if n < END { GmDateIsGregorian(n); } else { GmDateFallsBehind(n); }
  }

  // --- The time of day ---

  datatype Tm = Tm(sec: int, min: int, hour: int, date: Date, isdst: bool)

  predicate InRange(tm: Tm) {
    0 <= tm.sec < 60 && 0 <= tm.min < 60 && 0 <= tm.hour < 24 && Valid(tm.date)
  }

  function SecondOfDay(tm: Tm): int {
    tm.hour * 3600 + tm.min * 60 + tm.sec
  }

  /** The time the fields denote, in seconds since January 1, 1970. */
  function Seconds(tm: Tm): int
    requires tm.date.year >= 69 && tm.date.mon >= 0
  {
    DayNumber(tm.date) * DAY_SEC + SecondOfDay(tm)
  }

  function Broken(t: nat): Tm {
    var s := t % DAY_SEC;
    Tm(s % 3600 % 60, s % 3600 / 60, s / 3600, GmDate(t / DAY_SEC), false)
  }

  /** Breaking a time down and counting back gives the same second. */
  lemma BreakingRoundTrip(t: nat)
    requires t < END * DAY_SEC
    ensures InRange(Broken(t)) && Seconds(Broken(t)) == t && Broken(t).date == DateOf(t / DAY_SEC)
  {
    hide GmDate, Valid, DayNumber, DateOf;
    GmDateIsGregorian(t / DAY_SEC);
    DateOfCounts(t / DAY_SEC);
    ValidIsLate(DateOf(t / DAY_SEC));
  }

  /** In-range fields that denote the same second are the same, apart from the daylight saving flag. */
  lemma SecondsDetermine(a: Tm, b: Tm)
    requires InRange(a) && InRange(b) && Seconds(a) == Seconds(b)
    ensures a == b.(isdst := a.isdst)
  {
    hide Valid, DayNumber;
    ValidIsLate(a.date);
    ValidIsLate(b.date);
    TimesOnce(DayNumber(a.date), a.hour, a.min, a.sec, DayNumber(b.date), b.hour, b.min, b.sec);
    NumberDetermines(a.date, b.date);
  }

  lemma TimesOnce(x: int, h: int, m: int, s: int, x': int, h': int, m': int, s': int)
    requires 0 <= h < 24 && 0 <= m < 60 && 0 <= s < 60 && 0 <= h' < 24 && 0 <= m' < 60 && 0 <= s' < 60
    requires x * 86400 + h * 3600 + m * 60 + s == x' * 86400 + h' * 3600 + m' * 60 + s'
    ensures x == x' && h == h' && m == m' && s == s'
  {
  }

  lemma ValidIsLate(d: Date)
    requires Valid(d)
    ensures d.year >= 69 && d.mon >= 0
  {
  }

  /** struct tm */
  class TmStruct {
    var tm_sec: int
    var tm_min: int
    var tm_hour: int
    var tm_mday: int
    var tm_mon: int
    var tm_year: int
    var tm_wday: int
    var tm_yday: int
    var tm_isdst: int

    ghost function Contents(): Tm
      reads this
    {
      Tm(tm_sec, tm_min, tm_hour, Date(tm_year, tm_mon, tm_mday, tm_yday, tm_wday), tm_isdst != 0)
    }

    constructor ()
    {
    }
  }

  /** The first half of gmtime_r: the year, and the seconds since it began. */
  method GmYear(timer: nat) returns (year: int, ctimer: nat, isleapyear: bool)
    ensures year == YearAt(timer / DAY_SEC) && isleapyear == FourthYear(year)
    ensures ctimer / DAY_SEC == YdayAt(timer / DAY_SEC) && ctimer % DAY_SEC == timer % DAY_SEC
  {
    ctimer, isleapyear := timer, false;
    var tmptimer := ctimer / FOUR_YEAR_SEC;
    ctimer := ctimer - tmptimer * FOUR_YEAR_SEC;
    tmptimer := tmptimer * 4 + 70;
    if ctimer >= YEAR_SEC {
      tmptimer := tmptimer + 1;
      ctimer := ctimer - YEAR_SEC;
      if ctimer >= YEAR_SEC {
        tmptimer := tmptimer + 1;
        ctimer := ctimer - YEAR_SEC;
        if ctimer >= YEAR_SEC + DAY_SEC {
          tmptimer := tmptimer + 1;
          ctimer := ctimer - (YEAR_SEC + DAY_SEC);
        } else {
          isleapyear := true;
        }
      }
    }
    year := tmptimer;
    YearOfTime(timer, year, ctimer, isleapyear);
  }

  lemma TimeOfDay(ctimer: nat)
    ensures var c := ctimer - ctimer / DAY_SEC * DAY_SEC;
            c == ctimer % DAY_SEC && c - c / 3600 * 3600 == c % 3600 &&
            c % 3600 - c % 3600 / 60 * 60 == c % 3600 % 60
  {
  }

  /** gmtime_r; the divisions are unsigned because _DAY_SEC is. */
  method GmtimeR(timer: nat, ptm: TmStruct?) returns (rc: int)
    requires timer < WORD
    modifies ptm
    ensures rc == if ptm == null then -1 else 0
    ensures ptm != null ==> ptm.Contents() == Broken(timer)
  {
    hide YearAt, YdayAt, FourthYear, DaysTo, MonthAt, Table, MonthFrom;
    if ptm == null { return -1; }
    var year, ctimer, isleapyear := GmYear(timer);
    TimeOfDay(ctimer);
    YdayFits(timer / DAY_SEC);
    ptm.tm_year := year;
    ptm.tm_yday := ctimer / DAY_SEC;
    ctimer := ctimer - ptm.tm_yday * DAY_SEC;
    MonthAtIs(isleapyear, ptm.tm_yday);
    ptm.tm_mon := MonthLoop(Table(isleapyear), ptm.tm_yday);
    ptm.tm_mday := ptm.tm_yday - Table(isleapyear)[ptm.tm_mon];
    ptm.tm_wday := (timer / DAY_SEC + 4) % 7;
    ptm.tm_hour := ctimer / 3600;
    ctimer := ctimer - ptm.tm_hour * 3600;
    ptm.tm_min := ctimer / 60;
    ptm.tm_sec := ctimer - ptm.tm_min * 60;
    ptm.tm_isdst := 0;
    rc := 0;
  }

  lemma MonthAtIs(leap: bool, yday: nat)
    requires yday <= DaysTo(leap, 12)
    ensures Table(leap)[0] < yday && MonthAt(leap, yday) == MonthFrom(Table(leap), 1, yday) - 1
  {
    hide MonthFrom;
  }

  /** The loop over the months, which ends one too far. */
  method MonthLoop(mdays: seq<int>, yday: nat) returns (mon: nat)
    requires |mdays| == 13 && mdays[0] < yday <= mdays[12]
    ensures mon == MonthFrom(mdays, 1, yday) - 1
  {
    var i := 1;
    while mdays[i] < yday
      invariant 1 <= i <= 12 && mdays[i - 1] < yday
      invariant MonthFrom(mdays, 1, yday) == MonthFrom(mdays, i, yday)
      decreases 12 - i
    {
      i := i + 1;
    }
    mon := i - 1;
  }

  /** The year found on seconds is the one found on days. */
  lemma YearOfTime(timer: nat, year: int, rest: nat, leap: bool)
    requires var c := timer % FOUR_YEAR_SEC;
             var k := if c < YEAR_SEC then 0 else if c < 2 * YEAR_SEC then 1
                      else if c < 3 * YEAR_SEC + DAY_SEC then 2 else 3;
             year == timer / FOUR_YEAR_SEC * 4 + 70 + k && leap == (k == 2) &&
             rest == c - k * YEAR_SEC - if k == 3 then DAY_SEC else 0
    ensures year == YearAt(timer / DAY_SEC) && rest / DAY_SEC == YdayAt(timer / DAY_SEC)
    ensures rest % DAY_SEC == timer % DAY_SEC && leap == FourthYear(year)
  {
  }
}
