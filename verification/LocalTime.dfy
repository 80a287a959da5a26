/**
 Daylight saving time of crt/tzset.c and the two ways localtime_r of crt/localtim.c computes local time.
 */
module LocalTime {
  import opened Calendar
  import opened Machine

  // --- Transition dates ---

  function WeekDay(year: int, yday: int): int
    requires year >= 69
  {
    (DaysBeforeYear(year) + yday + 4) % 7
  }

  /** The week-th day of that name in the month (1 to 12), or the last one if week is 5. */
  predicate IsNth(year: int, month: int, week: int, dayofweek: int, yday: int)
    requires year >= 69 && 1 <= month <= 12
  {
    var first := DaysBeforeMonth(Leap(year), month - 1);
    var end := DaysBeforeMonth(Leap(year), month);
    first <= yday < end && WeekDay(year, yday) == dayofweek &&
    if week == 5 then end - 7 <= yday else first + 7 * (week - 1) <= yday < first + 7 * week
  }

  /** The day of the year cvtdate computes for a day-in-month rule. */
  function TransitionDay(year: int, month: nat, week: int, dayofweek: int): int
    requires year >= 70 && 1 <= month <= 12
  {
    var first := 1 + DaysTo(FourthYear(year), month - 1);
    var monthdow := (first + (year - 70) * 365 + (year - 1) / 4 - 17 + 4) % 7;
    var yday := first + (dayofweek - monthdow) + if monthdow <= dayofweek then (week - 1) * 7 else week * 7;
    if week == 5 && yday > DaysTo(FourthYear(year), month) then yday - 7 else yday
  }

  lemma FirstWeekDay(year: int, first: int)
    requires 70 <= year < 200
    ensures (first + (year - 70) * 365 + (year - 1) / 4 - 17 + 4) % 7 == WeekDay(year, first)
  {
    hide DaysBeforeYear;
    YearsBefore(year);
  }

  /** Going on by days from a known day of the week. */
  lemma WeekDayAfter(year: int, first: int, k: int, dow: int, weeks: int)
    requires year >= 69 && 0 <= dow < 7 && k == dow - WeekDay(year, first) + 7 * weeks
    ensures WeekDay(year, first + k) == dow
  {
    hide DaysBeforeYear;
  }

  /** For every year up to 2099, month, week and day of the week, cvtdate finds the day the rule means. */
  lemma TransitionDayIsNth(year: int, month: nat, week: int, dayofweek: int)
    requires 70 <= year < 200 && 1 <= month <= 12 && 1 <= week <= 5 && 0 <= dayofweek < 7
    ensures IsNth(year, month, week, dayofweek, TransitionDay(year, month, week, dayofweek))
  {
    hide DaysBeforeMonth, DaysBeforeYear, DaysTo, Leap, FourthYear, MonthLength, WeekDay;
    var leap := Leap(year);
    LeapIs(year);
    MonthStartsAgree(leap, month - 1);
    MonthStartsAgree(leap, month);
    MonthLengthIs(leap, month - 1);
    LengthsArePositive(leap, month - 1);
    var first := DaysBeforeMonth(leap, month - 1);
    FirstWeekDay(year, first);
    WeekDayInWeek(year, first);
    var yday := TransitionDay(year, month, week, dayofweek);
    var dow := WeekDay(year, first);
    var weeks := if dow <= dayofweek then week - 1 else week;
    var raw := first + (dayofweek - dow) + weeks * 7;
    WeekDayAfter(year, first, yday - first, dayofweek, if yday == raw then weeks else weeks - 1);
  }

  lemma WeekDayInWeek(year: int, yday: int)
    requires year >= 69
    ensures 0 <= WeekDay(year, yday) < 7
  {
  }

  // --- The rule: from the last Sunday of March to the last Sunday of October ---

  const TWO := 7200

  /** The seconds of the year, in standard time, in which daylight saving time is in force. */
  ghost predicate InDst(year: int, second: int, bias: int)
    requires year >= 69
  {
    exists s, e ::
      IsNth(year, 3, 5, 0, s) && IsNth(year, 10, 5, 0, e) && s * DAY_SEC + TWO <= second < e * DAY_SEC + TWO + bias
  }

  lemma NthIsUnique(year: int, month: int, week: int, dayofweek: int, x: int, y: int)
    requires year >= 69 && 1 <= month <= 12
    requires IsNth(year, month, week, dayofweek, x) && IsNth(year, month, week, dayofweek, y)
    ensures x == y
  {
    hide DaysBeforeMonth, DaysBeforeYear;
  }

  /** Once the transition days are known, the rule is a comparison. */
  lemma InDstIs(year: int, second: int, bias: int)
    requires 70 <= year < 200
    ensures InDst(year, second, bias) <==>
            TransitionDay(year, 3, 5, 0) * DAY_SEC + TWO <= second <
            TransitionDay(year, 10, 5, 0) * DAY_SEC + TWO + bias
  {
    hide IsNth, TransitionDay;
    var s, e := TransitionDay(year, 3, 5, 0), TransitionDay(year, 10, 5, 0);
    TransitionDayIsNth(year, 3, 5, 0);
    TransitionDayIsNth(year, 10, 5, 0);
    forall s', e' | IsNth(year, 3, 5, 0, s') && IsNth(year, 10, 5, 0, e') ensures s' == s && e' == e {
      NthIsUnique(year, 3, 5, 0, s, s');
      NthIsUnique(year, 10, 5, 0, e, e');
    }
  }

  /** March and October, counted from January 1. */
  lemma TransitionBounds(year: int)
    requires 70 <= year < 200
    ensures 82 <= TransitionDay(year, 3, 5, 0) <= 90 && 296 <= TransitionDay(year, 10, 5, 0) <= 304
  {
    hide DaysBeforeYear, TransitionDay, Leap, WeekDay;
    TransitionDayIsNth(year, 3, 5, 0);
    TransitionDayIsNth(year, 10, 5, 0);
    var leap := Leap(year);
    MonthStartsAgree(leap, 2);
    MonthStartsAgree(leap, 3);
    MonthStartsAgree(leap, 9);
    MonthStartsAgree(leap, 10);
  }

  // --- The cached transitions ---

  const DAY_MILLISEC := 86400000

  datatype Transition = Transition(yr: int, yd: int, ms: int)

  function StartOf(year: int): Transition
    requires year >= 70
  {
    Transition(year, TransitionDay(year, 3, 5, 0), TWO * 1000)
  }

  /** The end is given in daylight saving time and stored in standard time. */
  function EndOf(year: int, bias: int): Transition
    requires year >= 70
  {
    var yd, ms := TransitionDay(year, 10, 5, 0), TWO * 1000 + bias * 1000;
    if ms < 0 then Transition(year, yd - 1, ms + DAY_MILLISEC)
    else if ms >= DAY_MILLISEC then Transition(year, yd + 1, ms - DAY_MILLISEC)
    else Transition(year, yd, ms)
  }

  /** The comparisons of _isindst, in northern order. */
  predicate Between(start: Transition, end: Transition, yday: int, ms: int) {
    if start.yd < end.yd && (yday < start.yd || yday > end.yd) then false
    else if start.yd < end.yd && start.yd < yday < end.yd then true
    else if start.yd >= end.yd && (yday < end.yd || yday > start.yd) then true
    else if start.yd >= end.yd && end.yd < yday < start.yd then false
    else if yday == start.yd then ms >= start.ms
    else ms < end.ms
  }

  lemma BetweenIsInDst(year: int, yday: int, second: int, bias: int)
    requires 70 <= year < 200 && -DAY_SEC < bias < DAY_SEC && 0 <= second < DAY_SEC
    ensures Between(StartOf(year), EndOf(year, bias), yday, second * 1000) <==>
            InDst(year, yday * DAY_SEC + second, bias)
  {
    hide TransitionDay, InDst;
    InDstIs(year, yday * DAY_SEC + second, bias);
    TransitionBounds(year);
  }

  // --- Local time ---

  /** The / and % of C. */
  function CDiv(a: int, b: int): int
    requires b > 0
  {
    if a >= 0 then a / b else -(-a / b)
  }

  function CMod(a: int, b: int): int
    requires b > 0
  {
    a - CDiv(a, b) * b
  }

  /** One carry of the direct branch: the field after taking up x, and what is passed on. */
  function Carry(x: int, n: int): (int, int)
    requires n > 0
  {
    if CMod(x, n) < 0 then (CMod(x, n) + n, CDiv(x - n, n)) else (CMod(x, n), CDiv(x, n))
  }

  lemma CarryFloors(x: int, n: int)
    requires n == 24 || n == 60
    ensures 0 <= Carry(x, n).0 < n && x == Carry(x, n).1 * n + Carry(x, n).0
  {
    if n == 24 { CarryHours(x); } else { CarryMinutes(x); }
  }

  lemma CarryHours(x: int)
    ensures 0 <= Carry(x, 24).0 < 24 && x == Carry(x, 24).1 * 24 + Carry(x, 24).0
  {
  }

  lemma CarryMinutes(x: int)
    ensures 0 <= Carry(x, 60).0 < 60 && x == Carry(x, 60).1 * 60 + Carry(x, 60).0
  {
  }

  function DayMoved(d: Date, days: int): Date {
    if days > 0 then d.(wday := CMod(d.wday + days, 7), mday := d.mday + days, yday := d.yday + days)
    else if days < 0 then
      var wday := CMod(d.wday + 7 + days, 7);
      if d.mday + days <= 0 then Date(d.year - 1, 11, d.mday + days + 31, 364, wday)
      else d.(wday := wday, mday := d.mday + days, yday := d.yday + days)
    else d
  }

  /** The direct branch of localtime_r without daylight saving time. */
  function Carried(tm: Tm, zone: int): Tm {
    var s := Carry(tm.sec - zone, 60);
    var m := Carry(tm.min + s.1, 60);
    var h := Carry(tm.hour + m.1, 24);
    Tm(s.0, m.0, h.0, DayMoved(tm.date, h.1), tm.isdst)
  }

  lemma RemainderIs(x: int, n: int)
    requires x >= 0 && n > 0
    ensures CMod(x, n) == x % n
  {
  }

  /** The day of the week moves along. */
  lemma WeekMoves(wday: int, number: int, days: int)
    requires wday == (number + 4) % 7 && -1 <= days <= 1
    ensures days >= 0 ==> CMod(wday + days, 7) == (number + days + 4) % 7
    ensures days < 0 ==> CMod(wday + 7 + days, 7) == (number + days + 4) % 7
  {
    hide CMod;
    RemainderIs(wday + 7 + days, 7);
    if days >= 0 { RemainderIs(wday + days, 7); }
  }

  lemma DayForward(d: Date)
    requires Valid(d) && d.mon == 0 && d.mday <= 30
    ensures Valid(DayMoved(d, 1)) && DayNumber(DayMoved(d, 1)) == DayNumber(d) + 1
  {
    hide DaysBeforeYear, DaysBeforeMonth, Leap, MonthLength, CMod;
    January(Leap(d.year));
    WeekMoves(d.wday, DayNumber(d), 1);
  }

  lemma DayBack(d: Date)
    requires Valid(d) && d.mon == 0 && d.mday > 1
    ensures Valid(DayMoved(d, -1)) && DayNumber(DayMoved(d, -1)) == DayNumber(d) - 1
  {
    hide DaysBeforeYear, DaysBeforeMonth, Leap, MonthLength, CMod;
    WeekMoves(d.wday, DayNumber(d), -1);
  }

  lemma DayBackTo1969(d: Date)
    requires Valid(d) && d.mon == 0 && d.mday == 1 && d.year == 70
    ensures Valid(DayMoved(d, -1)) && DayNumber(DayMoved(d, -1)) == DayNumber(d) - 1
  {
    hide DaysBeforeYear, DaysBeforeMonth, Leap, MonthLength, CMod;
    MonthStartsAgree(Leap(70), 0);
    LastMonth(Leap(70));
    WeekMoves(d.wday, DayNumber(d), -1);
    YearAfter(69);
    TwelveMonths(Leap(69));
    LengthsArePositive(Leap(69), 11);
    EndOf1969();
  }

  /** A day moved by one within January, or from January 1 back to December 31, 1969. */
  lemma DayMovedCounts(d: Date, days: int)
    requires Valid(d) && d.year >= 70 && d.mon == 0 && d.mday <= 30 && -1 <= days <= 1
    requires d.mday == 1 && days < 0 ==> d.year == 70
    ensures Valid(DayMoved(d, days)) && DayNumber(DayMoved(d, days)) == DayNumber(d) + days
  {
    hide DaysBeforeYear, DaysBeforeMonth, Leap, MonthLength, CMod;
    if days > 0 { DayForward(d); }
    if days < 0 { if d.mday > 1 { DayBack(d); } else { DayBackTo1969(d); } }
  }

  lemma January(leap: bool)
    ensures MonthLength(leap, 0) == 31
  {
  }

  lemma EndOf1969()
    ensures !Leap(69)
  {
  }

  /** The direct branch denotes the time shifted by the zone. */
  lemma CarriedDenotes(tm: Tm, zone: int)
    requires InRange(tm) && tm.date.year >= 70 && tm.date.mon == 0 && tm.date.mday <= 30
    requires -DAY_SEC < zone < DAY_SEC && (tm.date.mday == 1 ==> tm.date.year == 70)
    ensures InRange(Carried(tm, zone)) && Seconds(Carried(tm, zone)) == Seconds(tm) - zone
    ensures Carried(tm, zone).isdst == tm.isdst
  {
    hide Valid, DayNumber, Carry, DayMoved;
    var s := Carry(tm.sec - zone, 60);
    CarryFloors(tm.sec - zone, 60);
    var m := Carry(tm.min + s.1, 60);
    CarryFloors(tm.min + s.1, 60);
    var h := Carry(tm.hour + m.1, 24);
    CarryFloors(tm.hour + m.1, 24);
    assert h.1 * DAY_SEC + h.0 * 3600 + m.0 * 60 + s.0 == SecondOfDay(tm) - zone;
    DayMovedCounts(tm.date, h.1);
    ValidIsLate(DayMoved(tm.date, h.1));
  }

  // --- The driver's code ---

  /** Whether daylight saving time is in force at a time given in local standard time. */
  ghost predicate DstAt(local: int, bias: int)
    requires local < END * DAY_SEC
  {
    local >= 0 && InDst(YearAt(local / DAY_SEC), YdayAt(local / DAY_SEC) * DAY_SEC + local % DAY_SEC, bias)
  }

  /** The days localtime_r can meet lie between 1970 and 2038. */
  lemma YearNear(n: nat)
    requires n < 24860
    ensures 70 <= YearAt(n) <= 138 && n < END
  {
  }

  lemma LocalDay(local: nat)
    requires local < LONG_MAX + DAY_SEC
    ensures local / DAY_SEC < 24860 && local < END * DAY_SEC
  {
  }

  /** At both ends of the epoch it is January. */
  lemma EndsInJanuary(n: nat)
    requires n <= 4 || 24851 <= n <= 24856
    ensures YdayAt(n) < 20 && (YearAt(n) == 70 || (YearAt(n) == 138 && YdayAt(n) > 0))
  {
  }

  lemma DateInJanuary(n: nat)
    requires YdayAt(n) < 20
    ensures GmDate(n).mon == 0 && GmDate(n).mday == YdayAt(n) + 1
    ensures GmDate(n).year == YearAt(n) && GmDate(n).yday == YdayAt(n)
  {
    hide YearAt, YdayAt, FourthYear, DaysTo, MonthAt;
    var leap := FourthYear(YearAt(n));
    LastMonth(leap);
    MonthIs(leap, YdayAt(n), 0);
  }

  lemma NoDstInJanuary(year: int, second: int, bias: int)
    requires 70 <= year < 200 && second < 20 * DAY_SEC
    ensures !InDst(year, second, bias)
  {
    hide InDst, TransitionDay;
    InDstIs(year, second, bias);
    TransitionBounds(year);
  }

  /** Times for which localtime_r takes the direct branch. */
  predicate NearEnd(timer: nat) {
    timer <= 3 * DAY_SEC || LONG_MAX - 3 * DAY_SEC <= timer <= LONG_MAX
  }

  lemma DirectTime(timer: nat, bias: int)
    requires NearEnd(timer)
    ensures var d := Broken(timer).date;
            (d.year == 70 || (d.year == 138 && d.mday > 1)) && d.mon == 0 && d.mday <= 20 && d.yday < 20
    ensures !DstAt(timer, bias)
  {
    hide YearAt, YdayAt, GmDate, InDst;
    var n := timer / DAY_SEC;
    LocalDay(timer);
    NearDays(timer);
    EndsInJanuary(n);
    DateInJanuary(n);
    NoDstInJanuary(YearAt(n), YdayAt(n) * DAY_SEC + timer % DAY_SEC, bias);
  }

  lemma NearDays(timer: nat)
    requires NearEnd(timer)
    ensures timer / DAY_SEC <= 4 || 24851 <= timer / DAY_SEC <= 24856
  {
  }

  /** Nor is it in force there in local time. */
  lemma DirectLocalTime(timer: nat, zone: int, bias: int)
    requires NearEnd(timer) && -DAY_SEC < zone < DAY_SEC
    ensures timer - zone < END * DAY_SEC && !DstAt(timer - zone, bias)
  {
    hide YearAt, YdayAt, InDst;
    var local := timer - zone;
    if local >= 0 {
      var n := local / DAY_SEC;
      assert n <= 4 || 24851 <= n <= 24856;
      EndsInJanuary(n);
      NoDstInJanuary(YearAt(n), YdayAt(n) * DAY_SEC + local % DAY_SEC, bias);
    }
  }

  /** The fields of a time give the same answer as the time. */
  lemma BrokenDst(local: nat, bias: int)
    requires local < LONG_MAX + DAY_SEC
    ensures InRange(Broken(local)) && Seconds(Broken(local)) == local && local < END * DAY_SEC
    ensures 70 <= Broken(local).date.year < 200 && !Broken(local).isdst
    ensures InDst(Broken(local).date.year, Broken(local).date.yday * DAY_SEC + SecondOfDay(Broken(local)), bias) <==>
            DstAt(local, bias)
  {
    hide YearAt, YdayAt, InDst, InRange, Seconds;
    LocalDay(local);
    YearNear(local / DAY_SEC);
    BreakingRoundTrip(local);
    assert SecondOfDay(Broken(local)) == local % DAY_SEC;
  }

  /** The two ways of localtime_r agree wherever the first could be taken. */
  lemma BranchesAgree(timer: nat, zone: int, bias: int)
    requires NearEnd(timer) && -DAY_SEC < zone < DAY_SEC && timer - zone >= 0
    ensures Carried(Broken(timer), zone) == Broken(timer - zone)
  {
    hide Broken, Calendar.Valid, Seconds, Carried, InDst, DstAt;
    BrokenDst(timer, bias);
    BrokenDst(timer - zone, bias);
    DirectTime(timer, bias);
    CarriedDenotes(Broken(timer), zone);
    ValidIsLate(Carried(Broken(timer), zone).date);
    SecondsDetermine(Carried(Broken(timer), zone), Broken(timer - zone));
  }

  /** Local times before the epoch fall on Wednesday, December 31, 1969. */
  lemma BeforeTheEpoch(timer: nat, zone: int)
    requires NearEnd(timer) && timer < zone < DAY_SEC
    ensures Carried(Broken(timer), zone).date == Date(69, 11, 31, 364, 3)
  {
    hide Broken, Calendar.Valid, DayNumber, Carried, InDst, DstAt;
    BrokenDst(timer, 0);
    DirectTime(timer, 0);
    CarriedDenotes(Broken(timer), zone);
    LastDayOf1969();
    var r := Carried(Broken(timer), zone);
    ValidIsLate(r.date);
    assert -DAY_SEC <= Seconds(r) < 0;
    NumberDetermines(r.date, Date(69, 11, 31, 364, 3));
  }

  lemma LastDayOf1969()
    ensures Calendar.Valid(Date(69, 11, 31, 364, 3)) && DayNumber(Date(69, 11, 31, 364, 3)) == -1
  {
    hide DaysBeforeYear, DaysBeforeMonth, Leap, MonthLength;
    EndOf1969();
    YearsBefore(69);
    TwelveMonths(false);
    LengthsArePositive(false, 11);
  }

  lemma Flagged(tm: Tm)
    ensures InRange(tm) <==> InRange(tm.(isdst := true))
    ensures InRange(tm) ==> tm.date.year >= 69 && tm.date.mon >= 0 && Seconds(tm.(isdst := true)) == Seconds(tm)
  {
  }

  /** The static variables of crt/tzset.c. */
  class TimeZone {
    var dststart: Transition
    var dstend: Transition
    var daylight: bool
    const dstbias: int
    var timezone: int

    /** The cached transitions are those of some year, or have never been set. */
    ghost predicate Valid()
      reads this
    {
      -DAY_SEC < dstbias < DAY_SEC && -DAY_SEC < timezone < DAY_SEC &&
      (dststart.yr == -1 || (70 <= dststart.yr < 200 && dststart == StartOf(dststart.yr))) &&
      (dstend.yr == -1 || (70 <= dstend.yr < 200 && dstend == EndOf(dstend.yr, dstbias)))
    }

    constructor (on: bool, bias: int, zone: int)
      requires -DAY_SEC < bias < DAY_SEC && -DAY_SEC < zone < DAY_SEC
      ensures Valid() && daylight == on && dstbias == bias && timezone == zone
    {
      dststart, dstend := Transition(-1, 0, 0), Transition(-1, 0, 0);
      daylight, dstbias, timezone := on, bias, zone;
    }

    /** cvtdate for a day-in-month rule (datetype 1) at a full hour. */
    method CvtDate(trantype: int, year: int, month: nat, week: int, dayofweek: int, hour: int)
      requires 70 <= year < 200 && 1 <= month <= 12 && 1 <= week <= 5 && 0 <= dayofweek < 7
      modifies this`dststart, this`dstend
      ensures var yd := TransitionDay(year, month, week, dayofweek);
              IsNth(year, month, week, dayofweek, yd) &&
              if trantype == 1 then dststart == Transition(year, yd, hour * 3600000) && dstend == old(dstend)
              else
                var ms := hour * 3600000 + dstbias * 1000;
                var days := if ms < 0 then -1 else if ms >= DAY_MILLISEC then 1 else 0;
                dstend == Transition(year, yd + days, ms - days * DAY_MILLISEC) && dststart == old(dststart)
    {
      hide DaysTo, IsNth;
      TransitionDayIsNth(year, month, week, dayofweek);
      var yearday := 1 + DaysTo(FourthYear(year), month - 1);
      var monthdow := (yearday + (year - 70) * 365 + (year - 1) / 4 - 17 + 4) % 7;
      if monthdow <= dayofweek {
        yearday := yearday + (dayofweek - monthdow) + (week - 1) * 7;
      } else {
        yearday := yearday + (dayofweek - monthdow) + week * 7;
      }
      if week == 5 && yearday > DaysTo(FourthYear(year), month) {
        yearday := yearday - 7;
      }
      if trantype == 1 {
        dststart := Transition(year, yearday, 1000 * (60 * (60 * hour)));
      } else {
        var ms := 1000 * (60 * (60 * hour)) + dstbias * 1000;
        if ms < 0 {
          ms := ms + DAY_MILLISEC;
          yearday := yearday - 1;
        } else if ms >= DAY_MILLISEC {
          ms := ms - DAY_MILLISEC;
          yearday := yearday + 1;
        }
        dstend := Transition(year, yearday, ms);
      }
    }

    /** _isindst: whatever was cached before, the answer is the rule's. */
    method IsInDst(tb: TmStruct) returns (r: bool)
      requires Valid() && 70 <= tb.tm_year < 200
      requires 0 <= tb.tm_sec < 60 && 0 <= tb.tm_min < 60 && 0 <= tb.tm_hour < 24
      modifies this`dststart, this`dstend
      ensures Valid()
      ensures r <==> daylight &&
                     InDst(tb.tm_year, tb.tm_yday * DAY_SEC + SecondOfDay(tb.Contents()), dstbias)
    {
      hide InDst, TransitionDay;
      if !daylight {
        return false;
      }
      if tb.tm_year != dststart.yr || tb.tm_year != dstend.yr {
        CvtDate(1, tb.tm_year, 3, 5, 0, 2);
        CvtDate(0, tb.tm_year, 10, 5, 0, 2);
      }
      BetweenIsInDst(tb.tm_year, tb.tm_yday, SecondOfDay(tb.Contents()), dstbias);
      if dststart.yd < dstend.yd {
        if tb.tm_yday < dststart.yd || tb.tm_yday > dstend.yd { return false; }
        if tb.tm_yday > dststart.yd && tb.tm_yday < dstend.yd { return true; }
      } else {
        if tb.tm_yday < dstend.yd || tb.tm_yday > dststart.yd { return true; }
        if tb.tm_yday > dstend.yd && tb.tm_yday < dststart.yd { return false; }
      }
      var ms := 1000 * (tb.tm_sec + 60 * tb.tm_min + 3600 * tb.tm_hour);
      r := if tb.tm_yday == dststart.yd then ms >= dststart.ms else ms < dstend.ms;
    }

    /**
     localtime_r: both branches give in-range fields for the time less the zone, and less the bias exactly when
     daylight saving time is in force.
     */
    method LocaltimeR(timer: nat, ptm: TmStruct) returns (rc: int)
      requires Valid() && timer <= LONG_MAX
      modifies this`dststart, this`dstend, ptm
      ensures Valid() && rc == 0
      ensures InRange(ptm.Contents())
      ensures Seconds(ptm.Contents()) == timer - timezone - if ptm.Contents().isdst then dstbias else 0
      ensures ptm.Contents().isdst <==> daylight && DstAt(timer - timezone, dstbias)
    {
      hide Broken, Calendar.Valid, Seconds, InDst, DstAt, Carried;
      if timer > 3 * DAY_SEC && timer < LONG_MAX - 3 * DAY_SEC {
        var ltime := timer - timezone;
        var _ := GmtimeR(ltime, ptm);
        BrokenDst(ltime, dstbias);
        if daylight {
          var dst := IsInDst(ptm);
          if dst {
            ltime := ltime - dstbias;
            var _ := GmtimeR(ltime, ptm);
            BrokenDst(ltime, dstbias);
            Flagged(ptm.Contents());
            ptm.tm_isdst := 1;
          }
        }
      } else {
        var _ := GmtimeR(timer, ptm);
        BrokenDst(timer, dstbias);
        DirectTime(timer, dstbias);
        DirectLocalTime(timer, timezone, dstbias);
        var dst := IsInDst(ptm);
        var zone := if dst then timezone + dstbias else timezone;
        CarriedDenotes(Broken(timer), zone);
        Adjust(ptm, zone);
      }
      rc := 0;
    }

    /** What each field does with a sum that may be negative. */
    method CarryInto(ltime: int, n: int) returns (field: int, rest: int)
      requires n > 0
      ensures (field, rest) == Carry(ltime, n)
    {
      hide CDiv, CMod;
      rest := ltime;
      field := CMod(ltime, n);
      if field < 0 {
        field := field + n;
        rest := rest - n;
      }
      rest := CDiv(rest, n);
    }

    /** The direct branch: the shift goes into the seconds and is carried up to the day. */
    method Adjust(ptm: TmStruct, zone: int)
      modifies ptm
      ensures ptm.Contents() == Carried(old(ptm.Contents()), zone)
    {
      hide Carry, CMod;
      var ltime := ptm.tm_sec - zone;
      ptm.tm_sec, ltime := CarryInto(ltime, 60);
      ptm.tm_min, ltime := CarryInto(ptm.tm_min + ltime, 60);
      ptm.tm_hour, ltime := CarryInto(ptm.tm_hour + ltime, 24);
      if ltime > 0 {
        ptm.tm_wday := CMod(ptm.tm_wday + ltime, 7);
        ptm.tm_mday := ptm.tm_mday + ltime;
        ptm.tm_yday := ptm.tm_yday + ltime;
      } else if ltime < 0 {
        ptm.tm_wday := CMod(ptm.tm_wday + 7 + ltime, 7);
        ptm.tm_mday := ptm.tm_mday + ltime;
        if ptm.tm_mday <= 0 {
          ptm.tm_mday := ptm.tm_mday + 31;
          ptm.tm_yday := 364;
          ptm.tm_mon := 11;
          ptm.tm_year := ptm.tm_year - 1;
        } else {
          ptm.tm_yday := ptm.tm_yday + ltime;
        }
      }
    }
  }
}