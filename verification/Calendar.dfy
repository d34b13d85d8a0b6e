/**
  The calendar behind the log's time stamps: seconds since the epoch to a broken-down time, with every
  fourth year a leap year. Years count from 1900 and months from 0.
 */
module Calendar {
  datatype Tm = Tm(year: int, mon: int, mday: int, hour: int, min: int, sec: int)

  const DAYS: seq<int> := [31, 28, 31, 30, 31, 30, 31, 31, 30, 31, 30, 31]
  const FOUR_YEARS_OF_HOURS: int := 1461 * 24
  const TWO_32: int := 0x1_0000_0000

  predicate EveryFourth(year: int) {
    year % 4 == 0
  }

  predicate Gregorian(year: int) {
    year % 4 == 0 && (year % 100 != 0 || (year + 1900) % 400 == 0)
  }

  function DaysIn(mon: int, leap: bool): int
    requires 0 <= mon < 12
  {
    if mon == 1 && leap then 29 else DAYS[mon]
  }

  /** The days of a common year in front of month `mon`. */
  function MonthStart(mon: nat): int
    requires mon <= 12
  {
    if mon == 0 then 0 else MonthStart(mon - 1) + DAYS[mon - 1]
  }

  ghost predicate ValidTm(t: Tm, leap: bool) {
    && 0 <= t.mon < 12 && 1 <= t.mday <= DaysIn(t.mon, leap)
    && 0 <= t.hour < 24 && 0 <= t.min < 60 && 0 <= t.sec < 60
  }

  function YearDay(t: Tm, leap: bool): int
    requires 0 <= t.mon < 12
  {
    MonthStart(t.mon) + (if leap && t.mon >= 2 then 1 else 0) + t.mday - 1
  }

  function TimeOfDay(t: Tm): int {
    3600 * t.hour + 60 * t.min + t.sec
  }

  /** The days in front of year `year` since 1970, when every fourth year is a leap year. */
  function DaysToYear(year: int): int {
    365 * (year - 70) + (year - 69) / 4
  }

  /** Seconds since the epoch under that rule. */
  function SecondsOf(t: Tm): int
    requires 0 <= t.mon < 12
  {
    86400 * (DaysToYear(t.year) + YearDay(t, EveryFourth(t.year))) + TimeOfDay(t)
  }

  /** Section 4.16 of the POSIX.1-2017 Base Definitions, "Seconds Since the Epoch". */
  function PosixSeconds(t: Tm): int
    requires 0 <= t.mon < 12
  {
    t.sec + t.min * 60 + t.hour * 3600 + YearDay(t, Gregorian(t.year)) * 86400
    + (t.year - 70) * 31536000 + ((t.year - 69) / 4) * 86400
    - ((t.year - 1) / 100) * 86400 + ((t.year + 299) / 400) * 86400
  }

  function Adjusted(second: int, timezone: int): (s: int)
    ensures s >= 0
  {
    if second - timezone < 0 then 0 else second - timezone
  }

  /** The hour count is cut to 32 bits where the four-year periods are counted, and nowhere else. */
  function LostPeriods(seconds: int): int {
    var hours := seconds / 3600;
    hours / FOUR_YEARS_OF_HOURS - hours % TWO_32 / FOUR_YEARS_OF_HOURS
  }

  lemma MonthStarts()
    ensures MonthStart(1) == 31 && MonthStart(2) == 59 && MonthStart(3) == 90 && MonthStart(4) == 120
    ensures MonthStart(5) == 151 && MonthStart(6) == 181 && MonthStart(7) == 212 && MonthStart(8) == 243
    ensures MonthStart(9) == 273 && MonthStart(10) == 304 && MonthStart(11) == 334 && MonthStart(12) == 365
  {
    assert MonthStart(3) == 90;
    assert MonthStart(6) == 181;
    assert MonthStart(9) == 273;
  }

  lemma YearsOfPeriod(periods: int, j: int)
    requires 0 <= j <= 3
    ensures DaysToYear(4 * periods + 70 + j) == 1461 * periods + 365 * j + if j == 3 then 1 else 0
    ensures EveryFourth(4 * periods + 70 + j) <==> j == 2
  {
  }

  /** The year inside a four-year period, by taking off one year's hours after the other. */
  method YearInPeriod(periods: int, hours: int) returns (year: int, rest: int)
    requires 0 <= hours < FOUR_YEARS_OF_HOURS
    ensures 4 * periods + 70 <= year && 0 <= rest < 24 * (if EveryFourth(year) then 366 else 365)
    ensures 24 * DaysToYear(year) + rest == FOUR_YEARS_OF_HOURS * periods + hours
  {
    hide DaysToYear;
    year := 4 * periods + 70;
    rest := hours;
    ghost var j := 0;
    YearsOfPeriod(periods, 0);
    while true
      invariant 0 <= j <= 3 && year == 4 * periods + 70 + j
      invariant rest == hours - 24 * (365 * j + if j == 3 then 1 else 0) >= 0
      invariant 24 * DaysToYear(year) + rest == FOUR_YEARS_OF_HOURS * periods + hours
      decreases 3 - j
    {
      YearsOfPeriod(periods, j);
      var hoursPerYear := 365 * 24;
      if year % 4 == 0 {
        hoursPerYear := hoursPerYear + 24;
      }
      if rest < hoursPerYear {
        break;
      }
      year := year + 1;
      rest := rest - hoursPerYear;
      j := j + 1;
      YearsOfPeriod(periods, j);
    }
  }

  /** `toLocalTime`, up to the year: which year the hour falls in, and which hour of it it is. */
  method YearOf(seconds: int) returns (year: int, rest: int)
    requires seconds >= 0
    ensures year >= 70 && 0 <= rest < 24 * (if EveryFourth(year) then 366 else 365)
    ensures 24 * DaysToYear(year) + rest == seconds / 3600 - FOUR_YEARS_OF_HOURS * LostPeriods(seconds)
  {
    hide DaysToYear;
    var hours := seconds / 3600;
    var periods := hours % TWO_32 / FOUR_YEARS_OF_HOURS;
    year, rest := YearInPeriod(periods, hours % FOUR_YEARS_OF_HOURS);
    assert hours == hours / FOUR_YEARS_OF_HOURS * FOUR_YEARS_OF_HOURS + hours % FOUR_YEARS_OF_HOURS;
  }

  /** From the `day`th day of a year, counted from 1, to month and day. */
  method MonthAndDay(year: int, day: int) returns (mon: int, mday: int)
    requires 1 <= day <= if EveryFourth(year) then 366 else 365
    ensures 0 <= mon < 12 && 1 <= mday <= DaysIn(mon, EveryFourth(year))
    ensures MonthStart(mon) + (if EveryFourth(year) && mon >= 2 then 1 else 0) + mday == day
  {
    MonthStarts();
    var left := day;
    if year % 4 == 0 {
      if left > 60 {
        left := left - 1;
      } else if left == 60 {
        return 1, 29;
      }
    }
    mon := 0;
    ghost var whole := left;
    while DAYS[mon] < left
      invariant 0 <= mon < 12 && 1 <= left
      invariant MonthStart(mon) + left == whole <= 365
      decreases 12 - mon
    {
      left := left - DAYS[mon];
      mon := mon + 1;
      assert MonthStart(mon) == MonthStart(mon - 1) + DAYS[mon - 1];
    }
    mday := left;
  }

  /** 1 January 1970, 00:00:00 */
  const EPOCH: Tm := Tm(70, 0, 1, 0, 0, 0)

  lemma EpochIsZero()
    ensures ValidTm(EPOCH, EveryFourth(EPOCH.year)) && SecondsOf(EPOCH) == 0
  {
    hide SecondsOf, MonthStart, YearDay, DaysToYear, EveryFourth, DaysIn;
    January(EveryFourth(EPOCH.year));
    FirstDay(EPOCH, EveryFourth(EPOCH.year));
    YearsOfPeriod(0, 0);
    NoSeconds(EPOCH);
  }

  lemma January(leap: bool)
    ensures DaysIn(0, leap) == 31
  {
  }

  lemma FirstDay(t: Tm, leap: bool)
    requires t.mon == 0 && t.mday == 1
    ensures YearDay(t, leap) == 0
  {
  }

  lemma NoSeconds(t: Tm)
    requires 0 <= t.mon < 12 && DaysToYear(t.year) == 0 && YearDay(t, EveryFourth(t.year)) == 0 && TimeOfDay(t) == 0
    ensures SecondsOf(t) == 0
  {
    hide DaysToYear, YearDay, TimeOfDay, EveryFourth;
  }

  /** Always a valid date of the calendar with every fourth year a leap year, and the right one but for
      the four-year periods lost to the 32-bit hour count; a time before the epoch counts as the epoch. */
  method ToLocalTime(second: int, timezone: int) returns (t: Tm)
    ensures ValidTm(t, EveryFourth(t.year)) && t.year >= 70
    ensures SecondsOf(t) ==
            Adjusted(second, timezone) - 3600 * FOUR_YEARS_OF_HOURS * LostPeriods(Adjusted(second, timezone))
    ensures 0 <= second - timezone < 3600 * TWO_32 ==> SecondsOf(t) == second - timezone
    ensures second <= timezone ==> t == EPOCH
  {
    hide DaysToYear, LostPeriods, MonthStart;
    var s := second - timezone;
    if s < 0 {
      s := 0;
    }
    var sec := s % 60;
    var min := s / 60 % 60;
    HoursMinutesSeconds(s);
    var year, rest := YearOf(s);
    var hour := rest % 24;
    var mon, mday := MonthAndDay(year, rest / 24 + 1);
    t := Tm(year, mon, mday, hour, min, sec);
    assert rest == 24 * (rest / 24) + rest % 24;
    RightDate(t, second, timezone);
  }

  lemma RightDate(t: Tm, second: int, timezone: int)
    requires ValidTm(t, EveryFourth(t.year))
    requires SecondsOf(t) ==
             Adjusted(second, timezone) - 3600 * FOUR_YEARS_OF_HOURS * LostPeriods(Adjusted(second, timezone))
    ensures 0 <= second - timezone < 3600 * TWO_32 ==> SecondsOf(t) == second - timezone
    ensures second <= timezone ==> t == EPOCH
  {
    hide LostPeriods, SecondsOf, ValidTm, EveryFourth;
    NothingLost(Adjusted(second, timezone));
    EpochIsZero();
    if second <= timezone {
      SecondsDetermineDate(t, EPOCH);
    }
  }

  lemma HoursMinutesSeconds(s: int)
    requires s >= 0
    ensures s == 3600 * (s / 3600) + 60 * (s / 60 % 60) + s % 60
  {
    assert s == 60 * (s / 60) + s % 60;
    assert s / 60 == 60 * (s / 60 / 60) + s / 60 % 60;
    assert s / 60 / 60 == s / 3600;
  }

  /** No period is lost exactly as long as the hour count fits 32 bits. */
  lemma NothingLost(seconds: int)
    requires seconds >= 0
    ensures LostPeriods(seconds) == 0 <==> seconds < 3600 * TWO_32
  {
    var hours := seconds / 3600;
    assert hours < TWO_32 <==> seconds < 3600 * TWO_32;
    if hours >= TWO_32 {
      if hours < TWO_32 + FOUR_YEARS_OF_HOURS {
        assert hours / FOUR_YEARS_OF_HOURS >= 122489;
        assert hours % TWO_32 == hours - TWO_32;
        assert (hours - TWO_32) / FOUR_YEARS_OF_HOURS == 0;
      } else {
        assert hours / FOUR_YEARS_OF_HOURS >= 122490;
        assert hours % TWO_32 / FOUR_YEARS_OF_HOURS <= 122489;
      }
    }
  }

  // ----- The date is determined by the seconds -----

  lemma YearDayWithin(t: Tm, leap: bool)
    requires ValidTm(t, leap)
    ensures 0 <= YearDay(t, leap) < if leap then 366 else 365
  {
    MonthStarts();
  }

  lemma YearDayInjective(t: Tm, u: Tm, leap: bool)
    requires ValidTm(t, leap) && ValidTm(u, leap) && YearDay(t, leap) == YearDay(u, leap)
    ensures t.mon == u.mon && t.mday == u.mday
  {
    MonthStarts();
  }

  lemma YearStep(year: int)
    ensures DaysToYear(year + 1) == DaysToYear(year) + if EveryFourth(year) then 366 else 365
  {
  }

  lemma {:induction false} LaterYears(year: int, later: int)
    requires year < later
    ensures DaysToYear(later) >= DaysToYear(year) + if EveryFourth(year) then 366 else 365
    decreases later - year
  {
    YearStep(later - 1);
    if year < later - 1 {
      LaterYears(year, later - 1);
    }
  }

  /** Two valid dates with the same seconds are the same, so `ToLocalTime` gives the only one. */
  lemma SecondsDetermineDate(t: Tm, u: Tm)
    requires ValidTm(t, EveryFourth(t.year)) && ValidTm(u, EveryFourth(u.year)) && SecondsOf(t) == SecondsOf(u)
    ensures t == u
  {
    YearDayWithin(t, EveryFourth(t.year));
    YearDayWithin(u, EveryFourth(u.year));
    var d := DaysToYear(t.year) + YearDay(t, EveryFourth(t.year));
    var e := DaysToYear(u.year) + YearDay(u, EveryFourth(u.year));
    assert 0 <= TimeOfDay(t) < 86400 && 0 <= TimeOfDay(u) < 86400;
    assert d == e;
    if t.year < u.year {
      LaterYears(t.year, u.year);
    } else if u.year < t.year {
      LaterYears(u.year, t.year);
    } else {
      YearDayInjective(t, u, EveryFourth(t.year));
    }
  }

  // ----- POSIX -----

  /** What the two rules differ by: the days of the century years. */
  lemma PosixDifference(t: Tm)
    requires 0 <= t.mon < 12
    ensures PosixSeconds(t) == SecondsOf(t)
            + 86400 * (YearDay(t, Gregorian(t.year)) - YearDay(t, EveryFourth(t.year))
                       - (t.year - 1) / 100 + (t.year + 299) / 400)
  {
  }

  /** 1 March 2100, 00:00:00. */
  const FIRST_WRONG_SECOND: int := 4107542400

  lemma YearsOfCentury(t: Tm)
    requires ValidTm(t, EveryFourth(t.year)) && t.year >= 70
    ensures SecondsOf(t) < FIRST_WRONG_SECOND <==>
            t.year < 200 || (t.year == 200 && (t.mon < 1 || (t.mon == 1 && t.mday <= 28)))
  {
    MonthStarts();
    YearDayWithin(t, EveryFourth(t.year));
    assert DaysToYear(200) == 47482;
    if t.year < 200 {
      LaterYears(t.year, 200);
    } else if t.year > 200 {
      LaterYears(200, t.year);
    }
  }

  /** The date is also the right one by the Gregorian rule and the POSIX formula exactly before
      1 March 2100: the day before that is 28 February, which every-fourth-year follows with a 29th. */
  lemma AgreesWithPosixUntil2100(t: Tm)
    requires ValidTm(t, EveryFourth(t.year)) && t.year >= 70
    ensures ValidTm(t, Gregorian(t.year)) && PosixSeconds(t) == SecondsOf(t) <==> SecondsOf(t) < FIRST_WRONG_SECOND
  {
    MonthStarts();
    YearsOfCentury(t);
    PosixDifference(t);
    if t.year > 200 {
      assert (t.year - 1) / 100 > (t.year + 299) / 400;
    }
  }
}
