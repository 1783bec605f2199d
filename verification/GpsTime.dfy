/** GPS time and its calendar (main/rinex_logger.cpp, gps_to_calendar). */
module GpsTime {
  predicate IsLeap(year: int) {
    year % 4 == 0 && (year % 100 != 0 || year % 400 == 0)
  }

  function YearLength(year: int): nat {
    if IsLeap(year) then 366 else 365
  }

  function MonthLength(year: int, month: nat): (n: nat)
    ensures n > 0
  {
    if month == 2 then if IsLeap(year) then 29 else 28
    else if month == 4 || month == 6 || month == 9 || month == 11 then 30
    else 31
  }

  /** The year, and the day in it, of a day counted from the start of `year`. */
  function YearAndDay(day: nat, year: int): (r: (int, nat))
    ensures r.0 >= year && r.1 < YearLength(r.0)
    decreases day
  {
    if day < YearLength(year) then (year, day) else YearAndDay(day - YearLength(year), year + 1)
  }

  function MonthAndDay(day: nat, year: int, month: nat): (r: (nat, nat))
    requires 1 <= month <= 12 && day < 366
    ensures 1 <= r.0 <= 12 && 1 <= r.1 <= 366
    decreases day
  {
    if month == 12 || day < MonthLength(year, month) then (month, day + 1)
    else MonthAndDay(day - MonthLength(year, month), year, month + 1)
  }

  /** A number cut to the 32 bits of an int. */
  function Int32(x: int): (r: int)
    ensures -0x8000_0000 <= r < 0x8000_0000
    ensures -0x8000_0000 <= x < 0x8000_0000 <==> r == x
  {
    (x + 0x8000_0000) % 0x1_0000_0000 - 0x8000_0000
  }

  datatype Date = Date(year: int, month: nat, day: nat, hour: nat, minute: nat, second: nat)

  /** A calendar date, as struct tm has it: the years since 1900 are an int. */
  type Stamp = d: Date |
    && 1 <= d.month <= 12 && 1 <= d.day <= 366 && d.hour < 24 && d.minute < 60 && d.second < 60
    && -0x8000_0000 <= d.year - 1900 < 0x8000_0000
    witness Date(1980, 1, 6, 0, 0, 0)

  /** A point of GPS time, to a whole second, and its calendar date. */
  datatype Time = Time(week: int, tow: int, stamp: Stamp)

  const WEEK := 604800
  const DAY := 86400

  function Absolute(t: Time): int {
    t.week * WEEK + t.tow
  }

  /** The year, and the day in it, that a GPS time falls on. The civil day is found from the first
      of January 2000, day 10957 of the Unix epoch, in periods of 400 years of 146097 days. */
  function CivilDay(week: int, tow: int): (r: (int, nat))
    ensures r.1 < 366
  {
    var day := (315964800 + week * WEEK + tow) / DAY - 10957;
    YearAndDay(day % 146097, 2000 + 400 * (day / 146097))
  }

  /** gps_to_calendar, for a whole number of seconds. */
  function Calendar(week: int, tow: int): Stamp {
    var second := (315964800 + week * WEEK + tow) % DAY;
    var (year, n) := CivilDay(week, tow);
    var (month, d) := MonthAndDay(n, year, 1);
    Date(1900 + Int32(year - 1900), month, d, second / 3600, second / 60 % 60, second % 60)
  }

  /** The days of the years from `a` up to but not including `b`. */
  function YearsLength(a: int, b: int): (n: nat)
    requires a <= b
    decreases b - a
  {
    if a == b then 0 else YearLength(a) + YearsLength(a + 1, b)
  }

  /** The days of the months from `a` up to but not including `b`. */
  function MonthsLength(year: int, a: nat, b: nat): (n: nat)
    requires a <= b
    decreases b - a
  {
    if a == b then 0 else MonthLength(year, a) + MonthsLength(year, a + 1, b)
  }

  lemma {:induction false} YearFound(day: nat, year: int)
    ensures var (y, d) := YearAndDay(day, year); YearsLength(year, y) + d == day
    decreases day
  {
    if day >= YearLength(year) {
      YearFound(day - YearLength(year), year + 1);
    }
  }

  lemma {:induction false} MonthFound(day: nat, year: int, month: nat)
    requires 1 <= month <= 12 && day < 366 && day < MonthsLength(year, month, 13)
    ensures var (m, d) := MonthAndDay(day, year, month);
      month <= m && MonthsLength(year, month, m) + d - 1 == day && d <= MonthLength(year, m)
    decreases day
  {
    if month == 12 {
      assert MonthsLength(year, 12, 13) == MonthLength(year, 12) + MonthsLength(year, 13, 13);
    } else if day >= MonthLength(year, month) {
      MonthFound(day - MonthLength(year, month), year, month + 1);
    }
  }

  lemma TwelveMonths(year: int)
    ensures MonthsLength(year, 1, 13) == YearLength(year)
  {
    hide IsLeap;
    assert MonthsLength(year, 10, 13) == 92;
    assert MonthsLength(year, 7, 13) == 184;
    assert MonthsLength(year, 4, 13) == 275;
    assert MonthsLength(year, 2, 13) == MonthLength(year, 2) + 31 + 275;
  }

  /** The days before the first of January of a year, in closed form. */
  function DaysBefore(year: int): int {
    365 * year + (year - 1) / 4 - (year - 1) / 100 + (year - 1) / 400
  }

  lemma Quarter(y: int, n: nat)
    requires n == 4 || n == 100 || n == 400
    ensures y / n - (y - 1) / n == if y % n == 0 then 1 else 0
  {
  }

  lemma NextYear(year: int)
    ensures DaysBefore(year + 1) - DaysBefore(year) == YearLength(year)
  {
    Quarter(year, 4);
    Quarter(year, 100);
    Quarter(year, 400);
    Divides(year);
  }

  lemma Divides(y: int)
    ensures y % 400 == 0 ==> y % 100 == 0
    ensures y % 100 == 0 ==> y % 4 == 0
  {
  }

  lemma {:induction false} YearsClosed(a: int, b: int)
    requires a <= b
    ensures YearsLength(a, b) == DaysBefore(b) - DaysBefore(a)
    decreases b - a
  {
    hide DaysBefore, YearLength;
    if a < b {
      NextYear(a);
      YearsClosed(a + 1, b);
    }
  }

  lemma FourCenturies(period: int)
    ensures DaysBefore(2000 + 400 * period) == DaysBefore(2000) + 146097 * period
  {
    assert (1999 + 400 * period) / 4 == 499 + 100 * period;
    assert (1999 + 400 * period) / 100 == 19 + 4 * period;
    assert (1999 + 400 * period) / 400 == 4 + period;
  }

  /** A date and time of day, in seconds of the Unix epoch. */
  function UnixTime(st: Stamp): int {
    (10957 + DaysBefore(st.year) - DaysBefore(2000) + MonthsLength(st.year, 1, st.month) + st.day - 1) * DAY
    + st.hour * 3600 + st.minute * 60 + st.second
  }

  /** The year and the day in it, found in periods of 400 years. */
  lemma DayFound(day: int)
    ensures var (year, n) := YearAndDay(day % 146097, 2000 + 400 * (day / 146097));
      DaysBefore(year) - DaysBefore(2000) + n == day
  {
    hide DaysBefore;
    var period, rest := day / 146097, day % 146097;
    var (year, n) := YearAndDay(rest, 2000 + 400 * period);
    YearFound(rest, 2000 + 400 * period);
    YearsClosed(2000 + 400 * period, year);
    FourCenturies(period);
    assert day == 146097 * period + rest;
  }

  /** The calendar is right exactly for the years an int can hold: then its date exists and,
      counted in seconds of the Unix epoch, it is the GPS time it was made from, which starts
      315964800 seconds after that epoch; for other years it is another time. */
  lemma CalendarReadsBack(week: int, tow: int)
    ensures var st, year := Calendar(week, tow), CivilDay(week, tow).0;
      && (-0x8000_0000 <= year - 1900 < 0x8000_0000 ==> st.day <= MonthLength(st.year, st.month))
      && (UnixTime(st) == 315964800 + week * WEEK + tow <==> -0x8000_0000 <= year - 1900 < 0x8000_0000)
  {
    var s := 315964800 + week * WEEK + tow;
    var day, second := s / DAY - 10957, s % DAY;
    assert s == DAY * (day + 10957) + second;
    var (year, n) := CivilDay(week, tow);
    var (month, d) := MonthAndDay(n, year, 1);
    var kept := 1900 + Int32(year - 1900);
    assert Calendar(week, tow) == Date(kept, month, d, second / 3600, second / 60 % 60, second % 60);
    assert (year, n) == YearAndDay(day % 146097, 2000 + 400 * (day / 146097));
    hide *;
    DayFound(day);
    TwelveMonths(year);
    MonthFound(n, year, 1);
    TimeOfDay(second);
    if kept == year {
      UnixTimeIs(year, month, d, day, second);
    } else {
      CutYear(year);
      UnixTimeIsNot(year, kept, n, month, d, day, second);
    }
  }

  lemma UnixTimeIs(year: int, month: nat, d: nat, day: int, second: nat)
    requires 1 <= month <= 12 && 1 <= d <= 366 && second < DAY
    requires -0x8000_0000 <= year - 1900 < 0x8000_0000
    requires DaysBefore(year) - DaysBefore(2000) + MonthsLength(year, 1, month) + d - 1 == day
    ensures UnixTime(Date(year, month, d, second / 3600, second / 60 % 60, second % 60)) == (day + 10957) * DAY + second
  {
    hide DaysBefore, MonthsLength;
    TimeOfDay(second);
  }

  /** A year that is cut is moved by at least the range of an int. */
  lemma CutYear(year: int)
    requires Int32(year - 1900) != year - 1900
    ensures var kept := 1900 + Int32(year - 1900);
      kept >= year + 0x1_0000_0000 || kept <= year - 0x1_0000_0000
  {
  }

  lemma FarApart(a: int, b: int)
    requires b >= a + 0x1_0000_0000
    ensures DaysBefore(b) - DaysBefore(a) >= 10_000
  {
  }

  lemma {:induction false} MonthsBounded(year: int, a: nat, b: nat)
    requires a <= b
    ensures MonthsLength(year, a, b) <= 31 * (b - a)
    decreases b - a
  {
    if a < b {
      MonthsBounded(year, a + 1, b);
    }
  }

  lemma UnixTimeIsNot(year: int, kept: int, n: nat, month: nat, d: nat, day: int, second: nat)
    requires 1 <= month <= 12 && 1 <= d <= 366 && second < DAY && n < 366
    requires -0x8000_0000 <= kept - 1900 < 0x8000_0000
    requires kept >= year + 0x1_0000_0000 || kept <= year - 0x1_0000_0000
    requires DaysBefore(year) - DaysBefore(2000) + n == day
    ensures UnixTime(Date(kept, month, d, second / 3600, second / 60 % 60, second % 60)) != (day + 10957) * DAY + second
  {
    TimeOfDay(second);
    MonthsBounded(kept, 1, month);
    if kept > year {
      FarApart(year, kept);
    } else {
      FarApart(kept, year);
    }
    hide DaysBefore, MonthsLength;
    var days := DaysBefore(kept) - DaysBefore(2000) + MonthsLength(kept, 1, month) + d - 1;
    assert days != day;
  }

  lemma TimeOfDay(second: nat)
    requires second < DAY
    ensures second / 3600 * 3600 + second / 60 % 60 * 60 + second % 60 == second
  {
    var h, r := second / 3600, second % 3600;
    assert second == 3600 * h + r;
    assert second / 60 == 60 * h + r / 60;
    assert (60 * h + r / 60) % 60 == r / 60;
    assert second % 60 == r % 60;
  }

  function At(week: int, tow: int): Time {
    Time(week, tow, Calendar(week, tow))
  }
}
