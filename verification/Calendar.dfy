/** Seconds to date and back. Years are unsigned 32-bit numbers, seconds are signed 64-bit ones. */
module Calendar {
  import opened Modular

  const EPOCH: nat := 1970
  const UINT_RANGE: nat := 0x1_0000_0000
  const DAY: nat := 86400

  predicate IsLeapYear(year: nat) {
    if year % 100 == 0 then year % 400 == 0 else year % 4 == 0
  }

  function DaysOfYear(year: nat): nat {
    if IsLeapYear(year) then 366 else 365
  }

  function DaysOfMonth(month: nat, year: nat): nat
    requires month < 12
  {
    if month == 1 && IsLeapYear(year) then 29
    else [31, 28, 31, 30, 31, 30, 31, 31, 30, 31, 30, 31][month]
  }

  /** Days from the epoch to the first day of a year. */
  function DaysBeforeYear(year: nat): nat {
    if year <= EPOCH then 0 else DaysBeforeYear(year - 1) + DaysOfYear(year - 1)
  }

  /** Days from the first day of the year to the first day of a month. */
  function DaysBeforeMonth(month: nat, year: nat): nat
    requires month <= 12
  {
    if month == 0 then 0 else DaysBeforeMonth(month - 1, year) + DaysOfMonth(month - 1, year)
  }

  /** Independent of any loop: the leap years between are every fourth, less every hundredth, plus every 400th. */
  lemma {:induction false} ClosedForm(year: nat)
    requires year >= EPOCH
    ensures DaysBeforeYear(year)
            == 365 * (year - EPOCH) + ((year - 1) / 4 - 492) - ((year - 1) / 100 - 19) + ((year - 1) / 400 - 4)
  {
    if year > EPOCH {
      ClosedForm(year - 1);
      LeapCount(year - 1);
    }
  }

  lemma LeapCount(y: nat)
    requires y > 0
    ensures y / 4 - y / 100 + y / 400 == (y - 1) / 4 - (y - 1) / 100 + (y - 1) / 400 + (if IsLeapYear(y) then 1 else 0)
  {
    DivisionStep(y, 4);
    DivisionStep(y, 100);
    DivisionStep(y, 400);
    assert y % 400 == 0 ==> y % 100 == 0;
    assert y % 100 == 0 ==> y % 4 == 0;
  }

  lemma DivisionStep(y: nat, d: nat)
    requires y > 0 && d in {4, 100, 400}
    ensures y / d == (y - 1) / d + (if y % d == 0 then 1 else 0)
  {
  }

  /** The months as the calendar has them; January counts as 0. */
  lemma MonthLengths(month: nat, year: nat)
    requires month < 12
    ensures DaysOfMonth(month, year)
            == if month in {3, 5, 8, 10} then 30
               else if month != 1 then 31
               else if year % 4 == 0 && (year % 100 != 0 || year % 400 == 0) then 29 else 28
  {
    assert month in {0, 1, 2, 3, 4, 5, 6, 7, 8, 9, 10, 11};
  }

  lemma MonthsFillYear(year: nat)
    ensures DaysBeforeMonth(12, year) == DaysOfYear(year)
  {
    var february := if IsLeapYear(year) then 29 else 28;
    assert DaysBeforeMonth(1, year) == 31;
    assert DaysBeforeMonth(2, year) == 31 + february;
    assert DaysBeforeMonth(4, year) == DaysBeforeMonth(2, year) + 31 + 30;
    assert DaysBeforeMonth(6, year) == DaysBeforeMonth(4, year) + 31 + 30;
    assert DaysBeforeMonth(8, year) == DaysBeforeMonth(6, year) + 31 + 31;
    assert DaysBeforeMonth(10, year) == DaysBeforeMonth(8, year) + 30 + 31;
    assert DaysBeforeMonth(12, year) == DaysBeforeMonth(10, year) + 30 + 31;
  }

  lemma {:induction false} YearsMonotone(a: nat, b: nat)
    requires a <= b
    ensures DaysBeforeYear(a) <= DaysBeforeYear(b)
    ensures EPOCH <= a < b ==> DaysBeforeYear(a) + DaysOfYear(a) <= DaysBeforeYear(b)
  {
    if a < b {
      YearsMonotone(a, b - 1);
    }
  }

  lemma {:induction false} MonthsMonotone(a: nat, b: nat, year: nat)
    requires a <= b <= 12
    ensures DaysBeforeMonth(a, year) <= DaysBeforeMonth(b, year)
    ensures a < b ==> DaysBeforeMonth(a, year) + DaysOfMonth(a, year) <= DaysBeforeMonth(b, year)
  {
    if a < b {
      MonthsMonotone(a, b - 1, year);
    }
  }

  // ---------------------------------------------------------------- dates

  /** A date and time: the month counts from 0, the day of the month from 1. */
  datatype Date = Date(year: nat, month: nat, day: nat, hours: nat, minutes: nat, seconds: nat)

  predicate IsDate(d: Date) {
    && EPOCH <= d.year < UINT_RANGE && d.month < 12 && 1 <= d.day <= DaysOfMonth(d.month, d.year)
    && d.hours < 24 && d.minutes < 60 && d.seconds < 60
  }

  function DayNumber(d: Date): nat
    requires d.month < 12 && d.day > 0
  {
    DaysBeforeYear(d.year) + DaysBeforeMonth(d.month, d.year) + (d.day - 1)
  }

  function Seconds(d: Date): nat
    requires d.month < 12 && d.day > 0
  {
    ((DayNumber(d) * 24 + d.hours) * 60 + d.minutes) * 60 + d.seconds
  }

  function WeekDay(dayNumber: nat): nat {
    (dayNumber + 4) % 7
  }

  /** The epoch was a Thursday, and the days of the week go round. */
  lemma WeekDaysGoRound(n: nat)
    ensures WeekDay(0) == 4 && WeekDay(n + 1) == if WeekDay(n) == 6 then 0 else WeekDay(n) + 1
  {
    NextRemainder(n + 4, 7);
  }

  /** Moments that are known: Tuesday 29 February 2000, 12:34:56, and the last second of a signed 32-bit time. */
  lemma LeapDay()
    ensures var d := Date(2000, 1, 29, 12, 34, 56); IsDate(d) && Seconds(d) == 951827696 && WeekDay(DayNumber(d)) == 2
  {
    ClosedForm(2000);
    assert DaysBeforeYear(2000) == 10957 && DaysBeforeMonth(1, 2000) == 31;
    hide DaysBeforeYear, DaysBeforeMonth;
  }

  lemma LastSecond()
    ensures var d := Date(2038, 0, 19, 3, 14, 7); IsDate(d) && Seconds(d) == 0x7FFF_FFFF && WeekDay(DayNumber(d)) == 2
  {
    ClosedForm(2038);
    assert DaysBeforeYear(2038) == 24837 && DaysBeforeMonth(0, 2038) == 0;
    hide DaysBeforeYear, DaysBeforeMonth;
  }

  /** The day number determines the date. */
  lemma DayNumberInjective(a: Date, b: Date)
    requires IsDate(a) && IsDate(b) && DayNumber(a) == DayNumber(b)
    ensures a.year == b.year && a.month == b.month && a.day == b.day
  {
    DayInYear(a);
    DayInYear(b);
    if a.year < b.year {
      YearsMonotone(a.year, b.year);
    } else if b.year < a.year {
      YearsMonotone(b.year, a.year);
    } else if a.month < b.month {
      MonthsMonotone(a.month, b.month, a.year);
    } else if b.month < a.month {
      MonthsMonotone(b.month, a.month, a.year);
    }
  }

  lemma DayInYear(d: Date)
    requires IsDate(d)
    ensures DaysBeforeYear(d.year) <= DayNumber(d) < DaysBeforeYear(d.year) + DaysOfYear(d.year)
  {
    MonthsMonotone(d.month, 12, d.year);
    MonthsFillYear(d.year);
  }

  lemma SecondsInjective(a: Date, b: Date)
    requires IsDate(a) && IsDate(b) && Seconds(a) == Seconds(b)
    ensures a == b
  {
    SecondsSplit(a);
    SecondsSplit(b);
    DayNumberInjective(a, b);
  }

  lemma SecondsSplit(d: Date)
    requires d.month < 12 && d.day > 0 && d.hours < 24 && d.minutes < 60 && d.seconds < 60
    ensures Seconds(d) % 60 == d.seconds && Seconds(d) / 60 % 60 == d.minutes
    ensures Seconds(d) / 60 / 60 % 24 == d.hours && Seconds(d) / 60 / 60 / 24 == DayNumber(d)
    ensures DAY * DayNumber(d) <= Seconds(d) < DAY * (DayNumber(d) + 1)
  {
    var h := DayNumber(d) * 24 + d.hours;
    var m := h * 60 + d.minutes;
    assert Seconds(d) / 60 == m && Seconds(d) % 60 == d.seconds;
    assert m / 60 == h && m % 60 == d.minutes;
    assert h / 24 == DayNumber(d) && h % 24 == d.hours;
  }

  // ---------------------------------------------------------------- the class

  /** The year that Set's loop finds for a number of days, and the days left; the year is an unsigned number. */
  function YearFrom(days: nat, year: nat): (nat, nat)
    decreases days
  {
    if days < DaysOfYear(year) then (year, days)
    else YearFrom(days - DaysOfYear(year), (year + 1) % UINT_RANGE)
  }

  /** One turn of the loop takes off the n days of a year. */
  lemma NextYear(days: nat, year: nat) returns (n: nat)
    requires EPOCH <= year < UINT_RANGE
    ensures n > 0 && DaysBeforeYear(year + 1) == DaysBeforeYear(year) + n
    ensures YearFrom(days, year) == if days < n then (year, days) else YearFrom(days - n, if year + 1 < UINT_RANGE then year + 1 else 0)
  {
    n := DaysOfYear(year);
  }

  /** The year is exact as long as it does not wrap at `end`. */
  lemma {:induction false} YearFromIs(days: nat, year: nat, end: nat)
    requires EPOCH <= year < end == UINT_RANGE && DaysBeforeYear(year) + days < DaysBeforeYear(end)
    ensures var (y, rest) := YearFrom(days, year); year <= y && DaysBeforeYear(y) + rest == DaysBeforeYear(year) + days
    decreases days
  {
    var n := NextYear(days, year);
    if days >= n && year + 1 < end {
      YearFromIs(days - n, year + 1, end);
    }
  }

  /** What Set makes of a time. */
  predicate SetTo(d: Date, time: nat) {
    && d.month < 12 && 1 <= d.day <= DaysOfMonth(d.month, d.year) && d.year < UINT_RANGE
    && d.seconds == time % 60 && d.minutes == time / 60 % 60 && d.hours == time / 60 / 60 % 24
    && var (y, rest) := YearFrom(time / 60 / 60 / 24, EPOCH);
       d.year == y && DaysBeforeMonth(d.month, d.year) + (d.day - 1) == rest
  }

  lemma AddRemainder(x: nat, y: nat, m: nat)
    requires m > 0
    ensures (x % m + y) % m == (x + y) % m
  {
    AddMultiple(x + y, -(x / m), m);
    assert x + y + -(x / m) * m == x % m + y;
  }

  class Time {
    var seconds: nat
    var minutes: nat
    var hours: nat
    var monthDay: nat
    var month: nat
    var year: nat     // less 1900, as an unsigned number
    var weekDay: nat

    /** The full year. */
    function Year(): nat
      reads this
    {
      (year + 1900) % UINT_RANGE
    }

    function Value(): Date
      reads this
    {
      Date(Year(), month, monthDay, hours, minutes, seconds)
    }

    predicate InRange()
      reads this
    {
      year < UINT_RANGE && month < 12 && 1 <= monthDay <= DaysOfMonth(month, Year()) && hours < 24 && minutes < 60 && seconds < 60
    }

    constructor ()
      ensures InRange() && Value() == Date(1970, 0, 1, 0, 0, 0) && weekDay == 4
    {
      seconds, minutes, hours, monthDay, month, year, weekDay := 0, 0, 0, 1, 0, 70, 4;
    }

    /** Sets the date for a time since the epoch. */
    method Set(time: nat)
      modifies this
      ensures InRange() && SetTo(Value(), time) && weekDay == WeekDay(time / 60 / 60 / 24)
    {
      var rest := time;
      seconds := rest % 60;
      rest := rest / 60;
      minutes := rest % 60;
      rest := rest / 60;
      hours := rest % 24;
      rest := rest / 24;
      weekDay := (rest + 4) % 7;
      SetYearAndDay(rest);
    }

    method SetYearAndDay(days: nat)
      modifies `year, `month, `monthDay
      ensures year < UINT_RANGE && month < 12 && 1 <= monthDay <= DaysOfMonth(month, Year())
      ensures Year() == YearFrom(days, EPOCH).0
      ensures DaysBeforeMonth(month, Year()) + (monthDay - 1) == YearFrom(days, EPOCH).1
    {
      var y, rest := FindYear(days);
      MonthsFillYear(y);
      var m;
      m, rest := FindMonth(rest, y);
      year := (y - 1900) % UINT_RANGE;
      month := m;
      monthDay := rest + 1;
      WrappedYear(y);
    }

    method SetTime(hours: nat, minutes: nat, seconds: nat) returns (ok: bool)
      modifies `hours, `minutes, `seconds
      ensures ok == (hours < 24 && minutes < 60 && seconds < 60)
      ensures (this.hours, this.minutes, this.seconds)
              == if ok then (hours, minutes, seconds) else (old(this.hours), old(this.minutes), old(this.seconds))
    {
      if seconds > 59 || minutes > 59 || hours > 23 {
        return false;
      }
      this.seconds, this.minutes, this.hours := seconds, minutes, hours;
      ok := true;
    }

    /** Sets a date; the month counts from 1. The week day is computed from unsigned 32-bit days. */
    method SetDate(monthDay: nat, month: nat, year: nat) returns (ok: bool)
      requires year < UINT_RANGE
      modifies `monthDay, `month, `year, `weekDay
      ensures ok == (year >= EPOCH && 1 <= month <= 12 && 1 <= monthDay <= DaysOfMonth(month - 1, year))
      ensures !ok ==> unchanged(this)
      ensures ok ==> this.monthDay == monthDay && this.month == month - 1 && Year() == year && this.year < UINT_RANGE
      ensures ok ==> weekDay == WeekDay(DayNumber(Value()) % UINT_RANGE)
    {
      if year < EPOCH || !(1 <= month <= 12) || !(1 <= monthDay <= DaysOfMonth(month - 1, year)) {
        return false;
      }
      this.monthDay := monthDay;
      this.month := month - 1;
      this.year := (year - 1900) % UINT_RANGE;
      WrappedYear(year);
      var total := TotalDays(monthDay, month, year);
      weekDay := (total + 4) % 7;
      ok := true;
    }

    static method TotalDays(monthDay: nat, month: nat, year: nat) returns (total: nat)
      requires EPOCH <= year && 1 <= month <= 12 && 1 <= monthDay <= 31
      ensures total == (DaysBeforeYear(year) + DaysBeforeMonth(month - 1, year) + (monthDay - 1)) % UINT_RANGE
    {
      total := MonthDays(monthDay - 1, month, year);
      total := YearDays(total, year);
      AddRemainder(monthDay - 1 + DaysBeforeMonth(month - 1, year), DaysBeforeYear(year), UINT_RANGE);
    }

    static method MonthDays(start: nat, month: nat, year: nat) returns (total: nat)
      requires 1 <= month <= 12 && start < UINT_RANGE
      ensures total == (start + DaysBeforeMonth(month - 1, year)) % UINT_RANGE
    {
      total := start;
      var m := month - 1;
      while m > 0
        invariant 0 <= m < month && (total + DaysBeforeMonth(m, year)) % UINT_RANGE == (start + DaysBeforeMonth(month - 1, year)) % UINT_RANGE
        invariant total < UINT_RANGE
      {
        AddRemainder(total + DaysOfMonth(m - 1, year), DaysBeforeMonth(m - 1, year), UINT_RANGE);
        total := (total + DaysOfMonth(m - 1, year)) % UINT_RANGE;
        m := m - 1;
      }
    }

    static method YearDays(start: nat, year: nat) returns (total: nat)
      requires EPOCH <= year && start < UINT_RANGE
      ensures total == (start + DaysBeforeYear(year)) % UINT_RANGE
    {
      total := start;
      var y := year - 1;
      while y >= EPOCH
        invariant EPOCH - 1 <= y < year && (total + DaysBeforeYear(y + 1)) % UINT_RANGE == (start + DaysBeforeYear(year)) % UINT_RANGE
        invariant total < UINT_RANGE
      {
        AddRemainder(total + DaysOfYear(y), DaysBeforeYear(y), UINT_RANGE);
        total := (total + DaysOfYear(y)) % UINT_RANGE;
        y := y - 1;
      }
    }

    /** The time since the epoch. */
    method Get() returns (time: nat)
      requires month < 12 && monthDay > 0
      ensures time == Seconds(Value())
    {
      time := 0;
      var y := EPOCH;
      while y < Year()
        invariant EPOCH <= y && (y <= Year() || y == EPOCH) && time == DaysBeforeYear(y)
      {
        time := time + DaysOfYear(y);
        y := y + 1;
      }
      assert time == DaysBeforeYear(Year());
      var m := 0;
      while m < month
        invariant m <= month && time == DaysBeforeYear(Year()) + DaysBeforeMonth(m, Year())
      {
        time := time + DaysOfMonth(m, Year());
        m := m + 1;
      }
      time := time + (monthDay - 1);
      time := time * 24;
      time := time + hours;
      time := time * 60;
      time := time + minutes;
      time := time * 60;
      time := time + seconds;
    }

    method FindYear(days: nat) returns (y: nat, rest: nat)
      ensures (y, rest) == YearFrom(days, EPOCH) && y < UINT_RANGE && rest < DaysOfYear(y)
    {
      rest, y := days, EPOCH;
      while rest >= DaysOfYear(y)
        invariant y < UINT_RANGE && YearFrom(rest, y) == YearFrom(days, EPOCH)
        decreases rest
      {
        rest := rest - DaysOfYear(y);
        y := (y + 1) % UINT_RANGE;
      }
    }

    method FindMonth(days: nat, y: nat) returns (m: nat, rest: nat)
      requires days < DaysBeforeMonth(12, y)
      ensures m < 12 && rest < DaysOfMonth(m, y) && DaysBeforeMonth(m, y) + rest == days
    {
      rest, m := days, 0;
      while rest >= DaysOfMonth(m, y)
        invariant m < 12 && DaysBeforeMonth(m, y) + rest == days
        decreases 12 - m
      {
        MonthsMonotone(m + 1, 12, y);
        rest := rest - DaysOfMonth(m, y);
        m := m + 1;
      }
    }
  }

  lemma WrappedYear(y: nat)
    requires y < UINT_RANGE
    ensures ((y - 1900) % UINT_RANGE + 1900) % UINT_RANGE == y
  {
  }

  // ---------------------------------------------------------------- there and back

  lemma TimeSplits(time: nat)
    ensures var days := time / 60 / 60 / 24;
            time == ((days * 24 + time / 60 / 60 % 24) * 60 + time / 60 % 60) * 60 + time % 60 && days == time / DAY
  {
    var m := time / 60;
    var h := m / 60;
    assert time == m * 60 + time % 60;
    assert m == h * 60 + m % 60;
    assert h == h / 24 * 24 + h % 24;
  }

  /** Main result. Get returns what was set if and only if the year is still an unsigned 32-bit number. */
  lemma GetAfterSet(d: Date, time: nat, end: nat)
    requires SetTo(d, time) && end == UINT_RANGE
    ensures Seconds(d) == time <==> time < DAY * DaysBeforeYear(end)
    ensures Seconds(d) == time ==> IsDate(d)
  {
    TimeSplits(time);
    var days := time / 60 / 60 / 24;
    DayMonth(d);
    if days < DaysBeforeYear(end) {
      YearFromIs(days, EPOCH, end);
      assert DayNumber(d) == days;
    } else {
      SecondsSplit(d);
      if d.year >= EPOCH {
        YearsMonotone(d.year, end);
      } else {
        YearsMonotone(EPOCH + 1, end);
      }
    }
  }

  lemma DayMonth(d: Date)
    requires d.month < 12 && 1 <= d.day <= DaysOfMonth(d.month, d.year)
    ensures DaysBeforeMonth(d.month, d.year) + (d.day - 1) < DaysOfYear(d.year)
  {
    MonthsMonotone(d.month, 12, d.year);
    MonthsFillYear(d.year);
  }

  /** Main result. Setting what Get returned gives every valid date and time back. */
  lemma SetAfterGet(d: Date, d': Date, end: nat)
    requires IsDate(d) && SetTo(d', Seconds(d)) && end == UINT_RANGE
    ensures d' == d
  {
    SecondsSplit(d);
    DayInYear(d);
    YearsMonotone(d.year, end);
    GetAfterSet(d', Seconds(d), end);
    SecondsInjective(d, d');
  }

  /** SetDate computes the same week day as Set exactly in the dates whose days do not wrap to another week. */
  lemma WeekDayRestoredIff(d: Date)
    requires IsDate(d)
    ensures WeekDay(DayNumber(d) % UINT_RANGE) == WeekDay(Seconds(d) / 60 / 60 / 24)
            <==> DayNumber(d) / UINT_RANGE % 7 == 0
  {
    SecondsSplit(d);
    WeekDayOfRemainder(DayNumber(d));
  }

  lemma WeekDayOfRemainder(days: nat)
    ensures WeekDay(days % UINT_RANGE) == WeekDay(days) <==> days / UINT_RANGE % 7 == 0
  {
    var q, r := days / UINT_RANGE, days % UINT_RANGE;
    assert days == q * UINT_RANGE + r;
    assert UINT_RANGE == 7 * 613566756 + 4;
    assert days + 4 == (q * 613566756) * 7 + (4 * q + r + 4);
    AddMultiple(4 * q + r + 4, q * 613566756, 7);
    SameWeekDay(q % 7, (r + 4) % 7);
    AddRemainder(4 * q, r + 4, 7);
    FourTimes(q);
    AddRemainder(r + 4, 4 * q % 7, 7);
  }

  lemma FourTimes(q: nat)
    ensures 4 * q % 7 == 4 * (q % 7) % 7
  {
    assert 4 * q == 4 * (q % 7) + (4 * (q / 7)) * 7;
    AddMultiple(4 * (q % 7), 4 * (q / 7), 7);
  }

  lemma SameWeekDay(a: nat, b: nat)
    requires a < 7 && b < 7
    ensures (b + 4 * a % 7) % 7 == b <==> a == 0
  {
  }

  // ---------------------------------------------------------------- times and dates that are not restored

  /** The first second of the year 2^32, a 64-bit time. */
  const WRAPPED_TIME: nat := 135536014634284800

  lemma WrappedTimeIs()
    ensures WRAPPED_TIME == DAY * DaysBeforeYear(UINT_RANGE)
  {
    hide DaysBeforeYear;
    ClosedForm(UINT_RANGE);
    assert DaysBeforeYear(UINT_RANGE) == 1568703873082;
  }

  /** It is set, and another time is got back. */
  method YearWrapsRun() returns (time: nat)
    ensures WRAPPED_TIME < 0x8000_0000_0000_0000 && time != WRAPPED_TIME
  {
    hide DaysBeforeYear, SetTo, Seconds;
    WrappedTimeIs();
    var t := new Time();
    t.Set(WRAPPED_TIME);
    GetAfterSet(t.Value(), WRAPPED_TIME, UINT_RANGE);
    time := t.Get();
  }

  lemma DayOfWrap()
    ensures var d := Date(11761191, 0, 21, 0, 0, 0); IsDate(d) && DayNumber(d) == UINT_RANGE
  {
    ClosedForm(11761191);
  }

  /** On 21 January 11761191, 2^32 days after the epoch, SetDate and Set do not agree on the day of the week. */
  method WeekDayWrapsRun() returns (bySetDate: nat, bySet: nat)
    ensures bySetDate != bySet
  {
    hide DaysBeforeYear, WeekDay, Seconds;
    var t := new Time();
    var ok := t.SetDate(21, 1, 11761191);
    bySetDate := t.weekDay;
    DayOfWrap();
    WeekDayRestoredIff(t.Value());
    var time := t.Get();
    t.Set(time);
    bySet := t.weekDay;
  }
}
