/** The UTC calendar that `_aggregate_calendar_candles` (backend/routes/market.py) takes from Python's
`datetime`: ISO weeks (ISO 8601, weeks from Monday, named after the year of their Thursday) and
months of the proleptic Gregorian calendar. */
module Calendars {

  /** The period of a timestamp, as a pair that names it, and the timestamp at which it starts. */
  datatype Calendar = Calendar(period: int -> (int, int), start: int -> int)

  /** Names and starts agree, and a period is an interval from its start on. */
  ghost predicate IsCalendar(cal: Calendar) {
    && (forall a, b :: cal.period(a) == cal.period(b) <==> cal.start(a) == cal.start(b))
    && (forall a :: cal.start(a) <= a)
    && (forall a, b :: cal.start(b) <= a <= b ==> cal.start(a) == cal.start(b))
  }

  // ---------------------------------------------------------------------------------------
  // Days
  // ---------------------------------------------------------------------------------------

  const DAY := 86400

  /** Days from 1 January of year 1 to 1 January 1970. */
  const EPOCH := 719162

  /** The day of a timestamp, counted from 1 January of year 1, which was a Monday. */
  function DayOf(ts: int): int { EPOCH + ts / DAY }

  /** Midnight at the start of a day. */
  function Midnight(day: int): int { (day - EPOCH) * DAY }

  lemma MidnightOrder(day: int, ts: int)
    ensures Midnight(day) <= ts <==> day <= DayOf(ts)
    ensures forall later :: ts <= later ==> DayOf(ts) <= DayOf(later)
  {
  }

  // ---------------------------------------------------------------------------------------
  // Years
  // ---------------------------------------------------------------------------------------

  predicate IsLeap(year: int) { year % 4 == 0 && (year % 100 != 0 || year % 400 == 0) }

  function DaysBeforeYear(year: int): int {
    var y := year - 1;
    365 * y + y / 4 - y / 100 + y / 400
  }

  lemma YearLength(year: int)
    ensures DaysBeforeYear(year + 1) == DaysBeforeYear(year) + (if IsLeap(year) then 366 else 365)
  {
    Fourth(year);
    Hundredth(year);
    FourHundredth(year);
    Centuries(year);
  }

  lemma Centuries(year: int)
    ensures year % 400 == 0 ==> year % 100 == 0
    ensures year % 100 == 0 ==> year % 4 == 0
  {
    FourTimes(25 * (year / 100));
    HundredTimes(4 * (year / 400));
  }

  lemma FourTimes(x: int)
    ensures 4 * x % 4 == 0
  {
  }

  lemma HundredTimes(x: int)
    ensures 100 * x % 100 == 0
  {
  }

  lemma Fourth(y: int)
    ensures y / 4 == (y - 1) / 4 + (if y % 4 == 0 then 1 else 0)
  {
  }

  lemma Hundredth(y: int)
    ensures y / 100 == (y - 1) / 100 + (if y % 100 == 0 then 1 else 0)
  {
  }

  lemma FourHundredth(y: int)
    ensures y / 400 == (y - 1) / 400 + (if y % 400 == 0 then 1 else 0)
  {
  }

  lemma {:induction false} YearsAscend(year: int, later: int)
    requires year < later
    ensures DaysBeforeYear(year + 1) <= DaysBeforeYear(later)
    decreases later - year
  {
    if year + 1 < later {
      YearsAscend(year, later - 1);
      YearLength(later - 1);
    }
  }

  function YearFrom(day: int, guess: int): (year: int)
    ensures DaysBeforeYear(year) <= day < DaysBeforeYear(year + 1)
    decreases if day < DaysBeforeYear(guess) then DaysBeforeYear(guess) - day + 400 else day - DaysBeforeYear(guess)
  {
    YearLength(guess);
    YearLength(guess - 1);
    if day < DaysBeforeYear(guess) then YearFrom(day, guess - 1)
    else if day >= DaysBeforeYear(guess + 1) then YearFrom(day, guess + 1)
    else guess
  }

  function YearOf(day: int): (year: int)
    ensures DaysBeforeYear(year) <= day < DaysBeforeYear(year + 1)
  {
    YearFrom(day, 1970)
  }

  lemma YearIs(day: int, year: int)
    requires DaysBeforeYear(year) <= day < DaysBeforeYear(year + 1)
    ensures YearOf(day) == year
  {
    if YearOf(day) < year {
      YearsAscend(YearOf(day), year);
    } else if year < YearOf(day) {
      YearsAscend(year, YearOf(day));
    }
  }

  // ---------------------------------------------------------------------------------------
  // ISO weeks
  // ---------------------------------------------------------------------------------------

  function Weekday(day: int): int { day % 7 }

  function Monday(day: int): int { day - Weekday(day) }

  /** ISO year and week: those of the Thursday of the week. */
  function IsoWeek(day: int): (int, int) {
    var thursday := Monday(day) + 3;
    var year := YearOf(thursday);
    (year, WeekNumber(thursday, DaysBeforeYear(year)))
  }

  /** How many Thursdays from the first day of a year up to this one. */
  function WeekNumber(thursday: int, first: int): int { (thursday - first) / 7 + 1 }

  lemma WeekIsNumbered(day: int)
    ensures 1 <= IsoWeek(day).1 <= 53
  {
    YearLength(IsoWeek(day).0);
  }

  /** Two days have the same ISO year and week exactly when they follow the same Monday. */
  lemma SameWeekIff(a: int, b: int)
    ensures IsoWeek(a) == IsoWeek(b) <==> Monday(a) == Monday(b)
  {
    MondayIsFirst(a);
    MondayIsFirst(b);
    if IsoWeek(a) == IsoWeek(b) {
      SameNumber(Monday(a), Monday(b), DaysBeforeYear(IsoWeek(a).0));
    }
  }

  lemma MondayIsFirst(day: int)
    ensures Monday(day) % 7 == 0
  {
  }

  /** Two Mondays whose Thursdays have the same number in a year are the same. */
  lemma SameNumber(x: int, y: int, first: int)
    requires WeekNumber(x + 3, first) == WeekNumber(y + 3, first) && x % 7 == 0 && y % 7 == 0
    ensures x == y
  {
  }

  lemma SameWeekSince(day: int, earlier: int)
    requires Monday(day) <= earlier <= day
    ensures Monday(earlier) == Monday(day)
  {
  }

  function Weeks(): Calendar {
    Calendar(ts => IsoWeek(DayOf(ts)), ts => Midnight(Monday(DayOf(ts))))
  }

  /** MAIN: weeks are a calendar. */
  lemma WeeksAreCalendar()
    ensures IsCalendar(Weeks())
  {
    forall a, b ensures Weeks().period(a) == Weeks().period(b) <==> Weeks().start(a) == Weeks().start(b) {
      SameWeekIff(DayOf(a), DayOf(b));
    }
    forall a ensures Weeks().start(a) <= a {
      MidnightOrder(Monday(DayOf(a)), a);
    }
    forall a, b | Weeks().start(b) <= a <= b ensures Weeks().start(a) == Weeks().start(b) {
      MidnightOrder(Monday(DayOf(b)), a);
      SameWeekSince(DayOf(b), DayOf(a));
    }
  }

  // ---------------------------------------------------------------------------------------
  // Months
  // ---------------------------------------------------------------------------------------

  const BEFORE_MONTH: seq<int> := [0, 31, 59, 90, 120, 151, 181, 212, 243, 273, 304, 334, 365]

  /** Days of the year before the first of a month; month 13 is the end of the year. */
  function DaysBeforeMonth(leap: bool, month: int): int
    requires 1 <= month <= 13
  {
    BEFORE_MONTH[month - 1] + (if leap && month > 2 then 1 else 0)
  }

  lemma MonthsAscend(leap: bool, month: int, later: int)
    requires 1 <= month < later <= 13
    ensures DaysBeforeMonth(leap, month + 1) <= DaysBeforeMonth(leap, later)
  {
  }

  /** The last month up to `month` that has begun. */
  function MonthFrom(leap: bool, yearDay: int, month: int): (r: int)
    requires 1 <= month <= 12 && 0 <= yearDay < DaysBeforeMonth(leap, month + 1)
    ensures 1 <= r <= 12 && DaysBeforeMonth(leap, r) <= yearDay < DaysBeforeMonth(leap, r + 1)
    decreases month
  {
    if yearDay >= DaysBeforeMonth(leap, month) then month else MonthFrom(leap, yearDay, month - 1)
  }

  /** Year and month of a day. */
  function MonthOf(day: int): (r: (int, int))
    ensures r.0 == YearOf(day) && 1 <= r.1 <= 12
    ensures var yearDay, leap := day - DaysBeforeYear(r.0), IsLeap(r.0);
            DaysBeforeMonth(leap, r.1) <= yearDay < DaysBeforeMonth(leap, r.1 + 1)
  {
    var year := YearOf(day);
    YearLength(year);
    (year, MonthFrom(IsLeap(year), day - DaysBeforeYear(year), 12))
  }

  function FirstOfMonth(day: int): int {
    var (year, month) := MonthOf(day);
    DaysBeforeYear(year) + DaysBeforeMonth(IsLeap(year), month)
  }

  lemma MonthIs(day: int, year: int, month: int)
    requires 1 <= month <= 12
    requires var yearDay, leap := day - DaysBeforeYear(year), IsLeap(year);
             DaysBeforeMonth(leap, month) <= yearDay < DaysBeforeMonth(leap, month + 1)
    ensures MonthOf(day) == (year, month)
  {
    var leap := IsLeap(year);
    YearLength(year);
    if month < 12 {
      MonthsAscend(leap, month, 13);
    }
    if month > 1 {
      MonthsAscend(leap, 1, month);
    }
    YearIs(day, year);
    var got := MonthOf(day).1;
    if got < month {
      MonthsAscend(leap, got, month);
    } else if month < got {
      MonthsAscend(leap, month, got);
    }
  }

  /** From the first of its month up to a day, all days share its year and month. */
  lemma SameMonthSince(day: int, earlier: int)
    requires FirstOfMonth(day) <= earlier <= day
    ensures MonthOf(earlier) == MonthOf(day)
  {
    MonthIs(earlier, MonthOf(day).0, MonthOf(day).1);
  }

  /** Two days have the same year and month exactly when they follow the same first of the month. */
  lemma SameMonthIff(a: int, b: int)
    ensures MonthOf(a) == MonthOf(b) <==> FirstOfMonth(a) == FirstOfMonth(b)
    ensures FirstOfMonth(a) <= a
  {
    SameMonthSince(a, FirstOfMonth(a));
    SameMonthSince(b, FirstOfMonth(b));
  }

  function Months(): Calendar {
    Calendar(ts => MonthOf(DayOf(ts)), ts => Midnight(FirstOfMonth(DayOf(ts))))
  }

  /** MAIN: months are a calendar. */
  lemma MonthsAreCalendar()
    ensures IsCalendar(Months())
  {
    forall a, b ensures Months().period(a) == Months().period(b) <==> Months().start(a) == Months().start(b) {
      SameMonthIff(DayOf(a), DayOf(b));
    }
    forall a ensures Months().start(a) <= a {
      SameMonthIff(DayOf(a), DayOf(a));
      MidnightOrder(FirstOfMonth(DayOf(a)), a);
    }
    forall a, b | Months().start(b) <= a <= b ensures Months().start(a) == Months().start(b) {
      MidnightOrder(FirstOfMonth(DayOf(b)), a);
      SameMonthSince(DayOf(b), DayOf(a));
    }
  }

  // ---------------------------------------------------------------------------------------
  // The calendar, day by day
  // ---------------------------------------------------------------------------------------

  /** Timestamp 0 is midnight of Thursday, 1 January 1970, in week 1; a day has 86400 seconds. */
  lemma CountingStarts(ts: int)
    ensures MonthOf(DayOf(0)) == (1970, 1) && FirstOfMonth(DayOf(0)) == DayOf(0)
    ensures DayOf(0) == Monday(DayOf(0)) + 3 && IsoWeek(DayOf(0)) == (1970, 1)
    ensures DayOf(ts + 86400) == DayOf(ts) + 1
    ensures DayOf(ts) == DayOf(0) <==> 0 <= ts < 86400
    ensures Midnight(DayOf(ts)) <= ts < Midnight(DayOf(ts)) + 86400
  {
    assert DaysBeforeYear(1970) == 719162 && DaysBeforeYear(1971) == 719527;
    YearIs(DayOf(0), 1970);
    MonthIs(DayOf(0), 1970, 1);
  }

  lemma MonthLength(leap: bool, month: int)
    requires 1 <= month <= 12
    ensures DaysBeforeMonth(leap, month + 1) - DaysBeforeMonth(leap, month) ==
            if month == 2 then (if leap then 29 else 28)
            else if month in {4, 6, 9, 11} then 30 else 31
    ensures DaysBeforeMonth(leap, 1) == 0 && DaysBeforeMonth(leap, 13) == if leap then 366 else 365
  {
  }

  /** MAIN: months by the rule: from one day to the next the day of the month counts up to 28, 29, 30 or 31,
      then the next month begins, after December with the next year. */
  lemma NextDay(day: int)
    ensures var (year, month) := MonthOf(day);
            var leap := year % 4 == 0 && (year % 100 != 0 || year % 400 == 0);
            var length := if month == 2 then (if leap then 29 else 28)
                          else if month in {4, 6, 9, 11} then 30 else 31;
            var date := day - FirstOfMonth(day) + 1;
            && 1 <= date <= length
            && (date < length ==> MonthOf(day + 1) == (year, month))
            && (date == length ==> FirstOfMonth(day + 1) == day + 1
                                   && MonthOf(day + 1) == if month < 12 then (year, month + 1) else (year + 1, 1))
  {
    var (year, month) := MonthOf(day);
    MonthLength(IsLeap(year), month);
    DateIsInMonth(day);
    if day + 1 < FirstOfMonth(day) + Length(IsLeap(year), month) {
      StaysInMonth(day);
    } else if month < 12 {
      EntersNextMonth(day);
    } else {
      EntersNextYear(day);
    }
  }

  /** The days from the first of a month to the first of the next. */
  function Length(leap: bool, month: int): int
    requires 1 <= month <= 12
  {
    DaysBeforeMonth(leap, month + 1) - DaysBeforeMonth(leap, month)
  }

  lemma DateIsInMonth(day: int)
    ensures var (year, month) := MonthOf(day);
            FirstOfMonth(day) <= day < FirstOfMonth(day) + Length(IsLeap(year), month)
  {
  }

  lemma StaysInMonth(day: int)
    requires var (year, month) := MonthOf(day); day + 1 < FirstOfMonth(day) + Length(IsLeap(year), month)
    ensures MonthOf(day + 1) == MonthOf(day)
  {
    MonthIs(day + 1, MonthOf(day).0, MonthOf(day).1);
  }

  lemma EntersNextMonth(day: int)
    requires var (year, month) := MonthOf(day);
             month < 12 && day + 1 == FirstOfMonth(day) + Length(IsLeap(year), month)
    ensures MonthOf(day + 1) == (MonthOf(day).0, MonthOf(day).1 + 1) && FirstOfMonth(day + 1) == day + 1
  {
    var (year, month) := MonthOf(day);
    MonthLength(IsLeap(year), month + 1);
    MonthIs(day + 1, year, month + 1);
  }

  lemma EntersNextYear(day: int)
    requires var (year, month) := MonthOf(day);
             month == 12 && day + 1 == FirstOfMonth(day) + Length(IsLeap(year), month)
    ensures MonthOf(day + 1) == (MonthOf(day).0 + 1, 1) && FirstOfMonth(day + 1) == day + 1
  {
    var year := MonthOf(day).0;
    MonthLength(IsLeap(year), 12);
    MonthLength(IsLeap(year + 1), 1);
    YearLength(year);
    MonthIs(day + 1, year + 1, 1);
  }

  /** MAIN: weeks by the rule, part one: 4 January is in week 1 of its year. */
  lemma FourthOfJanuaryIsInWeekOne(day: int)
    requires MonthOf(day).1 == 1 && day == FirstOfMonth(day) + 3
    ensures IsoWeek(day) == (MonthOf(day).0, 1)
  {
    MonthLength(IsLeap(MonthOf(day).0), 1);
    FourthOfJanuary(day, MonthOf(day).0);
  }

  /** MAIN, part two: a week later the number goes up by one, or it is week 1 of the next year. */
  lemma NextWeek(day: int)
    ensures var (year, week) := IsoWeek(day); IsoWeek(day + 7) == (year, week + 1) || IsoWeek(day + 7) == (year + 1, 1)
    ensures Monday(day) <= day < Monday(day) + 7 && Monday(day + 7) == Monday(day) + 7
  {
    MondayLater(day);
    SevenDaysLater(Monday(day) + 3);
  }

  lemma MondayLater(day: int)
    ensures Monday(day) <= day < Monday(day) + 7 && Monday(day + 7) == Monday(day) + 7
  {
  }

  lemma FourthOfJanuary(day: int, year: int)
    requires day == DaysBeforeYear(year) + 3
    ensures IsoWeek(day) == (year, 1)
  {
    YearLength(year);
    var thursday := Monday(day) + 3;
    assert DaysBeforeYear(year) <= thursday < DaysBeforeYear(year) + 7;
    YearIs(thursday, year);
  }

  lemma SevenDaysLater(thursday: int)
    ensures var year := YearOf(thursday);
            var number := WeekNumber(thursday, DaysBeforeYear(year));
            if thursday + 7 < DaysBeforeYear(year + 1)
            then YearOf(thursday + 7) == year && WeekNumber(thursday + 7, DaysBeforeYear(year)) == number + 1
            else YearOf(thursday + 7) == year + 1 && WeekNumber(thursday + 7, DaysBeforeYear(year + 1)) == 1
  {
    var year := YearOf(thursday);
    YearLength(year + 1);
    if thursday + 7 < DaysBeforeYear(year + 1) {
      YearIs(thursday + 7, year);
    } else {
      YearIs(thursday + 7, year + 1);
    }
  }
}
