/** The proleptic Gregorian calendar as Python's `date` counts it: a day is its ordinal, with
    1 for 0001-01-01, a Monday. Months are numbered from 0 for January of year 1. */
module Calendar {
  type Day = d: int | d >= 1 witness 1

  predicate Leap(year: nat) {
    year % 4 == 0 && (year % 100 != 0 || year % 400 == 0)
  }

  /** `monthrange(year, month)[1]` */
  function MonthLen(m: nat): (n: nat)
    ensures 28 <= n <= 31
  {
    var month := m % 12 + 1;
    if month == 2 then (if Leap(m / 12 + 1) then 29 else 28)
    else if month == 4 || month == 6 || month == 9 || month == 11 then 30
    else 31
  }

  /** First day of month `m`. */
  function MonthStart(m: nat): (d: Day)
    ensures d >= 1 + 28 * m
  {
    if m == 0 then 1 else MonthStart(m - 1) + MonthLen(m - 1)
  }

  function MonthFrom(d: Day, m: nat): (r: nat)
    requires MonthStart(m) <= d
    ensures MonthStart(r) <= d < MonthStart(r + 1)
    decreases d - MonthStart(m)
  {
    if d < MonthStart(m + 1) then m else MonthFrom(d, m + 1)
  }

  /** The month that contains day `d`. */
  function MonthOf(d: Day): (m: nat)
    ensures MonthStart(m) <= d < MonthStart(m + 1)
  {
    MonthFrom(d, 0)
  }

  /** `_first_of_month`, `_last_of_month` and `_next_month`. */
  function FirstOfMonth(d: Day): Day {
    MonthStart(MonthOf(d))
  }

  function LastOfMonth(d: Day): Day {
    FirstOfMonth(d) + MonthLen(MonthOf(d)) - 1
  }

  function NextMonth(d: Day): Day {
    FirstOfMonth(d) + MonthLen(MonthOf(d))
  }

  // ----- months in general -----

  /** The first day of every month, and the month each day is in. The axis needs nothing else
      of the calendar than that months have 28 to 31 days. */
  datatype Months = Months(start: nat -> Day, of: Day -> nat)

  ghost predicate MonthAt(cal: Months, m: nat) {
    cal.start(m) + 28 <= cal.start(m + 1) <= cal.start(m) + 31
  }

  ghost predicate DayAt(cal: Months, d: Day) {
    cal.start(cal.of(d)) <= d < cal.start(cal.of(d) + 1)
  }

  ghost predicate Regular(cal: Months) {
    (forall m: nat :: MonthAt(cal, m)) && (forall d: Day :: DayAt(cal, d))
  }

  function Gregorian(): Months {
    Months((m: nat) => MonthStart(m), (d: Day) => MonthOf(d))
  }

  lemma GregorianIsRegular()
    ensures Regular(Gregorian())
  {
    forall m: nat ensures MonthAt(Gregorian(), m) {
      GregorianMonth(m);
    }
    forall d: Day ensures DayAt(Gregorian(), d) {
      GregorianDay(d);
    }
  }

  lemma GregorianMonth(m: nat)
    ensures MonthAt(Gregorian(), m)
  {
    assert MonthStart(m + 1) == MonthStart(m) + MonthLen(m);
  }

  lemma GregorianDay(d: Day)
    ensures DayAt(Gregorian(), d)
  {}

  /** The date helpers read off the Gregorian months. */
  lemma HelpersAreGregorian(d: Day)
    ensures FirstOfMonth(d) == Gregorian().start(Gregorian().of(d))
    ensures NextMonth(d) == Gregorian().start(Gregorian().of(d) + 1)
    ensures LastOfMonth(d) == Gregorian().start(Gregorian().of(d) + 1) - 1
  {
    assert MonthStart(MonthOf(d) + 1) == MonthStart(MonthOf(d)) + MonthLen(MonthOf(d));
  }

  lemma {:induction false} StartMonotone(cal: Months, a: nat, b: nat)
    requires Regular(cal) && a <= b
    ensures cal.start(a) + 28 * (b - a) <= cal.start(b)
    decreases b - a
  {
    if a < b {
      StartMonotone(cal, a, b - 1);
      assert MonthAt(cal, b - 1);
    }
  }

  /** A day lies in exactly one month. */
  lemma MonthUnique(cal: Months, d: Day, m: nat)
    requires Regular(cal) && cal.start(m) <= d < cal.start(m + 1)
    ensures cal.of(d) == m
  {
    assert DayAt(cal, d);
    var k := cal.of(d);
    if k < m {
      StartMonotone(cal, k + 1, m);
    } else if m < k {
      StartMonotone(cal, m + 1, k);
    }
  }

  lemma MonthMonotone(cal: Months, a: Day, b: Day)
    requires Regular(cal) && a <= b
    ensures cal.of(a) <= cal.of(b)
  {
    assert DayAt(cal, a) && DayAt(cal, b);
    if cal.of(b) < cal.of(a) {
      StartMonotone(cal, cal.of(b) + 1, cal.of(a));
    }
  }

  // ----- weeks -----

  function Weekday(d: Day): nat {
    (d + 6) % 7
  }

  function Monday(d: Day): (m: Day)
    ensures m <= d <= m + 6 && Weekday(m) == 0
  {
    d - Weekday(d)
  }

  /** First day of a year, years numbered from 0. */
  function YearStart(y: nat): (d: Day)
    ensures d >= 1 + 365 * y
  {
    if y == 0 then 1 else YearStart(y - 1) + (if Leap(y) then 366 else 365)
  }

  function YearFrom(d: Day, y: nat): (r: nat)
    requires YearStart(y) <= d
    ensures YearStart(r) <= d < YearStart(r + 1)
    decreases d - YearStart(y)
  {
    if d < YearStart(y + 1) then y else YearFrom(d, y + 1)
  }

  function YearOf(d: Day): (y: nat)
    ensures YearStart(y) <= d < YearStart(y + 1)
  {
    YearFrom(d, 0)
  }

  function LenInYear(leap: bool, k: nat): nat
    requires k < 12
  {
    if k == 1 then (if leap then 29 else 28)
    else if k == 3 || k == 5 || k == 8 || k == 10 then 30
    else 31
  }

  lemma MonthLenInYear(m: nat, y: nat, k: nat)
    requires m == 12 * y && k < 12
    ensures MonthLen(m + k) == LenInYear(Leap(y + 1), k)
  {
    assert (m + k) % 12 == k && (m + k) / 12 == y;
  }

  lemma OneMonthOn(m: nat)
    ensures MonthStart(m + 1) == MonthStart(m) + MonthLen(m)
  {}

  lemma MonthStep(m: nat, y: nat, k: nat)
    requires m == 12 * y && k < 12
    ensures MonthStart(m + k + 1) == MonthStart(m + k) + LenInYear(Leap(y + 1), k)
  {
    MonthLenInYear(m, y, k);
    OneMonthOn(m + k);
  }

  lemma TwelveSteps(start: seq<int>, leap: bool)
    requires |start| == 13 && forall k | 0 <= k < 12 :: start[k + 1] == start[k] + LenInYear(leap, k)
    ensures start[12] == start[0] + if leap then 366 else 365
  {
    assert start[4] == start[0] + LenInYear(leap, 0) + LenInYear(leap, 1) + LenInYear(leap, 2) + LenInYear(leap, 3);
    assert start[8] == start[4] + LenInYear(leap, 4) + LenInYear(leap, 5) + LenInYear(leap, 6) + LenInYear(leap, 7);
    assert start[12] ==
           start[8] + LenInYear(leap, 8) + LenInYear(leap, 9) + LenInYear(leap, 10) + LenInYear(leap, 11);
  }

  /** The firsts of month `m` and the twelve after it. */
  function Firsts(m: nat): (start: seq<int>)
    ensures |start| == 13
  {
    seq(13, k requires 0 <= k < 13 => MonthStart(m + k))
  }

  lemma FirstsStep(m: nat, y: nat, leap: bool)
    requires m == 12 * y && leap == Leap(y + 1)
    ensures forall k | 0 <= k < 12 :: Firsts(m)[k + 1] == Firsts(m)[k] + LenInYear(leap, k)
  {
    forall k | 0 <= k < 12 ensures Firsts(m)[k + 1] == Firsts(m)[k] + LenInYear(leap, k) {
      MonthStep(m, y, k);
    }
  }

  lemma FirstsEnds(m: nat)
    ensures Firsts(m)[0] == MonthStart(m) && Firsts(m)[12] == MonthStart(m + 12)
  {}

  /** Twelve months make a year. */
  lemma {:induction false} YearsAreTwelveMonths(y: nat)
    ensures YearStart(y) == MonthStart(12 * y)
  {
    if y > 0 {
      YearsAreTwelveMonths(y - 1);
      OneYearMore(12 * (y - 1), y - 1);
    }
  }

  lemma OneYearMore(m: nat, y: nat)
    requires m == 12 * y && YearStart(y) == MonthStart(m)
    ensures YearStart(y + 1) == MonthStart(m + 12)
  {
    FirstsStep(m, y, Leap(y + 1));
    FirstsEnds(m);
    TwelveSteps(Firsts(m), Leap(y + 1));
  }

  /** Leap years among the first `y`. */
  function Leaps(y: nat): int {
    y / 4 - y / 100 + y / 400
  }

  lemma LeapsNext(y: nat)
    requires y > 0
    ensures Leaps(y) == Leaps(y - 1) + if Leap(y) then 1 else 0
  {
    OneMoreEvery(y, 4);
    OneMoreEvery(y, 100);
    OneMoreEvery(y, 400);
  }

  lemma NextYear(y: nat)
    ensures YearStart(y + 1) == YearStart(y) + 365 + if Leap(y + 1) then 1 else 0
  {}

  /** A leap year every fourth, except every hundredth, except every four hundredth. */
  lemma {:induction false} YearStartClosedForm(y: nat)
    ensures YearStart(y) == 1 + 365 * y + Leaps(y)
  {
    if y > 0 {
      YearStartClosedForm(y - 1);
      LeapsNext(y);
      NextYear(y - 1);
    }
  }

  lemma OneMoreEvery(y: nat, n: nat)
    requires y > 0 && n > 0
    ensures y / n == (y - 1) / n + if y % n == 0 then 1 else 0
  {
    var q, r := (y - 1) / n, (y - 1) % n;
    assert y - 1 == q * n + r;
    if r + 1 < n {
      QuotientIs(y, n, q, r + 1);
    } else {
      assert (q + 1) * n == q * n + n;
      QuotientIs(y, n, q + 1, 0);
    }
  }

  lemma QuotientIs(y: nat, n: nat, q: nat, r: nat)
    requires y == q * n + r && r < n
    ensures y / n == q && y % n == r
  {
    var d := y / n - q;
    assert d >= 1 ==> d * n >= n;
    assert d <= -1 ==> d * n + n <= 0;
    assert y == (y / n) * n + y % n;
    assert d * n == r - y % n;
  }

  /** A known day: 2024 began on a Monday. */
  lemma NewYear2024()
    ensures YearStart(2023) == 738_886 && Weekday(738_886) == 0
  {
    YearStartClosedForm(2023);
  }

  lemma {:induction false} YearStartMonotone(a: nat, b: nat)
    requires a <= b
    ensures YearStart(a) <= YearStart(b)
  {
    if a < b {
      YearStartMonotone(a, b - 1);
    }
  }

  /** Years and months agree. */
  lemma YearOfMonth(d: Day)
    ensures YearOf(d) == MonthOf(d) / 12
  {
    MonthInYear(MonthOf(d), MonthOf(d) / 12);
    YearOfUnique(d, MonthOf(d) / 12);
  }

  lemma MonthInYear(m: nat, y: nat)
    requires 12 * y <= m < 12 * (y + 1)
    ensures YearStart(y) <= MonthStart(m) && MonthStart(m + 1) <= YearStart(y + 1)
  {
    YearsAreTwelveMonths(y);
    YearsAreTwelveMonths(y + 1);
    MonthBetween(12 * y, m, 12 * (y + 1));
  }

  lemma MonthBetween(first: nat, m: nat, next: nat)
    requires first <= m < next
    ensures MonthStart(first) <= MonthStart(m) && MonthStart(m + 1) <= MonthStart(next)
  {
    MonthStartMonotone(first, m);
    MonthStartMonotone(m + 1, next);
  }

  lemma {:induction false} MonthStartMonotone(a: nat, b: nat)
    requires a <= b
    ensures MonthStart(a) <= MonthStart(b)
    decreases b - a
  {
    if a < b {
      MonthStartMonotone(a, b - 1);
    }
  }

  lemma YearOfUnique(d: Day, y: nat)
    requires YearStart(y) <= d < YearStart(y + 1)
    ensures YearOf(d) == y
  {
    if YearOf(d) < y {
      YearStartMonotone(YearOf(d) + 1, y);
    } else if y < YearOf(d) {
      YearStartMonotone(y + 1, YearOf(d));
    }
  }

  /** ISO 8601:2004 section 4.1.4: a week belongs to the year that holds its Thursday, and week
      1 is the one that holds January 4th. `year` counts from 0, one less than the ISO year. */
  datatype IsoWeek = IsoWeek(year: nat, week: nat)

  function IsoWeekOf(d: Day): IsoWeek {
    var thursday := Monday(d) + 3;
    IsoWeek(YearOf(thursday), WeekNumber(YearStart(YearOf(thursday)), thursday))
  }

  /** `fromisocalendar(year, week, 1)` */
  function FromIsoWeek(w: IsoWeek): int {
    FromWeekOne(YearStart(w.year), w.week)
  }

  function WeekNumber(jan1: Day, thursday: Day): nat
    requires jan1 <= thursday
  {
    (thursday - jan1) / 7 + 1
  }

  function FromWeekOne(jan1: Day, week: nat): int {
    WeekOne(jan1) + 7 * (week - 1)
  }

  /** The Monday of the week with January 4th, given January 1st. */
  function WeekOne(jan1: Day): Day {
    Monday(jan1 + 3)
  }

  /** Formatting a day's week and parsing it back gives the Monday of that week. */
  lemma IsoWeekRoundTrip(d: Day)
    ensures FromIsoWeek(IsoWeekOf(d)) == Monday(d)
  {
    CountFromWeekOne(Monday(d) + 3, YearStart(YearOf(Monday(d) + 3)));
  }

  lemma CountFromWeekOne(thursday: Day, jan1: Day)
    requires Weekday(thursday) == 3 && jan1 <= thursday
    ensures FromWeekOne(jan1, WeekNumber(jan1, thursday)) == thursday - 3
  {
    WholeWeeks(thursday, jan1, WeekOne(jan1) + 3);
  }

  /** `first` is the first Thursday from `jan1` on; later Thursdays are whole weeks away. */
  lemma WholeWeeks(thursday: int, jan1: int, first: int)
    requires (thursday + 3) % 7 == 0 && (first + 3) % 7 == 0
    requires jan1 <= first <= jan1 + 6 && jan1 <= thursday
    ensures first + 7 * ((thursday - jan1) / 7) == thursday
  {
    var k := (thursday + 3) / 7 - (first + 3) / 7;
    assert thursday == first + 7 * k;
  }

  lemma FirstThursday(jan1: Day)
    ensures jan1 <= Monday(jan1 + 3) + 3 <= jan1 + 6
  {}

  lemma WeekOf(d: Day, thursday: Day, y: nat)
    requires thursday == Monday(d) + 3 && YearStart(y) <= thursday < YearStart(y + 1)
    ensures IsoWeekOf(d) == IsoWeek(y, WeekNumber(YearStart(y), thursday))
  {
    YearOfUnique(thursday, y);
  }

  /** Week 1 holds 4 January. */
  lemma IsoWeekOne(y: nat, jan1: Day)
    requires jan1 == YearStart(y)
    ensures IsoWeekOf(jan1 + 3) == IsoWeek(y, 1)
  {
    var thursday := Monday(jan1 + 3) + 3;
    FirstThursday(jan1);
    NextYear(y);
    WeekOf(jan1 + 3, thursday, y);
    NumberIs(jan1, thursday);
  }

  lemma NumberIs(jan1: Day, thursday: Day)
    requires jan1 <= thursday
    ensures thursday <= jan1 + 6 ==> WeekNumber(jan1, thursday) == 1
    ensures WeekNumber(jan1, thursday + 7) == WeekNumber(jan1, thursday) + 1
  {}

  lemma MondayLater(d: Day)
    ensures Monday(d + 7) == Monday(d) + 7
  {}

  /** A week later the number is one higher, as long as the Thursdays are in the same year. */
  lemma IsoWeekNext(d: Day)
    requires YearOf(Monday(d) + 10) == YearOf(Monday(d) + 3)
    ensures IsoWeekOf(d + 7) == IsoWeek(IsoWeekOf(d).year, IsoWeekOf(d).week + 1)
  {
    MondayLater(d);
    NumberIs(YearStart(YearOf(Monday(d) + 3)), Monday(d) + 3);
  }

  lemma MondayMonotone(a: Day, b: Day)
    ensures a <= b ==> Monday(a) <= Monday(b)
    ensures Monday(a) <= b <==> Monday(a) <= Monday(b)
  {}
}
