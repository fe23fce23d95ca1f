/** The Gantt time axis of app/management/gantt.py: columns, header groups, bars, milestones
    and the marker for today. The calendar is a parameter, any with months of 28 to 31 days. */
module Gantt {
  import opened Options
  import opened Calendar

  const WEEKLY_LIMIT := 12

  datatype Kind = Week | Month

  /** Calendar period a column is headed by: (year, month) for weeks, (year, 0) for months. */
  datatype Period = Period(year: nat, month: nat)

  /** `index` is the number after S or M in the column's label. */
  datatype Column = Column(kind: Kind, start: Day, end: Day, index: int, group: Period)

  datatype Header = Header(key: Period, span: nat)

  function PeriodOf(cal: Months, d: Day): Period {
    Period(cal.of(d) / 12 + 1, cal.of(d) % 12 + 1)
  }

  function FirstIn(cal: Months, d: Day): Day {
    cal.start(cal.of(d))
  }

  function NextFirst(cal: Months, d: Day): Day {
    cal.start(cal.of(d) + 1)
  }

  // ----- closed form of the axis -----

  function LastDay(start: Day, end: Day): Day {
    if end < start then start else end
  }

  /** Week `i` of an axis whose first week starts on `monday`. */
  function WeekColumn(cal: Months, monday: Day, i: nat): Column {
    var day: Day := monday + 7 * i;
    Column(Week, day, day + 6, i + 1, PeriodOf(cal, day))
  }

  /** The column of month `m` on an axis that starts in month `first`. */
  function MonthColumn(cal: Months, first: nat, m: nat): Column
    requires Regular(cal)
  {
    assert MonthAt(cal, m);
    Column(Month, cal.start(m), cal.start(m + 1) - 1, m - first + 1, Period(m / 12 + 1, 0))
  }

  /** As many weeks as reach the end, at most twelve. */
  function WeekCount(start: Day, end: Day): (n: nat)
    ensures 1 <= n <= WEEKLY_LIMIT
  {
    var n := (LastDay(start, end) - Monday(start)) / 7 + 1;
    if n < WEEKLY_LIMIT then n else WEEKLY_LIMIT
  }

  function LastWeekEnd(start: Day, end: Day): Day {
    Monday(start) + 7 * WeekCount(start, end) - 1
  }

  /** Whole months from the one after the last week up to the one that holds the end. */
  function MonthCount(cal: Months, start: Day, end: Day): nat
    requires Regular(cal)
  {
    var last := LastDay(start, end);
    if last <= LastWeekEnd(start, end) then 0
    else
      MonthMonotone(cal, LastWeekEnd(start, end), last);
      cal.of(last) - cal.of(LastWeekEnd(start, end))
  }

  function WeekColumns(cal: Months, monday: Day, n: nat): (c: seq<Column>)
    ensures |c| == n && forall i | 0 <= i < n :: c[i] == WeekColumn(cal, monday, i)
  {
    seq(n, i requires 0 <= i < n => WeekColumn(cal, monday, i))
  }

  function MonthColumns(cal: Months, first: nat, m: nat, n: nat): (c: seq<Column>)
    requires Regular(cal)
    ensures |c| == n && forall i | 0 <= i < n :: c[i] == MonthColumn(cal, first, m + i)
  {
    seq(n, i requires 0 <= i < n => MonthColumn(cal, first, m + i))
  }

  function Columns(cal: Months, start: Day, end: Day): seq<Column>
    requires Regular(cal)
  {
    WeekColumns(cal, Monday(start), WeekCount(start, end)) +
    MonthColumns(cal, cal.of(start), cal.of(LastWeekEnd(start, end)) + 1, MonthCount(cal, start, end))
  }

  // ----- header groups -----

  function Expand(groups: seq<Header>): seq<Period> {
    if groups == [] then []
    else Expand(groups[..|groups| - 1]) + seq(groups[|groups| - 1].span, _ => groups[|groups| - 1].key)
  }

  function TotalSpan(groups: seq<Header>): nat {
    if groups == [] then 0 else TotalSpan(groups[..|groups| - 1]) + groups[|groups| - 1].span
  }

  lemma {:induction false} ExpandLength(groups: seq<Header>)
    ensures |Expand(groups)| == TotalSpan(groups)
  {
    if groups != [] {
      ExpandLength(groups[..|groups| - 1]);
    }
  }

  /** The header is the run-length encoding of the columns' periods: read back it gives them
      again, so its spans add up to their number, and neighbouring headers differ. */
  method HeaderGroups(columns: seq<Column>) returns (groups: seq<Header>)
    ensures Expand(groups) == seq(|columns|, i requires 0 <= i < |columns| => columns[i].group)
    ensures TotalSpan(groups) == |columns|
    ensures forall i | 0 <= i < |groups| - 1 :: groups[i].key != groups[i + 1].key
    ensures forall i | 0 <= i < |groups| :: groups[i].span > 0
  {
    groups := [];
    for k := 0 to |columns|
      invariant Expand(groups) == seq(k, i requires 0 <= i < k => columns[i].group)
      invariant forall i | 0 <= i < |groups| - 1 :: groups[i].key != groups[i + 1].key
      invariant forall i | 0 <= i < |groups| :: groups[i].span > 0
    {
      var c := columns[k];
      ghost var was := groups;
      var n := |groups| - 1;
      if groups != [] && groups[n].key == c.group {
        groups := groups[n := groups[n].(span := groups[n].span + 1)];
        assert groups[..n] == was[..n];
        assert seq(was[n].span + 1, _ => was[n].key) == seq(was[n].span, _ => was[n].key) + [c.group];
        assert Expand(groups) == Expand(was) + [c.group];
      } else {
        groups := groups + [Header(c.group, 1)];
        assert groups[..|was|] == was;
        assert Expand(groups) == Expand(was) + [c.group];
      }
    }
    ExpandLength(groups);
  }

  // ----- build_axis -----

  method WeeklyRegion(cal: Months, start: Day, end: Day) returns (columns: seq<Column>)
    requires start <= end
    ensures columns == WeekColumns(cal, Monday(start), WeekCount(start, end))
  {
    columns := [];
    var wk := Monday(start);
    var i := 0;
    while i < WEEKLY_LIMIT
      invariant 0 <= i <= WEEKLY_LIMIT
      invariant columns == WeekColumns(cal, wk, i)
      invariant i > 0 ==> wk + 7 * i - 1 < end
    {
      var colStart: Day := wk + 7 * i;
      var colEnd: Day := colStart + 6;
      columns := columns + [Column(Week, colStart, colEnd, i + 1, PeriodOf(cal, colStart))];
      i := i + 1;
      if colEnd >= end {
        break;
      }
    }
    WeeksReached(start, end, i);
  }

  /** The loop stops at the week count: earlier weeks end too soon, or the limit is hit. */
  lemma WeeksReached(start: Day, end: Day, i: nat)
    requires start <= end && 0 < i <= WEEKLY_LIMIT
    requires i > 1 ==> Monday(start) + 7 * (i - 1) - 1 < end
    requires i == WEEKLY_LIMIT || end <= Monday(start) + 7 * i - 1
    ensures i == WeekCount(start, end)
  {}

  method MonthlyRegion(cal: Months, start: Day, end: Day, lastWeekEnd: Day) returns (columns: seq<Column>)
    requires Regular(cal)
    requires lastWeekEnd < end
    ensures cal.of(lastWeekEnd) <= cal.of(end)
    ensures columns == MonthColumns(cal, cal.of(start), cal.of(lastWeekEnd) + 1, cal.of(end) - cal.of(lastWeekEnd))
  {
    MonthMonotone(cal, lastWeekEnd, end);
    columns := [];
    var m := NextFirst(cal, lastWeekEnd);
    ghost var k := cal.of(lastWeekEnd) + 1;
    while m <= end
      invariant k > cal.of(lastWeekEnd) && m == cal.start(k)
      invariant k <= cal.of(end) + 1
      invariant columns == MonthColumns(cal, cal.of(start), cal.of(lastWeekEnd) + 1, k - cal.of(lastWeekEnd) - 1)
      decreases end - m
    {
      StartedMonth(cal, m, k, end);
      var column;
      column, m := NextMonthColumn(cal, start, m, k);
      columns := columns + [column];
      k := k + 1;
    }
    UnstartedMonth(cal, k, end);
  }

  /** One turn of the monthly loop. */
  method NextMonthColumn(cal: Months, start: Day, m: Day, ghost k: nat) returns (column: Column, next: Day)
    requires Regular(cal) && m == cal.start(k)
    ensures column == MonthColumn(cal, cal.of(start), k)
    ensures next == cal.start(k + 1) > m
  {
    MonthBegun(cal, m, k);
    var gm := (cal.of(m) / 12 - cal.of(start) / 12) * 12 + (cal.of(m) % 12 - cal.of(start) % 12) + 1;
    MonthNumber(cal.of(m), cal.of(start));
    next := NextFirst(cal, m);
    column := Column(Month, m, next - 1, gm, Period(cal.of(m) / 12 + 1, 0));
  }

  lemma MonthBegun(cal: Months, m: Day, k: nat)
    requires Regular(cal) && m == cal.start(k)
    ensures cal.of(m) == k && cal.start(k + 1) > m
  {
    assert MonthAt(cal, k);
    MonthUnique(cal, m, k);
  }

  lemma MonthNumber(a: nat, b: nat)
    ensures (a / 12 - b / 12) * 12 + (a % 12 - b % 12) == a - b
  {}

  lemma UnstartedMonth(cal: Months, k: nat, end: Day)
    requires Regular(cal) && cal.start(k) > end
    ensures cal.of(end) < k
  {
    assert DayAt(cal, end);
    if k <= cal.of(end) {
      StartMonotone(cal, k, cal.of(end));
    }
  }

  lemma StartedMonth(cal: Months, m: Day, k: nat, end: Day)
    requires Regular(cal)
    requires m == cal.start(k) <= end
    ensures k <= cal.of(end)
  {
    assert DayAt(cal, end);
    if cal.of(end) < k {
      StartMonotone(cal, cal.of(end) + 1, k);
    }
  }

  method AxisColumns(cal: Months, start: Day, end: Day) returns (columns: seq<Column>)
    requires Regular(cal)
    ensures columns == Columns(cal, start, end)
  {
    var last := LastDay(start, end);
    columns := WeeklyRegion(cal, start, last);
    WeekCountOfLast(cal, start, end);
    ColumnsCases(cal, start, end);
    var lastWeekEnd := columns[|columns| - 1].end;
    if last > lastWeekEnd {
      var months := MonthlyRegion(cal, start, last, lastWeekEnd);
      columns := columns + months;
    }
  }

  lemma ColumnsCases(cal: Months, start: Day, end: Day)
    requires Regular(cal)
    ensures var last, lwe := LastDay(start, end), LastWeekEnd(start, end);
            var weeks := WeekColumns(cal, Monday(start), WeekCount(start, end));
            if last <= lwe then Columns(cal, start, end) == weeks
            else cal.of(lwe) <= cal.of(last) &&
                 Columns(cal, start, end) ==
                 weeks + MonthColumns(cal, cal.of(start), cal.of(lwe) + 1, cal.of(last) - cal.of(lwe))
  {
    if LastDay(start, end) > LastWeekEnd(start, end) {
      MonthMonotone(cal, LastWeekEnd(start, end), LastDay(start, end));
    }
  }

  lemma WeekCountOfLast(cal: Months, start: Day, end: Day)
    requires Regular(cal)
    ensures WeekCount(start, LastDay(start, end)) == WeekCount(start, end)
    ensures WeekColumn(cal, Monday(start), WeekCount(start, end) - 1).end == LastWeekEnd(start, end)
  {}

  method BuildAxis(cal: Months, start: Day, end: Day) returns (columns: seq<Column>, groups: seq<Header>)
    requires Regular(cal)
    ensures columns == Columns(cal, start, end)
    ensures Expand(groups) == seq(|columns|, i requires 0 <= i < |columns| => columns[i].group)
    ensures TotalSpan(groups) == |columns|
    ensures forall i | 0 <= i < |groups| - 1 :: groups[i].key != groups[i + 1].key
    ensures forall i | 0 <= i < |groups| :: groups[i].span > 0
  {
    columns := AxisColumns(cal, start, end);
    groups := HeaderGroups(columns);
  }

  // ----- shape of the axis -----

  ghost predicate Ordered(columns: seq<Column>) {
    && (forall i | 0 <= i < |columns| :: columns[i].start <= columns[i].end)
    && (forall i, j | 0 <= i < j < |columns| :: columns[i].end < columns[j].start)
  }

  /** Where an axis starts: its first Monday, how many weeks it has, the month its labels count
      from and the month of its first month column. */
  datatype Layout = Layout(monday: Day, weeks: nat, from: nat, first: nat)

  ghost predicate ColumnIs(cal: Months, c: seq<Column>, l: Layout, i: nat)
    requires Regular(cal) && i < |c|
  {
    c[i] == if i < l.weeks then WeekColumn(cal, l.monday, i) else MonthColumn(cal, l.from, l.first + (i - l.weeks))
  }

  ghost predicate IsAxis(cal: Months, c: seq<Column>, l: Layout) {
    && Regular(cal)
    && 0 < l.weeks <= WEEKLY_LIMIT && l.weeks <= |c| && (l.weeks < |c| ==> l.weeks == WEEKLY_LIMIT)
    && l.monday + 7 * l.weeks - 1 < cal.start(l.first)
    && forall i | 0 <= i < |c| :: ColumnIs(cal, c, l, i)
  }

  /** The month of the first month column. */
  function FirstMonth(cal: Months, start: Day, end: Day): nat {
    cal.of(LastWeekEnd(start, end)) + 1
  }

  function LayoutOf(cal: Months, start: Day, end: Day): Layout {
    Layout(Monday(start), WeekCount(start, end), cal.of(start), FirstMonth(cal, start, end))
  }

  lemma ColumnsAreAxis(cal: Months, start: Day, end: Day)
    requires Regular(cal)
    ensures IsAxis(cal, Columns(cal, start, end), LayoutOf(cal, start, end))
    ensures |Columns(cal, start, end)| == WeekCount(start, end) + MonthCount(cal, start, end)
  {
    var weeks, first := WeekCount(start, end), FirstMonth(cal, start, end);
    assert DayAt(cal, LastWeekEnd(start, end));
    JoinedColumns(cal, Monday(start), weeks, cal.of(start), first, MonthCount(cal, start, end));
    if MonthCount(cal, start, end) > 0 {
      MonthsMeanTwelve(cal, start, end);
    }
  }

  lemma JoinedColumns(cal: Months, monday: Day, weeks: nat, from: nat, first: nat, n: nat)
    requires Regular(cal)
    ensures var c := WeekColumns(cal, monday, weeks) + MonthColumns(cal, from, first, n);
            |c| == weeks + n && forall i | 0 <= i < |c| :: ColumnIs(cal, c, Layout(monday, weeks, from, first), i)
  {}

  lemma MonthsMeanTwelve(cal: Months, start: Day, end: Day)
    requires Regular(cal) && MonthCount(cal, start, end) > 0
    ensures WeekCount(start, end) == WEEKLY_LIMIT
  {}

  lemma MondayWeek(monday: Day, i: nat)
    requires Weekday(monday) == 0
    ensures Weekday(monday + 7 * i) == 0
  {}

  /** At most twelve contiguous Monday weeks, the first holding the start, S1 up. */
  lemma WeeksShape(cal: Months, start: Day, end: Day, i: nat)
    requires Regular(cal) && i < WeekCount(start, end)
    ensures var c := Columns(cal, start, end);
            && |c| >= WeekCount(start, end)
            && c[0].start <= start <= c[0].end
            && c[i].kind == Week && Weekday(c[i].start) == 0 && c[i].end == c[i].start + 6 && c[i].index == i + 1
            && (i > 0 ==> c[i].start == c[i - 1].end + 1)
  {
    ColumnsAreAxis(cal, start, end);
    WeekShape(cal, Columns(cal, start, end), LayoutOf(cal, start, end), i);
  }

  lemma WeekShape(cal: Months, c: seq<Column>, l: Layout, i: nat)
    requires IsAxis(cal, c, l) && i < l.weeks && Weekday(l.monday) == 0
    ensures c[0].start == l.monday && c[0].end == l.monday + 6
    ensures c[i].kind == Week && Weekday(c[i].start) == 0 && c[i].end == c[i].start + 6 && c[i].index == i + 1
    ensures i > 0 ==> c[i].start == c[i - 1].end + 1
  {
    assert ColumnIs(cal, c, l, i) && ColumnIs(cal, c, l, 0);
    assert i > 0 ==> ColumnIs(cal, c, l, i - 1);
    MondayWeek(l.monday, i);
  }

  ghost predicate IsWholeMonth(cal: Months, c: Column) {
    c.kind == Month && c.start == FirstIn(cal, c.start) && c.end == NextFirst(cal, c.start) - 1
  }

  /** Then, only after twelve weeks, contiguous whole months with consecutive numbers. */
  lemma MonthsShape(cal: Months, start: Day, end: Day, i: nat)
    requires Regular(cal) && WeekCount(start, end) <= i < |Columns(cal, start, end)|
    ensures var c, w := Columns(cal, start, end), WeekCount(start, end);
            && w == WEEKLY_LIMIT && IsWholeMonth(cal, c[i])
            && (i > w ==> c[i].start == c[i - 1].end + 1 && c[i].index == c[i - 1].index + 1)
  {
    ColumnsAreAxis(cal, start, end);
    MonthShape(cal, Columns(cal, start, end), LayoutOf(cal, start, end), i);
  }

  lemma MonthShape(cal: Months, c: seq<Column>, l: Layout, i: nat)
    requires IsAxis(cal, c, l) && l.weeks <= i < |c|
    ensures IsWholeMonth(cal, c[i])
    ensures i > l.weeks ==> c[i].start == c[i - 1].end + 1 && c[i].index == c[i - 1].index + 1
  {
    var m := l.first + (i - l.weeks);
    assert ColumnIs(cal, c, l, i);
    assert i > l.weeks ==> ColumnIs(cal, c, l, i - 1);
    assert MonthAt(cal, m);
    MonthUnique(cal, cal.start(m), m);
  }

  /** Where column `i` starts. */
  ghost function StartAt(cal: Months, l: Layout, i: nat): int {
    if i < l.weeks then l.monday + 7 * i else cal.start(l.first + (i - l.weeks))
  }

  lemma ColumnBounds(cal: Months, c: seq<Column>, l: Layout, i: nat)
    requires IsAxis(cal, c, l) && i < |c|
    ensures c[i].start == StartAt(cal, l, i) && c[i].start <= c[i].end < StartAt(cal, l, i + 1)
    ensures i >= l.weeks ==> c[i].end + 1 == StartAt(cal, l, i + 1)
    ensures i < l.weeks ==> c[i].end == l.monday + 7 * i + 6
  {
    assert ColumnIs(cal, c, l, i);
    if i >= l.weeks {
      assert MonthAt(cal, l.first + (i - l.weeks));
    }
  }

  lemma {:induction false} StartsIncrease(cal: Months, c: seq<Column>, l: Layout, i: nat, j: nat)
    requires IsAxis(cal, c, l) && i < j < |c|
    ensures c[i].end < c[j].start
    decreases j - i
  {
    ColumnBounds(cal, c, l, i);
    ColumnBounds(cal, c, l, j);
    if i + 1 < j {
      ColumnBounds(cal, c, l, i + 1);
      StartsIncrease(cal, c, l, i + 1, j);
    }
  }

  /** Columns never overlap and run strictly forward. */
  lemma AxisOrdered(cal: Months, start: Day, end: Day)
    requires Regular(cal)
    ensures Columns(cal, start, end) != [] && Ordered(Columns(cal, start, end))
  {
    ColumnsAreAxis(cal, start, end);
    AxesAreOrdered(cal, Columns(cal, start, end), LayoutOf(cal, start, end));
  }

  lemma AxesAreOrdered(cal: Months, c: seq<Column>, l: Layout)
    requires IsAxis(cal, c, l)
    ensures Ordered(c)
  {
    forall i | 0 <= i < |c| ensures c[i].start <= c[i].end {
      ColumnBounds(cal, c, l, i);
    }
    forall i, j | 0 <= i < j < |c| ensures c[i].end < c[j].start {
      StartsIncrease(cal, c, l, i, j);
    }
  }

  /** The first month column is labelled M4 or M5, never M3: M4 exactly when the twelve weeks
      end before the third month after the start's begins. */
  lemma FirstMonthIsM4OrM5(cal: Months, start: Day, end: Day)
    requires Regular(cal) && MonthCount(cal, start, end) > 0
    ensures var c := Columns(cal, start, end);
            && |c| > WEEKLY_LIMIT
            && (c[WEEKLY_LIMIT].index == 4 || c[WEEKLY_LIMIT].index == 5)
            && (c[WEEKLY_LIMIT].index == 4 <==> Monday(start) + 83 < cal.start(cal.of(start) + 3))
  {
    MonthsMeanTwelve(cal, start, end);
    ColumnsAreAxis(cal, start, end);
    FirstIndex(cal, Columns(cal, start, end), LayoutOf(cal, start, end));
    TwelveWeeksEnd(start, end);
    TwelveWeeksOn(cal, start, cal.of(start), LastWeekEnd(start, end));
  }

  lemma FirstIndex(cal: Months, c: seq<Column>, l: Layout)
    requires IsAxis(cal, c, l) && l.weeks < |c|
    ensures c[l.weeks].index == l.first - l.from + 1
  {
    assert ColumnIs(cal, c, l, l.weeks);
  }

  lemma TwelveWeeksEnd(start: Day, end: Day)
    requires WeekCount(start, end) == WEEKLY_LIMIT
    ensures LastWeekEnd(start, end) == Monday(start) + 83
    ensures start + 77 <= LastWeekEnd(start, end) <= start + 83
  {}

  /** Twelve weeks later it is two or three months later. */
  lemma TwelveWeeksOn(cal: Months, start: Day, m: nat, lwe: Day)
    requires Regular(cal) && cal.of(start) == m && start + 77 <= lwe <= start + 83
    ensures cal.of(lwe) == if lwe < cal.start(m + 3) then m + 2 else m + 3
  {
    assert DayAt(cal, start);
    assert MonthAt(cal, m) && MonthAt(cal, m + 1) && MonthAt(cal, m + 2) && MonthAt(cal, m + 3);
    if lwe < cal.start(m + 3) {
      MonthUnique(cal, lwe, m + 2);
    } else {
      MonthUnique(cal, lwe, m + 3);
    }
  }

  /** An axis from 31 January of year 1 starts its months at M5, not at the M4 of the template. */
  lemma MonthsFromM5()
    ensures Regular(Gregorian())
    ensures |Columns(Gregorian(), 31, 200)| > WEEKLY_LIMIT
    ensures Columns(Gregorian(), 31, 200)[WEEKLY_LIMIT].index == 5
  {
    GregorianIsRegular();
    FirstQuarter();
    EarlyDays(Gregorian());
    FirstMonthIsM4OrM5(Gregorian(), 31, 200);
  }

  lemma FirstQuarter()
    ensures var cal := Gregorian(); cal.start(0) == 1 && cal.start(1) == 32 && cal.start(3) == 91 && cal.start(4) == 121
  {
    assert MonthStart(1) == 32 && MonthStart(2) == 60 && MonthStart(3) == 91 && MonthStart(4) == 121;
  }

  lemma EarlyDays(cal: Months)
    requires Regular(cal)
    requires cal.start(0) == 1 && cal.start(1) == 32 && cal.start(3) == 91 && cal.start(4) == 121
    ensures cal.of(31) == 0 && MonthCount(cal, 31, 200) > 0
    ensures Monday(31) + 83 >= cal.start(cal.of(31) + 3)
  {
    MonthUnique(cal, 31, 0);
    assert LastWeekEnd(31, 200) == Monday(31) + 83 == 112;
    MonthUnique(cal, 112, 3);
    EndMonth(cal, 200, 4);
  }

  /** The end lies between the twelfth week and the next first of the month. */
  predicate InGap(cal: Months, start: Day, end: Day) {
    LastWeekEnd(start, end) < LastDay(start, end) < NextFirst(cal, LastWeekEnd(start, end))
  }

  /** The last column reaches the end exactly when the end is not in the gap; in the gap the
      twelve weeks are all there is. */
  lemma AxisReachesEnd(cal: Months, start: Day, end: Day)
    requires Regular(cal)
    ensures var c := Columns(cal, start, end);
            c != [] &&
            (c[|c| - 1].end >= LastDay(start, end) <==> !InGap(cal, start, end)) &&
            (InGap(cal, start, end) ==> |c| == WEEKLY_LIMIT && c[|c| - 1].end == LastWeekEnd(start, end))
  {
    var c, l := Columns(cal, start, end), LayoutOf(cal, start, end);
    var last, lwe := LastDay(start, end), LastWeekEnd(start, end);
    ColumnsAreAxis(cal, start, end);
    ColumnBounds(cal, c, l, |c| - 1);
    if last > lwe {
      WeeksFallShort(start, end);
      assert DayAt(cal, lwe);
      EndMonth(cal, last, cal.of(lwe));
      assert DayAt(cal, last);
    }
  }

  /** No column is spare: each but the first starts on or before the end. */
  lemma NoSpareColumn(cal: Months, start: Day, end: Day, i: nat)
    requires Regular(cal) && 0 < i < |Columns(cal, start, end)|
    ensures Columns(cal, start, end)[i].start <= if end < start then start else end
  {
    ColumnsAreAxis(cal, start, end);
    ColumnBounds(cal, Columns(cal, start, end), LayoutOf(cal, start, end), i);
    if i >= WeekCount(start, end) {
      LaterMonth(cal, start, end, FirstMonth(cal, start, end) + (i - WeekCount(start, end)));
    }
  }

  lemma LaterMonth(cal: Months, start: Day, end: Day, m: nat)
    requires Regular(cal) && m < FirstMonth(cal, start, end) + MonthCount(cal, start, end)
    requires MonthCount(cal, start, end) > 0
    ensures cal.start(m) <= LastDay(start, end)
  {
    assert DayAt(cal, LastDay(start, end));
    StartMonotone(cal, m, cal.of(LastDay(start, end)));
  }

  /** The year and month a day is in. */
  predicate InPeriod(d: Day, p: Period) {
    p.year >= 1 && 1 <= p.month <= 12
    && MonthStart(12 * (p.year - 1) + p.month - 1) <= d < MonthStart(12 * (p.year - 1) + p.month)
  }

  lemma PeriodIs(d: Day)
    ensures InPeriod(d, PeriodOf(Gregorian(), d))
  {
    var m := MonthOf(d);
    assert m == 12 * (m / 12) + m % 12;
  }

  lemma MonthIsInYear(m: nat)
    ensures YearStart(m / 12) <= MonthStart(m) < YearStart(m / 12 + 1)
  {
    MonthInYear(m, m / 12);
  }

  /** What a column is headed by: a week the year and month its Monday is in, a month its year. */
  predicate Headed(c: Column) {
    if c.kind == Week then InPeriod(c.start, c.group)
    else c.group.year >= 1 && c.group.month == 0 && YearStart(c.group.year - 1) <= c.start < YearStart(c.group.year)
  }

  lemma WeekHeaded(monday: Day, i: nat)
    ensures Headed(WeekColumn(Gregorian(), monday, i))
  {
    PeriodIs(monday + 7 * i);
  }

  lemma MonthHeaded(from: nat, m: nat)
    requires Regular(Gregorian())
    ensures Headed(MonthColumn(Gregorian(), from, m))
  {
    MonthIsInYear(m);
  }

  lemma HeadedByPeriod(start: Day, end: Day, i: nat)
    requires Regular(Gregorian()) && i < |Columns(Gregorian(), start, end)|
    ensures Headed(Columns(Gregorian(), start, end)[i])
  {
    ColumnsAreAxis(Gregorian(), start, end);
    AxisHeaded(Gregorian(), Columns(Gregorian(), start, end), LayoutOf(Gregorian(), start, end), i);
  }

  lemma AxisHeaded(cal: Months, c: seq<Column>, l: Layout, i: nat)
    requires IsAxis(cal, c, l) && cal == Gregorian() && i < |c|
    ensures Headed(c[i])
  {
    assert ColumnIs(cal, c, l, i);
    if i < l.weeks {
      WeekHeaded(l.monday, i);
    } else {
      MonthHeaded(l.from, l.first + (i - l.weeks));
    }
  }

  /** All of this holds of the Gregorian axis, the one the source builds. */
  lemma GregorianAxis(start: Day, end: Day)
    ensures Regular(Gregorian())
    ensures var c := Columns(Gregorian(), start, end);
            && c != [] && Ordered(c)
            && (c[|c| - 1].end >= LastDay(start, end) <==> !InGap(Gregorian(), start, end))
            && (MonthCount(Gregorian(), start, end) > 0 ==>
                  |c| > WEEKLY_LIMIT && (c[WEEKLY_LIMIT].index == 4 || c[WEEKLY_LIMIT].index == 5))
  {
    GregorianIsRegular();
    AxisOrdered(Gregorian(), start, end);
    AxisReachesEnd(Gregorian(), start, end);
    if MonthCount(Gregorian(), start, end) > 0 {
      FirstMonthIsM4OrM5(Gregorian(), start, end);
    }
  }

  lemma WeeksFallShort(start: Day, end: Day)
    requires LastDay(start, end) > LastWeekEnd(start, end)
    ensures WeekCount(start, end) == WEEKLY_LIMIT
  {}

  lemma EndMonth(cal: Months, last: Day, m: nat)
    requires Regular(cal) && cal.start(m) <= last
    ensures m <= cal.of(last)
    ensures last < cal.start(m + 1) <==> cal.of(last) == m
  {
    assert DayAt(cal, last);
    if last < cal.start(m + 1) {
      MonthUnique(cal, last, m);
    }
    if cal.of(last) < m {
      StartMonotone(cal, cal.of(last) + 1, m);
    }
  }

  // ----- bars -----

  /** First column that ends on or after a day, and last that starts on or before it. */
  function FirstEnding(columns: seq<Column>, day: Day): Option<nat> {
    if columns == [] then None
    else
      var n := |columns| - 1;
      var rest := FirstEnding(columns[..n], day);
      if rest.Some? then rest else if columns[n].end >= day then Some(n) else None
  }

  function LastStarting(columns: seq<Column>, day: Day): Option<nat> {
    if columns == [] then None
    else
      var n := |columns| - 1;
      if columns[n].start <= day then Some(n) else LastStarting(columns[..n], day)
  }

  datatype Bar = Bar(first: nat, span: nat)

  function BarOf(start: Option<Day>, end: Option<Day>, columns: seq<Column>): Option<Bar> {
    if start.None? || end.None? || columns == [] then None
    else
      var s, e := start.value, LastDay(start.value, end.value);
      if e < columns[0].start || s > columns[|columns| - 1].end then None
      else
        var first := FirstEnding(columns, s);
        var a := if first.Some? then first.value else 0;
        var last := LastStarting(columns, e);
        var b := if last.Some? && last.value >= a then last.value else a;
        Some(Bar(a, b - a + 1))
  }

  method BarGeometry(start: Option<Day>, end: Option<Day>, columns: seq<Column>) returns (bar: Option<Bar>)
    ensures bar == BarOf(start, end, columns)
  {
    if start.None? || end.None? || columns == [] {
      return None;
    }
    var s, e := start.value, end.value;
    if e < s {
      e := s;
    }
    if e < columns[0].start || s > columns[|columns| - 1].end {
      return None;
    }
    var startIdx, endIdx := None, None;
    for idx := 0 to |columns|
      invariant startIdx == FirstEnding(columns[..idx], s)
      invariant endIdx == LastStarting(columns[..idx], e)
    {
      assert columns[..idx + 1][..idx] == columns[..idx];
      if startIdx.None? && columns[idx].end >= s {
        startIdx := Some(idx);
      }
      if columns[idx].start <= e {
        endIdx := Some(idx);
      }
    }
    assert columns[..|columns|] == columns;
    if startIdx.None? {
      startIdx := Some(0);
    }
    if endIdx.None? || endIdx.value < startIdx.value {
      endIdx := startIdx;
    }
    return Some(Bar(startIdx.value, endIdx.value - startIdx.value + 1));
  }

  lemma {:induction false} FirstEndingIs(columns: seq<Column>, day: Day)
    ensures FirstEnding(columns, day).None? ==> forall i | 0 <= i < |columns| :: columns[i].end < day
    ensures FirstEnding(columns, day).Some? ==>
              var k := FirstEnding(columns, day).value;
              k < |columns| && columns[k].end >= day && forall i | 0 <= i < k :: columns[i].end < day
  {
    if columns != [] {
      FirstEndingIs(columns[..|columns| - 1], day);
    }
  }

  lemma {:induction false} LastStartingIs(columns: seq<Column>, day: Day)
    ensures LastStarting(columns, day).None? ==> forall i | 0 <= i < |columns| :: columns[i].start > day
    ensures LastStarting(columns, day).Some? ==>
              var k := LastStarting(columns, day).value;
              k < |columns| && columns[k].start <= day && forall i | k < i < |columns| :: columns[i].start > day
  {
    if columns != [] {
      LastStartingIs(columns[..|columns| - 1], day);
    }
  }

  predicate Meets(c: Column, s: Day, e: Day) {
    c.start <= e && s <= c.end
  }

  /** A bar appears exactly for tasks that touch the window from the first column to the last; it
      stays inside the columns and, when the task meets any column, covers exactly those it
      meets; a task that meets none lies between two columns and gets the later one. */
  lemma BarCoversTask(start: Day, end: Day, columns: seq<Column>)
    requires columns != [] && Ordered(columns)
    ensures var s, e, bar := start, LastDay(start, end), BarOf(Some(start), Some(end), columns);
            && (bar.None? <==> e < columns[0].start || s > columns[|columns| - 1].end)
            && (bar.Some? ==>
                  var a, n := bar.value.first, bar.value.span;
                  && n >= 1 && a + n <= |columns|
                  && ((exists i :: 0 <= i < |columns| && Meets(columns[i], s, e)) ==>
                        forall i | 0 <= i < |columns| :: a <= i < a + n <==> Meets(columns[i], s, e))
                  && ((forall i | 0 <= i < |columns| :: !Meets(columns[i], s, e)) ==>
                        n == 1 && a > 0 && columns[a - 1].end < s && e < columns[a].start))
  {
    var s, e := start, LastDay(start, end);
    FirstEndingIs(columns, s);
    LastStartingIs(columns, e);
    if !(e < columns[0].start || s > columns[|columns| - 1].end) {
      var a, b := FirstEnding(columns, s).value, LastStarting(columns, e).value;
      forall i | 0 <= i < |columns| ensures a <= i <= b <==> Meets(columns[i], s, e) {
        BarMember(columns, s, e, a, b, i);
      }
      if b < a {
        assert !Meets(columns[a], s, e);
        assert columns[a - 1].end < s;
      }
    }
  }

  ghost predicate MeetsNone(columns: seq<Column>, s: Day, e: Day) {
    forall i | 0 <= i < |columns| :: !Meets(columns[i], s, e)
  }

  lemma BarBetween(columns: seq<Column>, s: Day, e: Day)
    requires columns != [] && Ordered(columns) && s <= e && MeetsNone(columns, s, e)
    requires BarOf(Some(s), Some(e), columns).Some?
    ensures var bar := BarOf(Some(s), Some(e), columns).value;
            && bar.span == 1 && 0 < bar.first < |columns|
            && columns[bar.first - 1].end < s && e < columns[bar.first].start
  {
    BarCoversTask(s, e, columns);
  }

  /** Neighbouring columns touch, except that the first month may start after the last week. */
  lemma OnlyGap(cal: Months, start: Day, end: Day, a: nat)
    requires Regular(cal) && 0 < a < |Columns(cal, start, end)|
    ensures var c := Columns(cal, start, end);
            || c[a].start == c[a - 1].end + 1
            || (a == WEEKLY_LIMIT && c[a - 1].end == LastWeekEnd(start, end) &&
                c[a].start == NextFirst(cal, LastWeekEnd(start, end)))
  {
    var c, l := Columns(cal, start, end), LayoutOf(cal, start, end);
    ColumnsAreAxis(cal, start, end);
    ColumnBounds(cal, c, l, a);
    ColumnBounds(cal, c, l, a - 1);
  }

  /** No dates, no bar. */
  lemma UndatedHasNoBar(columns: seq<Column>, day: Option<Day>)
    ensures BarOf(None, day, columns) == None && BarOf(day, None, columns) == None
    ensures MilestoneOf(columns, None) == None
  {}

  /** On a built axis the only place between two columns is the gap after the twelfth week. */
  lemma BarOnAxis(cal: Months, start: Day, end: Day, s: Day, e: Day)
    requires Regular(cal)
    requires s <= e
    ensures var c := Columns(cal, start, end);
            var bar := BarOf(Some(s), Some(e), c);
            && c != [] && Ordered(c)
            && (bar.Some? && MeetsNone(c, s, e) ==>
                  bar == Some(Bar(WEEKLY_LIMIT, 1)) &&
                  LastWeekEnd(start, end) < s && e < NextFirst(cal, LastWeekEnd(start, end)))
  {
    AxisOrdered(cal, start, end);
    var c := Columns(cal, start, end);
    var bar := BarOf(Some(s), Some(e), c);
    if bar.Some? && MeetsNone(c, s, e) {
      BarBetween(c, s, e);
      OnlyGap(cal, start, end, bar.value.first);
    }
  }

  lemma BarMember(columns: seq<Column>, s: Day, e: Day, a: nat, b: nat, i: nat)
    requires Ordered(columns) && i < |columns| && a < |columns| && b < |columns|
    requires columns[a].end >= s && forall j | 0 <= j < a :: columns[j].end < s
    requires columns[b].start <= e && forall j | b < j < |columns| :: columns[j].start > e
    ensures a <= i <= b <==> Meets(columns[i], s, e)
  {
    if a <= i <= b {
      assert a < i ==> columns[a].end < columns[i].start;
      assert i < b ==> columns[i].end < columns[b].start;
    }
  }

  // ----- milestones and the marker for today -----

  /** The first column that holds a day. */
  function ColumnOf(columns: seq<Column>, day: Day): Option<nat> {
    if columns == [] then None
    else if columns[0].start <= day <= columns[0].end then Some(0)
    else
      var k := ColumnOf(columns[1..], day);
      if k.Some? then Some(k.value + 1) else None
  }

  lemma {:induction false} ColumnOfIs(columns: seq<Column>, day: Day)
    ensures ColumnOf(columns, day).None? ==>
              forall i | 0 <= i < |columns| :: !(columns[i].start <= day <= columns[i].end)
    ensures ColumnOf(columns, day).Some? ==>
              ColumnOf(columns, day).value < |columns| &&
              columns[ColumnOf(columns, day).value].start <= day <= columns[ColumnOf(columns, day).value].end
  {
    if columns != [] {
      ColumnOfIs(columns[1..], day);
    }
  }

  /** Nothing outside the window, and nothing in the gap. */
  function MilestoneOf(columns: seq<Column>, day: Option<Day>): Option<nat> {
    if day.None? || columns == [] then None
    else if day.value < columns[0].start || day.value > columns[|columns| - 1].end then None
    else ColumnOf(columns, day.value)
  }

  function Fraction(columns: seq<Column>, idx: nat, day: Day): real
    requires idx < |columns| && columns[idx].start <= day <= columns[idx].end
  {
    var span := columns[idx].end - columns[idx].start + 1;
    var within := ((day - columns[idx].start) as real + 0.5) / span as real;
    (idx as real + within) / |columns| as real
  }

  function TodayOf(columns: seq<Column>, today: Day): Option<real> {
    ColumnOfIs(columns, today);
    var k := MilestoneOf(columns, Some(today));
    if k.Some? then Some(Fraction(columns, k.value, today)) else None
  }

  method MilestoneIndex(day: Option<Day>, columns: seq<Column>) returns (idx: Option<nat>)
    ensures idx == MilestoneOf(columns, day)
  {
    if day.None? || columns == [] {
      return None;
    }
    if day.value < columns[0].start || day.value > columns[|columns| - 1].end {
      return None;
    }
    for k := 0 to |columns|
      invariant ColumnOf(columns, day.value) ==
                var r := ColumnOf(columns[k..], day.value); if r.Some? then Some(r.value + k) else None
    {
      assert columns[k..][1..] == columns[k + 1..];
      if columns[k].start <= day.value <= columns[k].end {
        return Some(k);
      }
    }
    return None;
  }

  method TodayFraction(today: Day, columns: seq<Column>) returns (f: Option<real>)
    ensures f == TodayOf(columns, today)
  {
    var k := MilestoneIndex(Some(today), columns);
    ColumnOfIs(columns, today);
    if k.None? {
      return None;
    }
    var c := columns[k.value];
    var spanDays := c.end - c.start + 1;
    var within := ((today - c.start) as real + 0.5) / spanDays as real;
    return Some((k.value as real + within) / |columns| as real);
  }

  /** On ordered columns the window check never hides a column that holds the day. */
  lemma WindowHidesNothing(columns: seq<Column>, day: Day)
    requires Ordered(columns)
    ensures MilestoneOf(columns, Some(day)) == ColumnOf(columns, day)
  {
    ColumnOfIs(columns, day);
    if columns != [] && ColumnOf(columns, day).Some? {
      var k := ColumnOf(columns, day).value;
      assert 0 < k ==> columns[0].end < columns[k].start;
      assert k < |columns| - 1 ==> columns[k].end < columns[|columns| - 1].start;
    }
  }

  lemma HeldOnce(columns: seq<Column>, day: Day, k: nat, h: nat)
    requires Ordered(columns) && k < |columns| && h < |columns|
    requires columns[k].start <= day <= columns[k].end && columns[h].start <= day <= columns[h].end
    ensures k == h
  {}

  /** A milestone is placed exactly on the column that holds its day. */
  lemma MilestoneIsHeld(columns: seq<Column>, day: Day, k: nat)
    requires Ordered(columns)
    ensures MilestoneOf(columns, Some(day)) == Some(k) <==>
            k < |columns| && columns[k].start <= day <= columns[k].end
  {
    WindowHidesNothing(columns, day);
    ColumnOfIs(columns, day);
    if k < |columns| && columns[k].start <= day <= columns[k].end {
      HeldOnce(columns, day, k, ColumnOf(columns, day).value);
    }
  }

  lemma DivideBounds(x: real, y: real, n: real)
    requires n > 0.0 && x < y
    ensures x / n < y / n
  {}

  lemma QuotientInside(x: real, n: real)
    requires 0.0 < x < n
    ensures 0.0 < x / n < 1.0
  {
    assert n / n == 1.0;
    DivideBounds(0.0, x, n);
    DivideBounds(x, n, n);
  }

  lemma WithinBounds(d: int, span: int)
    requires 0 <= d < span
    ensures 0.0 < (d as real + 0.5) / span as real < 1.0
  {
    QuotientInside(d as real + 0.5, span as real);
  }

  /** The marker lies strictly inside (0, 1), exists exactly for days some column holds, and
      moves strictly right as days pass. */
  lemma TodayInside(columns: seq<Column>, today: Day)
    requires Ordered(columns)
    ensures TodayOf(columns, today).Some? <==>
            exists i :: 0 <= i < |columns| && columns[i].start <= today <= columns[i].end
    ensures TodayOf(columns, today).Some? ==> 0.0 < TodayOf(columns, today).value < 1.0
  {
    WindowHidesNothing(columns, today);
    ColumnOfIs(columns, today);
    if TodayOf(columns, today).Some? {
      var k := ColumnOf(columns, today).value;
      var d, span := today - columns[k].start, columns[k].end - columns[k].start + 1;
      WithinBounds(d, span);
      SlotInside(k, (d as real + 0.5) / span as real, |columns|);
    }
  }

  lemma SlotInside(k: nat, within: real, n: nat)
    requires k < n && 0.0 < within < 1.0
    ensures 0.0 < (k as real + within) / n as real < 1.0
  {
    assert k as real + 1.0 <= n as real;
    QuotientInside(k as real + within, n as real);
  }

  /** Within a column the marker goes by equal steps, one for each of its days, and its first and
      last place lie equally far from the column's edges. */
  lemma TodayEvenly(columns: seq<Column>, k: nat, a: Day, b: Day)
    requires Ordered(columns) && k < |columns|
    requires columns[k].start <= a <= columns[k].end && columns[k].start <= b <= columns[k].end
    ensures TodayOf(columns, a).Some? && TodayOf(columns, b).Some?
    ensures var days, n := columns[k].end - columns[k].start + 1, |columns|;
            (TodayOf(columns, b).value - TodayOf(columns, a).value) * n as real * days as real == (b - a) as real
    ensures a - columns[k].start == columns[k].end - b ==>
              (TodayOf(columns, a).value + TodayOf(columns, b).value) * |columns| as real == 2.0 * k as real + 1.0
  {
    MilestoneIsHeld(columns, a, k);
    MilestoneIsHeld(columns, b, k);
    var days := columns[k].end - columns[k].start + 1;
    StepsEqual(k as real, |columns| as real, days as real, (a - columns[k].start) as real,
               (b - columns[k].start) as real);
  }

  lemma StepsEqual(k: real, n: real, days: real, x: real, y: real)
    requires n > 0.0 && days > 0.0
    ensures var f, g := (k + (x + 0.5) / days) / n, (k + (y + 0.5) / days) / n;
            && (g - f) * n * days == y - x
            && (x + y + 1.0 == days ==> (f + g) * n == 2.0 * k + 1.0)
  {
    var f, g := (k + (x + 0.5) / days) / n, (k + (y + 0.5) / days) / n;
    assert f * n == k + (x + 0.5) / days && g * n == k + (y + 0.5) / days;
    assert (x + 0.5) / days * days == x + 0.5 && (y + 0.5) / days * days == y + 0.5;
    assert (g - f) * n * days == (y + 0.5) / days * days - (x + 0.5) / days * days;
    if x + y + 1.0 == days {
      assert (x + 0.5) / days + (y + 0.5) / days == (x + y + 1.0) / days == 1.0;
    }
  }

  lemma TodayAdvances(columns: seq<Column>, a: Day, b: Day)
    requires Ordered(columns) && a < b
    requires TodayOf(columns, a).Some? && TodayOf(columns, b).Some?
    ensures TodayOf(columns, a).value < TodayOf(columns, b).value
  {
    WindowHidesNothing(columns, a);
    WindowHidesNothing(columns, b);
    ColumnOfIs(columns, a);
    ColumnOfIs(columns, b);
    var i, j := ColumnOf(columns, a).value, ColumnOf(columns, b).value;
    var spanA, spanB := columns[i].end - columns[i].start + 1, columns[j].end - columns[j].start + 1;
    WithinBounds(a - columns[i].start, spanA);
    WithinBounds(b - columns[j].start, spanB);
    var x := ((a - columns[i].start) as real + 0.5) / spanA as real;
    var y := ((b - columns[j].start) as real + 0.5) / spanB as real;
    if i == j {
      DivideBounds((a - columns[i].start) as real + 0.5, (b - columns[j].start) as real + 0.5, spanA as real);
    }
    assert i as real + x < j as real + y;
    DivideBounds(i as real + x, j as real + y, |columns| as real);
  }
}
