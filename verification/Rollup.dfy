/** The plan as app/management/gantt.py renders it: children by parent, rolled-up dates, the
    plan's bounds and the depth-first list of rows. */
module Rollup {
  import opened Options
  import opened Sorting
  import opened Calendar
  import opened Gantt
  import opened Plan

  // ----- children by parent -----

  function SortOrderOf(tasks: Tasks, t: Id): int {
    if t in tasks then tasks[t].sortOrder else 0
  }

  function NameOf(tasks: Tasks, t: Id): string {
    if t in tasks then tasks[t].name else ""
  }

  /** By sort_order, then name, then id. */
  predicate RowLeq(tasks: Tasks, a: Id, b: Id) {
    var x, y := SortOrderOf(tasks, a), SortOrderOf(tasks, b);
    var n, m := NameOf(tasks, a), NameOf(tasks, b);
    x < y || (x == y && n != m && StringLeq(n, m)) || (x == y && n == m && a <= b)
  }

  function ByRow(tasks: Tasks): (Id, Id) -> bool {
    (a: Id, b: Id) => RowLeq(tasks, a, b)
  }

  lemma RowOrderTotal(tasks: Tasks)
    ensures TotalPreorder(ByRow(tasks))
  {
    var leq := ByRow(tasks);
    forall a, b ensures leq(a, b) || leq(b, a) {
      StringLeqTotal(NameOf(tasks, a), NameOf(tasks, b));
    }
    forall a, b, c | leq(a, b) && leq(b, c) ensures leq(a, c) {
      RowLeqTransitive(tasks, a, b, c);
    }
  }

  lemma RowLeqTransitive(tasks: Tasks, a: Id, b: Id, c: Id)
    requires RowLeq(tasks, a, b) && RowLeq(tasks, b, c)
    ensures RowLeq(tasks, a, c)
  {
    var n, m, k := NameOf(tasks, a), NameOf(tasks, b), NameOf(tasks, c);
    if StringLeq(n, m) && StringLeq(m, k) {
      StringLeqTransitive(n, m, k);
      StringLeqTotal(n, m);
    }
  }

  function WithParent(tasks: Tasks, ids: seq<Id>, parent: Option<Id>): (r: seq<Id>)
    ensures forall t :: t in r <==> t in ids && t in tasks && tasks[t].parent == parent
  {
    if ids == [] then []
    else
      var t := ids[|ids| - 1];
      WithParent(tasks, ids[..|ids| - 1], parent) + (if t in tasks && tasks[t].parent == parent then [t] else [])
  }

  function Kids(tasks: Tasks, ids: seq<Id>, parent: Option<Id>): seq<Id> {
    Sort(ByRow(tasks), WithParent(tasks, ids, parent))
  }

  lemma {:induction false} WithParentNoDup(tasks: Tasks, ids: seq<Id>, parent: Option<Id>)
    requires NoDup(ids)
    ensures NoDup(WithParent(tasks, ids, parent))
  {
    if ids != [] {
      var n := |ids| - 1;
      WithParentNoDup(tasks, ids[..n], parent);
      assert forall i | 0 <= i < n :: ids[i] != ids[n];
    }
  }

  /** `{parent: sorted children}` for every parent that has any. */
  ghost predicate IsIndex(tasks: Tasks, ids: seq<Id>, byParent: map<Option<Id>, seq<Id>>) {
    forall p :: Lookup(byParent, p) == Kids(tasks, ids, p)
  }

  function Lookup(byParent: map<Option<Id>, seq<Id>>, p: Option<Id>): seq<Id> {
    if p in byParent then byParent[p] else []
  }

  // ----- a forest to render -----

  /** The rows of a plan, indexed by parent, with the levels that make them a forest. */
  datatype Forested = Forested(tasks: Tasks, byParent: map<Option<Id>, seq<Id>>, level: map<Id, nat>, top: nat) {
    ghost predicate Valid() {
      && IsLevelling(tasks, level)
      && (forall t | t in tasks :: Bounded(t))
      && (forall p :: KidsOk(p))
    }

    ghost predicate Bounded(t: Id) {
      t in level ==> level[t] <= top
    }

    function Children(parent: Option<Id>): seq<Id> {
      Lookup(byParent, parent)
    }

    ghost predicate KidsOk(p: Option<Id>) {
      && NoDup(Children(p))
      && (forall t :: t in Children(p) <==> t in tasks && tasks[t].parent == p)
      && Sorted(ByRow(tasks), Children(p))
    }

    ghost predicate Under(t: Id, x: Id)
      requires Valid() && x in tasks
    {
      InSubtree(tasks, level, t, x)
    }

    ghost function Subtree(t: Id): set<Id>
      requires Valid()
    {
      set x | x in tasks && Under(t, x)
    }
  }

  /** The index of a plan's rows, given in any order, makes a forest ready to render. */
  lemma IndexedForest(tasks: Tasks, ids: seq<Id>, byParent: map<Option<Id>, seq<Id>>, level: map<Id, nat>, top: nat)
    requires IsLevelling(tasks, level) && (forall t | t in tasks :: level[t] <= top)
    requires NoDup(ids) && Elems(ids) == tasks.Keys && IsIndex(tasks, ids, byParent)
    ensures Forested(tasks, byParent, level, top).Valid()
  {
    var f := Forested(tasks, byParent, level, top);
    forall p ensures f.KidsOk(p) {
      assert Lookup(byParent, p) == Kids(tasks, ids, p);
      KidsAre(tasks, ids, p);
    }
    forall t | t in tasks ensures f.Bounded(t) {}
  }

  lemma KidsAre(tasks: Tasks, ids: seq<Id>, p: Option<Id>)
    requires NoDup(ids) && Elems(ids) == tasks.Keys
    ensures NoDup(Kids(tasks, ids, p)) && Sorted(ByRow(tasks), Kids(tasks, ids, p))
    ensures forall t :: t in Kids(tasks, ids, p) <==> t in tasks && tasks[t].parent == p
  {
    var list := WithParent(tasks, ids, p);
    WithParentNoDup(tasks, ids, p);
    RowOrderTotal(tasks);
    SortSorted(ByRow(tasks), list);
    SameElems(list, Kids(tasks, ids, p));
    forall t ensures t in Kids(tasks, ids, p) <==> t in tasks && tasks[t].parent == p {
      assert t in Kids(tasks, ids, p) <==> t in Elems(Kids(tasks, ids, p));
      assert t in list <==> t in Elems(list);
      assert t in ids <==> t in Elems(ids);
    }
  }

  /** Tasks of one level, each once. */
  ghost predicate Siblings(f: Forested, list: seq<Id>, lvl: nat)
    requires f.Valid()
  {
    NoDup(list) && forall t | t in list :: t in f.tasks && f.level[t] == lvl
  }

  lemma ChildrenAre(f: Forested, parent: Option<Id>)
    requires f.Valid() && (parent.Some? ==> parent.value in f.tasks)
    ensures Siblings(f, f.Children(parent), if parent.None? then 1 else f.level[parent.value] + 1)
    ensures forall t :: t in f.Children(parent) <==> t in f.tasks && f.tasks[t].parent == parent
  {
    assert f.KidsOk(parent);
    forall t | t in f.Children(parent) ensures f.level[t] == if parent.None? then 1 else f.level[parent.value] + 1 {
      assert LevelOk(f.tasks, f.level, t);
    }
  }

  lemma BelowTop(f: Forested, t: Id)
    requires f.Valid() && t in f.tasks
    ensures f.level[t] <= f.top
  {
    assert f.Bounded(t);
  }

  // ----- rolled-up dates -----

  datatype Span = Span(start: Option<Day>, end: Option<Day>)

  function MinDay(a: Option<Day>, b: Option<Day>): Option<Day> {
    if a.None? then b else if b.None? then a else if a.value <= b.value then a else b
  }

  function MaxDay(a: Option<Day>, b: Option<Day>): Option<Day> {
    if a.None? then b else if b.None? then a else if a.value >= b.value then a else b
  }

  /** A task's own dates, or else those of its children; a milestone is a point. */
  function Rolled(t: Task, kids: Span): Span {
    var s := if t.start.Some? then t.start else kids.start;
    var e := if t.end.Some? then t.end else kids.end;
    Span(s, if t.milestone then s else e)
  }

  ghost function Effective(f: Forested, t: Id): Span
    requires f.Valid() && t in f.tasks
    decreases f.top + 1 - f.level[t], 0
  {
    ChildrenAre(f, Some(t));
    BelowTop(f, t);
    Rolled(f.tasks[t], Combined(f, f.Children(Some(t)), f.level[t] + 1))
  }

  /** Earliest effective start and latest effective end of a list of siblings. */
  ghost function Combined(f: Forested, list: seq<Id>, lvl: nat): Span
    requires f.Valid() && Siblings(f, list, lvl) && lvl <= f.top + 1
    decreases f.top + 1 - lvl, |list| + 1
  {
    if list == [] then Span(None, None)
    else
      var n := |list| - 1;
      assert list[n] in list;
      var front, last := Combined(f, list[..n], lvl), Effective(f, list[n]);
      Span(MinDay(front.start, last.start), MaxDay(front.end, last.end))
  }

  /** `s` is the earliest start the siblings have; None if none of them has one. */
  ghost predicate EarliestOf(f: Forested, list: seq<Id>, lvl: nat, s: Option<Day>)
    requires f.Valid() && Siblings(f, list, lvl)
  {
    && (s.Some? ==> exists c :: c in list && Effective(f, c).start == s)
    && forall c | c in list && Effective(f, c).start.Some? :: s.Some? && s.value <= Effective(f, c).start.value
  }

  ghost predicate LatestOf(f: Forested, list: seq<Id>, lvl: nat, e: Option<Day>)
    requires f.Valid() && Siblings(f, list, lvl)
  {
    && (e.Some? ==> exists c :: c in list && Effective(f, c).end == e)
    && forall c | c in list && Effective(f, c).end.Some? :: e.Some? && Effective(f, c).end.value <= e.value
  }

  lemma {:induction false} CombinedIs(f: Forested, list: seq<Id>, lvl: nat)
    requires f.Valid() && Siblings(f, list, lvl) && lvl <= f.top + 1
    ensures EarliestOf(f, list, lvl, Combined(f, list, lvl).start)
    ensures LatestOf(f, list, lvl, Combined(f, list, lvl).end)
    decreases |list|
  {
    if list != [] {
      var n := |list| - 1;
      assert list[n] in list && list == list[..n] + [list[n]];
      CombinedIs(f, list[..n], lvl);
      JoinDates(f, list[..n], list[n], lvl, Combined(f, list[..n], lvl));
    }
  }

  lemma JoinDates(f: Forested, front: seq<Id>, last: Id, lvl: nat, span: Span)
    requires f.Valid() && Siblings(f, front, lvl) && Siblings(f, front + [last], lvl) && last in f.tasks
    requires EarliestOf(f, front, lvl, span.start) && LatestOf(f, front, lvl, span.end)
    ensures EarliestOf(f, front + [last], lvl, MinDay(span.start, Effective(f, last).start))
    ensures LatestOf(f, front + [last], lvl, MaxDay(span.end, Effective(f, last).end))
  {
    assert last in front + [last];
    assert forall c | c in front :: c in front + [last];
  }

  /** A task keeps the dates it was given; a missing start is its children's earliest and a
      missing end their latest; a milestone ends where it starts. */
  ghost predicate DatesFromChildren(f: Forested, task: Task, span: Span, kids: seq<Id>, lvl: nat)
    requires f.Valid() && Siblings(f, kids, lvl)
  {
    && (if task.start.Some? then span.start == task.start else EarliestOf(f, kids, lvl, span.start))
    && (if task.milestone then span.end == span.start
        else if task.end.Some? then span.end == task.end
        else LatestOf(f, kids, lvl, span.end))
  }

  lemma EffectiveDates(f: Forested, t: Id)
    requires f.Valid() && t in f.tasks
    ensures Siblings(f, f.Children(Some(t)), f.level[t] + 1)
    ensures DatesFromChildren(f, f.tasks[t], Effective(f, t), f.Children(Some(t)), f.level[t] + 1)
  {
    EffectiveIs(f, t);
    CombinedIs(f, f.Children(Some(t)), f.level[t] + 1);
    RolledDates(f, f.tasks[t], f.Children(Some(t)), f.level[t] + 1, Combined(f, f.Children(Some(t)), f.level[t] + 1));
  }

  lemma RolledDates(f: Forested, task: Task, kids: seq<Id>, lvl: nat, combined: Span)
    requires f.Valid() && Siblings(f, kids, lvl)
    requires EarliestOf(f, kids, lvl, combined.start) && LatestOf(f, kids, lvl, combined.end)
    ensures DatesFromChildren(f, task, Rolled(task, combined), kids, lvl)
  {}

  lemma EffectiveIs(f: Forested, t: Id)
    requires f.Valid() && t in f.tasks
    ensures f.level[t] <= f.top && Siblings(f, f.Children(Some(t)), f.level[t] + 1)
    ensures Effective(f, t) == Rolled(f.tasks[t], Combined(f, f.Children(Some(t)), f.level[t] + 1))
  {
    KidsOf(f, t);
    EffectiveUnfold(f, t);
  }

  lemma KidsOf(f: Forested, t: Id)
    requires f.Valid() && t in f.tasks
    ensures f.level[t] <= f.top && Siblings(f, f.Children(Some(t)), f.level[t] + 1)
  {
    ChildrenAre(f, Some(t));
    BelowTop(f, t);
  }

  lemma EffectiveUnfold(f: Forested, t: Id)
    requires f.Valid() && t in f.tasks
    requires f.level[t] <= f.top && Siblings(f, f.Children(Some(t)), f.level[t] + 1)
    ensures Effective(f, t) == Rolled(f.tasks[t], Combined(f, f.Children(Some(t)), f.level[t] + 1))
  {}

  // ----- the plan's start -----

  /** Some task under `t` starts explicitly on `s`. */
  ghost predicate StartsUnder(f: Forested, t: Id, s: Option<Day>)
    requires f.Valid()
  {
    exists x :: x in f.tasks && f.Under(t, x) && f.tasks[x].start == s
  }

  /** A rolled-up start is always an explicit one from the task's own subtree. */
  lemma {:induction false} EffectiveStartIsExplicit(f: Forested, t: Id)
    requires f.Valid() && t in f.tasks
    ensures Effective(f, t).start.Some? ==> StartsUnder(f, t, Effective(f, t).start)
    decreases f.top + 1 - f.level[t], 0
  {
    EffectiveIs(f, t);
    if f.tasks[t].start.Some? {
      SelfInSubtree(f, t);
    } else if Effective(f, t).start.Some? {
      var c := CombinedStartIsExplicit(f, f.Children(Some(t)), f.level[t] + 1);
      ChildrenAre(f, Some(t));
      ChildStarts(f, t, c, Effective(f, t).start);
    }
  }

  lemma ChildStarts(f: Forested, t: Id, c: Id, s: Option<Day>)
    requires f.Valid() && t in f.tasks && c in f.tasks && f.tasks[c].parent == Some(t) && StartsUnder(f, c, s)
    ensures StartsUnder(f, t, s)
  {
    var x :| x in f.tasks && f.Under(c, x) && f.tasks[x].start == s;
    ChildSubtree(f, t, c, x);
  }

  lemma {:induction false} CombinedStartIsExplicit(f: Forested, list: seq<Id>, lvl: nat) returns (c: Id)
    requires f.Valid() && Siblings(f, list, lvl) && lvl <= f.top + 1
    requires Combined(f, list, lvl).start.Some?
    ensures c in list && StartsUnder(f, c, Combined(f, list, lvl).start)
    decreases f.top + 1 - lvl, |list| + 1
  {
    var n := |list| - 1;
    assert list[n] in list;
    EffectiveStartIsExplicit(f, list[n]);
    c := list[n];
    if Combined(f, list, lvl).start != Effective(f, list[n]).start {
      c := CombinedStartIsExplicit(f, list[..n], lvl);
    }
  }

  lemma SelfInSubtree(f: Forested, t: Id)
    requires f.Valid() && t in f.tasks
    ensures t in f.Subtree(t)
  {
    assert Ancestors(f.tasks, f.level, t)[0] == t;
  }

  /** Subtrees of children lie inside the parent's. */
  lemma {:induction false} ChildSubtree(f: Forested, t: Id, c: Id, x: Id)
    requires f.Valid() && t in f.tasks && c in f.tasks && f.tasks[c].parent == Some(t)
    requires x in f.tasks && f.Under(c, x)
    ensures f.Under(t, x)
    decreases f.level[x]
  {
    SubtreeStep(f.tasks, f.level, c, x);
    SubtreeStep(f.tasks, f.level, t, x);
    SubtreeStep(f.tasks, f.level, t, t);
    assert LevelOk(f.tasks, f.level, x);
    if x == c {
      SelfInSubtree(f, t);
    } else {
      ChildSubtree(f, t, c, f.tasks[x].parent.value);
    }
  }

  /** `s` is the earliest start any task has after rolling up. */
  ghost predicate EarliestEffective(f: Forested, s: Day)
    requires f.Valid()
  {
    && (exists t :: t in f.tasks && Effective(f, t).start == Some(s))
    && (forall t | t in f.tasks && Effective(f, t).start.Some? :: s <= Effective(f, t).start.value)
  }

  /** `s` is the earliest start any task was given. */
  ghost predicate EarliestExplicit(f: Forested, s: Day) {
    && (exists t :: t in f.tasks && f.tasks[t].start == Some(s))
    && (forall t | t in f.tasks && f.tasks[t].start.Some? :: s <= f.tasks[t].start.value)
  }

  lemma ExplicitStaysEffective(f: Forested, t: Id)
    requires f.Valid() && t in f.tasks && f.tasks[t].start.Some?
    ensures Effective(f, t).start == f.tasks[t].start
  {}

  lemma EffectiveComesFrom(f: Forested, t: Id) returns (x: Id)
    requires f.Valid() && t in f.tasks && Effective(f, t).start.Some?
    ensures x in f.tasks && f.tasks[x].start == Effective(f, t).start
  {
    EffectiveStartIsExplicit(f, t);
    x :| x in f.tasks && f.Under(t, x) && f.tasks[x].start == Effective(f, t).start;
  }

  /** Rolling up never moves the plan's start: the earliest effective start over all tasks is
      the earliest explicit one. */
  lemma PlanStartIsEarliestExplicit(f: Forested, s: Day)
    requires f.Valid()
    ensures EarliestEffective(f, s) <==> EarliestExplicit(f, s)
  {
    if EarliestEffective(f, s) {
      var t :| t in f.tasks && Effective(f, t).start == Some(s);
      var x := EffectiveComesFrom(f, t);
      forall y | y in f.tasks && f.tasks[y].start.Some? ensures s <= f.tasks[y].start.value {
        ExplicitStaysEffective(f, y);
      }
    }
    if EarliestExplicit(f, s) {
      var t :| t in f.tasks && f.tasks[t].start == Some(s);
      ExplicitStaysEffective(f, t);
      forall y | y in f.tasks && Effective(f, y).start.Some? ensures s <= Effective(f, y).start.value {
        var x := EffectiveComesFrom(f, y);
      }
    }
  }

  // ----- rows -----

  datatype Row = Row(
    id: Id, name: string, level: nat, root: nat, span: Span, progress: nat, milestone: bool, hasDeps: bool,
    bar: Option<Bar>, milestoneIdx: Option<nat>)

  function RowFor(t: Id, task: Task, span: Span, level: nat, root: nat, columns: seq<Column>): Row {
    Row(t, task.name, level, root, span, task.progress, task.milestone, task.deps.Some? && task.deps.value != [],
        if task.milestone then None else BarOf(span.start, span.end, columns),
        if task.milestone then MilestoneOf(columns, span.start) else None)
  }

  /** The rows of one subtree, and of a list of siblings, depth first. */
  ghost function RowsOf(f: Forested, t: Id, lvl: nat, root: nat, columns: seq<Column>): seq<Row>
    requires f.Valid() && t in f.tasks
    decreases f.top + 1 - f.level[t], 0
  {
    ChildrenAre(f, Some(t));
    BelowTop(f, t);
    [RowFor(t, f.tasks[t], Effective(f, t), lvl, root, columns)] +
    RowsOfAll(f, f.Children(Some(t)), f.level[t] + 1, lvl + 1, root, columns)
  }

  ghost function RowsOfAll(f: Forested, list: seq<Id>, at: nat, lvl: nat, root: nat, columns: seq<Column>): seq<Row>
    requires f.Valid() && Siblings(f, list, at) && at <= f.top + 1
    decreases f.top + 1 - at, |list| + 1
  {
    if list == [] then []
    else
      var n := |list| - 1;
      assert list[n] in list;
      RowsOfAll(f, list[..n], at, lvl, root, columns) + RowsOf(f, list[n], lvl, root, columns)
  }

  /** Phase by phase; phase i's rows carry i for their colour. */
  ghost function PhaseRows(f: Forested, roots: seq<Id>, columns: seq<Column>): seq<Row>
    requires f.Valid() && Siblings(f, roots, 1)
  {
    if roots == [] then []
    else
      var n := |roots| - 1;
      assert roots[n] in roots;
      PhaseRows(f, roots[..n], columns) + RowsOf(f, roots[n], 1, n, columns)
  }

  ghost function AllRows(f: Forested, columns: seq<Column>): seq<Row>
    requires f.Valid()
  {
    ChildrenAre(f, None);
    PhaseRows(f, f.Children(None), columns)
  }

  // ----- every task once, depth first -----

  ghost function RowIds(rows: seq<Row>): (r: seq<Id>)
    ensures |r| == |rows| && forall i | 0 <= i < |r| :: r[i] == rows[i].id
  {
    seq(|rows|, i requires 0 <= i < |rows| => rows[i].id)
  }

  ghost function SubtreesOf(f: Forested, list: seq<Id>): set<Id>
    requires f.Valid()
  {
    set t, x | t in list && x in f.Subtree(t) :: x
  }

  /** Two subtrees hanging at the same level are the same or disjoint. */
  lemma SubtreesDisjoint(f: Forested, a: Id, b: Id, x: Id)
    requires f.Valid() && a in f.tasks && b in f.tasks && x in f.tasks
    requires f.level[a] == f.level[b] && f.Under(a, x) && f.Under(b, x)
    ensures a == b
  {
    var path := Ancestors(f.tasks, f.level, x);
    var i :| 0 <= i < |path| && path[i] == a;
    var j :| 0 <= j < |path| && path[j] == b;
    AncestorLevels(f.tasks, f.level, x, i);
    AncestorLevels(f.tasks, f.level, x, j);
  }

  /** A proper descendant is under one of the children. */
  lemma {:induction false} UnderSomeChild(f: Forested, t: Id, x: Id) returns (c: Id)
    requires f.Valid() && t in f.tasks && x in f.tasks && f.Under(t, x) && x != t
    ensures c in f.tasks && f.tasks[c].parent == Some(t) && f.Under(c, x)
    decreases f.level[x]
  {
    SubtreeStep(f.tasks, f.level, t, x);
    assert LevelOk(f.tasks, f.level, x);
    var p := f.tasks[x].parent.value;
    if p == t {
      c := x;
      SelfInSubtree(f, x);
    } else {
      c := UnderSomeChild(f, t, p);
      SubtreeStep(f.tasks, f.level, c, x);
    }
  }

  lemma SubtreeIsSelfAndChildren(f: Forested, t: Id)
    requires f.Valid() && t in f.tasks
    ensures f.Subtree(t) == {t} + SubtreesOf(f, f.Children(Some(t)))
    ensures t !in SubtreesOf(f, f.Children(Some(t)))
  {
    ChildrenAre(f, Some(t));
    SelfInSubtree(f, t);
    forall x | x in f.Subtree(t) && x != t ensures x in SubtreesOf(f, f.Children(Some(t))) {
      var c := UnderSomeChild(f, t, x);
      assert c in f.Children(Some(t)) && x in f.Subtree(c);
    }
    forall x | x in SubtreesOf(f, f.Children(Some(t))) ensures x in f.Subtree(t) && x != t {
      var c :| c in f.Children(Some(t)) && x in f.Subtree(c);
      ChildSubtree(f, t, c, x);
      SubtreeStep(f.tasks, f.level, c, x);
    }
  }

  /** Ids distinct, and exactly those of a set. */
  ghost predicate Lists(rows: seq<Row>, s: set<Id>) {
    NoDup(RowIds(rows)) && Elems(RowIds(rows)) == s
  }

  lemma ListsJoin(a: seq<Row>, b: seq<Row>, s: set<Id>, t: set<Id>)
    requires Lists(a, s) && Lists(b, t) && s !! t
    ensures Lists(a + b, s + t)
  {
    assert RowIds(a + b) == RowIds(a) + RowIds(b);
    assert Elems(RowIds(a + b)) == Elems(RowIds(a)) + Elems(RowIds(b));
    var r := RowIds(a + b);
    forall i, j | 0 <= i < j < |r| ensures r[i] != r[j] {
      if i < |a| <= j {
        assert r[i] in Elems(RowIds(a)) && r[j] in Elems(RowIds(b));
      }
    }
  }

  /** A subtree's rows, taken apart: its own row, then those of its children. */
  lemma RowsOfIs(f: Forested, t: Id, lvl: nat, root: nat, columns: seq<Column>)
    returns (kids: seq<Id>, at: nat, head: Row, below: seq<Row>)
    requires f.Valid() && t in f.tasks
    ensures kids == f.Children(Some(t)) && Sorted(ByRow(f.tasks), kids)
    ensures at == f.level[t] + 1 <= f.top + 1 && Siblings(f, kids, at)
    ensures head == RowFor(t, f.tasks[t], Effective(f, t), lvl, root, columns)
    ensures below == RowsOfAll(f, kids, at, lvl + 1, root, columns)
    ensures RowsOf(f, t, lvl, root, columns) == [head] + below
  {
    KidsOf(f, t);
    assert f.KidsOk(Some(t));
    kids, at := f.Children(Some(t)), f.level[t] + 1;
    head := RowFor(t, f.tasks[t], Effective(f, t), lvl, root, columns);
    below := RowsOfAll(f, kids, at, lvl + 1, root, columns);
    RowsOfUnfold(f, t, lvl, root, columns);
  }

  lemma RowsOfUnfold(f: Forested, t: Id, lvl: nat, root: nat, columns: seq<Column>)
    requires f.Valid() && t in f.tasks
    requires f.level[t] <= f.top && Siblings(f, f.Children(Some(t)), f.level[t] + 1)
    ensures RowsOf(f, t, lvl, root, columns) ==
            [RowFor(t, f.tasks[t], Effective(f, t), lvl, root, columns)] +
            RowsOfAll(f, f.Children(Some(t)), f.level[t] + 1, lvl + 1, root, columns)
  {}

  lemma {:induction false} RowsListSubtree(f: Forested, t: Id, lvl: nat, root: nat, columns: seq<Column>)
    requires f.Valid() && t in f.tasks
    ensures Lists(RowsOf(f, t, lvl, root, columns), f.Subtree(t))
    decreases f.top + 1 - f.level[t], 0
  {
    var kids, at, head, below := RowsOfIs(f, t, lvl, root, columns);
    RowsListSubtrees(f, kids, at, lvl + 1, root, columns);
    HeadLists(f, t, head, below);
  }

  lemma HeadLists(f: Forested, t: Id, head: Row, below: seq<Row>)
    requires f.Valid() && t in f.tasks && head.id == t
    requires Lists(below, SubtreesOf(f, f.Children(Some(t))))
    ensures Lists([head] + below, f.Subtree(t))
  {
    SubtreeIsSelfAndChildren(f, t);
    assert RowIds([head]) == [t];
    ListsJoin([head], below, {t}, SubtreesOf(f, f.Children(Some(t))));
  }

  lemma LastSibling(f: Forested, list: seq<Id>, lvl: nat)
    requires f.Valid() && Siblings(f, list, lvl) && list != []
    ensures var n := |list| - 1;
            && list[n] in f.tasks && f.level[list[n]] == lvl
            && Siblings(f, list[..n], lvl)
            && forall t | t in list[..n] :: t in f.tasks && t != list[n]
  {
    assert list[|list| - 1] in list;
  }

  lemma LastSubtreeApart(f: Forested, list: seq<Id>, lvl: nat)
    requires f.Valid() && Siblings(f, list, lvl) && list != []
    ensures SubtreesOf(f, list) == SubtreesOf(f, list[..|list| - 1]) + f.Subtree(list[|list| - 1])
    ensures SubtreesOf(f, list[..|list| - 1]) !! f.Subtree(list[|list| - 1])
  {
    var n := |list| - 1;
    LastSibling(f, list, lvl);
    SubtreesOfLast(f, list);
    forall x | x in SubtreesOf(f, list[..n]) ensures x !in f.Subtree(list[n]) {
      var t :| t in list[..n] && x in f.Subtree(t);
      if x in f.Subtree(list[n]) {
        SubtreesDisjoint(f, t, list[n], x);
      }
    }
  }

  lemma SubtreesOfLast(f: Forested, list: seq<Id>)
    requires f.Valid() && list != []
    ensures SubtreesOf(f, list) == SubtreesOf(f, list[..|list| - 1]) + f.Subtree(list[|list| - 1])
  {
    assert list == list[..|list| - 1] + [list[|list| - 1]];
  }

  lemma {:induction false} RowsListSubtrees(f: Forested, list: seq<Id>, at: nat, lvl: nat, root: nat,
                                            columns: seq<Column>)
    requires f.Valid() && Siblings(f, list, at) && at <= f.top + 1
    ensures Lists(RowsOfAll(f, list, at, lvl, root, columns), SubtreesOf(f, list))
    decreases f.top + 1 - at, |list| + 1
  {
    if list == [] {
      assert RowIds([]) == [];
    } else {
      var n := |list| - 1;
      LastSibling(f, list, at);
      LastSubtreeApart(f, list, at);
      RowsListSubtrees(f, list[..n], at, lvl, root, columns);
      RowsListSubtree(f, list[n], lvl, root, columns);
      ListsJoin(RowsOfAll(f, list[..n], at, lvl, root, columns), RowsOf(f, list[n], lvl, root, columns),
                SubtreesOf(f, list[..n]), f.Subtree(list[n]));
    }
  }

  lemma {:induction false} PhaseRowsListSubtrees(f: Forested, roots: seq<Id>, columns: seq<Column>)
    requires f.Valid() && Siblings(f, roots, 1)
    ensures Lists(PhaseRows(f, roots, columns), SubtreesOf(f, roots))
  {
    if roots == [] {
      assert RowIds([]) == [];
    } else {
      var n := |roots| - 1;
      LastSibling(f, roots, 1);
      LastSubtreeApart(f, roots, 1);
      PhaseRowsListSubtrees(f, roots[..n], columns);
      RowsListSubtree(f, roots[n], 1, n, columns);
      ListsJoin(PhaseRows(f, roots[..n], columns), RowsOf(f, roots[n], 1, n, columns),
                SubtreesOf(f, roots[..n]), f.Subtree(roots[n]));
    }
  }

  /** Every task is under a root. */
  lemma {:induction false} UnderSomeRoot(f: Forested, x: Id)
    requires f.Valid() && x in f.tasks
    ensures x in SubtreesOf(f, f.Children(None))
    decreases f.level[x]
  {
    ChildrenAre(f, None);
    assert LevelOk(f.tasks, f.level, x);
    if f.tasks[x].parent.None? {
      SelfInSubtree(f, x);
      assert x in f.Children(None) && x in f.Subtree(x);
    } else {
      var p := f.tasks[x].parent.value;
      UnderSomeRoot(f, p);
      var r :| r in f.Children(None) && p in f.Subtree(r);
      SubtreeStep(f.tasks, f.level, r, x);
      assert x in f.Subtree(r);
    }
  }

  lemma RootsCoverAll(f: Forested)
    requires f.Valid()
    ensures SubtreesOf(f, f.Children(None)) == f.tasks.Keys
  {
    forall x | x in f.tasks ensures x in SubtreesOf(f, f.Children(None)) {
      UnderSomeRoot(f, x);
    }
  }

  /** plan_rows loses and repeats nothing: each task of the forest has exactly one row. */
  lemma EachTaskOnce(f: Forested, columns: seq<Column>)
    requires f.Valid()
    ensures NoDup(RowIds(AllRows(f, columns))) && Elems(RowIds(AllRows(f, columns))) == f.tasks.Keys
  {
    ChildrenAre(f, None);
    PhaseRowsListSubtrees(f, f.Children(None), columns);
    RootsCoverAll(f);
  }

  // ----- levels, contiguity, sibling order -----

  /** Row `i` and the rows right after it are its task's subtree, and its level is the length
      of the path to its root. */
  ghost predicate HeadsSubtree(f: Forested, rows: seq<Row>, i: nat)
    requires f.Valid() && i < |rows|
  {
    && rows[i].id in f.tasks && rows[i].level == f.level[rows[i].id]
    && i + |f.Subtree(rows[i].id)| <= |rows|
    && Lists(rows[i..i + |f.Subtree(rows[i].id)|], f.Subtree(rows[i].id))
  }

  ghost predicate AllHead(f: Forested, rows: seq<Row>)
    requires f.Valid()
  {
    forall i | 0 <= i < |rows| :: HeadsSubtree(f, rows, i)
  }

  /** Whether a row heads its subtree depends only on the rows from it on. */
  lemma HeadMoves(f: Forested, a: seq<Row>, i: nat, r: seq<Row>, k: nat)
    requires f.Valid() && i < |a| && HeadsSubtree(f, a, i)
    requires k + |a| - i <= |r| && r[k..k + |a| - i] == a[i..]
    ensures k < |r| && HeadsSubtree(f, r, k)
  {
    var n := |f.Subtree(a[i].id)|;
    assert r[k] == r[k..k + |a| - i][0] == a[i];
    assert r[k..k + n] == r[k..k + |a| - i][..n] == a[i..][..n] == a[i..i + n];
  }

  lemma AllHeadJoin(f: Forested, a: seq<Row>, b: seq<Row>)
    requires f.Valid() && AllHead(f, a) && AllHead(f, b)
    ensures AllHead(f, a + b)
  {
    var r := a + b;
    forall i | 0 <= i < |r| ensures HeadsSubtree(f, r, i) {
      if i < |a| {
        assert r[i..i + |a| - i] == a[i..];
        HeadMoves(f, a, i, r, i);
      } else {
        assert r[i..i + |b| - (i - |a|)] == b[i - |a|..];
        HeadMoves(f, b, i - |a|, r, i);
      }
    }
  }

  lemma ListsSize(rows: seq<Row>, s: set<Id>)
    requires Lists(rows, s)
    ensures |rows| == |s|
  {
    NoDupSize(RowIds(rows));
  }

  lemma {:induction false} RowsAllHead(f: Forested, t: Id, root: nat, columns: seq<Column>)
    requires f.Valid() && t in f.tasks
    ensures AllHead(f, RowsOf(f, t, f.level[t], root, columns))
    decreases f.top + 1 - f.level[t], 0
  {
    var kids, at, head, below := RowsOfIs(f, t, f.level[t], root, columns);
    SiblingRowsAllHead(f, kids, at, root, columns);
    RowsListSubtree(f, t, f.level[t], root, columns);
    HeadOverAll(f, head, below);
  }

  lemma HeadOverAll(f: Forested, head: Row, below: seq<Row>)
    requires f.Valid() && AllHead(f, below)
    requires head.id in f.tasks && head.level == f.level[head.id] && Lists([head] + below, f.Subtree(head.id))
    ensures AllHead(f, [head] + below)
  {
    var rows := [head] + below;
    ListsSize(rows, f.Subtree(head.id));
    assert rows[0..|rows|] == rows;
    forall i | 0 <= i < |rows| ensures HeadsSubtree(f, rows, i) {
      if i > 0 {
        assert rows[i..i + |below| - (i - 1)] == below[i - 1..];
        HeadMoves(f, below, i - 1, rows, i);
      }
    }
  }

  lemma {:induction false} SiblingRowsAllHead(f: Forested, list: seq<Id>, at: nat, root: nat, columns: seq<Column>)
    requires f.Valid() && Siblings(f, list, at) && at <= f.top + 1
    ensures AllHead(f, RowsOfAll(f, list, at, at, root, columns))
    decreases f.top + 1 - at, |list| + 1
  {
    if list != [] {
      var n := |list| - 1;
      assert list[n] in list;
      SiblingRowsAllHead(f, list[..n], at, root, columns);
      RowsAllHead(f, list[n], root, columns);
      AllHeadJoin(f, RowsOfAll(f, list[..n], at, at, root, columns), RowsOf(f, list[n], at, root, columns));
    }
  }

  lemma {:induction false} PhaseRowsAllHead(f: Forested, roots: seq<Id>, columns: seq<Column>)
    requires f.Valid() && Siblings(f, roots, 1)
    ensures AllHead(f, PhaseRows(f, roots, columns))
  {
    if roots != [] {
      var n := |roots| - 1;
      assert roots[n] in roots;
      PhaseRowsAllHead(f, roots[..n], columns);
      RowsAllHead(f, roots[n], n, columns);
      AllHeadJoin(f, PhaseRows(f, roots[..n], columns), RowsOf(f, roots[n], 1, n, columns));
    }
  }

  /** Preorder: each task's row is directly followed by its descendants' rows, all of them and
      nothing else, and its level is one more than its number of ancestors. */
  lemma RowsArePreorder(f: Forested, columns: seq<Column>, i: nat)
    requires f.Valid() && i < |AllRows(f, columns)|
    ensures var rows := AllRows(f, columns);
            && HeadsSubtree(f, rows, i)
            && rows[i].level == |Ancestors(f.tasks, f.level, rows[i].id)|
  {
    ChildrenAre(f, None);
    PhaseRowsAllHead(f, f.Children(None), columns);
  }

  /** Siblings appear in row order wherever they are in the list. */
  ghost predicate SiblingsSorted(f: Forested, rows: seq<Row>) {
    forall i, j | 0 <= i < j < |rows| :: SiblingPair(f, rows[i].id, rows[j].id)
  }

  /** Of two tasks with the same parent: by sort_order, then name, then id. */
  ghost predicate SiblingPair(f: Forested, a: Id, b: Id) {
    a in f.tasks && b in f.tasks && f.tasks[a].parent == f.tasks[b].parent ==>
      var x, y := f.tasks[a], f.tasks[b];
      || x.sortOrder < y.sortOrder
      || (x.sortOrder == y.sortOrder && x.name != y.name && StringLeq(x.name, y.name))
      || (x.sortOrder == y.sortOrder && x.name == y.name && a <= b)
  }

  /** Tasks of different subtrees are siblings only at the subtrees' tops. */
  lemma SiblingsAcross(f: Forested, a: Id, b: Id, x: Id, y: Id)
    requires f.Valid() && a in f.tasks && b in f.tasks && a != b && f.level[a] == f.level[b]
    requires x in f.tasks && y in f.tasks && f.Under(a, x) && f.Under(b, y)
    requires f.tasks[x].parent == f.tasks[y].parent
    ensures x == a && y == b
  {
    SubtreeStep(f.tasks, f.level, a, x);
    SubtreeStep(f.tasks, f.level, b, y);
    assert LevelOk(f.tasks, f.level, x) && LevelOk(f.tasks, f.level, y);
    if x != a && y != b {
      SubtreesDisjoint(f, a, b, f.tasks[x].parent.value);
    } else if x == a && y != b {
      SubtreeStep(f.tasks, f.level, b, f.tasks[y].parent.value);
    } else if x != a {
      SubtreeStep(f.tasks, f.level, a, f.tasks[x].parent.value);
    }
  }

  lemma SiblingsSortedJoin(f: Forested, front: seq<Id>, last: Id, lvl: nat, a: seq<Row>, b: seq<Row>)
    requires f.Valid() && Siblings(f, front + [last], lvl) && Sorted(ByRow(f.tasks), front + [last])
    requires SiblingsSorted(f, a) && SiblingsSorted(f, b)
    requires Lists(a, SubtreesOf(f, front)) && Lists(b, f.Subtree(last))
    ensures SiblingsSorted(f, a + b)
  {
    var r := a + b;
    forall i, j | 0 <= i < j < |r| ensures SiblingPair(f, r[i].id, r[j].id) {
      if j < |a| {
        assert SiblingPair(f, a[i].id, a[j].id);
      } else if i >= |a| {
        assert SiblingPair(f, b[i - |a|].id, b[j - |a|].id);
      } else {
        assert RowIds(a)[i] in Elems(RowIds(a)) && RowIds(b)[j - |a|] in Elems(RowIds(b));
        AcrossPair(f, front, last, lvl, r[i].id, r[j].id);
      }
    }
  }

  lemma AcrossPair(f: Forested, front: seq<Id>, last: Id, lvl: nat, x: Id, y: Id)
    requires f.Valid() && Siblings(f, front + [last], lvl) && Sorted(ByRow(f.tasks), front + [last])
    requires x in SubtreesOf(f, front) && y in f.Subtree(last)
    ensures SiblingPair(f, x, y)
  {
    var list := front + [last];
    var t :| t in front && x in f.Subtree(t);
    var k :| 0 <= k < |front| && front[k] == t;
    assert list[k] == t && list[|front|] == last;
    assert list[k] in list && list[|front|] in list;
    if f.tasks[x].parent == f.tasks[y].parent {
      SiblingsAcross(f, t, last, x, y);
      assert ByRow(f.tasks)(list[k], list[|front|]);
    }
  }

  lemma {:induction false} SubtreeSiblingsSorted(f: Forested, t: Id, lvl: nat, root: nat, columns: seq<Column>)
    requires f.Valid() && t in f.tasks
    ensures SiblingsSorted(f, RowsOf(f, t, lvl, root, columns))
    decreases f.top + 1 - f.level[t], 0
  {
    var kids, at, head, below := RowsOfIs(f, t, lvl, root, columns);
    ListSiblingsSorted(f, kids, at, lvl + 1, root, columns);
    RowsListSubtrees(f, kids, at, lvl + 1, root, columns);
    HeadSiblings(f, t, head, below);
  }

  lemma HeadSiblings(f: Forested, t: Id, head: Row, below: seq<Row>)
    requires f.Valid() && t in f.tasks && head.id == t
    requires SiblingsSorted(f, below) && Lists(below, SubtreesOf(f, f.Children(Some(t))))
    ensures SiblingsSorted(f, [head] + below)
  {
    var r := [head] + below;
    forall i, j | 0 <= i < j < |r| ensures SiblingPair(f, r[i].id, r[j].id) {
      if i > 0 {
        assert SiblingPair(f, below[i - 1].id, below[j - 1].id);
      } else {
        assert RowIds(below)[j - 1] in Elems(RowIds(below));
        BelowNotSibling(f, t, r[j].id);
      }
    }
  }

  lemma BelowNotSibling(f: Forested, t: Id, x: Id)
    requires f.Valid() && t in f.tasks && x in SubtreesOf(f, f.Children(Some(t)))
    ensures x in f.tasks && f.tasks[x].parent != f.tasks[t].parent
  {
    ChildrenAre(f, Some(t));
    var c :| c in f.Children(Some(t)) && x in f.Subtree(c);
    SubtreeStep(f.tasks, f.level, c, x);
    assert LevelOk(f.tasks, f.level, x) && LevelOk(f.tasks, f.level, t) && LevelOk(f.tasks, f.level, c);
  }

  lemma {:induction false} ListSiblingsSorted(f: Forested, list: seq<Id>, at: nat, lvl: nat, root: nat,
                                              columns: seq<Column>)
    requires f.Valid() && Siblings(f, list, at) && at <= f.top + 1 && Sorted(ByRow(f.tasks), list)
    ensures SiblingsSorted(f, RowsOfAll(f, list, at, lvl, root, columns))
    decreases f.top + 1 - at, |list| + 1
  {
    if list != [] {
      var n := |list| - 1;
      LastSibling(f, list, at);
      assert list == list[..n] + [list[n]];
      ListSiblingsSorted(f, list[..n], at, lvl, root, columns);
      SubtreeSiblingsSorted(f, list[n], lvl, root, columns);
      RowsListSubtrees(f, list[..n], at, lvl, root, columns);
      RowsListSubtree(f, list[n], lvl, root, columns);
      SiblingsSortedJoin(f, list[..n], list[n], at, RowsOfAll(f, list[..n], at, lvl, root, columns),
                         RowsOf(f, list[n], lvl, root, columns));
    }
  }

  lemma {:induction false} PhaseSiblingsSorted(f: Forested, roots: seq<Id>, columns: seq<Column>)
    requires f.Valid() && Siblings(f, roots, 1) && Sorted(ByRow(f.tasks), roots)
    ensures SiblingsSorted(f, PhaseRows(f, roots, columns))
  {
    if roots != [] {
      var n := |roots| - 1;
      LastSibling(f, roots, 1);
      assert roots == roots[..n] + [roots[n]];
      PhaseSiblingsSorted(f, roots[..n], columns);
      SubtreeSiblingsSorted(f, roots[n], 1, n, columns);
      PhaseRowsListSubtrees(f, roots[..n], columns);
      RowsListSubtree(f, roots[n], 1, n, columns);
      SiblingsSortedJoin(f, roots[..n], roots[n], 1, PhaseRows(f, roots[..n], columns),
                         RowsOf(f, roots[n], 1, n, columns));
    }
  }

  /** Of two tasks with the same parent, the one first in (sort_order, name, id) comes first. */
  lemma SiblingsInRowOrder(f: Forested, columns: seq<Column>)
    requires f.Valid()
    ensures SiblingsSorted(f, AllRows(f, columns))
  {
    ChildrenAre(f, None);
    assert f.KidsOk(None);
    PhaseSiblingsSorted(f, f.Children(None), columns);
  }

  /** A row shows its task, column by column; `root` is its phase's position. */
  ghost predicate ShowsTask(f: Forested, roots: seq<Id>, columns: seq<Column>, r: Row)
    requires f.Valid()
  {
    && r.id in f.tasks && r.root < |roots| && roots[r.root] in f.tasks
    && f.Under(roots[r.root], r.id)
    && r.level == |Ancestors(f.tasks, f.level, r.id)|
    && ShowsColumns(f.tasks[r.id], Effective(f, r.id), columns, r)
  }

  /** The task's own columns, its effective dates, and either a bar or a milestone's place. */
  ghost predicate ShowsColumns(task: Task, span: Span, columns: seq<Column>, r: Row) {
    && r.name == task.name && r.progress == task.progress && r.milestone == task.milestone
    && r.span.start == span.start && r.span.end == span.end
    && (r.hasDeps <==> task.deps.Some? && |task.deps.value| > 0)
    && (!task.milestone ==> r.bar == BarOf(span.start, span.end, columns) && r.milestoneIdx == None)
    && (task.milestone ==> r.bar == None && r.milestoneIdx == MilestoneOf(columns, span.start))
  }

  ghost predicate AllShow(f: Forested, rows: seq<Row>, root: nat, columns: seq<Column>)
    requires f.Valid()
  {
    forall i | 0 <= i < |rows| :: ShowsRow(f, rows[i], root, columns)
  }

  ghost predicate ShowsRow(f: Forested, r: Row, root: nat, columns: seq<Column>)
    requires f.Valid()
  {
    r.id in f.tasks && r == RowFor(r.id, f.tasks[r.id], Effective(f, r.id), f.level[r.id], root, columns)
  }

  lemma {:induction false} SubtreeShows(f: Forested, t: Id, root: nat, columns: seq<Column>)
    requires f.Valid() && t in f.tasks
    ensures AllShow(f, RowsOf(f, t, f.level[t], root, columns), root, columns)
    decreases f.top + 1 - f.level[t], 0
  {
    var kids, at, head, below := RowsOfIs(f, t, f.level[t], root, columns);
    SiblingRowsShow(f, kids, at, root, columns);
    HeadShows(f, head, below, root, columns);
  }

  lemma HeadShows(f: Forested, head: Row, below: seq<Row>, root: nat, columns: seq<Column>)
    requires f.Valid() && ShowsRow(f, head, root, columns) && AllShow(f, below, root, columns)
    ensures AllShow(f, [head] + below, root, columns)
  {}

  lemma {:induction false} SiblingRowsShow(f: Forested, list: seq<Id>, at: nat, root: nat, columns: seq<Column>)
    requires f.Valid() && Siblings(f, list, at) && at <= f.top + 1
    ensures AllShow(f, RowsOfAll(f, list, at, at, root, columns), root, columns)
    decreases f.top + 1 - at, |list| + 1
  {
    if list != [] {
      var n := |list| - 1;
      LastSibling(f, list, at);
      SiblingRowsShow(f, list[..n], at, root, columns);
      SubtreeShows(f, list[n], root, columns);
    }
  }

  lemma {:induction false} PhaseRowsShow(f: Forested, roots: seq<Id>, columns: seq<Column>, i: nat)
    requires f.Valid() && Siblings(f, roots, 1) && i < |PhaseRows(f, roots, columns)|
    ensures ShowsTask(f, roots, columns, PhaseRows(f, roots, columns)[i])
  {
    var n := |roots| - 1;
    LastSibling(f, roots, 1);
    var front := PhaseRows(f, roots[..n], columns);
    if i < |front| {
      PhaseRowsShow(f, roots[..n], columns, i);
    } else {
      LastPhaseShows(f, roots, columns, i - |front|);
    }
  }

  lemma LastPhaseShows(f: Forested, roots: seq<Id>, columns: seq<Column>, i: nat)
    requires f.Valid() && roots != [] && roots[|roots| - 1] in f.tasks && f.level[roots[|roots| - 1]] == 1
    requires i < |RowsOf(f, roots[|roots| - 1], 1, |roots| - 1, columns)|
    ensures ShowsTask(f, roots, columns, RowsOf(f, roots[|roots| - 1], 1, |roots| - 1, columns)[i])
  {
    var n := |roots| - 1;
    var rows := RowsOf(f, roots[n], 1, n, columns);
    SubtreeShows(f, roots[n], n, columns);
    RowsListSubtree(f, roots[n], 1, n, columns);
    assert ShowsRow(f, rows[i], n, columns);
    assert RowIds(rows)[i] in Elems(RowIds(rows));
  }

  /** Every row carries its own task's name, rolled-up dates, progress and bar or milestone,
      its depth, and the position of the phase it belongs to. */
  lemma RowsShowTheirTasks(f: Forested, columns: seq<Column>, i: nat)
    requires f.Valid() && i < |AllRows(f, columns)|
    ensures ShowsTask(f, f.Children(None), columns, AllRows(f, columns)[i])
  {
    ChildrenAre(f, None);
    PhaseRowsShow(f, f.Children(None), columns, i);
  }

  // ----- every project's plan in every run -----

  /** What rendering sees of one project: its rows, the index of them, and their levels. */
  ghost function ProjectForest(table: Tasks, project: ProjectId, byParent: map<Option<Id>, seq<Id>>): Forested
    requires Forest(table)
  {
    var rows := ProjectRows(table, project);
    Forested(rows, byParent, map t | t in rows :: Levels(table)[t], |rows|)
  }

  lemma ProjectForestValid(table: Tasks, project: ProjectId, ids: seq<Id>, byParent: map<Option<Id>, seq<Id>>)
    requires Forest(table)
    requires NoDup(ids) && Elems(ids) == ProjectRows(table, project).Keys
    requires IsIndex(ProjectRows(table, project), ids, byParent)
    ensures ProjectForest(table, project, byParent).Valid()
  {
    var f := ProjectForest(table, project, byParent);
    ProjectRowsLevelling(table, Levels(table), project);
    forall t | t in f.tasks ensures f.level[t] <= f.top {
      LevelsBounded(f.tasks, f.level, t);
    }
    IndexedForest(f.tasks, ids, byParent, f.level, f.top);
  }

  /** After every run of upserts and removals on the shared table, every project's plan shows
      each of its tasks once, each followed by its own subtree, at its depth in the table. */
  lemma PlansRenderInEveryRun(states: seq<Tasks>, ops: seq<Op>, k: nat, project: ProjectId, ids: seq<Id>,
                              byParent: map<Option<Id>, seq<Id>>, columns: seq<Column>)
    requires IsRun(states, ops) && k < |states|
    requires NoDup(ids) && Elems(ids) == ProjectRows(states[k], project).Keys
    requires IsIndex(ProjectRows(states[k], project), ids, byParent)
    ensures Forest(states[k])
    ensures var f := ProjectForest(states[k], project, byParent);
            && f.Valid()
            && NoDup(RowIds(AllRows(f, columns)))
            && Elems(RowIds(AllRows(f, columns))) == ProjectRows(states[k], project).Keys
            && AllHead(f, AllRows(f, columns))
            && SiblingsSorted(f, AllRows(f, columns))
  {
    ForestInEveryRun(states, ops, k);
    ProjectForestValid(states[k], project, ids, byParent);
    var f := ProjectForest(states[k], project, byParent);
    EachTaskOnce(f, columns);
    SiblingsInRowOrder(f, columns);
    forall i | 0 <= i < |AllRows(f, columns)| ensures HeadsSubtree(f, AllRows(f, columns), i) {
      RowsArePreorder(f, columns, i);
    }
  }

  // ----- bars on the plan's own axis -----

  /** `e` is the latest end any task has after rolling up. */
  ghost predicate LatestEffective(f: Forested, e: Day)
    requires f.Valid()
  {
    && (exists t :: t in f.tasks && Effective(f, t).end == Some(e))
    && (forall t | t in f.tasks && Effective(f, t).end.Some? :: Effective(f, t).end.value <= e)
  }

  /** On the axis from the plan's bounds, a dated task that is no milestone gets a bar, unless it
      begins after the twelfth week and the plan ends before the next first of the month. */
  lemma DatedTasksGetBars(f: Forested, s: Day, e: Day, t: Id)
    requires f.Valid() && EarliestEffective(f, s) && LatestEffective(f, e) && t in f.tasks
    requires var span := Effective(f, t); span.start.Some? && span.end.Some? && span.start.value <= span.end.value
    ensures Regular(Gregorian())
    ensures BarOf(Effective(f, t).start, Effective(f, t).end, Columns(Gregorian(), s, e)).Some? <==>
            !(InGap(Gregorian(), s, e) && Effective(f, t).start.value > LastWeekEnd(s, e))
  {
    GregorianIsRegular();
    BarsWithin(Gregorian(), s, e, Effective(f, t).start.value, Effective(f, t).end.value);
  }

  lemma BarsWithin(cal: Months, s: Day, e: Day, a: Day, b: Day)
    requires Regular(cal) && s <= a <= b <= e
    ensures BarOf(Some(a), Some(b), Columns(cal, s, e)).Some? <==> !(InGap(cal, s, e) && a > LastWeekEnd(s, e))
  {
    AxisOrdered(cal, s, e);
    BarCoversTask(a, b, Columns(cal, s, e));
    AxisReachesEnd(cal, s, e);
    WeeksShape(cal, s, e, 0);
  }

  /** In the rows of the plan on its own axis: a task that is no milestone and has dates in order
      shows a bar exactly when it does not begin after week twelve of a plan ending in the gap. */
  lemma DatedRowsShowBars(f: Forested, s: Day, e: Day, i: nat)
    requires f.Valid() && EarliestEffective(f, s) && LatestEffective(f, e)
    requires Regular(Gregorian()) && i < |AllRows(f, Columns(Gregorian(), s, e))|
    requires var r := AllRows(f, Columns(Gregorian(), s, e))[i];
             && r.span.start.Some? && r.span.end.Some? && r.span.start.value <= r.span.end.value
             && r.id in f.tasks && !f.tasks[r.id].milestone
    ensures var r := AllRows(f, Columns(Gregorian(), s, e))[i];
            r.bar.Some? <==> !(InGap(Gregorian(), s, e) && r.span.start.value > LastWeekEnd(s, e))
  {
    var r := AllRows(f, Columns(Gregorian(), s, e))[i];
    RowsShowTheirTasks(f, Columns(Gregorian(), s, e), i);
    assert r.span == Effective(f, r.id);
    DatedTasksGetBars(f, s, e, r.id);
  }

  // ----- the renderer, filling its tables in place -----

  /** `after` is `before` with the rolled-up dates of the tasks in `done` filled in. */
  ghost predicate Recorded(f: Forested, before: map<Id, Span>, after: map<Id, Span>, done: set<Id>)
    requires f.Valid() && done <= f.tasks.Keys
  {
    && after.Keys == before.Keys + done
    && forall x | x in after :: if x in done then after[x] == Effective(f, x) else after[x] == before[x]
  }

  lemma RecordedJoin(f: Forested, m0: map<Id, Span>, m1: map<Id, Span>, m2: map<Id, Span>, a: set<Id>, b: set<Id>)
    requires f.Valid() && a <= f.tasks.Keys && b <= f.tasks.Keys
    requires Recorded(f, m0, m1, a) && Recorded(f, m1, m2, b)
    ensures Recorded(f, m0, m2, a + b)
  {
    forall x | x in m2 ensures if x in a + b then m2[x] == Effective(f, x) else m2[x] == m0[x] {
      assert x !in b ==> x in m1;
    }
  }

  lemma SubtreesInside(f: Forested, list: seq<Id>)
    requires f.Valid()
    ensures SubtreesOf(f, list) <= f.tasks.Keys
    ensures list == [] ==> SubtreesOf(f, list) == {}
  {}

  /** One more sibling. */
  lemma NextSibling(f: Forested, list: seq<Id>, k: nat, lvl: nat)
    requires f.Valid() && k < |list| && Siblings(f, list, lvl) && lvl <= f.top + 1
    ensures list[k] in f.tasks && f.level[list[k]] == lvl
    ensures Siblings(f, list[..k], lvl) && Siblings(f, list[..k + 1], lvl)
    ensures SubtreesOf(f, list[..k + 1]) == SubtreesOf(f, list[..k]) + f.Subtree(list[k])
    ensures var c := Effective(f, list[k]);
            Combined(f, list[..k + 1], lvl) ==
            Span(MinDay(Combined(f, list[..k], lvl).start, c.start), MaxDay(Combined(f, list[..k], lvl).end, c.end))
  {
    assert list[k] in list && list[..k + 1][..k] == list[..k];
    SubtreesOfLast(f, list[..k + 1]);
  }

  lemma NextSiblingRows(f: Forested, list: seq<Id>, k: nat, at: nat, lvl: nat, root: nat, columns: seq<Column>)
    requires f.Valid() && k < |list| && Siblings(f, list, at) && at <= f.top + 1
    ensures list[k] in f.tasks && f.level[list[k]] == at
    ensures Siblings(f, list[..k], at) && Siblings(f, list[..k + 1], at)
    ensures RowsOfAll(f, list[..k + 1], at, lvl, root, columns) ==
            RowsOfAll(f, list[..k], at, lvl, root, columns) + RowsOf(f, list[k], lvl, root, columns)
  {
    assert list[k] in list && list[..k + 1][..k] == list[..k];
  }

  lemma NextPhaseRows(f: Forested, list: seq<Id>, k: nat, columns: seq<Column>)
    requires f.Valid() && k < |list| && Siblings(f, list, 1)
    ensures list[k] in f.tasks
    ensures Siblings(f, list[..k], 1) && Siblings(f, list[..k + 1], 1)
    ensures PhaseRows(f, list[..k + 1], columns) == PhaseRows(f, list[..k], columns) + RowsOf(f, list[k], 1, k, columns)
  {
    assert list[k] in list && list[..k + 1][..k] == list[..k];
  }

  /** The first k of the siblings are rolled up: their dates are recorded and combined. */
  ghost predicate RolledUp(f: Forested, list: seq<Id>, k: nat, lvl: nat, before: map<Id, Span>,
                           after: map<Id, Span>, span: Span) {
    && f.Valid() && k <= |list| && lvl <= f.top + 1
    && Siblings(f, list, lvl) && Siblings(f, list[..k], lvl)
    && span == Combined(f, list[..k], lvl)
    && SubtreesOf(f, list[..k]) <= f.tasks.Keys
    && Recorded(f, before, after, SubtreesOf(f, list[..k]))
  }

  lemma RolledUpStart(f: Forested, list: seq<Id>, lvl: nat, m: map<Id, Span>)
    requires f.Valid() && lvl <= f.top + 1 && Siblings(f, list, lvl)
    ensures RolledUp(f, list, 0, lvl, m, m, Span(None, None))
  {
    SubtreesInside(f, list[..0]);
  }

  lemma RolledUpNext(f: Forested, list: seq<Id>, k: nat, lvl: nat, m0: map<Id, Span>,
                     m1: map<Id, Span>, m2: map<Id, Span>, span: Span)
    requires RolledUp(f, list, k, lvl, m0, m1, span) && k < |list|
    requires list[k] in f.tasks && Recorded(f, m1, m2, f.Subtree(list[k]))
    ensures var c := Effective(f, list[k]);
            RolledUp(f, list, k + 1, lvl, m0, m2, Span(MinDay(span.start, c.start), MaxDay(span.end, c.end)))
  {
    NextSibling(f, list, k, lvl);
    RecordedJoin(f, m0, m1, m2, SubtreesOf(f, list[..k]), f.Subtree(list[k]));
  }

  lemma SiblingAt(f: Forested, list: seq<Id>, k: nat, lvl: nat)
    requires f.Valid() && Siblings(f, list, lvl) && k < |list|
    ensures list[k] in f.tasks && f.level[list[k]] == lvl
  {
    assert list[k] in list;
  }

  /** All children rolled up: the task itself follows. */
  lemma RolledUpEnd(f: Forested, t: Id, m0: map<Id, Span>, m1: map<Id, Span>, span: Span)
    requires f.Valid() && t in f.tasks
    requires RolledUp(f, f.Children(Some(t)), |f.Children(Some(t))|, f.level[t] + 1, m0, m1, span)
    ensures Rolled(f.tasks[t], span) == Effective(f, t)
    ensures Recorded(f, m0, m1[t := Effective(f, t)], f.Subtree(t))
  {
    var kids := f.Children(Some(t));
    assert kids[..|kids|] == kids;
    SubtreeIsSelfAndChildren(f, t);
    RecordedJoin(f, m0, m1, m1[t := Effective(f, t)], SubtreesOf(f, kids), {t});
    assert SubtreesOf(f, kids) + {t} == f.Subtree(t);
  }

  /** All roots rolled up: that is everything. */
  lemma RolledUpAll(f: Forested, m: map<Id, Span>, span: Span)
    requires f.Valid() && RolledUp(f, f.Children(None), |f.Children(None)|, 1, map[], m, span)
    ensures Recorded(f, map[], m, f.tasks.Keys)
  {
    var roots := f.Children(None);
    assert roots[..|roots|] == roots;
    RootsCoverAll(f);
  }

  /** The first k siblings' rows follow `head`. */
  ghost predicate Emitted(f: Forested, list: seq<Id>, k: nat, at: nat, lvl: nat, root: nat, columns: seq<Column>,
                          head: seq<Row>, rows: seq<Row>) {
    && f.Valid() && k <= |list| && at <= f.top + 1 && Siblings(f, list, at) && Siblings(f, list[..k], at)
    && rows == head + RowsOfAll(f, list[..k], at, lvl, root, columns)
  }

  /** Where emitting a subtree starts: its own row, none of its children's. */
  lemma EmittedStart(f: Forested, t: Id, lvl: nat, root: nat, columns: seq<Column>, eff: map<Id, Span>,
                     before: seq<Row>)
    requires f.Valid() && t in f.tasks && Recorded(f, map[], eff, f.tasks.Keys)
    ensures t in eff && f.level[t] <= f.top
    ensures Emitted(f, f.Children(Some(t)), 0, f.level[t] + 1, lvl + 1, root, columns,
                    before + [RowFor(t, f.tasks[t], Effective(f, t), lvl, root, columns)],
                    before + [RowFor(t, f.tasks[t], eff[t], lvl, root, columns)])
  {
    ChildrenAre(f, Some(t));
    BelowTop(f, t);
  }

  lemma EmittedNext(f: Forested, list: seq<Id>, k: nat, at: nat, lvl: nat, root: nat, columns: seq<Column>,
                    head: seq<Row>, rows: seq<Row>)
    requires Emitted(f, list, k, at, lvl, root, columns, head, rows) && k < |list|
    ensures list[k] in f.tasks && f.level[list[k]] == at
    ensures Emitted(f, list, k + 1, at, lvl, root, columns, head, rows + RowsOf(f, list[k], lvl, root, columns))
  {
    NextSiblingRows(f, list, k, at, lvl, root, columns);
  }

  lemma EmittedEnd(f: Forested, t: Id, lvl: nat, root: nat, columns: seq<Column>, before: seq<Row>, rows: seq<Row>)
    requires f.Valid() && t in f.tasks
    requires Emitted(f, f.Children(Some(t)), |f.Children(Some(t))|, f.level[t] + 1, lvl + 1, root, columns,
                     before + [RowFor(t, f.tasks[t], Effective(f, t), lvl, root, columns)], rows)
    ensures rows == before + RowsOf(f, t, lvl, root, columns)
  {
    var kids := f.Children(Some(t));
    assert kids[..|kids|] == kids;
  }

  class Renderer {
    const tasks: Tasks
    const columns: seq<Column>
    var byParent: map<Option<Id>, seq<Id>>
    var eff: map<Id, Span>
    var rows: seq<Row>

    constructor (tasks: Tasks, columns: seq<Column>)
      ensures this.tasks == tasks && this.columns == columns && byParent == map[] && eff == map[] && rows == []
    {
      this.tasks, this.columns, byParent, eff, rows := tasks, columns, map[], map[], [];
    }

    /** Append each row to its parent's list, then sort every list. */
    method BuildIndex(ids: seq<Id>)
      requires forall t | t in ids :: t in tasks
      modifies this`byParent
      ensures IsIndex(tasks, ids, byParent)
    {
      byParent := map[];
      for k := 0 to |ids|
        invariant forall p :: Lookup(byParent, p) == WithParent(tasks, ids[..k], p)
      {
        var t := ids[k];
        assert t in ids && ids[..k + 1][..k] == ids[..k];
        var p := tasks[t].parent;
        byParent := byParent[p := Lookup(byParent, p) + [t]];
      }
      assert ids[..|ids|] == ids;
      ghost var unsorted := byParent;
      byParent := map p | p in byParent :: Sort(ByRow(tasks), byParent[p]);
      forall p ensures Lookup(byParent, p) == Kids(tasks, ids, p) {
        assert Lookup(unsorted, p) == WithParent(tasks, ids, p);
      }
    }

    ghost predicate Shows(f: Forested)
      reads this
    {
      f.Valid() && f.tasks == tasks && f.byParent == byParent
    }

    /** Roll up one subtree, children first, and remember every result. */
    method Compute(ghost f: Forested, t: Id) returns (span: Span)
      requires Shows(f) && t in tasks
      modifies this`eff
      ensures span == Effective(f, t)
      ensures Recorded(f, old(eff), eff, f.Subtree(t))
      decreases f.top + 1 - f.level[t], 0
    {
      KidsOf(f, t);
      var kids := ComputeAll(f, Lookup(byParent, Some(t)), f.level[t] + 1);
      RolledUpEnd(f, t, old(eff), eff, kids);
      span := Rolled(tasks[t], kids);
      eff := eff[t := span];
    }

    /** The loop over siblings: their earliest start and latest end. */
    method ComputeAll(ghost f: Forested, list: seq<Id>, ghost lvl: nat) returns (span: Span)
      requires Shows(f) && Siblings(f, list, lvl) && lvl <= f.top + 1
      modifies this`eff
      ensures RolledUp(f, list, |list|, lvl, old(eff), eff, span)
      decreases f.top + 1 - lvl, 1
    {
      span := Span(None, None);
      RolledUpStart(f, list, lvl, eff);
      for k := 0 to |list|
        invariant RolledUp(f, list, k, lvl, old(eff), eff, span)
      {
        SiblingAt(f, list, k, lvl);
        ghost var before := eff;
        var c := Compute(f, list[k]);
        RolledUpNext(f, list, k, lvl, old(eff), before, eff, span);
        span := Span(MinDay(span.start, c.start), MaxDay(span.end, c.end));
      }
    }

    /** Append the rows of one subtree. */
    method Emit(ghost f: Forested, t: Id, lvl: nat, root: nat)
      requires Shows(f) && t in tasks
      requires Recorded(f, map[], eff, f.tasks.Keys)
      modifies this`rows
      ensures rows == old(rows) + RowsOf(f, t, lvl, root, columns)
      decreases f.top + 1 - f.level[t]
    {
      EmittedStart(f, t, lvl, root, columns, eff, rows);
      ghost var head := rows + [RowFor(t, tasks[t], Effective(f, t), lvl, root, columns)];
      rows := rows + [RowFor(t, tasks[t], eff[t], lvl, root, columns)];
      var kids := Lookup(byParent, Some(t));
      ghost var at := f.level[t] + 1;
      for k := 0 to |kids|
        invariant Emitted(f, kids, k, at, lvl + 1, root, columns, head, rows)
      {
        EmittedNext(f, kids, k, at, lvl + 1, root, columns, head, rows);
        Emit(f, kids[k], lvl + 1, root);
      }
      EmittedEnd(f, t, lvl, root, columns, old(rows), rows);
    }

    /** `_index`: children by parent, then every task's rolled-up dates. */
    method Index(ids: seq<Id>, ghost level: map<Id, nat>, ghost top: nat) returns (ghost f: Forested)
      requires IsLevelling(tasks, level) && forall t | t in tasks :: level[t] <= top
      requires NoDup(ids) && Elems(ids) == tasks.Keys
      modifies this`byParent, this`eff
      ensures f == Forested(tasks, byParent, level, top) && f.Valid()
      ensures IsIndex(tasks, ids, byParent)
      ensures Recorded(f, map[], eff, f.tasks.Keys)
    {
      assert forall t | t in ids :: t in Elems(ids);
      BuildIndex(ids);
      f := Forested(tasks, byParent, level, top);
      IndexedForest(tasks, ids, byParent, level, top);
      RollUpRoots(f);
    }

    /** plan_rows: index and roll up, then emit phase by phase. */
    method PlanRows(ids: seq<Id>, ghost level: map<Id, nat>, ghost top: nat) returns (ghost f: Forested)
      requires IsLevelling(tasks, level) && forall t | t in tasks :: level[t] <= top
      requires NoDup(ids) && Elems(ids) == tasks.Keys
      modifies this
      ensures f == Forested(tasks, byParent, level, top) && f.Valid()
      ensures IsIndex(tasks, ids, byParent)
      ensures rows == AllRows(f, columns)
      ensures Recorded(f, map[], eff, f.tasks.Keys)
    {
      f := Index(ids, level, top);
      EmitRoots(f);
    }

    method EmitRoots(ghost f: Forested)
      requires Shows(f) && Recorded(f, map[], eff, f.tasks.Keys)
      modifies this`rows
      ensures rows == AllRows(f, columns)
    {
      ChildrenAre(f, None);
      var roots := Lookup(byParent, None);
      rows := [];
      for k := 0 to |roots|
        invariant Recorded(f, map[], eff, f.tasks.Keys)
        invariant Siblings(f, roots[..k], 1)
        invariant rows == PhaseRows(f, roots[..k], columns)
      {
        NextPhaseRows(f, roots, k, columns);
        Emit(f, roots[k], 1, k);
      }
      assert roots[..|roots|] == roots;
    }

    method RollUpRoots(ghost f: Forested)
      requires Shows(f)
      modifies this`eff
      ensures Recorded(f, map[], eff, f.tasks.Keys)
    {
      eff := map[];
      ChildrenAre(f, None);
      var all := ComputeAll(f, Lookup(byParent, None), 1);
      RolledUpAll(f, eff, all);
    }

    /** plan_bounds: the earliest start any task was given and the latest rolled-up end, None
        exactly when no task has one. */
    method PlanBounds(ids: seq<Id>, ghost level: map<Id, nat>, ghost top: nat)
      returns (start: Option<Day>, end: Option<Day>, ghost f: Forested)
      requires IsLevelling(tasks, level) && forall t | t in tasks :: level[t] <= top
      requires NoDup(ids) && Elems(ids) == tasks.Keys
      modifies this`byParent, this`eff
      ensures f == Forested(tasks, byParent, level, top) && f.Valid()
      ensures IsBounds(f, start, end)
    {
      f := Index(ids, level, top);
      start, end := BoundsOf(eff, f);
    }
  }

  ghost predicate IsBounds(f: Forested, start: Option<Day>, end: Option<Day>)
    requires f.Valid()
  {
    && (if start.Some? then EarliestExplicit(f, start.value) else forall t | t in f.tasks :: f.tasks[t].start.None?)
    && (if end.Some? then LatestEffective(f, end.value) else forall t | t in f.tasks :: Effective(f, t).end.None?)
  }

  /** `best` is the least, or greatest, of the dates in `seen` tasks' spans; None if they have none. */
  ghost predicate LeastStart(eff: map<Id, Span>, seen: set<Id>, best: Option<Day>) {
    && (best.Some? ==> exists t :: t in eff && t in seen && eff[t].start == best)
    && forall t | t in eff && t in seen && eff[t].start.Some? :: best.Some? && best.value <= eff[t].start.value
  }

  ghost predicate GreatestEnd(eff: map<Id, Span>, seen: set<Id>, best: Option<Day>) {
    && (best.Some? ==> exists t :: t in eff && t in seen && eff[t].end == best)
    && forall t | t in eff && t in seen && eff[t].end.Some? :: best.Some? && eff[t].end.value <= best.value
  }

  lemma NextStart(eff: map<Id, Span>, seen: set<Id>, best: Option<Day>, t: Id)
    requires t in eff && LeastStart(eff, seen, best)
    ensures LeastStart(eff, seen + {t}, MinDay(best, eff[t].start))
  {}

  lemma NextEnd(eff: map<Id, Span>, seen: set<Id>, best: Option<Day>, t: Id)
    requires t in eff && GreatestEnd(eff, seen, best)
    ensures GreatestEnd(eff, seen + {t}, MaxDay(best, eff[t].end))
  {}

  lemma BoundsMean(f: Forested, eff: map<Id, Span>, start: Option<Day>, end: Option<Day>)
    requires f.Valid() && Recorded(f, map[], eff, f.tasks.Keys)
    requires LeastStart(eff, eff.Keys, start) && GreatestEnd(eff, eff.Keys, end)
    ensures IsBounds(f, start, end)
  {
    forall t | t in f.tasks ensures t in eff && eff[t] == Effective(f, t) {}
    if start.Some? {
      assert EarliestEffective(f, start.value);
      PlanStartIsEarliestExplicit(f, start.value);
    } else {
      forall t | t in f.tasks ensures f.tasks[t].start.None? {
        if f.tasks[t].start.Some? {
          ExplicitStaysEffective(f, t);
        }
      }
    }
  }

  /** The loop over the rolled-up dates. */
  method BoundsOf(eff: map<Id, Span>, ghost f: Forested) returns (start: Option<Day>, end: Option<Day>)
    requires f.Valid() && Recorded(f, map[], eff, f.tasks.Keys)
    ensures IsBounds(f, start, end)
  {
    start, end := None, None;
    var todo := eff.Keys;
    while todo != {}
      invariant todo <= eff.Keys
      invariant LeastStart(eff, eff.Keys - todo, start)
      invariant GreatestEnd(eff, eff.Keys - todo, end)
    {
      var t :| t in todo;
      NextStart(eff, eff.Keys - todo, start, t);
      NextEnd(eff, eff.Keys - todo, end, t);
      assert eff.Keys - (todo - {t}) == (eff.Keys - todo) + {t};
      todo := todo - {t};
      start, end := MinDay(start, eff[t].start), MaxDay(end, eff[t].end);
    }
    assert eff.Keys - todo == eff.Keys;
    BoundsMean(f, eff, start, end);
  }
}
