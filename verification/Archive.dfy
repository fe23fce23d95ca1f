/** Week-boundary pagination of the archive (registro_page in app/ui/router.py). Instants are
    microseconds since 0001-01-01 00:00 UTC. */
module Archive {
  import opened Options
  import opened Sequences
  import opened Sorting
  import opened Calendar

  const WEEKS_PER_PAGE := 12
  const FETCH_CAP := 500
  const DAY := 86_400_000_000

  type Instant = nat

  datatype Item = Item(id: nat, closedAt: Option<Instant>, createdAt: Instant)

  /** A closed item with its date. */
  datatype Dated = Dated(id: nat, at: Instant)

  datatype Group = Group(week: IsoWeek, items: seq<Dated>)

  datatype Shown = Shown(groups: seq<Group>, undated: seq<Item>, nextBefore: Option<int>)

  function DayOf(t: Instant): Day {
    t / DAY + 1
  }

  /** How items fall into weeks: the key items are grouped by and the instant a key's week
      starts. Paging needs nothing else of the calendar. */
  datatype Weeks = Weeks(key: Dated -> IsoWeek, start: IsoWeek -> int)

  /** The page's own weeks: ISO week of the closing day, Monday midnight. */
  function IsoWeeks(): Weeks {
    Weeks((i: Dated) => IsoWeekOf(DayOf(i.at)), (k: IsoWeek) => (FromIsoWeek(k) - 1) * DAY)
  }

  // ----- queries -----

  predicate NewestFirst(a: Dated, b: Dated) {
    a.at >= b.at
  }

  predicate CreatedFirst(a: Item, b: Item) {
    a.createdAt >= b.createdAt
  }

  function DatedOf(rows: seq<Item>): seq<Dated> {
    if rows == [] then []
    else (if rows[0].closedAt.Some? then [Dated(rows[0].id, rows[0].closedAt.value)] else []) + DatedOf(rows[1..])
  }

  function UndatedOf(rows: seq<Item>): seq<Item> {
    if rows == [] then []
    else (if rows[0].closedAt.None? then [rows[0]] else []) + UndatedOf(rows[1..])
  }

  /** All dated rows, newest first. */
  function Timeline(rows: seq<Item>): seq<Dated> {
    Sort(NewestFirst, DatedOf(rows))
  }

  function Older(s: seq<Dated>, before: int): (r: seq<Dated>)
    ensures |r| <= |s|
  {
    if s == [] then []
    else (if s[0].at < before then [s[0]] else []) + Older(s[1..], before)
  }

  function Since(s: seq<Dated>, before: Option<int>): seq<Dated> {
    if before.None? then s else Older(s, before.value)
  }

  function Fetch(s: seq<Dated>): seq<Dated> {
    Take(s, FETCH_CAP)
  }

  // ----- groupby on the week key -----

  /** Length of the leading run of items in the same week. */
  function RunLength(w: Weeks, s: seq<Dated>): (k: nat)
    requires s != []
    ensures 1 <= k <= |s|
  {
    if |s| == 1 || w.key(s[1]) != w.key(s[0]) then 1 else 1 + RunLength(w, s[1..])
  }

  /** The run shares the first item's week, and the item after it does not. */
  lemma {:induction false} RunIs(w: Weeks, s: seq<Dated>)
    requires s != []
    ensures forall i | 0 <= i < RunLength(w, s) :: w.key(s[i]) == w.key(s[0])
    ensures RunLength(w, s) < |s| ==> w.key(s[RunLength(w, s)]) != w.key(s[0])
  {
    if |s| > 1 && w.key(s[1]) == w.key(s[0]) {
      RunIs(w, s[1..]);
      var k := RunLength(w, s[1..]);
      assert forall i | 1 <= i < k + 1 :: s[i] == s[1..][i - 1];
      assert k + 1 < |s| ==> s[k + 1] == s[1..][k];
    }
  }

  function Groups(w: Weeks, s: seq<Dated>): seq<Group> {
    if s == [] then []
    else
      var k := RunLength(w, s);
      [Group(w.key(s[0]), s[..k])] + Groups(w, s[k..])
  }

  // ----- one page -----

  /** The page built from the items older than the cursor, `s`, and the undated ones. */
  function PageOf(w: Weeks, s: seq<Dated>, undated: seq<Item>): Shown {
    var fetched := Fetch(s);
    var all := Groups(w, fetched);
    var page := Take(all, WEEKS_PER_PAGE);
    var more := |all| > WEEKS_PER_PAGE || |fetched| == FETCH_CAP;
    if more && page != [] then Shown(page, [], Some(w.start(page[|page| - 1].week)))
    else Shown(page, if more then [] else undated, None)
  }

  method RegistroPage(w: Weeks, rows: seq<Item>, before: Option<int>) returns (shown: Shown)
    ensures shown == PageOf(w, Since(Timeline(rows), before), Sort(CreatedFirst, UndatedOf(rows)))
  {
    var dated := Timeline(rows);
    if before.Some? {
      dated := Older(dated, before.value);
    }
    var items := Fetch(dated);
    var groupsAll := Groups(w, items);
    var page := Take(groupsAll, WEEKS_PER_PAGE);
    var hasMore := |groupsAll| > WEEKS_PER_PAGE || |items| == FETCH_CAP;
    var nextBefore := None;
    if hasMore && page != [] {
      nextBefore := Some(w.start(page[|page| - 1].week));
    }
    var weekGroups, undated := page, [];
    if !hasMore {
      undated := Sort(CreatedFirst, UndatedOf(rows));
    }
    shown := Shown(weekGroups, undated, nextBefore);
  }

  // ----- weeks along the timeline -----

  ghost predicate Descending(s: seq<Dated>) {
    forall i, j | 0 <= i < j < |s| :: s[i].at >= s[j].at
  }

  lemma TimelineDescending(rows: seq<Item>)
    ensures Descending(Timeline(rows)) && multiset(Timeline(rows)) == multiset(DatedOf(rows))
  {
    assert TotalPreorder(NewestFirst);
    SortSorted(NewestFirst, DatedOf(rows));
    var s := Timeline(rows);
    forall i, j | 0 <= i < j < |s| ensures s[i].at >= s[j].at {
      assert NewestFirst(s[i], s[j]);
    }
  }

  /** How the weeks of two items compare. */
  ghost predicate WeekPair(w: Weeks, a: Dated, b: Dated) {
    && (w.key(a) == w.key(b) <==> w.start(w.key(a)) == w.start(w.key(b)))
    && (a.at >= b.at ==> w.start(w.key(a)) >= w.start(w.key(b)))
    && (b.at >= w.start(w.key(a)) <==> w.start(w.key(b)) >= w.start(w.key(a)))
  }

  /** Weeks follow each other in time, and a key names the week that starts at its start. */
  ghost predicate Weekly(w: Weeks) {
    forall a, b :: WeekPair(w, a, b)
  }

  /** ISO weeks do: in particular formatting a week and parsing it back loses nothing. */
  lemma IsoWeeksAreWeekly()
    ensures Weekly(IsoWeeks())
  {
    forall a, b ensures WeekPair(IsoWeeks(), a, b) {
      IsoWeekFacts(DayOf(a.at), DayOf(b.at));
      InstantOnDay(b.at, Monday(DayOf(a.at)));
    }
  }

  lemma IsoWeekFacts(a: Day, b: Day)
    ensures FromIsoWeek(IsoWeekOf(a)) == Monday(a) && FromIsoWeek(IsoWeekOf(b)) == Monday(b)
    ensures IsoWeekOf(a) == IsoWeekOf(b) <==> Monday(a) == Monday(b)
    ensures a >= b ==> Monday(a) >= Monday(b)
    ensures b >= Monday(a) <==> Monday(b) >= Monday(a)
  {
    IsoWeekRoundTrip(a);
    IsoWeekRoundTrip(b);
    MondayMonotone(b, a);
    MondayMonotone(a, b);
  }

  lemma InstantOnDay(t: Instant, d: Day)
    ensures t >= (d - 1) * DAY <==> DayOf(t) >= d
  {}

  /** How many leading rows are not older than an instant. */
  function NotOlder(s: seq<Dated>, before: int): (k: nat)
    ensures k <= |s|
    ensures forall i | 0 <= i < k :: s[i].at >= before
    ensures k < |s| ==> s[k].at < before
  {
    if s == [] || s[0].at < before then 0 else 1 + NotOlder(s[1..], before)
  }

  /** On a descending list the older rows are the rest. */
  lemma {:induction false} OlderIsSuffix(s: seq<Dated>, before: int)
    requires Descending(s)
    ensures Older(s, before) == s[NotOlder(s, before)..]
  {
    if s != [] {
      assert Descending(s[1..]);
      OlderIsSuffix(s[1..], before);
      if s[0].at < before && |s| > 1 {
        assert s[0].at >= s[1].at;
        assert NotOlder(s[1..], before) == 0;
      }
    }
  }

  lemma {:induction false} OlderTwice(s: seq<Dated>, a: int, b: int)
    requires b <= a
    ensures Older(Older(s, a), b) == Older(s, b)
  {
    if s != [] {
      OlderTwice(s[1..], a, b);
      if s[0].at < a {
        assert Older(s, a) == [s[0]] + Older(s[1..], a);
      } else {
        assert Older(s, a) == Older(s[1..], a);
      }
    }
  }

  // ----- what the groups cover -----

  function CoveredBy(w: Weeks, s: seq<Dated>, n: nat): (k: nat)
    ensures k <= |s|
    ensures n > 0 && s != [] ==> k > 0
    decreases |s|
  {
    if s == [] || n == 0 then 0
    else RunLength(w, s) + CoveredBy(w, s[RunLength(w, s)..], n - 1)
  }

  function Flatten(g: seq<Group>): seq<Dated> {
    if g == [] then [] else g[0].items + Flatten(g[1..])
  }

  lemma JoinAssoc(x: seq<Dated>, y: seq<Dated>, z: seq<Dated>)
    ensures x + (y + z) == (x + y) + z
  {}

  lemma {:induction false} FlattenAppend(a: seq<Group>, b: seq<Group>)
    ensures Flatten(a + b) == Flatten(a) + Flatten(b)
  {
    if a == [] {
      assert a + b == b;
    } else {
      FlattenAppend(a[1..], b);
      assert (a + b)[0] == a[0] && (a + b)[1..] == a[1..] + b;
      JoinAssoc(a[0].items, Flatten(a[1..]), Flatten(b));
    }
  }

  lemma TakeGroupsNext(w: Weeks, s: seq<Dated>, n: nat)
    requires s != [] && n > 0
    ensures var r := RunLength(w, s);
            Take(Groups(w, s), n) == [Group(w.key(s[0]), s[..r])] + Take(Groups(w, s[r..]), n - 1)
  {}

  /** The first n groups hold exactly the first CoveredBy items. */
  lemma {:induction false} GroupsCover(w: Weeks, s: seq<Dated>, n: nat)
    ensures Flatten(Take(Groups(w, s), n)) == s[..CoveredBy(w, s, n)]
    ensures CoveredBy(w, s, n) < |s| <==> |Groups(w, s)| > n
    decreases |s|
  {
    if s != [] && n > 0 {
      var r, k := RunLength(w, s), CoveredBy(w, s, n);
      GroupsCover(w, s[r..], n - 1);
      TakeGroupsNext(w, s, n);
      FlattenAppend([Group(w.key(s[0]), s[..r])], Take(Groups(w, s[r..]), n - 1));
      SliceJoin(s, r, k);
    }
  }

  lemma SliceJoin(s: seq<Dated>, r: nat, k: nat)
    requires r <= k <= |s|
    ensures s[..r] + s[r..][..k - r] == s[..k]
  {}

  /** The last of the first n groups holds item k - 1, and item k belongs to another week. */
  ghost predicate CutAtWeek(w: Weeks, s: seq<Dated>, k: nat, g: seq<Group>) {
    && 0 < k <= |s| && g != [] && g[|g| - 1].week == w.key(s[k - 1])
    && (k < |s| ==> w.key(s[k - 1]) != w.key(s[k]))
  }

  lemma CutShifts(w: Weeks, s: seq<Dated>, r: nat, j: nat, head: Group, tail: seq<Group>)
    requires r <= |s| && CutAtWeek(w, s[r..], j, tail)
    ensures CutAtWeek(w, s, r + j, [head] + tail)
  {
    assert s[r..][j - 1] == s[r + j - 1];
    assert j < |s[r..]| ==> s[r..][j] == s[r + j];
  }

  /** They end at a week boundary, in the last one's week. */
  lemma {:induction false} GroupsCutAtWeek(w: Weeks, s: seq<Dated>, n: nat)
    requires s != [] && n > 0
    ensures CutAtWeek(w, s, CoveredBy(w, s, n), Take(Groups(w, s), n))
    decreases |s|
  {
    var r := RunLength(w, s);
    var rest := s[r..];
    RunIs(w, s);
    TakeGroupsNext(w, s, n);
    if rest != [] && n > 1 {
      GroupsCutAtWeek(w, rest, n - 1);
      CutShifts(w, s, r, CoveredBy(w, rest, n - 1), Group(w.key(s[0]), s[..r]), Take(Groups(w, rest), n - 1));
    } else {
      assert CoveredBy(w, rest, n - 1) == 0;
      assert Take(Groups(w, rest), n - 1) == [];
    }
  }

  /** Along the groups the weeks go strictly back: none is split or repeated. */
  ghost predicate WeeksDescend(w: Weeks, g: seq<Group>) {
    && (forall i, x | 0 <= i < |g| && x in g[i].items :: w.key(x) == g[i].week)
    && (forall i, j | 0 <= i < j < |g| :: w.start(g[i].week) > w.start(g[j].week))
  }

  lemma {:induction false} GroupsDescend(w: Weeks, s: seq<Dated>)
    requires Weekly(w) && Descending(s)
    ensures WeeksDescend(w, Groups(w, s))
    ensures forall i | 0 <= i < |Groups(w, s)| :: w.start(Groups(w, s)[i].week) <= w.start(w.key(s[0]))
    decreases |s|
  {
    if s != [] {
      var r := RunLength(w, s);
      var rest := s[r..];
      assert Descending(rest);
      RunIs(w, s);
      GroupsDescend(w, rest);
      var g := Groups(w, s);
      assert g == [Group(w.key(s[0]), s[..r])] + Groups(w, rest);
      if r < |s| {
        assert s[0].at >= s[r].at;
        assert WeekPair(w, s[0], s[r]);
      }
      forall j | 0 < j < |g| ensures g[j] == Groups(w, rest)[j - 1] {}
    }
  }

  /** Every row is either dated, with its closing time, or undated. */
  lemma {:induction false} RowsSplit(rows: seq<Item>)
    ensures |DatedOf(rows)| + |UndatedOf(rows)| == |rows|
    ensures forall d :: d in DatedOf(rows) <==> exists r :: r in rows && r.id == d.id && r.closedAt == Some(d.at)
    ensures forall r :: r in UndatedOf(rows) <==> r in rows && r.closedAt.None?
  {
    if rows != [] {
      RowsSplit(rows[1..]);
      assert rows == [rows[0]] + rows[1..];
      forall d ensures d in DatedOf(rows) <==> exists r :: r in rows && r.id == d.id && r.closedAt == Some(d.at) {
        if r :| r in rows && r.id == d.id && r.closedAt == Some(d.at) {
          assert r == rows[0] || r in rows[1..];
        }
      }
    }
  }

  /** A day has 86400 seconds, in microseconds. */
  lemma DayHolds(t: Instant)
    ensures (DayOf(t) - 1) * 86_400_000_000 <= t < DayOf(t) * 86_400_000_000
  {}

  // ----- what one page shows -----

  /** A cap of `c` items falls inside one of the first `n` weeks. */
  predicate CutsAt(w: Weeks, s: seq<Dated>, n: nat, c: nat) {
    |s| > c > 0 && |Groups(w, Take(s, c))| <= n && w.key(s[c - 1]) == w.key(s[c])
  }

  /** The fetch cap falls inside a week that the page includes. */
  predicate CutsWeek(w: Weeks, s: seq<Dated>) {
    CutsAt(w, s, WEEKS_PER_PAGE, FETCH_CAP)
  }

  /** How many items the page shows. */
  function ShownCount(w: Weeks, s: seq<Dated>): (m: nat)
    ensures m <= |s|
    ensures s != [] ==> m > 0
  {
    CoveredBy(w, Fetch(s), WEEKS_PER_PAGE)
  }

  lemma PageShows(w: Weeks, s: seq<Dated>, undated: seq<Item>)
    ensures var m, page := ShownCount(w, s), PageOf(w, s, undated);
            && Flatten(page.groups) == s[..m]
            && (page.nextBefore.None? ==> m == |s| && page.undated == undated)
            && (page.nextBefore.Some? ==>
                  m > 0 && page.undated == [] && page.nextBefore.value == w.start(w.key(s[m - 1])))
            && (CutsWeek(w, s) <==> m < |s| && w.key(s[m - 1]) == w.key(s[m]))
            && (CutsWeek(w, s) ==> page.nextBefore.Some?)
  {
    var m := ShownCount(w, s);
    GroupsCover(w, Fetch(s), WEEKS_PER_PAGE);
    assert Fetch(s)[..m] == s[..m];
    if s != [] {
      ShownCut(w, s);
    }
  }

  lemma ShownCut(w: Weeks, s: seq<Dated>)
    requires s != []
    ensures var m, page := ShownCount(w, s), Take(Groups(w, Fetch(s)), WEEKS_PER_PAGE);
            && 0 < m <= |Fetch(s)| && page != [] && page[|page| - 1].week == w.key(s[m - 1])
            && (m < |Fetch(s)| ==> w.key(s[m - 1]) != w.key(s[m]))
            && (m < |Fetch(s)| <==> |Groups(w, Fetch(s))| > WEEKS_PER_PAGE)
  {
    var m := ShownCount(w, s);
    GroupsCutAtWeek(w, Fetch(s), WEEKS_PER_PAGE);
    GroupsCover(w, Fetch(s), WEEKS_PER_PAGE);
    assert Fetch(s)[m - 1] == s[m - 1];
    assert m < |Fetch(s)| ==> Fetch(s)[m] == s[m];
  }

  lemma WeekCut(w: Weeks, last: Dated, x: Dated)
    requires Weekly(w)
    ensures x.at >= w.start(w.key(last)) <==> w.start(w.key(x)) >= w.start(w.key(last))
    ensures last.at >= x.at ==> (w.start(w.key(x)) >= w.start(w.key(last)) <==> w.key(x) == w.key(last))
    ensures last.at >= w.start(w.key(last))
  {
    assert WeekPair(w, last, x) && WeekPair(w, x, last) && WeekPair(w, last, last);
  }

  /** Where the next page starts: right after the shown rows, unless the cap cut a week,
      whose remaining rows no page shows. */
  function NextIndex(w: Weeks, s: seq<Dated>): (next: nat)
    ensures next <= |s|
  {
    if s == [] then 0 else NotOlder(s, w.start(w.key(s[ShownCount(w, s) - 1])))
  }

  lemma NextCursor(w: Weeks, s: seq<Dated>, undated: seq<Item>)
    requires Weekly(w) && Descending(s) && PageOf(w, s, undated).nextBefore.Some?
    ensures 0 < ShownCount(w, s) <= NextIndex(w, s)
    ensures Older(s, PageOf(w, s, undated).nextBefore.value) == s[NextIndex(w, s)..]
    ensures ShownCount(w, s) < NextIndex(w, s) <==> CutsWeek(w, s)
  {
    PageShows(w, s, undated);
    OlderIsSuffix(s, w.start(w.key(s[ShownCount(w, s) - 1])));
    NextIsAfterShown(w, s, ShownCount(w, s));
  }

  lemma NextIsAfterShown(w: Weeks, s: seq<Dated>, m: nat)
    requires Weekly(w) && Descending(s) && 0 < m <= |s|
    ensures var next := NotOlder(s, w.start(w.key(s[m - 1])));
            m <= next && (m < next <==> m < |s| && w.key(s[m]) == w.key(s[m - 1]))
  {
    var last := s[m - 1];
    WeekCut(w, last, last);
    assert forall i | 0 <= i < m :: s[i].at >= last.at;
    if m < |s| {
      assert last.at >= s[m].at;
      WeekCut(w, last, s[m]);
    }
  }

  // ----- the same from the sizes of the weeks alone -----

  /** How many items each non-empty week holds, newest week first. */
  function Sizes(w: Weeks, s: seq<Dated>): seq<nat>
    decreases |s|
  {
    if s == [] then [] else [RunLength(w, s)] + Sizes(w, s[RunLength(w, s)..])
  }

  lemma {:induction false} SizesAreOfGroups(w: Weeks, s: seq<Dated>)
    ensures |Sizes(w, s)| == |Groups(w, s)|
    ensures forall i | 0 <= i < |Sizes(w, s)| :: Sizes(w, s)[i] == |Groups(w, s)[i].items|
    decreases |s|
  {
    if s != [] {
      SizesAreOfGroups(w, s[RunLength(w, s)..]);
    }
  }

  /** How many items the first `n` of the weeks hold. */
  function Total(sizes: seq<nat>, n: nat): nat {
    if sizes == [] || n == 0 then 0 else sizes[0] + Total(sizes[1..], n - 1)
  }

  /** How many of the first `n` weeks fit whole into `room` items. */
  function WeeksFitting(sizes: seq<nat>, n: nat, room: nat): (k: nat)
    ensures k <= |sizes|
  {
    if sizes == [] || n == 0 || sizes[0] > room then 0
    else 1 + WeeksFitting(sizes[1..], n - 1, room - sizes[0])
  }

  /** The room runs out inside one of the first `n` weeks. */
  predicate EndsInsideWeek(sizes: seq<nat>, n: nat, room: nat) {
    && sizes != [] && n > 0 && room > 0
    && (sizes[0] > room || EndsInsideWeek(sizes[1..], n - 1, room - sizes[0]))
  }

  /** Filling pages of twelve weeks and five hundred items with whole weeks, some page runs out
      of room inside a week. */
  predicate SomePageCuts(sizes: seq<nat>)
    decreases |sizes|
  {
    && sizes != []
    && (EndsInsideWeek(sizes, WEEKS_PER_PAGE, FETCH_CAP)
        || SomePageCuts(sizes[WeeksFitting(sizes, WEEKS_PER_PAGE, FETCH_CAP)..]))
  }

  lemma RunOfCapped(w: Weeks, s: seq<Dated>, c: nat)
    requires s != [] && c > 0
    ensures RunLength(w, Take(s, c)) == if RunLength(w, s) < c then RunLength(w, s) else |Take(s, c)|
  {
    var r, f, k := RunLength(w, s), Take(s, c), RunLength(w, Take(s, c));
    RunIs(w, s);
    RunIs(w, f);
    assert f[0] == s[0];
    assert k < |f| ==> f[k] == s[k];
    assert r < |f| ==> f[r] == s[r];
  }

  lemma CapSuffix(s: seq<Dated>, r: nat, c: nat)
    requires r <= |s| && r <= c
    ensures r <= |Take(s, c)| && Take(s, c)[r..] == Take(s[r..], c - r)
    ensures |s| > c ==> s[r..][c - r] == s[c]
    ensures |s| > c > r ==> s[r..][c - r - 1] == s[c - 1]
  {}

  /** A first week that the cap leaves whole. */
  lemma CappedTail(w: Weeks, s: seq<Dated>, n: nat, c: nat)
    requires s != [] && n > 0 && RunLength(w, s) <= c
    ensures var r := RunLength(w, s);
            && RunLength(w, Take(s, c)) == r && Take(s, c)[r..] == Take(s[r..], c - r)
            && (CutsAt(w, s, n, c) <==> CutsAt(w, s[r..], n - 1, c - r))
  {
    var r := RunLength(w, s);
    RunIs(w, s);
    RunOfCapped(w, s, c);
    CapSuffix(s, r, c);
    OneGroupMore(w, Take(s, c), r);
  }

  lemma OneGroupMore(w: Weeks, s: seq<Dated>, r: nat)
    requires s != [] && r == RunLength(w, s)
    ensures |Groups(w, s)| == 1 + |Groups(w, s[r..])|
  {}

  lemma CapInFirstWeek(w: Weeks, s: seq<Dated>, n: nat, c: nat)
    requires s != [] && n > 0 && 0 < c < RunLength(w, s)
    ensures CutsAt(w, s, n, c)
  {
    RunIs(w, s);
    RunOfCapped(w, s, c);
    assert Take(s, c)[c..] == [];
    assert w.key(s[c - 1]) == w.key(s[0]) == w.key(s[c]);
  }

  /** Whether a cap falls inside a week can be told from the sizes. */
  lemma {:induction false} CutFromSizes(w: Weeks, s: seq<Dated>, n: nat, c: nat)
    ensures EndsInsideWeek(Sizes(w, s), n, c) <==> CutsAt(w, s, n, c)
    decreases |s|
  {
    if s != [] && n > 0 && c > 0 {
      if RunLength(w, s) > c {
        CapInFirstWeek(w, s, n, c);
      } else {
        CappedTail(w, s, n, c);
        CutFromSizes(w, s[RunLength(w, s)..], n - 1, c - RunLength(w, s));
      }
    }
  }

  lemma FittingStep(r: nat, tail: seq<nat>, n: nat, c: nat)
    requires n > 0 && r <= c
    ensures Total([r] + tail, WeeksFitting([r] + tail, n, c)) ==
            r + Total(tail, WeeksFitting(tail, n - 1, c - r))
  {
    assert ([r] + tail)[1..] == tail;
  }

  lemma CoveredOneMore(w: Weeks, f: seq<Dated>, n: nat, c: nat, r: nat, tail: seq<nat>, sizes: seq<nat>)
    requires f != [] && n > 0 && r == RunLength(w, f) <= c && sizes == [r] + tail
    requires CoveredBy(w, f[r..], n - 1) == Total(tail, WeeksFitting(tail, n - 1, c - r))
    ensures CoveredBy(w, f, n) == Total(sizes, WeeksFitting(sizes, n, c))
  {
    FittingStep(r, tail, n, c);
  }

  lemma NothingCovered(w: Weeks, f: seq<Dated>, n: nat, c: nat, sizes: seq<nat>)
    requires f == [] || n == 0
    requires sizes == [] || n == 0 || (c == 0 && sizes[0] > 0)
    ensures CoveredBy(w, f, n) == Total(sizes, WeeksFitting(sizes, n, c))
  {}

  lemma SizesStep(w: Weeks, s: seq<Dated>)
    requires s != []
    ensures Sizes(w, s) == [RunLength(w, s)] + Sizes(w, s[RunLength(w, s)..])
  {}

  /** If it does not, so can the number of items a page covers. */
  lemma {:induction false} CoveredFromSizes(w: Weeks, s: seq<Dated>, n: nat, c: nat)
    requires !CutsAt(w, s, n, c)
    ensures CoveredBy(w, Take(s, c), n) == Total(Sizes(w, s), WeeksFitting(Sizes(w, s), n, c))
    decreases |s|
  {
    var f, sizes := Take(s, c), Sizes(w, s);
    if s == [] || n == 0 || c == 0 {
      NothingCovered(w, f, n, c, sizes);
    } else if RunLength(w, s) > c {
      CapInFirstWeek(w, s, n, c);
    } else {
      var r, rest := RunLength(w, s), s[RunLength(w, s)..];
      CappedTail(w, s, n, c);
      CoveredFromSizes(w, rest, n - 1, c - r);
      SizesStep(w, s);
      CoveredOneMore(w, f, n, c, r, Sizes(w, rest), sizes);
    }
  }

  /** `k` items make up exactly the first `n` weeks. */
  ghost predicate WholeWeeks(w: Weeks, s: seq<Dated>, n: nat, k: nat) {
    n <= |Sizes(w, s)| && k <= |s| && Total(Sizes(w, s), n) == k && Sizes(w, s[k..]) == Sizes(w, s)[n..]
  }

  lemma OneWeekMore(w: Weeks, s: seq<Dated>, r: nat, rest: seq<Dated>, n: nat, k: nat)
    requires s != [] && r == RunLength(w, s) && rest == s[r..] && WholeWeeks(w, rest, n, k)
    ensures WholeWeeks(w, s, n + 1, r + k)
  {
    assert Sizes(w, s) == [r] + Sizes(w, rest);
    assert s[r + k..] == rest[k..];
  }

  /** Dropping the items of the first n weeks drops the first n sizes. */
  lemma {:induction false} DropWeeks(w: Weeks, s: seq<Dated>, n: nat)
    requires n <= |Sizes(w, s)|
    ensures WholeWeeks(w, s, n, Total(Sizes(w, s), n))
    decreases n
  {
    if n == 0 {
      assert s[0..] == s;
    } else {
      var rest := s[RunLength(w, s)..];
      DropWeeks(w, rest, n - 1);
      OneWeekMore(w, s, RunLength(w, s), rest, n - 1, Total(Sizes(w, rest), n - 1));
    }
  }

  /** Page by page, the sizes tell which page is cut. */
  lemma CutsNext(w: Weeks, s: seq<Dated>)
    ensures SomePageCuts(Sizes(w, s)) <==> CutsWeek(w, s) || SomePageCuts(Sizes(w, s[ShownCount(w, s)..]))
  {
    CutFromSizes(w, s, WEEKS_PER_PAGE, FETCH_CAP);
    if !CutsWeek(w, s) {
      CoveredFromSizes(w, s, WEEKS_PER_PAGE, FETCH_CAP);
      DropWeeks(w, s, WeeksFitting(Sizes(w, s), WEEKS_PER_PAGE, FETCH_CAP));
    }
  }

  // ----- following the cursor to the end -----

  /** The pages a reader sees following next_before until it is absent. */
  ghost function Walk(w: Weeks, s: seq<Dated>, undated: seq<Item>): seq<Shown>
    requires Weekly(w) && Descending(s)
    decreases |s|
  {
    var page := PageOf(w, s, undated);
    if page.nextBefore.None? then [page]
    else
      OlderShrinks(w, s, undated);
      [page] + Walk(w, Older(s, page.nextBefore.value), undated)
  }

  lemma OlderShrinks(w: Weeks, s: seq<Dated>, undated: seq<Item>)
    requires Weekly(w) && Descending(s) && PageOf(w, s, undated).nextBefore.Some?
    ensures |Older(s, PageOf(w, s, undated).nextBefore.value)| < |s|
    ensures Descending(Older(s, PageOf(w, s, undated).nextBefore.value))
  {
    NextCursor(w, s, undated);
    var next := NextIndex(w, s);
  }

  function AllGroups(pages: seq<Shown>): seq<Group> {
    if pages == [] then [] else pages[0].groups + AllGroups(pages[1..])
  }

  /** One step of the walk. */
  lemma WalkNext(w: Weeks, s: seq<Dated>, undated: seq<Item>)
    requires Weekly(w) && Descending(s) && PageOf(w, s, undated).nextBefore.Some?
    ensures var page, rest := PageOf(w, s, undated), s[NextIndex(w, s)..];
            && Descending(rest)
            && Walk(w, s, undated) == [page] + Walk(w, rest, undated)
            && AllGroups(Walk(w, s, undated)) == page.groups + AllGroups(Walk(w, rest, undated))
  {
    NextCursor(w, s, undated);
    OlderShrinks(w, s, undated);
    var later := Walk(w, s[NextIndex(w, s)..], undated);
    assert ([PageOf(w, s, undated)] + later)[1..] == later;
  }

  /** What is shown along the walk. */
  ghost function ShownBy(w: Weeks, s: seq<Dated>, undated: seq<Item>): seq<Dated>
    requires Weekly(w) && Descending(s)
  {
    Flatten(AllGroups(Walk(w, s, undated)))
  }

  /** The last page, and only it, shows the undated items and offers no next page. */
  ghost predicate EndsWith(pages: seq<Shown>, undated: seq<Item>) {
    && pages != []
    && pages[|pages| - 1].undated == undated && pages[|pages| - 1].nextBefore == None
    && forall i | 0 <= i < |pages| - 1 :: pages[i].undated == [] && pages[i].nextBefore.Some?
  }

  lemma EndsCons(page: Shown, later: seq<Shown>, undated: seq<Item>)
    requires page.undated == [] && page.nextBefore.Some? && EndsWith(later, undated)
    ensures EndsWith([page] + later, undated)
  {}

  /** The walk ends; undated items are on its last page only. */
  lemma {:induction false} WalkEnds(w: Weeks, s: seq<Dated>, undated: seq<Item>)
    requires Weekly(w) && Descending(s)
    ensures EndsWith(Walk(w, s, undated), undated)
    decreases |s|
  {
    PageShows(w, s, undated);
    if PageOf(w, s, undated).nextBefore.Some? {
      WalkNext(w, s, undated);
      NextCursor(w, s, undated);
      WalkEnds(w, s[NextIndex(w, s)..], undated);
      EndsCons(PageOf(w, s, undated), Walk(w, s[NextIndex(w, s)..], undated), undated);
    }
  }

  /** Each further page is the one the server returns for the previous page's cursor. */
  lemma {:induction false} WalkFollowsCursor(w: Weeks, all: seq<Dated>, before: Option<int>, undated: seq<Item>, i: nat)
    requires Weekly(w) && Descending(all) && Descending(Since(all, before))
    requires i + 1 < |Walk(w, Since(all, before), undated)|
    ensures var pages := Walk(w, Since(all, before), undated);
            pages[0] == PageOf(w, Since(all, before), undated) &&
            pages[i].nextBefore.Some? && pages[i + 1] == PageOf(w, Since(all, pages[i].nextBefore), undated)
    decreases i
  {
    var s := Since(all, before);
    WalkHead(w, s, undated);
    if PageOf(w, s, undated).nextBefore.Some? {
      var next := PageOf(w, s, undated).nextBefore;
      WalkOn(w, all, before, undated);
      WalkHead(w, Since(all, next), undated);
      if i > 0 {
        WalkFollowsCursor(w, all, next, undated, i - 1);
      }
    }
  }

  lemma WalkOn(w: Weeks, all: seq<Dated>, before: Option<int>, undated: seq<Item>)
    requires Weekly(w) && Descending(Since(all, before)) && PageOf(w, Since(all, before), undated).nextBefore.Some?
    ensures var page := PageOf(w, Since(all, before), undated);
            Descending(Since(all, page.nextBefore)) &&
            Walk(w, Since(all, before), undated) == [page] + Walk(w, Since(all, page.nextBefore), undated)
  {
    CursorMovesBack(w, all, before, undated);
    OlderShrinks(w, Since(all, before), undated);
  }

  lemma WalkHead(w: Weeks, s: seq<Dated>, undated: seq<Item>)
    requires Weekly(w) && Descending(s)
    ensures Walk(w, s, undated) != [] && Walk(w, s, undated)[0] == PageOf(w, s, undated)
    ensures PageOf(w, s, undated).nextBefore.None? ==> |Walk(w, s, undated)| == 1
  {}

  lemma {:induction false} OlderAllOlder(s: seq<Dated>, before: int)
    ensures forall x :: x in Older(s, before) ==> x.at < before
  {
    if s != [] {
      OlderAllOlder(s[1..], before);
    }
  }

  lemma CursorMovesBack(w: Weeks, all: seq<Dated>, before: Option<int>, undated: seq<Item>)
    requires Weekly(w) && Descending(Since(all, before)) && PageOf(w, Since(all, before), undated).nextBefore.Some?
    ensures var next := PageOf(w, Since(all, before), undated).nextBefore;
            && Since(all, next) == Older(Since(all, before), next.value)
            && Since(all, next) == Since(all, before)[NextIndex(w, Since(all, before))..]
  {
    var s := Since(all, before);
    NextCursor(w, s, undated);
    PageShows(w, s, undated);
    if before.Some? {
      var last := s[ShownCount(w, s) - 1];
      WeekCut(w, last, last);
      OlderAllOlder(all, before.value);
      OlderTwice(all, before.value, w.start(w.key(last)));
    }
  }

  /** Following the cursor shows every dated item exactly once, newest first, if and only if
      no page runs out of room inside a week; otherwise it shows fewer. */
  lemma {:induction false} WalkShowsAllIff(w: Weeks, s: seq<Dated>, undated: seq<Item>)
    requires Weekly(w) && Descending(s)
    ensures SomePageCuts(Sizes(w, s)) ==> |ShownBy(w, s, undated)| < |s|
    ensures !SomePageCuts(Sizes(w, s)) ==> ShownBy(w, s, undated) == s
    decreases |s|
  {
    PageShows(w, s, undated);
    CutsNext(w, s);
    if PageOf(w, s, undated).nextBefore.None? {
      OnlyPage(w, s, undated);
    } else {
      var m, next := ShownCount(w, s), NextIndex(w, s);
      NextCursor(w, s, undated);
      WalkNext(w, s, undated);
      WalkShowsAllIff(w, s[next..], undated);
      ShownNext(w, s, undated);
      SplitShown(s, m, next, ShownBy(w, s[next..], undated));
    }
  }

  lemma OnlyPage(w: Weeks, s: seq<Dated>, undated: seq<Item>)
    requires Weekly(w) && Descending(s) && PageOf(w, s, undated).nextBefore.None?
    ensures AllGroups(Walk(w, s, undated)) == PageOf(w, s, undated).groups
    ensures ShownBy(w, s, undated) == s
  {
    PageShows(w, s, undated);
    assert AllGroups(Walk(w, s, undated)) == PageOf(w, s, undated).groups + [];
  }

  lemma ShownNext(w: Weeks, s: seq<Dated>, undated: seq<Item>)
    requires Weekly(w) && Descending(s) && PageOf(w, s, undated).nextBefore.Some?
    ensures Descending(s[NextIndex(w, s)..])
    ensures ShownBy(w, s, undated) == s[..ShownCount(w, s)] + ShownBy(w, s[NextIndex(w, s)..], undated)
  {
    WalkNext(w, s, undated);
    PageShows(w, s, undated);
    FlattenAppend(PageOf(w, s, undated).groups, AllGroups(Walk(w, s[NextIndex(w, s)..], undated)));
  }

  lemma SplitShown(s: seq<Dated>, m: nat, next: nat, later: seq<Dated>)
    requires m <= next <= |s| && |later| <= |s| - next
    ensures m == next && later == s[next..] ==> s[..m] + later == s
    ensures |s[..m] + later| == m + |later|
  {}

  /** Weeks are never split between pages or shown twice, whatever the cap does. */
  lemma {:induction false} WalkWeeksDescend(w: Weeks, s: seq<Dated>, undated: seq<Item>)
    requires Weekly(w) && Descending(s)
    ensures WeeksDescend(w, AllGroups(Walk(w, s, undated)))
    ensures NoneAfter(w, AllGroups(Walk(w, s, undated)), s)
    decreases |s|
  {
    if PageOf(w, s, undated).nextBefore.None? {
      PageDescends(w, s, undated);
      OnlyPage(w, s, undated);
    } else {
      NextCursor(w, s, undated);
      WalkNext(w, s, undated);
      WalkWeeksDescend(w, s[NextIndex(w, s)..], undated);
      DescendsNext(w, s, undated, AllGroups(Walk(w, s[NextIndex(w, s)..], undated)));
    }
  }

  lemma DescendsNext(w: Weeks, s: seq<Dated>, undated: seq<Item>, later: seq<Group>)
    requires Weekly(w) && Descending(s) && PageOf(w, s, undated).nextBefore.Some?
    requires WeeksDescend(w, later) && NoneAfter(w, later, s[NextIndex(w, s)..])
    ensures WeeksDescend(w, PageOf(w, s, undated).groups + later)
    ensures NoneAfter(w, PageOf(w, s, undated).groups + later, s)
  {
    var g, rest, cut := PageOf(w, s, undated).groups, s[NextIndex(w, s)..], PageOf(w, s, undated).nextBefore.value;
    PageDescends(w, s, undated);
    RestIsBefore(w, s, undated);
    JoinDescending(w, g, later, rest, cut);
    JoinNoneAfter(w, g, later, rest, s, cut);
  }

  lemma PageDescends(w: Weeks, s: seq<Dated>, undated: seq<Item>)
    requires Weekly(w) && Descending(s)
    ensures var page := PageOf(w, s, undated);
            && WeeksDescend(w, page.groups) && NoneAfter(w, page.groups, s)
            && (page.nextBefore.Some? ==>
                  page.groups != [] && s != [] && w.start(page.groups[|page.groups| - 1].week) == page.nextBefore.value)
  {
    GroupsDescend(w, Fetch(s));
    if s != [] {
      assert Fetch(s)[0] == s[0];
    }
  }

  lemma RestIsBefore(w: Weeks, s: seq<Dated>, undated: seq<Item>)
    requires Weekly(w) && Descending(s) && PageOf(w, s, undated).nextBefore.Some?
    ensures var next := NextIndex(w, s);
            next < |s| ==> w.start(w.key(s[next])) < PageOf(w, s, undated).nextBefore.value
  {
    PageShows(w, s, undated);
    if NextIndex(w, s) < |s| {
      WeekCut(w, s[ShownCount(w, s) - 1], s[NextIndex(w, s)]);
    }
  }

  lemma JoinNoneAfter(w: Weeks, g: seq<Group>, later: seq<Group>, rest: seq<Dated>, s: seq<Dated>, cut: int)
    requires NoneAfter(w, g, s) && NoneAfter(w, later, rest) && s != []
    requires g != [] && w.start(g[|g| - 1].week) == cut
    requires rest != [] ==> w.start(w.key(rest[0])) < cut
    ensures NoneAfter(w, g + later, s)
  {}

  /** No group's week lies after the first item's. */
  ghost predicate NoneAfter(w: Weeks, g: seq<Group>, s: seq<Dated>) {
    forall i | 0 <= i < |g| :: s != [] && w.start(g[i].week) <= w.start(w.key(s[0]))
  }

  lemma JoinDescending(w: Weeks, g: seq<Group>, later: seq<Group>, rest: seq<Dated>, cut: int)
    requires WeeksDescend(w, g) && WeeksDescend(w, later) && NoneAfter(w, later, rest)
    requires g != [] && w.start(g[|g| - 1].week) == cut
    requires rest != [] ==> w.start(w.key(rest[0])) < cut
    ensures WeeksDescend(w, g + later)
  {
    forall i, j | 0 <= i < |g| && 0 <= j < |later| ensures w.start(g[i].week) > w.start(later[j].week) {
      assert w.start(g[i].week) >= cut;
    }
  }

  // ----- a condition on the data -----

  /** No 12 consecutive non-empty weeks hold more than 500 items. */
  ghost predicate FewPerTwelveWeeks(sizes: seq<nat>) {
    forall i | 0 <= i <= |sizes| :: Total(sizes[i..], 12) <= 500
  }

  lemma {:induction false} CutMeansMany(sizes: seq<nat>, n: nat, room: nat)
    requires EndsInsideWeek(sizes, n, room)
    ensures Total(sizes, n) > room
  {
    if sizes[0] <= room {
      CutMeansMany(sizes[1..], n - 1, room - sizes[0]);
    }
  }

  lemma {:induction false} FewMeansNoPageCuts(sizes: seq<nat>)
    requires FewPerTwelveWeeks(sizes)
    ensures !SomePageCuts(sizes)
    decreases |sizes|
  {
    if sizes != [] {
      assert Total(sizes[0..], WEEKS_PER_PAGE) <= FETCH_CAP && sizes[0..] == sizes;
      if EndsInsideWeek(sizes, WEEKS_PER_PAGE, FETCH_CAP) {
        CutMeansMany(sizes, WEEKS_PER_PAGE, FETCH_CAP);
      } else {
        var k := WeeksFitting(sizes, WEEKS_PER_PAGE, FETCH_CAP);
        forall i | 0 <= i <= |sizes[k..]| ensures Total(sizes[k..][i..], WEEKS_PER_PAGE) <= FETCH_CAP {
          assert sizes[k..][i..] == sizes[k + i..];
        }
        FewMeansNoPageCuts(sizes[k..]);
      }
    }
  }

  lemma UndatedNewestFirst(rows: seq<Item>)
    ensures var undated := Sort(CreatedFirst, UndatedOf(rows));
            forall i, j | 0 <= i < j < |undated| :: undated[i].createdAt >= undated[j].createdAt
  {
    assert TotalPreorder(CreatedFirst);
    SortSorted(CreatedFirst, UndatedOf(rows));
    var u := Sort(CreatedFirst, UndatedOf(rows));
    forall i, j | 0 <= i < j < |u| ensures u[i].createdAt >= u[j].createdAt {
      assert CreatedFirst(u[i], u[j]);
    }
  }

  /** A page holds at most 12 weeks and 500 items, and stops short of both only at the end. */
  lemma PageIsFull(w: Weeks, s: seq<Dated>, undated: seq<Item>)
    ensures var page := PageOf(w, s, undated);
            && |page.groups| <= 12 && ShownCount(w, s) <= 500
            && (|page.groups| < 12 && ShownCount(w, s) < 500 ==> ShownCount(w, s) == |s|)
  {
    PageShows(w, s, undated);
    GroupsCover(w, Fetch(s), WEEKS_PER_PAGE);
  }

  /** On such data, following the cursor from the first page visits every closed item exactly
      once, never splits or repeats a week, and ends with the undated items, newest first. */
  lemma ArchiveComplete(rows: seq<Item>)
    requires FewPerTwelveWeeks(Sizes(IsoWeeks(), Timeline(rows)))
    ensures Weekly(IsoWeeks()) && Descending(Timeline(rows))
    ensures var s, undated := Timeline(rows), Sort(CreatedFirst, UndatedOf(rows));
            var pages := Walk(IsoWeeks(), s, undated);
            && multiset(ShownBy(IsoWeeks(), s, undated)) == multiset(DatedOf(rows))
            && WeeksDescend(IsoWeeks(), AllGroups(pages))
            && EndsWith(pages, undated) && multiset(undated) == multiset(UndatedOf(rows))
            && forall i, j | 0 <= i < j < |undated| :: undated[i].createdAt >= undated[j].createdAt
  {
    IsoWeeksAreWeekly();
    TimelineDescending(rows);
    var w, s, undated := IsoWeeks(), Timeline(rows), Sort(CreatedFirst, UndatedOf(rows));
    UndatedNewestFirst(rows);
    FewMeansNoPageCuts(Sizes(w, s));
    WalkShowsAllIff(w, s, undated);
    WalkWeeksDescend(w, s, undated);
    WalkEnds(w, s, undated);
  }

  /** The documented walk fails on 501 items closed at one instant: one of them is on no page. */
  lemma BusyWeekIsCut(at: Instant, undated: seq<Item>)
    ensures var s := seq(501, i requires 0 <= i < 501 => Dated(i, at));
            Weekly(IsoWeeks()) && Descending(s) && |ShownBy(IsoWeeks(), s, undated)| < |s|
  {
    var w, s := IsoWeeks(), seq(501, i requires 0 <= i < 501 => Dated(i, at));
    IsoWeeksAreWeekly();
    assert forall i | 0 <= i < |s| :: w.key(s[i]) == w.key(s[0]);
    RunIs(w, s);
    assert RunLength(w, s) == |s|;
    WalkShowsAllIff(w, s, undated);
  }
}
