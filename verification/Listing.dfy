/** The topological branch of list_items (app/items/service.py): rank the candidate rows by
    the precedence order, sort by rank, and cut one offset/limit page. */
module Listing {
  import opened Options
  import opened Sequences
  import opened Sorting
  import opened Precedence

  const TOPOLOGICAL_CANDIDATE_LIMIT := 1000
  const UNRANKED := 1_000_000

  datatype Item = Item(id: Node, impact: Option<int>, createdAt: int)

  function Ids(items: seq<Item>): (r: seq<Node>)
    ensures |r| == |items|
  {
    seq(|items|, i requires 0 <= i < |items| => items[i].id)
  }

  /** Python's `s[offset:end]`, which clamps instead of failing. */
  function Page<T>(s: seq<T>, offset: nat, limit: Option<nat>): seq<T> {
    var from := if offset < |s| then offset else |s|;
    match limit
    case None => s[from..]
    case Some(n) => Take(s[from..], n)
  }

  /** `{id: rank for rank, id in enumerate(order)}`: the last position wins. */
  function RankOf(order: seq<Node>): (rank: map<Node, nat>)
    ensures rank.Keys == Elems(order)
    ensures forall n | n in rank :: rank[n] < |order| && order[rank[n]] == n
  {
    if order == [] then map[]
    else
      var last := |order| - 1;
      assert order == order[..last] + [order[last]];
      RankOf(order[..last])[order[last] := last]
  }

  function RankKey(rank: map<Node, nat>, item: Item): nat {
    if item.id in rank then rank[item.id] else UNRANKED
  }

  function ByRank(rank: map<Node, nat>): (Item, Item) -> bool {
    (a, b) => RankKey(rank, a) <= RankKey(rank, b)
  }

  /** `order_by(created_at desc, id)` */
  predicate NewestFirstLeq(a: Item, b: Item) {
    a.createdAt > b.createdAt || (a.createdAt == b.createdAt && StringLeq(a.id, b.id))
  }

  function Candidates(rows: seq<Item>): seq<Item> {
    Take(Sort(NewestFirstLeq, rows), TOPOLOGICAL_CANDIDATE_LIMIT)
  }

  function ImpactMap(items: seq<Item>): map<Node, int> {
    if items == [] then map[]
    else
      var it := items[|items| - 1];
      ImpactMap(items[..|items| - 1])[it.id := if it.impact.Some? then it.impact.value else 0]
  }

  ghost function ItemOrder(items: seq<Item>, arcs: seq<Arc>): seq<Node> {
    OrderOf(Ids(items), arcs, ImpactMap(items))
  }

  ghost function OrderedItems(items: seq<Item>, arcs: seq<Arc>): seq<Item> {
    Sort(ByRank(RankOf(ItemOrder(items, arcs))), items)
  }

  method ListTopological(rows: seq<Item>, arcs: seq<Arc>, offset: nat, limit: Option<nat>) returns (page: seq<Item>)
    ensures page == Page(OrderedItems(Candidates(rows), arcs), offset, limit)
  {
    var items := Candidates(rows);
    var order, _, _ := TopologicalOrder(Ids(items), arcs, ImpactMap(items));
    var ordered := Sort(ByRank(RankOf(order)), items);
    page := Page(ordered, offset, limit);
  }

  /** A strictly increasing sequence of n numbers below n is 0, 1, ..., n - 1. */
  lemma {:induction false} IncreasingIsIdentity(r: seq<nat>, i: nat)
    requires forall j, k | 0 <= j < k < |r| :: r[j] < r[k]
    requires forall j | 0 <= j < |r| :: r[j] < |r|
    requires i < |r|
    ensures r[i] == i
  {
    AtLeastIndex(r, i);
    AtMostIndex(r, i);
  }

  lemma {:induction false} AtLeastIndex(r: seq<nat>, i: nat)
    requires forall j, k | 0 <= j < k < |r| :: r[j] < r[k]
    requires i < |r|
    ensures r[i] >= i
  {
    if i > 0 {
      AtLeastIndex(r, i - 1);
    }
  }

  lemma {:induction false} AtMostIndex(r: seq<nat>, i: nat)
    requires forall j, k | 0 <= j < k < |r| :: r[j] < r[k]
    requires forall j | 0 <= j < |r| :: r[j] < |r|
    requires i < |r|
    ensures r[i] <= i
    decreases |r| - i
  {
    if i + 1 < |r| {
      AtMostIndex(r, i + 1);
    }
  }

  /** Rearranging rows with distinct ids keeps their ids distinct and the same. */
  lemma SameIds(items: seq<Item>, items': seq<Item>)
    requires NoDup(Ids(items)) && multiset(items) == multiset(items')
    ensures NoDup(Ids(items')) && Elems(Ids(items)) == Elems(Ids(items')) && |items| == |items'|
  {
    forall i, j | 0 <= i < j < |items| ensures items[i] != items[j] {
      assert Ids(items)[i] != Ids(items)[j];
    }
    SameElems(items, items');
    SubIds(items, items');
    SubIds(items', items);
    forall i, j | 0 <= i < j < |items'| ensures Ids(items')[i] != Ids(items')[j] {
      assert items'[i] in Elems(items) && items'[j] in Elems(items);
      var k :| 0 <= k < |items| && items[k] == items'[i];
      var l :| 0 <= l < |items| && items[l] == items'[j];
      assert k < l ==> Ids(items)[k] != Ids(items)[l];
      assert l < k ==> Ids(items)[l] != Ids(items)[k];
    }
  }

  lemma SubIds(items: seq<Item>, items': seq<Item>)
    requires Elems(items) <= Elems(items')
    ensures Elems(Ids(items)) <= Elems(Ids(items'))
  {
    forall n | n in Elems(Ids(items)) ensures n in Elems(Ids(items')) {
      var i :| 0 <= i < |items| && Ids(items)[i] == n;
      assert items[i] in Elems(items');
      var j :| 0 <= j < |items'| && items'[j] == items[i];
      assert Ids(items')[j] == n;
    }
  }

  /** Each row's rank is a position of `o` that holds the row's id. */
  ghost predicate PointsInto(rank: map<Node, nat>, s: seq<Item>, o: seq<Node>) {
    forall i | 0 <= i < |s| :: RankKey(rank, s[i]) < |o| && o[RankKey(rank, s[i])] == s[i].id
  }

  lemma RanksPointBack(s: seq<Item>, o: seq<Node>)
    requires Elems(Ids(s)) <= Elems(o)
    ensures PointsInto(RankOf(o), s, o)
  {
    forall i | 0 <= i < |s| ensures s[i].id in RankOf(o) {
      assert Ids(s)[i] in Elems(Ids(s));
    }
  }

  lemma RankSortedIsOrder(rank: map<Node, nat>, s: seq<Item>, o: seq<Node>)
    requires NoDup(Ids(s)) && |s| == |o| && PointsInto(rank, s, o)
    requires Sorted(ByRank(rank), s)
    ensures Ids(s) == o
  {
    var r: seq<nat> := seq(|s|, i requires 0 <= i < |s| => RankKey(rank, s[i]));
    forall j, k | 0 <= j < k < |r| ensures r[j] < r[k] {
      assert ByRank(rank)(s[j], s[k]);
      assert Ids(s)[j] != Ids(s)[k];
    }
    forall i | 0 <= i < |s| ensures Ids(s)[i] == o[i] {
      IncreasingIsIdentity(r, i);
    }
  }

  /** Sorting the rows by rank reproduces the precedence order itself. */
  lemma OrderedIsOrder(items: seq<Item>, arcs: seq<Arc>)
    requires NoDup(Ids(items))
    ensures Ids(OrderedItems(items, arcs)) == ItemOrder(items, arcs)
    ensures multiset(OrderedItems(items, arcs)) == multiset(items)
  {
    var ids, o, s := Ids(items), ItemOrder(items, arcs), OrderedItems(items, arcs);
    OrderIsPermutation(ids, arcs, ImpactMap(items));
    SameElems(ids, o);
    SameIds(items, s);
    RankPreorder(RankOf(o));
    SortSorted(ByRank(RankOf(o)), items);
    RanksPointBack(s, o);
    RankSortedIsOrder(RankOf(o), s, o);
  }

  lemma RankPreorder(rank: map<Node, nat>)
    ensures TotalPreorder(ByRank(rank))
  {}

  /** All pages of size `limit`, one after the other, from `offset` on. */
  function PagesFrom<T>(s: seq<T>, offset: nat, limit: nat): seq<T>
    requires limit > 0
    decreases |s| - offset
  {
    if offset >= |s| then [] else Page(s, offset, Some(limit)) + PagesFrom(s, offset + limit, limit)
  }

  lemma {:induction false} PagesConcatenate<T>(s: seq<T>, offset: nat, limit: nat)
    requires limit > 0 && offset <= |s|
    ensures PagesFrom(s, offset, limit) == s[offset..]
    decreases |s| - offset
  {
    if offset < |s| {
      if offset + limit <= |s| {
        PagesConcatenate(s, offset + limit, limit);
        assert s[offset..] == s[offset..offset + limit] + s[offset + limit..];
      }
    }
  }

  /** Turning consecutive pages until one comes back empty walks through the candidates in
      precedence order, each exactly once; that is every row if and only if they are no more
      than the candidate limit. */
  lemma PagesCoverOrder(rows: seq<Item>, arcs: seq<Arc>, limit: nat)
    requires NoDup(Ids(rows)) && limit > 0
    ensures var all := PagesFrom(OrderedItems(Candidates(rows), arcs), 0, limit);
            && Ids(all) == ItemOrder(Candidates(rows), arcs)
            && multiset(all) == multiset(Candidates(rows))
            && (multiset(all) == multiset(rows) <==> |rows| <= 1000)
            && (|rows| > 1000 ==> |all| == 1000)
  {
    CandidatesDistinct(rows);
    OrderedIsOrder(Candidates(rows), arcs);
    var ordered := OrderedItems(Candidates(rows), arcs);
    PagesConcatenate(ordered, 0, limit);
    assert ordered[0..] == ordered;
    assert |multiset(ordered)| == |ordered| && |multiset(Candidates(rows))| == |Candidates(rows)|;
    assert |multiset(rows)| == |rows|;
  }

  lemma CandidatesDistinct(rows: seq<Item>)
    requires NoDup(Ids(rows))
    ensures NoDup(Ids(Candidates(rows)))
  {
    var s := Sort(NewestFirstLeq, rows);
    SameIds(rows, s);
    assert forall i | 0 <= i < |Candidates(rows)| :: Ids(Candidates(rows))[i] == Ids(s)[i];
  }

  lemma NewestFirstTotal()
    ensures TotalPreorder(NewestFirstLeq)
  {
    forall a, b ensures NewestFirstLeq(a, b) || NewestFirstLeq(b, a) {
      StringLeqTotal(a.id, b.id);
    }
    forall a, b, c | NewestFirstLeq(a, b) && NewestFirstLeq(b, c) ensures NewestFirstLeq(a, c) {
      if StringLeq(a.id, b.id) && StringLeq(b.id, c.id) {
        StringLeqTransitive(a.id, b.id, c.id);
      }
    }
  }

  lemma DistinctIdsNoTies(rows: seq<Item>)
    requires NoDup(Ids(rows))
    ensures NoTies(NewestFirstLeq, rows)
  {
    forall a, b | a in rows && b in rows && NewestFirstLeq(a, b) && NewestFirstLeq(b, a) ensures a == b {
      StringLeqTotal(a.id, b.id);
      var i :| 0 <= i < |rows| && rows[i] == a;
      var j :| 0 <= j < |rows| && rows[j] == b;
      assert Ids(rows)[i] == a.id && Ids(rows)[j] == b.id;
    }
  }

  /** The candidates are the newest thousand: no row left out is newer than one taken in. */
  lemma CandidatesAreNewest(rows: seq<Item>, a: Item, b: Item)
    requires NoDup(Ids(rows)) && a in Candidates(rows) && b in rows && b !in Candidates(rows)
    ensures |Candidates(rows)| == 1000
    ensures a.createdAt > b.createdAt || (a.createdAt == b.createdAt && StringLeq(a.id, b.id))
  {
    var s := Sort(NewestFirstLeq, rows);
    NewestFirstTotal();
    SortSorted(NewestFirstLeq, rows);
    assert b in multiset(s);
    var i :| 0 <= i < |Candidates(rows)| && Candidates(rows)[i] == a;
    var j :| 0 <= j < |s| && s[j] == b;
    assert s[i] == a;
    assert forall k | 0 <= k < |Candidates(rows)| :: Candidates(rows)[k] == s[k] && s[k] in Candidates(rows);
    assert NewestFirstLeq(s[i], s[j]);
  }

  /** The order runs on the rows' own impacts; a row without one counts as 0. */
  lemma {:induction false} ImpactsOfRows(items: seq<Item>, i: nat)
    requires NoDup(Ids(items)) && i < |items|
    ensures items[i].id in ImpactMap(items)
    ensures ImpactMap(items)[items[i].id] == (if items[i].impact.Some? then items[i].impact.value else 0)
  {
    var last := |items| - 1;
    var front := items[..last];
    assert forall j | 0 <= j < last :: Ids(front)[j] == Ids(items)[j];
    if i < last {
      ImpactsOfRows(front, i);
      assert Ids(items)[i] != Ids(items)[last];
    }
  }

  /** A page is the `limit` entries from `offset` on, as far as there are any. */
  lemma PageIs<T>(s: seq<T>, offset: nat, limit: Option<nat>)
    ensures var page := Page(s, offset, limit);
            && (offset >= |s| ==> page == [])
            && (offset < |s| ==>
                  |page| == if limit.Some? && limit.value < |s| - offset then limit.value else |s| - offset)
            && forall k | 0 <= k < |page| :: page[k] == s[offset + k]
  {}

  lemma CandidatesSame(rows: seq<Item>, rows': seq<Item>)
    requires NoDup(Ids(rows)) && multiset(rows) == multiset(rows')
    ensures Candidates(rows) == Candidates(rows')
  {
    var s, s' := Sort(NewestFirstLeq, rows), Sort(NewestFirstLeq, rows');
    NewestFirstTotal();
    SortSorted(NewestFirstLeq, rows);
    SortSorted(NewestFirstLeq, rows');
    SameIds(rows, s);
    DistinctIdsNoTies(s);
    SortedUnique(NewestFirstLeq, s, s');
  }

  /** What the pages show does not depend on the order in which the database returns the rows
      or the arcs. */
  lemma RowOrderIrrelevant(rows: seq<Item>, rows': seq<Item>, arcs: seq<Arc>, arcs': seq<Arc>)
    requires NoDup(Ids(rows)) && multiset(rows) == multiset(rows')
    requires Covers(arcs, arcs') && Covers(arcs', arcs)
    ensures OrderedItems(Candidates(rows), arcs) == OrderedItems(Candidates(rows'), arcs')
  {
    CandidatesSame(rows, rows');
    var c := Candidates(rows);
    ArcPresentationIrrelevant(Ids(c), arcs, arcs', ImpactMap(c));
  }
}
