/** The precedence order of app/items/graph.py: Kahn's algorithm with a priority key,
    degrading to "everything left over, sorted" when the graph has a cycle. */
module Precedence {
  import opened Sorting

  type Node = string
  type Edges = set<(Node, Node)>

  /** A row of item_relationships as the algorithm receives it. */
  datatype Arc = Arc(source: Node, target: Node, relation: string)

  // ----- the graph the arcs denote -----

  /** Whether the arc is a hard dependency, and the pair (before, after) it denotes. */
  predicate IsPrecedence(arc: Arc) {
    arc.relation == "blocks" || arc.relation == "requires"
  }

  function Normalized(arc: Arc): (Node, Node) {
    if arc.relation == "blocks" then (arc.source, arc.target) else (arc.target, arc.source)
  }

  ghost function EdgesOf(nodes: set<Node>, arcs: seq<Arc>): Edges {
    set arc | arc in arcs && IsPrecedence(arc) && Normalized(arc).0 in nodes && Normalized(arc).1 in nodes
      :: Normalized(arc)
  }

  /** `a` has to come before `b`: it blocks `b`, or `b` requires it. */
  predicate DependsOn(arcs: seq<Arc>, b: Node, a: Node) {
    Arc(a, b, "blocks") in arcs || Arc(b, a, "requires") in arcs
  }

  /** The edges are exactly the dependencies between given ids. */
  lemma EdgeMeans(nodes: set<Node>, arcs: seq<Arc>, a: Node, b: Node)
    ensures (a, b) in EdgesOf(nodes, arcs) <==> a in nodes && b in nodes && DependsOn(arcs, b, a)
  {
    var blocks, needs := Arc(a, b, "blocks"), Arc(b, a, "requires");
    assert Normalized(blocks) == Normalized(needs) == (a, b);
    if arc :| arc in arcs && IsPrecedence(arc) && Normalized(arc) == (a, b) {
      assert arc == blocks || arc == needs;
    }
  }

  ghost predicate Within(edges: Edges, nodes: set<Node>) {
    forall e | e in edges :: e.0 in nodes && e.1 in nodes
  }

  ghost function Preds(edges: Edges, dom: set<Node>, n: Node): set<Node> {
    set a | a in dom && (a, n) in edges
  }

  // ----- the priority key: descending impact, then ascending id -----

  function ImpactOf(impact: map<Node, int>, n: Node): int {
    if n in impact then impact[n] else 0
  }

  predicate KeyLeq(impact: map<Node, int>, a: Node, b: Node) {
    var ia, ib := ImpactOf(impact, a), ImpactOf(impact, b);
    ia > ib || (ia == ib && StringLeq(a, b))
  }

  function ByKey(impact: map<Node, int>): (Node, Node) -> bool {
    (a, b) => KeyLeq(impact, a, b)
  }

  lemma KeyIsTotalOrder(impact: map<Node, int>)
    ensures TotalOrder(ByKey(impact))
  {
    var leq := ByKey(impact);
    forall a, b ensures (leq(a, b) || leq(b, a)) && (leq(a, b) && leq(b, a) ==> a == b) {
      StringLeqTotal(a, b);
    }
    forall a, b, c | leq(a, b) && leq(b, c) ensures leq(a, c) {
      if StringLeq(a, b) && StringLeq(b, c) {
        StringLeqTransitive(a, b, c);
      }
    }
  }

  // ----- the reference run -----

  /** The nodes of `rest` none of whose predecessors are still in `rest`. */
  ghost function Available(rest: set<Node>, edges: Edges): set<Node> {
    set n | n in rest && Preds(edges, rest, n) == {}
  }

  ghost predicate IsLeast(impact: map<Node, int>, s: set<Node>, n: Node) {
    n in s && forall m | m in s :: KeyLeq(impact, n, m)
  }

  lemma {:induction false} LeastExists(impact: map<Node, int>, s: set<Node>) returns (n: Node)
    requires s != {}
    ensures IsLeast(impact, s, n)
  {
    KeyIsTotalOrder(impact);
    var leq := ByKey(impact);
    var x :| x in s;
    assert leq(x, x);
    if s == {x} {
      n := x;
    } else {
      var m := LeastExists(impact, s - {x});
      assert leq(x, m) || leq(m, x);
      n := if leq(x, m) then x else m;
      forall k | k in s ensures KeyLeq(impact, n, k) {
        assert k != x ==> leq(m, k);
        assert leq(n, m) || n == m;
      }
    }
  }

  ghost function Least(impact: map<Node, int>, s: set<Node>): (n: Node)
    requires s != {}
    ensures IsLeast(impact, s, n)
  {
    var w: Node :| (exists n :: IsLeast(impact, s, n)) ==> IsLeast(impact, s, w);
    assert IsLeast(impact, s, w) by {
      var m := LeastExists(impact, s);
    }
    w
  }

  lemma LeastUnique(impact: map<Node, int>, s: set<Node>, a: Node, b: Node)
    requires IsLeast(impact, s, a) && IsLeast(impact, s, b)
    ensures a == b
  {
    KeyIsTotalOrder(impact);
    var leq := ByKey(impact);
    assert leq(a, b) && leq(b, a);
  }

  /** Repeatedly take the available node with the least key, until none is available. */
  ghost function Kahn(rest: set<Node>, edges: Edges, impact: map<Node, int>): seq<Node> {
    var avail := Available(rest, edges);
    if avail == {} then [] else
      var n := Least(impact, avail);
      [n] + Kahn(rest - {n}, edges, impact)
  }

  function NotIn(ids: seq<Node>, done: set<Node>): (r: seq<Node>)
    ensures forall n :: n in r <==> n in ids && n !in done
  {
    if ids == [] then []
    else (if ids[0] in done then [] else [ids[0]]) + NotIn(ids[1..], done)
  }

  ghost function KahnPart(ids: seq<Node>, arcs: seq<Arc>, impact: map<Node, int>): seq<Node> {
    Kahn(Elems(ids), EdgesOf(Elems(ids), arcs), impact)
  }

  ghost function CyclePart(ids: seq<Node>, arcs: seq<Arc>, impact: map<Node, int>): seq<Node> {
    Sort(ByKey(impact), NotIn(ids, Elems(KahnPart(ids, arcs, impact))))
  }

  ghost function OrderOf(ids: seq<Node>, arcs: seq<Arc>, impact: map<Node, int>): seq<Node> {
    KahnPart(ids, arcs, impact) + CyclePart(ids, arcs, impact)
  }

  // ----- what the reference run computes -----

  lemma {:induction false} KahnElems(rest: set<Node>, edges: Edges, impact: map<Node, int>)
    ensures NoDup(Kahn(rest, edges, impact))
    ensures Elems(Kahn(rest, edges, impact)) <= rest
    ensures Available(rest - Elems(Kahn(rest, edges, impact)), edges) == {}
  {
    var avail := Available(rest, edges);
    if avail == {} {
      assert rest - Elems(Kahn(rest, edges, impact)) == rest;
    } else {
      var n := Least(impact, avail);
      var tail := Kahn(rest - {n}, edges, impact);
      KahnElems(rest - {n}, edges, impact);
      assert Elems([n] + tail) == {n} + Elems(tail);
      assert rest - Elems([n] + tail) == (rest - {n}) - Elems(tail);
      assert n !in Elems(tail);
    }
  }

  /** An emitted node has every predecessor emitted before it, and is not its own. */
  lemma {:induction false} KahnForward(rest: set<Node>, edges: Edges, impact: map<Node, int>, a: Node, j: nat)
    requires j < |Kahn(rest, edges, impact)| && a in rest
    requires (a, Kahn(rest, edges, impact)[j]) in edges
    ensures exists i :: 0 <= i < j && Kahn(rest, edges, impact)[i] == a
  {
    var k := Kahn(rest, edges, impact);
    var n := Least(impact, Available(rest, edges));
    assert (a, n) !in edges by {
      assert a !in Preds(edges, rest, n);
    }
    if j == 0 {
    } else if a == n {
      assert k[0] == a;
    } else {
      var tail := Kahn(rest - {n}, edges, impact);
      assert tail[j - 1] == k[j];
      KahnForward(rest - {n}, edges, impact, a, j - 1);
      var i :| 0 <= i < j - 1 && tail[i] == a;
      assert k[i + 1] == a;
    }
  }

  // ----- topological orders and lexicographic comparison -----

  ghost predicate IsTopological(nodes: set<Node>, edges: Edges, t: seq<Node>) {
    && NoDup(t)
    && Elems(t) == nodes
    && forall i, j | 0 <= i <= j < |t| :: (t[j], t[i]) !in edges
  }

  /** `s` comes no later than `t` when sequences are compared entry by entry on the key. */
  ghost predicate LexLeq(impact: map<Node, int>, s: seq<Node>, t: seq<Node>) {
    s == [] || (t != [] && if s[0] == t[0] then LexLeq(impact, s[1..], t[1..]) else KeyLeq(impact, s[0], t[0]))
  }

  lemma {:induction false} KahnLeast(rest: set<Node>, edges: Edges, impact: map<Node, int>, t: seq<Node>)
    requires IsTopological(rest, edges, t)
    ensures LexLeq(impact, Kahn(rest, edges, impact), t)
  {
    var avail := Available(rest, edges);
    if avail != {} {
      var n := Least(impact, avail);
      assert n in Elems(t);
      assert Preds(edges, rest, t[0]) == {} by {
        forall a | a in rest ensures (a, t[0]) !in edges {
          assert a in Elems(t);
        }
      }
      assert t[0] in Elems(t);
      if n == t[0] {
        TopologicalTail(rest, edges, t);
        KahnLeast(rest - {n}, edges, impact, t[1..]);
      }
    }
  }

  lemma TopologicalTail(nodes: set<Node>, edges: Edges, t: seq<Node>)
    requires IsTopological(nodes, edges, t) && t != []
    ensures IsTopological(nodes - {t[0]}, edges, t[1..])
  {
    assert t == [t[0]] + t[1..];
    assert Elems(t) == {t[0]} + Elems(t[1..]);
    assert t[0] !in Elems(t[1..]);
    var u := t[1..];
    forall i, j | 0 <= i <= j < |u| ensures (u[j], u[i]) !in edges {
      assert u[j] == t[j + 1] && u[i] == t[i + 1];
    }
  }

  // ----- cycles -----

  /** A nonempty sequence of nodes, each with an edge to the next. */
  ghost predicate Walk(edges: Edges, w: seq<Node>) {
    w != [] && forall i | 0 <= i < |w| - 1 :: Linked(edges, w, i)
  }

  ghost predicate Linked(edges: Edges, w: seq<Node>, i: nat)
    requires i < |w| - 1
  {
    (w[i], w[i + 1]) in edges
  }

  ghost predicate Cycle(edges: Edges, c: seq<Node>) {
    |c| >= 2 && Walk(edges, c) && c[0] == c[|c| - 1]
  }

  /** `n` lies on a cycle or can be reached from one. */
  ghost predicate AfterCycle(edges: Edges, n: Node) {
    exists c, w :: Cycle(edges, c) && Walk(edges, w) && w[0] == c[0] && w[|w| - 1] == n
  }

  /** If every node of `stuck` has a predecessor in it, walk backwards as far as wanted. */
  lemma {:induction false} BackwardWalk(stuck: set<Node>, edges: Edges, n: Node, len: nat) returns (w: seq<Node>)
    requires n in stuck && Available(stuck, edges) == {}
    ensures Walk(edges, w) && |w| == len + 1 && w[len] == n && Elems(w) <= stuck
    decreases len
  {
    if len == 0 {
      w := [n];
    } else {
      assert n !in Available(stuck, edges);
      var a :| a in Preds(edges, stuck, n);
      var v := BackwardWalk(stuck, edges, a, len - 1);
      w := v + [n];
      forall i | 0 <= i < |w| - 1 ensures Linked(edges, w, i) {
        assert i < len - 1 ==> Linked(edges, v, i);
      }
    }
  }

  lemma StuckIsAfterCycle(stuck: set<Node>, edges: Edges, n: Node)
    requires n in stuck && Available(stuck, edges) == {}
    ensures AfterCycle(edges, n)
  {
    var w := BackwardWalk(stuck, edges, n, |stuck|);
    var i, j := Pigeonhole(w, stuck);
    RepeatIsCycle(edges, w, i, j);
  }

  /** A walk that comes back to a node goes round a cycle. */
  lemma RepeatIsCycle(edges: Edges, w: seq<Node>, i: nat, j: nat)
    requires Walk(edges, w) && i < j < |w| && w[i] == w[j]
    ensures AfterCycle(edges, w[|w| - 1])
  {
    var c := WalkPart(edges, w, i, j);
    var v := WalkPart(edges, w, i, |w| - 1);
    CycleThenWalk(edges, c, v, w[|w| - 1]);
  }

  lemma CycleThenWalk(edges: Edges, c: seq<Node>, w: seq<Node>, n: Node)
    requires |c| >= 2 && Walk(edges, c) && c[0] == c[|c| - 1]
    requires Walk(edges, w) && w[0] == c[0] && w[|w| - 1] == n
    ensures AfterCycle(edges, n)
  {
    assert Cycle(edges, c);
  }

  lemma WalkPart(edges: Edges, w: seq<Node>, i: nat, j: nat) returns (v: seq<Node>)
    requires Walk(edges, w) && i <= j < |w|
    ensures Walk(edges, v) && |v| == j + 1 - i && v[0] == w[i] && v[|v| - 1] == w[j]
  {
    v := w[i..j + 1];
    forall k | 0 <= k < |v| - 1 ensures Linked(edges, v, k) {
      assert Linked(edges, w, i + k);
    }
  }

  /** Once a node is emitted, everything on a walk into it was emitted too, earlier. */
  lemma {:induction false} WalkEmitted(rest: set<Node>, edges: Edges, impact: map<Node, int>, w: seq<Node>, j: nat)
    returns (i: nat)
    requires Within(edges, rest) && Walk(edges, w)
    requires j < |Kahn(rest, edges, impact)| && Kahn(rest, edges, impact)[j] == w[|w| - 1]
    ensures i <= j && Kahn(rest, edges, impact)[i] == w[0]
    ensures |w| > 1 ==> i < j
    decreases |w|
  {
    if |w| == 1 {
      i := j;
    } else {
      var k := |w| - 2;
      assert Linked(edges, w, k);
      KahnForward(rest, edges, impact, w[k], j);
      var m :| 0 <= m < j && Kahn(rest, edges, impact)[m] == w[k];
      var front := WalkPart(edges, w, 0, k);
      i := WalkEmitted(rest, edges, impact, front, m);
    }
  }

  lemma AfterCycleNotEmitted(rest: set<Node>, edges: Edges, impact: map<Node, int>, n: Node)
    requires Within(edges, rest) && AfterCycle(edges, n)
    ensures n in rest && n !in Elems(Kahn(rest, edges, impact))
  {
    var k := Kahn(rest, edges, impact);
    var c, w :| Cycle(edges, c) && Walk(edges, w) && w[0] == c[0] && w[|w| - 1] == n;
    assert Linked(edges, c, 0);
    if |w| > 1 {
      assert Linked(edges, w, |w| - 2);
    }
    if n in Elems(k) {
      var j :| 0 <= j < |k| && k[j] == n;
      var i := WalkEmitted(rest, edges, impact, w, j);
      var h := WalkEmitted(rest, edges, impact, c, i);
      KahnElems(rest, edges, impact);
      assert false;
    }
  }

  // ----- main results -----

  lemma EdgesWithin(ids: seq<Node>, arcs: seq<Arc>)
    ensures Within(EdgesOf(Elems(ids), arcs), Elems(ids))
  {}

  /** cycle_nodes holds exactly the nodes on a cycle or reachable from one. */
  lemma CycleNodesExact(ids: seq<Node>, arcs: seq<Arc>, impact: map<Node, int>, n: Node)
    ensures n in CyclePart(ids, arcs, impact) <==> AfterCycle(EdgesOf(Elems(ids), arcs), n)
  {
    var nodes, edges := Elems(ids), EdgesOf(Elems(ids), arcs);
    var k := Kahn(nodes, edges, impact);
    KahnElems(nodes, edges, impact);
    SameElems(CyclePart(ids, arcs, impact), NotIn(ids, Elems(k)));
    assert n in CyclePart(ids, arcs, impact) <==> n in Elems(NotIn(ids, Elems(k)));
    if AfterCycle(edges, n) {
      AfterCycleNotEmitted(nodes, edges, impact, n);
    }
    if n in ids && n !in Elems(k) {
      StuckIsAfterCycle(nodes - Elems(k), edges, n);
    }
  }

  /** has_cycle is reported exactly when the precedence graph has a directed cycle. */
  lemma HasCycleExact(ids: seq<Node>, arcs: seq<Arc>, impact: map<Node, int>)
    ensures CyclePart(ids, arcs, impact) != [] <==> exists c :: Cycle(EdgesOf(Elems(ids), arcs), c)
  {
    var edges, left := EdgesOf(Elems(ids), arcs), CyclePart(ids, arcs, impact);
    if left != [] {
      CycleNodesExact(ids, arcs, impact, left[0]);
    }
    if c :| Cycle(edges, c) {
      assert Walk(edges, [c[0]]) && [c[0]][0] == c[0];
      assert AfterCycle(edges, c[0]);
      CycleNodesExact(ids, arcs, impact, c[0]);
    }
  }

  /** On an acyclic input with distinct ids the result is the least topological order. */
  lemma LeastTopologicalOrder(ids: seq<Node>, arcs: seq<Arc>, impact: map<Node, int>)
    requires NoDup(ids)
    requires !exists c :: Cycle(EdgesOf(Elems(ids), arcs), c)
    ensures IsTopological(Elems(ids), EdgesOf(Elems(ids), arcs), OrderOf(ids, arcs, impact))
    ensures forall t :: IsTopological(Elems(ids), EdgesOf(Elems(ids), arcs), t) ==>
                          LexLeq(impact, OrderOf(ids, arcs, impact), t)
  {
    var nodes, edges := Elems(ids), EdgesOf(Elems(ids), arcs);
    var k := Kahn(nodes, edges, impact);
    HasCycleExact(ids, arcs, impact);
    KahnElems(nodes, edges, impact);
    assert OrderOf(ids, arcs, impact) == k;
    assert |NotIn(ids, Elems(k))| == 0;
    assert Elems(k) == nodes;
    forall i, j | 0 <= i <= j < |k| ensures (k[j], k[i]) !in edges {
      if (k[j], k[i]) in edges {
        KahnForward(nodes, edges, impact, k[j], i);
      }
    }
    forall t | IsTopological(nodes, edges, t) ensures LexLeq(impact, k, t) {
      KahnLeast(nodes, edges, impact, t);
    }
  }

  lemma JoinNoDup(a: seq<Node>, b: seq<Node>)
    requires NoDup(a) && NoDup(b) && Elems(a) !! Elems(b)
    ensures NoDup(a + b) && Elems(a + b) == Elems(a) + Elems(b)
  {
    var o := a + b;
    forall i, j | 0 <= i < j < |o| ensures o[i] != o[j] {
      if i < |a| <= j {
        assert o[i] in Elems(a) && o[j] in Elems(b);
      }
    }
  }

  /** Distinct ids are never lost or repeated, cycles or not. */
  lemma OrderIsPermutation(ids: seq<Node>, arcs: seq<Arc>, impact: map<Node, int>)
    requires NoDup(ids)
    ensures multiset(OrderOf(ids, arcs, impact)) == multiset(ids)
  {
    var k, left := KahnPart(ids, arcs, impact), CyclePart(ids, arcs, impact);
    KahnElems(Elems(ids), EdgesOf(Elems(ids), arcs), impact);
    PermutationOf(ids, k, left);
  }

  lemma PermutationOf(ids: seq<Node>, k: seq<Node>, left: seq<Node>)
    requires NoDup(ids) && NoDup(k) && Elems(k) <= Elems(ids)
    requires multiset(left) == multiset(NotIn(ids, Elems(k)))
    ensures multiset(k + left) == multiset(ids)
  {
    NotInNoDup(ids, Elems(k));
    SameElems(NotIn(ids, Elems(k)), left);
    assert Elems(left) == Elems(ids) - Elems(k) by {
      assert forall n :: n in Elems(left) <==> n in NotIn(ids, Elems(k));
    }
    JoinNoDup(k, left);
    SameMultiset(k + left, ids);
  }

  lemma {:induction false} NotInNoDup(ids: seq<Node>, done: set<Node>)
    requires NoDup(ids)
    ensures NoDup(NotIn(ids, done))
  {
    if ids != [] {
      NotInNoDup(ids[1..], done);
      assert ids == [ids[0]] + ids[1..];
      assert ids[0] !in NotIn(ids[1..], done);
    }
  }

  lemma {:induction false} NotInCount(ids: seq<Node>, done: set<Node>)
    ensures multiset(NotIn(ids, done)) <= multiset(ids)
    ensures forall n | n !in done :: multiset(NotIn(ids, done))[n] == multiset(ids)[n]
  {
    if ids != [] {
      NotInCount(ids[1..], done);
      assert ids == [ids[0]] + ids[1..];
      assert multiset(ids) == multiset{ids[0]} + multiset(ids[1..]);
    }
  }

  /** Every precedence edge not wholly inside cycle_nodes goes forward. */
  lemma EdgesGoForward(ids: seq<Node>, arcs: seq<Arc>, impact: map<Node, int>, a: Node, b: Node, i: nat, j: nat)
    requires NoDup(ids)
    requires (a, b) in EdgesOf(Elems(ids), arcs)
    requires !(a in CyclePart(ids, arcs, impact) && b in CyclePart(ids, arcs, impact))
    requires i < |ids| == |OrderOf(ids, arcs, impact)| && j < |ids|
    requires OrderOf(ids, arcs, impact)[i] == a && OrderOf(ids, arcs, impact)[j] == b
    ensures i < j
  {
    var k, left := KahnPart(ids, arcs, impact), CyclePart(ids, arcs, impact);
    var o := OrderOf(ids, arcs, impact);
    var nodes, edges := Elems(ids), EdgesOf(Elems(ids), arcs);
    OrderIsPermutation(ids, arcs, impact);
    SameElems(ids, o);
    if i >= |k| {
      assert a == left[i - |k|];
    }
    if j < |k| {
      KahnForward(nodes, edges, impact, a, j);
      var h :| 0 <= h < j && k[h] == a;
      assert o[h] == o[i];
    } else {
      assert b == left[j - |k|];
    }
  }

  /** What has to come first does, unless both lie on or after a cycle. */
  lemma DependenciesGoForward(ids: seq<Node>, arcs: seq<Arc>, impact: map<Node, int>, a: Node, b: Node, i: nat, j: nat)
    requires NoDup(ids) && a in ids && b in ids && DependsOn(arcs, b, a)
    requires !(a in CyclePart(ids, arcs, impact) && b in CyclePart(ids, arcs, impact))
    requires i < |ids| == |OrderOf(ids, arcs, impact)| && j < |ids|
    requires OrderOf(ids, arcs, impact)[i] == a && OrderOf(ids, arcs, impact)[j] == b
    ensures i < j
  {
    EdgeMeans(Elems(ids), arcs, a, b);
    EdgesGoForward(ids, arcs, impact, a, b, i, j);
  }

  /** `a` has more impact than `b`, or the same and the lesser id. */
  predicate Preferred(impact: map<Node, int>, a: Node, b: Node) {
    var x, y := if a in impact then impact[a] else 0, if b in impact then impact[b] else 0;
    x > y || (x == y && StringLeq(a, b))
  }

  lemma {:induction false} KahnGreedy(rest: set<Node>, edges: Edges, impact: map<Node, int>, i: nat, b: Node)
    requires i < |Kahn(rest, edges, impact)| && b in rest && b !in Kahn(rest, edges, impact)[..i]
    requires forall a | a in rest && (a, b) in edges :: a in Kahn(rest, edges, impact)[..i]
    ensures Preferred(impact, Kahn(rest, edges, impact)[i], b)
  {
    var k := Kahn(rest, edges, impact);
    var n := Least(impact, Available(rest, edges));
    var tail := Kahn(rest - {n}, edges, impact);
    assert k == [n] + tail;
    if i == 0 {
      assert Preds(edges, rest, b) == {};
      assert b in Available(rest, edges);
    } else {
      assert k[..i] == [n] + tail[..i - 1];
      KahnGreedy(rest - {n}, edges, impact, i - 1, b);
    }
  }

  /** The choice at each place is the preferred one: no item whose dependencies have all come
      already is preferred to the one that comes. */
  lemma GreedyByImpact(ids: seq<Node>, arcs: seq<Arc>, impact: map<Node, int>, i: nat, b: Node)
    requires i < |KahnPart(ids, arcs, impact)| && b in ids && b !in OrderOf(ids, arcs, impact)[..i]
    requires forall a | a in ids && DependsOn(arcs, b, a) :: a in OrderOf(ids, arcs, impact)[..i]
    ensures Preferred(impact, OrderOf(ids, arcs, impact)[i], b)
  {
    var nodes, edges, o := Elems(ids), EdgesOf(Elems(ids), arcs), OrderOf(ids, arcs, impact);
    assert o[..i] == KahnPart(ids, arcs, impact)[..i];
    forall a | a in nodes && (a, b) in edges ensures a in o[..i] {
      EdgeMeans(nodes, arcs, a, b);
    }
    KahnGreedy(nodes, edges, impact, i, b);
  }

  /** What is left on a cycle comes in the same order of preference. */
  lemma LeftoversByImpact(ids: seq<Node>, arcs: seq<Arc>, impact: map<Node, int>, i: nat, j: nat)
    requires i < j < |CyclePart(ids, arcs, impact)|
    ensures Preferred(impact, CyclePart(ids, arcs, impact)[i], CyclePart(ids, arcs, impact)[j])
  {
    KeyIsTotalOrder(impact);
    SortSorted(ByKey(impact), NotIn(ids, Elems(KahnPart(ids, arcs, impact))));
    var left := CyclePart(ids, arcs, impact);
    assert ByKey(impact)(left[i], left[j]);
  }

  /** How often each id comes out: once when Kahn's loop emits it, else as often as it went in. */
  lemma OrderCount(ids: seq<Node>, arcs: seq<Arc>, impact: map<Node, int>, n: Node)
    requires n in ids
    ensures multiset(OrderOf(ids, arcs, impact))[n] ==
            if AfterCycle(EdgesOf(Elems(ids), arcs), n) then multiset(ids)[n] else 1
  {
    var k, left := KahnPart(ids, arcs, impact), CyclePart(ids, arcs, impact);
    var rest := NotIn(ids, Elems(k));
    KahnElems(Elems(ids), EdgesOf(Elems(ids), arcs), impact);
    NotInCount(ids, Elems(k));
    NoDupCount(k);
    CycleNodesExact(ids, arcs, impact, n);
    assert multiset(left) == multiset(rest);
    assert n in left <==> n in multiset(left);
    assert n in rest <==> n in multiset(rest);
    assert n in k <==> n in multiset(k);
  }

  /** The length invariant the source's docstring promises holds exactly when every id given
      twice is a cycle node. */
  lemma LengthExact(ids: seq<Node>, arcs: seq<Arc>, impact: map<Node, int>)
    ensures |OrderOf(ids, arcs, impact)| == |ids| <==>
            forall n :: multiset(ids)[n] > 1 ==> AfterCycle(EdgesOf(Elems(ids), arcs), n)
  {
    var o, edges := multiset(OrderOf(ids, arcs, impact)), EdgesOf(Elems(ids), arcs);
    forall n ensures o[n] == (if n in ids && !AfterCycle(edges, n) then 1 else multiset(ids)[n]) {
      assert n in multiset(ids) <==> n in ids;
      if n in ids {
        OrderCount(ids, arcs, impact, n);
      } else {
        OrderWithin(ids, arcs, impact, n);
      }
    }
    assert forall n :: n in ids <==> multiset(ids)[n] >= 1;
    assert o <= multiset(ids);
    PartOfMultiset(o, multiset(ids));
    if o == multiset(ids) {
      forall n | multiset(ids)[n] > 1 ensures AfterCycle(edges, n) {
        assert o[n] > 1;
      }
    }
    if forall n :: multiset(ids)[n] > 1 ==> AfterCycle(edges, n) {
      assert forall n :: o[n] == multiset(ids)[n];
    }
  }

  /** It fails on an id given twice outside every cycle: the order is one entry short. */
  lemma RepeatedIdIsLost()
    ensures |OrderOf(["a", "a"], [], map[])| == 1
  {
    var ids, edges := ["a", "a"], EdgesOf(Elems(["a", "a"]), []);
    assert Elems(ids) == {"a"} && edges == {};
    assert Preds(edges, {"a"}, "a") == {};
    assert "a" in Available({"a"}, edges);
    var n := Least(map[], Available({"a"}, edges));
    assert {"a"} - {n} == {};
    assert KahnPart(ids, [], map[]) == ["a"];
    assert NotIn(ids, {"a"}) == [] by {
      assert NotIn(ids[1..], {"a"}) == NotIn(ids[1..][1..], {"a"});
    }
    assert Elems(["a"]) == {"a"};
  }

  lemma OrderWithin(ids: seq<Node>, arcs: seq<Arc>, impact: map<Node, int>, n: Node)
    requires n !in ids
    ensures multiset(OrderOf(ids, arcs, impact))[n] == 0
  {
    var k, left := KahnPart(ids, arcs, impact), CyclePart(ids, arcs, impact);
    KahnElems(Elems(ids), EdgesOf(Elems(ids), arcs), impact);
    SameElems(left, NotIn(ids, Elems(k)));
    assert n in left ==> n in Elems(left);
    assert n in k ==> n in Elems(k);
    assert n !in k + left;
  }

  /** The result depends only on which ids are given (and how often), on the set of
      normalized edges between them, and on their impact. */
  lemma OrderDependsOnGraph(ids: seq<Node>, arcs: seq<Arc>, impact: map<Node, int>,
                            ids': seq<Node>, arcs': seq<Arc>, impact': map<Node, int>)
    requires multiset(ids) == multiset(ids')
    requires EdgesOf(Elems(ids), arcs) == EdgesOf(Elems(ids), arcs')
    requires forall n | n in ids :: ImpactOf(impact, n) == ImpactOf(impact', n)
    ensures KahnPart(ids, arcs, impact) == KahnPart(ids', arcs', impact')
    ensures CyclePart(ids, arcs, impact) == CyclePart(ids', arcs', impact')
  {
    SameElems(ids, ids');
    KahnSameImpact(Elems(ids), EdgesOf(Elems(ids), arcs), impact, impact');
    var done := Elems(KahnPart(ids, arcs, impact));
    NotInSame(ids, ids', done);
    SortSameImpact(impact, impact', NotIn(ids, done), NotIn(ids', done));
  }

  lemma NotInSame(ids: seq<Node>, ids': seq<Node>, done: set<Node>)
    requires multiset(ids) == multiset(ids')
    ensures multiset(NotIn(ids, done)) == multiset(NotIn(ids', done))
  {
    var r, r' := NotIn(ids, done), NotIn(ids', done);
    NotInCount(ids, done);
    NotInCount(ids', done);
    forall n ensures multiset(r)[n] == multiset(r')[n] {
      assert n in multiset(r) <==> n in r;
      assert n in multiset(r') <==> n in r';
    }
  }

  lemma SortSameImpact(impact: map<Node, int>, impact': map<Node, int>, r: seq<Node>, r': seq<Node>)
    requires multiset(r) == multiset(r')
    requires forall n | n in r :: ImpactOf(impact, n) == ImpactOf(impact', n)
    ensures Sort(ByKey(impact), r) == Sort(ByKey(impact'), r')
  {
    var leq, leq' := ByKey(impact), ByKey(impact');
    KeyIsTotalOrder(impact);
    KeyIsTotalOrder(impact');
    SortSorted(leq, r);
    SortSorted(leq', r');
    var s := Sort(leq', r');
    forall i, j | 0 <= i < j < |s| ensures leq(s[i], s[j]) {
      assert s[i] in multiset(s) && s[j] in multiset(s);
      assert s[i] in multiset(r) && s[j] in multiset(r);
      assert leq'(s[i], s[j]);
    }
    SortedUnique(leq, Sort(leq, r), s);
  }

  lemma {:induction false} KahnSameImpact(rest: set<Node>, edges: Edges, impact: map<Node, int>,
                                          impact': map<Node, int>)
    requires forall n | n in rest :: ImpactOf(impact, n) == ImpactOf(impact', n)
    ensures Kahn(rest, edges, impact) == Kahn(rest, edges, impact')
  {
    var avail := Available(rest, edges);
    if avail != {} {
      var n := Least(impact', avail);
      assert IsLeast(impact, avail, n);
      LeastUnique(impact, avail, Least(impact, avail), n);
      KahnSameImpact(rest - {n}, edges, impact, impact');
    }
  }

  /** The other way to write the same dependency. */
  function Flip(arc: Arc): Arc {
    if arc.relation == "blocks" then Arc(arc.target, arc.source, "requires")
    else if arc.relation == "requires" then Arc(arc.target, arc.source, "blocks")
    else arc
  }

  /** Every dependency in `arcs` is in `arcs'`, possibly written the other way round. */
  ghost predicate Covers(arcs: seq<Arc>, arcs': seq<Arc>) {
    forall arc | arc in arcs && IsPrecedence(arc) :: arc in arcs' || Flip(arc) in arcs'
  }

  /** Permuting or repeating ids' arcs, adding arcs of other relations, or writing
      `requires B->A` for `blocks A->B` changes nothing. */
  lemma ArcPresentationIrrelevant(ids: seq<Node>, arcs: seq<Arc>, arcs': seq<Arc>, impact: map<Node, int>)
    requires Covers(arcs, arcs') && Covers(arcs', arcs)
    ensures OrderOf(ids, arcs, impact) == OrderOf(ids, arcs', impact)
    ensures CyclePart(ids, arcs, impact) == CyclePart(ids, arcs', impact)
  {
    CoversEdges(Elems(ids), arcs, arcs');
    CoversEdges(Elems(ids), arcs', arcs);
    assert EdgesOf(Elems(ids), arcs) == EdgesOf(Elems(ids), arcs');
  }

  lemma CoversEdges(nodes: set<Node>, arcs: seq<Arc>, arcs': seq<Arc>)
    requires Covers(arcs, arcs')
    ensures EdgesOf(nodes, arcs) <= EdgesOf(nodes, arcs')
  {
    forall arc | arc in arcs && IsPrecedence(arc)
      ensures Normalized(arc) == Normalized(Flip(arc)) && IsPrecedence(Flip(arc)) {}
    forall e | e in EdgesOf(nodes, arcs) ensures e in EdgesOf(nodes, arcs') {
      var arc :| arc in arcs && IsPrecedence(arc) && Normalized(arc) == e;
      if arc in arcs' {
      } else {
        assert Flip(arc) in arcs';
      }
    }
  }

  // ----- the algorithm -----

  /** What the adjacency and in-degree dictionaries hold once the arcs are read. */
  ghost predicate Degrees(nodes: set<Node>, edges: Edges, adj: map<Node, set<Node>>, indeg: map<Node, int>) {
    && Adjacency(nodes, edges, adj)
    && indeg.Keys == nodes
    && (forall b | b in nodes :: indeg[b] == |Preds(edges, nodes, b)|)
  }

  ghost predicate Adjacency(nodes: set<Node>, edges: Edges, adj: map<Node, set<Node>>) {
    && adj.Keys == nodes
    && (forall a, b | a in nodes :: b in adj[a] <==> (a, b) in edges)
  }

  /** What reading one more arc adds. */
  lemma EdgesNext(nodes: set<Node>, arcs: seq<Arc>, i: nat, a: Node, b: Node)
    requires i < |arcs| && (a, b) == Normalized(arcs[i])
    ensures IsPrecedence(arcs[i]) && a in nodes && b in nodes ==>
              EdgesOf(nodes, arcs[..i + 1]) == EdgesOf(nodes, arcs[..i]) + {(a, b)}
    ensures !(IsPrecedence(arcs[i]) && a in nodes && b in nodes && (a, b) !in EdgesOf(nodes, arcs[..i])) ==>
              EdgesOf(nodes, arcs[..i + 1]) == EdgesOf(nodes, arcs[..i])
  {
    assert arcs[..i + 1] == arcs[..i] + [arcs[i]];
  }

  lemma AddEdge(nodes: set<Node>, edges: Edges, adj: map<Node, set<Node>>, indeg: map<Node, int>, a: Node, b: Node)
    requires Degrees(nodes, edges, adj, indeg)
    requires a in nodes && b in nodes && b !in adj[a]
    ensures Degrees(nodes, edges + {(a, b)}, adj[a := adj[a] + {b}], indeg[b := indeg[b] + 1])
  {
    assert Adjacency(nodes, edges + {(a, b)}, adj[a := adj[a] + {b}]);
    forall n | n in nodes ensures indeg[b := indeg[b] + 1][n] == |Preds(edges + {(a, b)}, nodes, n)| {
      PredsAddEdge(nodes, edges, a, b, n);
    }
  }

  lemma PredsAddEdge(nodes: set<Node>, edges: Edges, a: Node, b: Node, n: Node)
    requires a in nodes && (a, b) !in edges
    ensures |Preds(edges + {(a, b)}, nodes, n)| == |Preds(edges, nodes, n)| + (if n == b then 1 else 0)
  {
    assert Preds(edges + {(a, b)}, nodes, n) == Preds(edges, nodes, n) + (if n == b then {a} else {});
  }

  method BuildGraph(nodes: set<Node>, arcs: seq<Arc>) returns (adj: map<Node, set<Node>>, indeg: map<Node, int>)
    ensures Degrees(nodes, EdgesOf(nodes, arcs), adj, indeg)
  {
    adj := map n | n in nodes :: {};
    indeg := map n | n in nodes :: 0;
    ghost var edges := EdgesOf(nodes, []);
    assert forall n | n in nodes :: Preds(edges, nodes, n) == {};
    for i := 0 to |arcs|
      invariant edges == EdgesOf(nodes, arcs[..i])
      invariant Degrees(nodes, edges, adj, indeg)
    {
      var (a, b) := Normalized(arcs[i]);
      EdgesNext(nodes, arcs, i, a, b);
      if IsPrecedence(arcs[i]) && a in nodes && b in nodes && b !in adj[a] {
        AddEdge(nodes, edges, adj, indeg, a, b);
        adj := adj[a := adj[a] + {b}];
        indeg := indeg[b := indeg[b] + 1];
      }
      edges := EdgesOf(nodes, arcs[..i + 1]);
    }
    assert arcs[..|arcs|] == arcs;
  }

  /** The main loop's state: `rest` is what is not yet emitted. */
  ghost predicate Progress(nodes: set<Node>, rest: set<Node>, edges: Edges, indeg: map<Node, int>) {
    && rest <= nodes
    && indeg.Keys == nodes
    && (forall b | b in rest :: indeg[b] == |Preds(edges, rest, b)|)
    && (forall a, b | (a, b) in edges && b !in rest :: a !in rest)
  }

  lemma EmittedFreesPreds(nodes: set<Node>, rest: set<Node>, edges: Edges, adj: map<Node, set<Node>>,
                          indeg: map<Node, int>, n: Node)
    requires Within(edges, nodes) && Progress(nodes, rest, edges, indeg)
    requires Adjacency(nodes, edges, adj) && n in Available(rest, edges)
    ensures n in adj && adj[n] <= rest - {n}
    ensures forall b | b in rest - {n} ::
              |Preds(edges, rest - {n}, b)| == |Preds(edges, rest, b)| - (if b in adj[n] then 1 else 0)
  {
    assert n !in Preds(edges, rest, n);
    forall b | b in adj[n] ensures b in rest - {n} {
      assert (n, b) in edges;
    }
    forall b | b in rest - {n}
      ensures |Preds(edges, rest - {n}, b)| == |Preds(edges, rest, b)| - (if b in adj[n] then 1 else 0)
    {
      assert Preds(edges, rest, b) == Preds(edges, rest - {n}, b) + (if b in adj[n] then {n} else {});
    }
  }

  /** Emitting `n` lowers the in-degree of each successor by one; those reaching zero are new. */
  method Release(nodes: set<Node>, ghost rest: set<Node>, ghost edges: Edges,
                 adj: map<Node, set<Node>>, indeg0: map<Node, int>, n: Node)
    returns (indeg: map<Node, int>, newly: seq<Node>)
    requires Within(edges, nodes) && Progress(nodes, rest, edges, indeg0)
    requires Adjacency(nodes, edges, adj)
    requires n in Available(rest, edges)
    ensures Progress(nodes, rest - {n}, edges, indeg)
    ensures NoDup(newly)
    ensures Elems(newly) == Available(rest - {n}, edges) - Available(rest, edges)
  {
    indeg, newly := indeg0, [];
    var todo := adj[n];
    ghost var rest' := rest - {n};
    EmittedFreesPreds(nodes, rest, edges, adj, indeg, n);
    while todo != {}
      invariant todo <= adj[n]
      invariant indeg.Keys == nodes
      invariant forall b | b in rest' ::
        indeg[b] == if b in todo then |Preds(edges, rest, b)| else |Preds(edges, rest', b)|
      invariant NoDup(newly)
      invariant forall b :: b in newly <==> b in adj[n] && b !in todo && Preds(edges, rest', b) == {}
    {
      var m :| m in todo;
      todo := todo - {m};
      indeg := indeg[m := indeg[m] - 1];
      if indeg[m] == 0 {
        newly := newly + [m];
      }
    }
    forall b ensures b in newly <==> b in Available(rest', edges) && b !in Available(rest, edges) {
      if b in rest' {
        assert b in adj[n] ==> n in Preds(edges, rest, b);
        assert b !in adj[n] ==> |Preds(edges, rest', b)| == |Preds(edges, rest, b)|;
      }
    }
  }

  /** Python's `ready` list: the available nodes, in key order. */
  ghost predicate IsReady(impact: map<Node, int>, ready: seq<Node>, avail: set<Node>) {
    NoDup(ready) && Elems(ready) == avail && Sorted(ByKey(impact), ready)
  }

  lemma SortIsReady(impact: map<Node, int>, s: seq<Node>)
    requires NoDup(s)
    ensures IsReady(impact, Sort(ByKey(impact), s), Elems(s))
  {
    KeyIsTotalOrder(impact);
    SortSorted(ByKey(impact), s);
    SameElems(s, Sort(ByKey(impact), s));
  }

  /** The head of the ready list is the node the reference run takes. */
  lemma ReadyHead(impact: map<Node, int>, ready: seq<Node>, avail: set<Node>)
    requires IsReady(impact, ready, avail) && ready != []
    ensures avail != {} && ready[0] == Least(impact, avail)
    ensures IsReady(impact, ready[1..], avail - {ready[0]})
  {
    KeyIsTotalOrder(impact);
    assert ready[0] in Elems(ready);
    forall m | m in avail ensures KeyLeq(impact, ready[0], m) {
      assert m in Elems(ready);
      HeadLeast(ByKey(impact), ready, m);
      assert ByKey(impact)(ready[0], m);
    }
    LeastUnique(impact, avail, ready[0], Least(impact, avail));
    assert ready == [ready[0]] + ready[1..];
    assert Elems(ready) == {ready[0]} + Elems(ready[1..]);
    assert ready[0] !in Elems(ready[1..]);
  }

  method SetToSeq(s: set<Node>) returns (r: seq<Node>)
    ensures NoDup(r) && Elems(r) == s
  {
    r := [];
    var todo := s;
    while todo != {}
      invariant todo <= s && NoDup(r) && Elems(r) == s - todo
    {
      var x :| x in todo;
      todo := todo - {x};
      assert Elems(r + [x]) == Elems(r) + {x};
      assert x !in Elems(r);
      r := r + [x];
    }
  }

  /** Kahn's loop: pop the head, release its successors, re-sort if any became ready. */
  method KahnLoop(nodes: set<Node>, ghost edges: Edges, impact: map<Node, int>,
                  adj: map<Node, set<Node>>, indeg0: map<Node, int>, ready0: seq<Node>)
    returns (order: seq<Node>)
    requires Within(edges, nodes) && Degrees(nodes, edges, adj, indeg0)
    requires IsReady(impact, ready0, Available(nodes, edges))
    ensures order == Kahn(nodes, edges, impact)
  {
    var indeg, ready := indeg0, ready0;
    order := [];
    ghost var rest := nodes;
    while ready != []
      invariant Progress(nodes, rest, edges, indeg)
      invariant IsReady(impact, ready, Available(rest, edges))
      invariant Kahn(nodes, edges, impact) == order + Kahn(rest, edges, impact)
      decreases rest
    {
      ReadyHead(impact, ready, Available(rest, edges));
      KahnStep(rest, edges, impact, order);
      var n, newly := ready[0], [];
      ready := ready[1..];
      order := order + [n];
      indeg, newly := Release(nodes, rest, edges, adj, indeg, n);
      StillAvailable(rest, edges, ready, newly, n);
      rest := rest - {n};
      ready := Requeue(impact, ready, newly);
    }
    NothingReady(ready, Available(rest, edges));
  }

  method Requeue(impact: map<Node, int>, ready: seq<Node>, newly: seq<Node>) returns (ready': seq<Node>)
    requires Sorted(ByKey(impact), ready) && NoDup(ready + newly)
    ensures IsReady(impact, ready', Elems(ready + newly))
  {
    if newly != [] {
      SortIsReady(impact, ready + newly);
      ready' := Sort(ByKey(impact), ready + newly);
    } else {
      assert ready + newly == ready;
      ready' := ready;
    }
  }

  lemma NothingReady(ready: seq<Node>, avail: set<Node>)
    requires ready == [] && Elems(ready) == avail
    ensures avail == {}
  {}

  lemma KahnFirst(rest: set<Node>, edges: Edges, impact: map<Node, int>)
    requires Available(rest, edges) != {}
    ensures var n := Least(impact, Available(rest, edges));
            Kahn(rest, edges, impact) == [n] + Kahn(rest - {n}, edges, impact)
  {}

  lemma KahnStep(rest: set<Node>, edges: Edges, impact: map<Node, int>, order: seq<Node>)
    requires Available(rest, edges) != {}
    ensures var n := Least(impact, Available(rest, edges));
            order + Kahn(rest, edges, impact) == (order + [n]) + Kahn(rest - {n}, edges, impact)
  {
    KahnFirst(rest, edges, impact);
    var n := Least(impact, Available(rest, edges));
    Regroup(order, n, Kahn(rest, edges, impact), Kahn(rest - {n}, edges, impact));
  }

  lemma Regroup(order: seq<Node>, n: Node, all: seq<Node>, tail: seq<Node>)
    requires all == [n] + tail
    ensures order + all == (order + [n]) + tail
  {}

  /** The whole of topological_order. */
  method TopologicalOrder(ids: seq<Node>, arcs: seq<Arc>, impact: map<Node, int>)
    returns (order: seq<Node>, hasCycle: bool, cycleNodes: seq<Node>)
    ensures order == OrderOf(ids, arcs, impact)
    ensures cycleNodes == CyclePart(ids, arcs, impact)
    ensures hasCycle <==> cycleNodes != []
  {
    var nodes := set n | n in ids;
    ghost var edges := EdgesOf(nodes, arcs);
    assert nodes == Elems(ids);
    EdgesWithin(ids, arcs);
    var adj, indeg := BuildGraph(nodes, arcs);
    var initial := SetToSeq(set n | n in nodes && indeg[n] == 0);
    assert Elems(initial) == Available(nodes, edges);
    SortIsReady(impact, initial);
    order := KahnLoop(nodes, edges, impact, adj, indeg, Sort(ByKey(impact), initial));
    var emitted := set n | n in order;
    assert emitted == Elems(order);
    cycleNodes := Sort(ByKey(impact), NotIn(ids, emitted));
    hasCycle := cycleNodes != [];
    order := order + cycleNodes;
  }

  lemma StillAvailable(rest: set<Node>, edges: Edges, ready: seq<Node>, newly: seq<Node>, n: Node)
    requires n in Available(rest, edges)
    requires NoDup(ready) && Elems(ready) == Available(rest, edges) - {n}
    requires NoDup(newly) && Elems(newly) == Available(rest - {n}, edges) - Available(rest, edges)
    ensures NoDup(ready + newly) && Elems(ready + newly) == Available(rest - {n}, edges)
  {
    var avail, avail' := Available(rest, edges), Available(rest - {n}, edges);
    assert Elems(ready + newly) == Elems(ready) + Elems(newly);
    forall b | b in avail - {n} ensures b in avail' {
      assert Preds(edges, rest - {n}, b) <= Preds(edges, rest, b);
    }
    assert avail' == (avail - {n}) + (avail' - avail);
    var r := ready + newly;
    forall i, j | 0 <= i < j < |r| ensures r[i] != r[j] {
      if i < |ready| <= j {
        assert r[i] in Elems(ready) && r[j] in Elems(newly);
      }
    }
  }
}
