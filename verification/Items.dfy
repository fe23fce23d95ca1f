/** Status changes of items with their audit events (app/items/service.py), and blocking
    derived from the relationship graph (app/items/graph.py). */
module Items {
  import opened Options
  import opened Sorting
  import opened Lifecycle

  type Id = nat

  datatype Relation = Blocks | Requires | Conflicts | Related | PartOf

  /** A row of item_relationships; the three columns together are its primary key. */
  datatype Rel = Rel(source: Id, target: Id, relation: Relation)

  /** `refs` is source_refs, where a closing commit is noted. */
  datatype Item = Item(title: string, status: Status, closedAt: Option<int>, refs: map<string, string>)

  datatype Event =
    | StatusChanged(item: Id, actor: string, from: Status, to: Status)
    | Closed(item: Id, actor: string, status: Status, why: Closing)
    | Reopened(item: Id, actor: string, from: Status)
    | UnblockedBy(item: Id, actor: string, closer: Id, title: string)

  /** What may be said on closing an item. */
  datatype Closing = Closing(reason: Option<string>, commit: Option<string>)

  datatype Error = UseClose | NotTerminal | InvalidTransition

  datatype State = State(items: map<Id, Item>, rels: seq<Rel>, events: seq<Event>)

  // ----- queries over the graph -----

  predicate Open(st: State, i: Id) {
    i in st.items && !Terminal(st.items[i].status)
  }

  /** An arc of the table that makes `t` wait for the open item `s`. */
  predicate OpenBlocker(st: State, s: Id, t: Id) {
    Rel(s, t, Blocks) in st.rels && Open(st, s)
  }

  function BlockersOf(st: State, t: Id): set<Id> {
    set r | r in st.rels && r.target == t && r.relation == Blocks && Open(st, r.source) :: r.source
  }

  /** graph_blocked_ids without a project filter. */
  function GraphBlocked(st: State): set<Id> {
    set r | r in st.rels && r.relation == Blocks && Open(st, r.source) && Open(st, r.target) :: r.target
  }

  predicate Frees(st: State, x: Id, r: Rel) {
    && r.source == x && r.relation == Blocks
    && Open(st, r.target)
    && forall r2 | r2 in st.rels ::
         !(r2.target == r.target && r2.relation == Blocks && r2.source != x && Open(st, r2.source))
  }

  function FreedTargets(st: State, x: Id, rels: seq<Rel>): (r: seq<Id>)
    ensures forall t :: t in r <==> exists rel :: rel in rels && rel.target == t && Frees(st, x, rel)
  {
    if rels == [] then []
    else (if Frees(st, x, rels[0]) then [rels[0].target] else []) + FreedTargets(st, x, rels[1..])
  }

  /** unblocked_by: one result row per arc of the table that matches. */
  function UnblockedByQuery(st: State, x: Id): seq<Id> {
    FreedTargets(st, x, st.rels)
  }

  // ----- the three mutations -----

  function TransitionStep(st: State, i: Id, to: Status, actor: string): (State, Result<(), Error>)
    requires i in st.items
  {
    var was := st.items[i];
    if Terminal(to) then (st, Err(UseClose))
    else if !ValidTransition(was.status, to) then (st, Err(InvalidTransition))
    else if was.status == to then (st, Ok(()))
    else
      var item := was.(status := to, closedAt := if Terminal(was.status) then None else was.closedAt);
      (State(st.items[i := item], st.rels, st.events + [StatusChanged(i, actor, was.status, to)]), Ok(()))
  }

  function ReopenStep(st: State, i: Id, actor: string): (State, Result<(), Error>)
    requires i in st.items
  {
    var was := st.items[i];
    if !Terminal(was.status) then (st, Err(NotTerminal))
    else
      (State(st.items[i := was.(status := Backlog, closedAt := None)], st.rels,
             st.events + [Reopened(i, actor, was.status)]),
       Ok(()))
  }

  function UnblockEvents(ts: seq<Id>, actor: string, closer: Id, title: string): (r: seq<Event>)
    ensures |r| == |ts| && forall k | 0 <= k < |r| :: r[k] == UnblockedBy(ts[k], actor, closer, title)
  {
    seq(|ts|, k requires 0 <= k < |ts| => UnblockedBy(ts[k], actor, closer, title))
  }

  /** A commit that is given, and not empty, is noted among the refs; the others stay. */
  function ClosedItem(was: Item, status: Status, why: Closing, now: int): Item {
    was.(status := status, closedAt := Some(now),
         refs := if why.commit.Some? && why.commit.value != "" then was.refs["commit_sha" := why.commit.value]
                 else was.refs)
  }

  /** The state in which close_item asks what it freed. */
  function MidClose(st: State, i: Id, status: Status, why: Closing, actor: string, now: int): State
    requires i in st.items
  {
    State(st.items[i := ClosedItem(st.items[i], status, why, now)], st.rels,
          st.events + [Closed(i, actor, status, why)])
  }

  function CloseStep(st: State, i: Id, status: Status, why: Closing, actor: string, now: int)
    : (State, Result<seq<Id>, Error>)
    requires i in st.items
  {
    if !Terminal(status) then (st, Err(NotTerminal))
    else if !ValidTransition(st.items[i].status, status) then (st, Err(InvalidTransition))
    else
      var mid := MidClose(st, i, status, why, actor, now);
      var freed := UnblockedByQuery(mid, i);
      (mid.(events := mid.events + UnblockEvents(freed, actor, i, st.items[i].title)), Ok(freed))
  }

  // ----- closing reports exactly what it freed -----

  lemma {:induction false} FreedOnce(st: State, x: Id, rels: seq<Rel>)
    requires NoDup(rels)
    ensures NoDup(FreedTargets(st, x, rels))
  {
    if rels != [] {
      FreedOnce(st, x, rels[1..]);
      assert rels == [rels[0]] + rels[1..];
      var tail := FreedTargets(st, x, rels[1..]);
      if Frees(st, x, rels[0]) && rels[0].target in tail {
        var rel :| rel in rels[1..] && rel.target == rels[0].target && Frees(st, x, rel);
        assert rel == rels[0];
      }
    }
  }

  /** After any successful close of `x`: no repeats, and the query over the new state agrees with
      recomputing the blocked set on both states, provided that every open item which `x`
      blocks and nothing else open blocks was blocked before - that is, `x` was open or there
      is no such item. */
  lemma CloseReport(st: State, x: Id, status: Status, why: Closing, actor: string, now: int)
    requires NoDup(st.rels) && x in st.items
    requires CloseStep(st, x, status, why, actor, now).1.Ok?
    ensures var (st', r) := CloseStep(st, x, status, why, actor, now);
            NoDup(r.value) &&
            (Elems(r.value) == GraphBlocked(st) - GraphBlocked(st') - {x}
             <==> Open(st, x) || forall t | Rel(x, t, Blocks) in st.rels && t != x && Open(st, t) ::
                                   exists s :: s != x && OpenBlocker(st, s, t))
  {
    var (st', r) := CloseStep(st, x, status, why, actor, now);
    var mid := MidClose(st, x, status, why, actor, now);
    FreedOnce(mid, x, st.rels);
    assert forall i :: Open(st', i) <==> Open(st, i) && i != x;
    assert forall i :: Open(mid, i) <==> Open(st', i);
    forall t ensures t in r.value <==> FreedAt(st, x, t) {
      FreedMeaning(st, mid, x, t);
    }
    forall t ensures t in GraphBlocked(st) - GraphBlocked(st') - {x} <==> Open(st, x) && FreedAt(st, x, t) {
      BlockedMeaning(st, t);
      BlockedMeaning(st', t);
      if Open(st, x) && FreedAt(st, x, t) {
        assert OpenBlocker(st, x, t);
      }
      if t in GraphBlocked(st) && t !in GraphBlocked(st') && t != x {
        var s :| OpenBlocker(st, s, t);
        assert !OpenBlocker(st', s, t);
        forall s' | s' != x ensures !OpenBlocker(st, s', t) {
          assert !OpenBlocker(st', s', t);
        }
      }
      if t in GraphBlocked(st') {
        var s :| OpenBlocker(st', s, t);
        assert OpenBlocker(st, s, t);
      }
    }
    if !Open(st, x) && Elems(r.value) == GraphBlocked(st) - GraphBlocked(st') - {x} {
      forall t | Rel(x, t, Blocks) in st.rels && t != x && Open(st, t)
        ensures exists s :: s != x && OpenBlocker(st, s, t)
      {
        assert t !in Elems(r.value);
      }
    }
  }

  /** `t` is another open item that `x` blocks and no other open item blocks. */
  ghost predicate FreedAt(st: State, x: Id, t: Id) {
    Rel(x, t, Blocks) in st.rels && t != x && Open(st, t) && forall s | s != x :: !OpenBlocker(st, s, t)
  }

  lemma BlockedMeaning(st: State, t: Id)
    ensures t in GraphBlocked(st) <==> Open(st, t) && exists s :: OpenBlocker(st, s, t)
    ensures t in GraphBlocked(st) <==> Open(st, t) && BlockersOf(st, t) != {}
  {
    if r :| r in st.rels && r.relation == Blocks && Open(st, r.source) && Open(st, r.target) && r.target == t {
      assert r == Rel(r.source, t, Blocks);
      assert OpenBlocker(st, r.source, t);
      assert r.source in BlockersOf(st, t);
    }
    if Open(st, t) && BlockersOf(st, t) != {} {
      var s :| s in BlockersOf(st, t);
      var r :| r in st.rels && r.target == t && r.relation == Blocks && Open(st, r.source) && r.source == s;
      assert r == Rel(s, t, Blocks);
      assert OpenBlocker(st, s, t);
    }
    if s :| Open(st, t) && OpenBlocker(st, s, t) {
      assert Rel(s, t, Blocks).target in GraphBlocked(st);
    }
  }

  lemma FreedMeaning(st: State, mid: State, x: Id, t: Id)
    requires mid.rels == st.rels
    requires forall i :: Open(mid, i) <==> Open(st, i) && i != x
    ensures t in UnblockedByQuery(mid, x) <==> FreedAt(st, x, t)
  {
    if rel :| rel in st.rels && rel.target == t && Frees(mid, x, rel) {
      assert rel == Rel(x, t, Blocks);
      forall s | s != x ensures !OpenBlocker(st, s, t) {
        assert Rel(s, t, Blocks) in mid.rels ==> !Open(mid, s);
      }
    }
    if FreedAt(st, x, t) {
      forall r2 | r2 in mid.rels
        ensures !(r2.target == t && r2.relation == Blocks && r2.source != x && Open(mid, r2.source))
      {
        if r2.target == t && r2.relation == Blocks && r2.source != x {
          assert r2 == Rel(r2.source, t, Blocks);
          assert !OpenBlocker(st, r2.source, t);
        }
      }
      assert Frees(mid, x, Rel(x, t, Blocks));
    }
  }

  /** The promise as documented: closing an open item. */
  lemma ClosingOpenItemReportsFreed(st: State, x: Id, status: Status, why: Closing, actor: string, now: int)
    requires NoDup(st.rels) && Open(st, x)
    requires CloseStep(st, x, status, why, actor, now).1.Ok?
    ensures var (st', r) := CloseStep(st, x, status, why, actor, now);
            NoDup(r.value) && Elems(r.value) == GraphBlocked(st) - GraphBlocked(st') - {x}
  {
    CloseReport(st, x, status, why, actor, now);
  }

  /** Closing an item that is closed already reports items nothing was blocking. */
  lemma RecloseMisreports()
    ensures CloseStep(ClosedBlocker(), 0, Done, Closing(None, None), "", 2).1 == Ok([1])
    ensures 1 !in GraphBlocked(ClosedBlocker())
  {
    var st := ClosedBlocker();
    var mid := MidClose(st, 0, Done, Closing(None, None), "", 2);
    assert Frees(mid, 0, mid.rels[0]);
    assert FreedTargets(mid, 0, mid.rels[1..]) == [];
    assert UnblockedByQuery(mid, 0) == [1];
    BlockedMeaning(st, 1);
  }

  /** An item done that blocks one in the backlog. */
  function ClosedBlocker(): State {
    State(map[0 := Item("a", Done, Some(1), map[]), 1 := Item("b", Backlog, None, map[])], [Rel(0, 1, Blocks)], [])
  }

  // ----- every run -----

  datatype Op =
    | DoTransition(item: Id, to: Status, actor: string)
    | DoClose(item: Id, status: Status, why: Closing, actor: string, now: int)
    | DoReopen(item: Id, actor: string)

  /** One request; an unknown item is turned away by every caller. */
  function Step(st: State, op: Op): State {
    if op.item !in st.items then st
    else
      match op
      case DoTransition(i, to, actor) => TransitionStep(st, i, to, actor).0
      case DoClose(i, status, why, actor, now) => CloseStep(st, i, status, why, actor, now).0
      case DoReopen(i, actor) => ReopenStep(st, i, actor).0
  }

  /** The status a request asks for, and whether an item in status `from` may get it that way. */
  function Target(op: Op): Status {
    match op
    case DoTransition(_, to, _) => to
    case DoClose(_, status, _, _, _) => status
    case DoReopen(_, _) => Backlog
  }

  predicate Accepts(from: Status, op: Op) {
    && ValidTransition(from, Target(op))
    && (op.DoClose? <==> Terminal(Target(op)))
    && (op.DoReopen? ==> Terminal(from))
  }

  /** What a granted request makes of its item: the status asked for; on closing the time, and
      the commit if one is named, among the other references; on leaving a closed status no
      closing time; the title stays. */
  predicate Granted(was: Item, op: Op, item: Item) {
    && item.title == was.title && item.status == Target(op)
    && (op.DoClose? ==> item.closedAt == Some(op.now))
    && (!op.DoClose? ==> item.closedAt == if Terminal(was.status) then None else was.closedAt)
    && (op.DoClose? && op.why.commit.Some? && op.why.commit.value != "" ==>
          && item.refs.Keys == was.refs.Keys + {"commit_sha"} && item.refs["commit_sha"] == op.why.commit.value
          && forall k | k in was.refs && k != "commit_sha" :: item.refs[k] == was.refs[k])
    && (op.DoClose? && (op.why.commit.None? || op.why.commit.value == "") ==> item.refs == was.refs)
    && (!op.DoClose? ==> item.refs == was.refs)
  }

  /** A request is granted exactly when the table and the kind of request allow it; then its
      item changes as asked and no other row does. Refused, it changes nothing. */
  lemma RequestOutcome(st: State, op: Op)
    requires op.item in st.items
    ensures var st' := Step(st, op);
            if Accepts(st.items[op.item].status, op)
            then && st'.items == st.items[op.item := st'.items[op.item]] && st'.rels == st.rels
                 && Granted(st.items[op.item], op, st'.items[op.item])
                 && (op.DoTransition? && op.to == st.items[op.item].status <==> st'.events == st.events)
            else st' == st
  {
    var st' := Step(st, op);
    if op.DoClose? && Accepts(st.items[op.item].status, op) {
      assert |st'.events| > |st.events|;
    }
  }

  /** Why a request is refused. */
  lemma RefusedBecause(st: State, i: Id, to: Status, why: Closing, actor: string, now: int)
    requires i in st.items
    ensures TransitionStep(st, i, to, actor).1 == Err(UseClose) <==> Terminal(to)
    ensures TransitionStep(st, i, to, actor).1 == Err(InvalidTransition) <==>
            !Terminal(to) && !ValidTransition(st.items[i].status, to)
    ensures CloseStep(st, i, to, why, actor, now).1 == Err(NotTerminal) <==> !Terminal(to)
    ensures CloseStep(st, i, to, why, actor, now).1 == Err(InvalidTransition) <==>
            Terminal(to) && !ValidTransition(st.items[i].status, to)
    ensures ReopenStep(st, i, actor).1 == Err(NotTerminal) <==> !Terminal(st.items[i].status)
  {}

  /** `after` is `before`, then one event `e`, then one for each freed item with who freed it. */
  ghost predicate Recorded(before: seq<Event>, after: seq<Event>, e: Event, freed: seq<Id>, actor: string, closer: Id,
                           title: string) {
    && |after| == |before| + 1 + |freed| && before <= after && after[|before|] == e
    && forall h | 0 <= h < |freed| :: after[|before| + 1 + h] == UnblockedBy(freed[h], actor, closer, title)
  }

  /** What a close records: itself with its reason, and what it freed. */
  lemma CloseRecords(st: State, k: Id, status: Status, why: Closing, actor: string, now: int)
    requires k in st.items && CloseStep(st, k, status, why, actor, now).1.Ok?
    ensures var (st', r) := CloseStep(st, k, status, why, actor, now);
            Recorded(st.events, st'.events, Closed(k, actor, status, why), r.value, actor, k, st.items[k].title)
  {
    var (st', r) := CloseStep(st, k, status, why, actor, now);
    CloseWrites(st, k, status, why, actor, now);
    TrailEntries(st.events, Closed(k, actor, status, why), r.value, actor, k, st.items[k].title, st'.events);
  }

  lemma TrailEntries(before: seq<Event>, e: Event, freed: seq<Id>, actor: string, closer: Id, title: string,
                     after: seq<Event>)
    requires after == before + ([e] + UnblockEvents(freed, actor, closer, title))
    ensures Recorded(before, after, e, freed, actor, closer, title)
  {
    var tail := UnblockEvents(freed, actor, closer, title);
    forall h | 0 <= h < |freed| ensures after[|before| + 1 + h] == tail[h] {}
  }

  /** Reopening a closed item leaves the same row as moving it to backlog. */
  lemma ReopenIsMoveToBacklog(st: State, i: Id, actor: string)
    requires i in st.items && Terminal(st.items[i].status)
    ensures ReopenStep(st, i, actor).1.Ok? && TransitionStep(st, i, Backlog, actor).1.Ok?
    ensures ReopenStep(st, i, actor).0.items == TransitionStep(st, i, Backlog, actor).0.items
  {}

  /** Closing an open item frees some items; reopening it blocks exactly those again. */
  lemma ReopenRestoresBlocking(st: State, x: Id, status: Status, why: Closing, actor: string, now: int)
    requires Open(st, x) && CloseStep(st, x, status, why, actor, now).1.Ok?
    ensures var closed := CloseStep(st, x, status, why, actor, now).0;
            && x in closed.items && ReopenStep(closed, x, actor).1.Ok?
            && GraphBlocked(closed) <= GraphBlocked(st)
            && GraphBlocked(ReopenStep(closed, x, actor).0) == GraphBlocked(st)
  {
    var closed := CloseStep(st, x, status, why, actor, now).0;
    var back := ReopenStep(closed, x, actor).0;
    assert forall i :: Open(closed, i) ==> Open(st, i);
    assert forall i :: Open(back, i) <==> Open(st, i);
  }

  function Run(st: State, ops: seq<Op>): State
    decreases |ops|
  {
    if ops == [] then st else Run(Step(st, ops[0]), ops[1..])
  }

  ghost predicate ClosedAtMatches(st: State) {
    forall i | i in st.items :: st.items[i].closedAt.Some? <==> Terminal(st.items[i].status)
  }

  /** Replaying the audit trail of item `i`: None once an event does not fit, i.e. records a
      status the item was not in, or a change that is neither in the table nor a re-close. */
  function Replay(events: seq<Event>, i: Id, s: Status): Option<Status> {
    if events == [] then Some(s)
    else
      var e, rest := events[0], events[1..];
      if e.item != i || e.UnblockedBy? then Replay(rest, i, s)
      else
        match e
        case StatusChanged(_, _, from, to) =>
          if from == s && to in Transitions(s) then Replay(rest, i, to) else None
        case Closed(_, _, to, _) =>
          if Terminal(to) && (to in Transitions(s) || to == s) then Replay(rest, i, to) else None
        case Reopened(_, _, from) =>
          if from == s && Terminal(s) && Backlog in Transitions(s) then Replay(rest, i, Backlog) else None
  }

  lemma {:induction false} ReplayAppend(a: seq<Event>, b: seq<Event>, i: Id, s: Status)
    ensures Replay(a + b, i, s) ==
            if Replay(a, i, s).Some? then Replay(b, i, Replay(a, i, s).value) else None
  {
    if a == [] {
      assert a + b == b;
    } else {
      assert (a + b)[0] == a[0] && (a + b)[1..] == a[1..] + b;
      var e := a[0];
      ReplayAppend(a[1..], b, i, s);
      if !e.UnblockedBy? {
        ReplayAppend(a[1..], b, i, if e.StatusChanged? then e.to else if e.Closed? then e.status else Backlog);
      }
    }
  }

  lemma {:induction false} ReplayUnblocks(ts: seq<Id>, actor: string, closer: Id, title: string, i: Id, s: Status)
    ensures Replay(UnblockEvents(ts, actor, closer, title), i, s) == Some(s)
  {
    if ts != [] {
      ReplayUnblocks(ts[1..], actor, closer, title, i, s);
      assert UnblockEvents(ts, actor, closer, title)[1..] == UnblockEvents(ts[1..], actor, closer, title);
    }
  }

  lemma TransitionReplays(st: State, k: Id, to: Status, actor: string, i: Id) returns (added: seq<Event>)
    requires k in st.items && i in st.items
    ensures var st' := TransitionStep(st, k, to, actor).0;
            && i in st'.items && st'.events == st.events + added
            && Replay(added, i, st.items[i].status) == Some(st'.items[i].status)
  {
    var was := st.items[k].status;
    added := if Terminal(to) || was == to || !ValidTransition(was, to) then [] else [StatusChanged(k, actor, was, to)];
  }

  lemma ReopenReplays(st: State, k: Id, actor: string, i: Id) returns (added: seq<Event>)
    requires k in st.items && i in st.items
    ensures var st' := ReopenStep(st, k, actor).0;
            && i in st'.items && st'.events == st.events + added
            && Replay(added, i, st.items[i].status) == Some(st'.items[i].status)
  {
    added := if Terminal(st.items[k].status) then [Reopened(k, actor, st.items[k].status)] else [];
  }

  lemma ReplayClosed(e: Event, i: Id, s: Status)
    requires e.Closed? && (e.item == i ==> Terminal(e.status) && ValidTransition(s, e.status))
    ensures Replay([e], i, s) == Some(if e.item == i then e.status else s)
  {}

  lemma CloseTrail(e: Event, freed: seq<Id>, actor: string, k: Id, title: string, i: Id, s: Status)
    requires e.Closed? && (e.item == i ==> Terminal(e.status) && ValidTransition(s, e.status))
    ensures Replay([e] + UnblockEvents(freed, actor, k, title), i, s) == Some(if e.item == i then e.status else s)
  {
    ReplayClosed(e, i, s);
    ReplayUnblocks(freed, actor, k, title, i, if e.item == i then e.status else s);
    ReplayAppend([e], UnblockEvents(freed, actor, k, title), i, s);
  }

  lemma CloseWrites(st: State, k: Id, status: Status, why: Closing, actor: string, now: int)
    requires k in st.items && CloseStep(st, k, status, why, actor, now).1.Ok?
    ensures var (st', r) := CloseStep(st, k, status, why, actor, now);
            && Terminal(status) && ValidTransition(st.items[k].status, status)
            && st'.items == st.items[k := ClosedItem(st.items[k], status, why, now)]
            && st'.events == st.events +
               ([Closed(k, actor, status, why)] + UnblockEvents(r.value, actor, k, st.items[k].title))
  {
    var (st', r) := CloseStep(st, k, status, why, actor, now);
    AppendTwice(st.events, [Closed(k, actor, status, why)], UnblockEvents(r.value, actor, k, st.items[k].title));
  }

  lemma AppendTwice(a: seq<Event>, b: seq<Event>, c: seq<Event>)
    ensures (a + b) + c == a + (b + c)
  {}

  lemma CloseReplays(st: State, k: Id, status: Status, why: Closing, actor: string, now: int, i: Id)
    returns (added: seq<Event>)
    requires k in st.items && i in st.items
    ensures var st' := CloseStep(st, k, status, why, actor, now).0;
            && i in st'.items && st'.events == st.events + added
            && Replay(added, i, st.items[i].status) == Some(st'.items[i].status)
  {
    var r := CloseStep(st, k, status, why, actor, now).1;
    if r.Err? {
      added := [];
    } else {
      var e := Closed(k, actor, status, why);
      added := [e] + UnblockEvents(r.value, actor, k, st.items[k].title);
      CloseWrites(st, k, status, why, actor, now);
      CloseTrail(e, r.value, actor, k, st.items[k].title, i, st.items[i].status);
    }
  }

  /** What one request appends to the trail replays from the old status to the new one. */
  lemma StepReplays(st: State, op: Op, i: Id) returns (added: seq<Event>)
    requires i in st.items
    ensures i in Step(st, op).items
    ensures Step(st, op).events == st.events + added
    ensures Replay(added, i, st.items[i].status) == Some(Step(st, op).items[i].status)
  {
    if op.item !in st.items {
      added := [];
    } else {
      match op
      case DoTransition(k, to, actor) => added := TransitionReplays(st, k, to, actor, i);
      case DoClose(k, status, why, actor, now) => added := CloseReplays(st, k, status, why, actor, now, i);
      case DoReopen(k, actor) => added := ReopenReplays(st, k, actor, i);
    }
  }

  /** In every run: closed_at is set exactly on terminal items, and the audit trail replays
      from the initial status to the current one through legal changes only. */
  lemma {:induction false} RunIsAudited(st: State, ops: seq<Op>, i: Id)
    requires i in st.items && ClosedAtMatches(st)
    ensures var st' := Run(st, ops);
            i in st'.items && ClosedAtMatches(st') &&
            st.events <= st'.events &&
            Replay(st'.events[|st.events|..], i, st.items[i].status) == Some(st'.items[i].status)
    decreases |ops|
  {
    if ops == [] {
      assert st.events[|st.events|..] == [];
    } else {
      var mid := Step(st, ops[0]);
      var added := StepReplays(st, ops[0], i);
      StepKeepsClosedAt(st, ops[0]);
      RunIsAudited(mid, ops[1..], i);
      TrailsJoin(st.events, added, Run(mid, ops[1..]).events, i, st.items[i].status);
    }
  }

  lemma StepKeepsClosedAt(st: State, op: Op)
    requires ClosedAtMatches(st)
    ensures ClosedAtMatches(Step(st, op))
  {}

  lemma TrailsJoin(before: seq<Event>, added: seq<Event>, after: seq<Event>, i: Id, s: Status)
    requires before + added <= after
    ensures before <= after
    ensures Replay(after[|before|..], i, s) ==
            var mid := Replay(added, i, s);
            if mid.Some? then Replay(after[|before + added|..], i, mid.value) else None
  {
    assert after[|before|..] == added + after[|before + added|..];
    ReplayAppend(added, after[|before + added|..], i, s);
  }

  // ----- the service, updating rows in place -----

  class ItemService {
    var items: map<Id, Item>
    const rels: seq<Rel>
    var events: seq<Event>

    ghost function Contents(): State
      reads this
    {
      State(items, rels, events)
    }

    constructor (items: map<Id, Item>, rels: seq<Rel>)
      ensures Contents() == State(items, rels, [])
    {
      this.items, this.rels, this.events := items, rels, [];
    }

    method ApplyTransition(i: Id, to: Status, actor: string) returns (r: Result<(), Error>)
      requires i in items
      modifies this
      ensures (Contents(), r) == TransitionStep(old(Contents()), i, to, actor)
    {
      if Terminal(to) {
        return Err(UseClose);
      }
      if !ValidTransition(items[i].status, to) {
        return Err(InvalidTransition);
      }
      var was := items[i].status;
      if was != to {
        items := items[i := items[i].(status := to)];
        if Terminal(was) {
          items := items[i := items[i].(closedAt := None)];
        }
        assert items == TransitionStep(old(Contents()), i, to, actor).0.items;
        events := events + [StatusChanged(i, actor, was, to)];
      }
      r := Ok(());
    }

    method CloseItem(i: Id, status: Status, why: Closing, actor: string, now: int) returns (r: Result<seq<Id>, Error>)
      requires i in items
      modifies this
      ensures (Contents(), r) == CloseStep(old(Contents()), i, status, why, actor, now)
    {
      if !Terminal(status) {
        return Err(NotTerminal);
      }
      if !ValidTransition(items[i].status, status) {
        return Err(InvalidTransition);
      }
      items := items[i := items[i].(status := status)];
      items := items[i := items[i].(closedAt := Some(now))];
      if why.commit.Some? && why.commit.value != "" {
        items := items[i := items[i].(refs := items[i].refs["commit_sha" := why.commit.value])];
      }
      events := events + [Closed(i, actor, status, why)];
      assert items == MidClose(old(Contents()), i, status, why, actor, now).items;
      var unblocked := UnblockedByQuery(State(items, rels, events), i);
      RecordUnblocked(unblocked, actor, i);
      r := Ok(unblocked);
    }

    /** One event for each freed item. */
    method RecordUnblocked(unblocked: seq<Id>, actor: string, i: Id)
      requires i in items
      modifies this`events
      ensures events == old(events) + UnblockEvents(unblocked, actor, i, items[i].title)
    {
      var title := items[i].title;
      for k := 0 to |unblocked|
        invariant events == old(events) + UnblockEvents(unblocked[..k], actor, i, title)
      {
        events := events + [UnblockedBy(unblocked[k], actor, i, title)];
        assert UnblockEvents(unblocked[..k + 1], actor, i, title) ==
               UnblockEvents(unblocked[..k], actor, i, title) + [UnblockedBy(unblocked[k], actor, i, title)];
      }
      assert unblocked[..|unblocked|] == unblocked;
    }

    method ReopenItem(i: Id, actor: string) returns (r: Result<(), Error>)
      requires i in items
      modifies this
      ensures (Contents(), r) == ReopenStep(old(Contents()), i, actor)
    {
      if !Terminal(items[i].status) {
        return Err(NotTerminal);
      }
      var was := items[i].status;
      items := items[i := items[i].(status := Backlog)];
      items := items[i := items[i].(closedAt := None)];
      assert items == ReopenStep(old(Contents()), i, actor).0.items;
      events := events + [Reopened(i, actor, was)];
      r := Ok(());
    }
  }
}
