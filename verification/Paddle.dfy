/** The subscription mirror of app/accounts/plans.py: each Paddle webhook overwrites one row
    unless it is older than what the row already reflects. */
module Paddle {
  import opened AccountPlans
  import opened Options

  datatype Status = Active | Suspended | Canceled

  /** The mirrored columns of account_subscriptions. */
  datatype Row = Row(plan: Plan, status: Status, subscription: Option<string>, customer: Option<string>,
                     eventAt: Option<int>)

  datatype Event = Event(plan: Plan, paddleStatus: string, subscription: string, customer: Option<string>, at: int)

  datatype Outcome = UnknownStatus | StaleEvent | Applied(plan: Plan, status: Status)

  function PaddleStatus(s: string): Option<Status> {
    if s == "active" || s == "trialing" || s == "past_due" then Some(Active)
    else if s == "paused" then Some(Suspended)
    else if s == "canceled" then Some(Canceled)
    else None
  }

  predicate Known(e: Event) {
    PaddleStatus(e.paddleStatus).Some?
  }

  predicate IsCancellation(e: Event) {
    PaddleStatus(e.paddleStatus) == Some(Canceled)
  }

  predicate Stale(row: Option<Row>, e: Event) {
    row.Some? && row.value.eventAt.Some? && row.value.eventAt.value >= e.at
  }

  function Pointer(row: Option<Row>): Option<string> {
    if row.Some? then row.value.subscription else None
  }

  function PointerAfter(before: Option<string>, e: Event): Option<string> {
    if !IsCancellation(e) then Some(e.subscription)
    else if before == Some(e.subscription) then None
    else before
  }

  /** One delivery of `e`, with what the source returns for its log. */
  function Deliver(row: Option<Row>, e: Event): (Option<Row>, Outcome) {
    if !Known(e) then (row, UnknownStatus)
    else if Stale(row, e) then (row, StaleEvent)
    else
      var m := Mirror(e);
      (Some(Row(m.plan, m.status, PointerAfter(Pointer(row), e), m.customer, Some(m.at))), Applied(m.plan, m.status))
  }

  /** What an event says about the account, apart from the subscription pointer. */
  datatype Mirrored = Mirrored(plan: Plan, status: Status, customer: Option<string>, at: int)

  function Mirror(e: Event): Mirrored
    requires Known(e)
  {
    if IsCancellation(e) then Mirrored(Free, Active, e.customer, e.at)
    else Mirrored(e.plan, PaddleStatus(e.paddleStatus).value, e.customer, e.at)
  }

  function MirrorOf(row: Row): Option<Mirrored> {
    if row.eventAt.None? then None
    else Some(Mirrored(row.plan, row.status, row.customer, row.eventAt.value))
  }

  function Run(row: Option<Row>, es: seq<Event>): Option<Row> {
    if es == [] then row else Deliver(Run(row, es[..|es| - 1]), es[|es| - 1]).0
  }

  // ----- what the row says after any deliveries -----

  /** The row has not mirrored any event yet: no row, or one created at signup. */
  predicate Untouched(row: Option<Row>) {
    row.None? || (row.value.eventAt.None? && row.value.subscription.None?)
  }

  /** `es[k]` is a known-status delivery none is newer than, and the first such. */
  ghost predicate FirstNewest(es: seq<Event>, k: nat) {
    && k < |es| && Known(es[k])
    && (forall j | 0 <= j < |es| && Known(es[j]) :: es[j].at <= es[k].at)
    && (forall j | 0 <= j < k && Known(es[j]) :: es[j].at < es[k].at)
  }

  ghost function Winner(es: seq<Event>): Option<nat> {
    if es == [] then None
    else
      var n := |es| - 1;
      var w := Winner(es[..n]);
      if Known(es[n]) && (w.None? || w.value >= n || es[w.value].at < es[n].at) then Some(n) else w
  }

  lemma {:induction false} WinnerIsFirstNewest(es: seq<Event>)
    ensures Winner(es).None? ==> forall j | 0 <= j < |es| :: !Known(es[j])
    ensures Winner(es).Some? ==> FirstNewest(es, Winner(es).value)
  {
    if es != [] {
      var front := es[..|es| - 1];
      WinnerIsFirstNewest(front);
      assert forall j | 0 <= j < |front| :: es[j] == front[j];
    }
  }

  lemma {:induction false} RunMirrorsWinner(row: Option<Row>, es: seq<Event>)
    requires Untouched(row)
    ensures Winner(es).None? ==> Run(row, es) == row
    ensures Winner(es).Some? ==> Winner(es).value < |es| && Known(es[Winner(es).value]) && Run(row, es).Some? &&
                                 MirrorOf(Run(row, es).value) == Some(Mirror(es[Winner(es).value]))
  {
    if es != [] {
      RunMirrorsWinner(row, es[..|es| - 1]);
    }
  }

  /** The exact result: with no known-status delivery nothing changes; otherwise the row
      mirrors the first delivery among the newest. */
  lemma RunMirrorsFirstNewest(row: Option<Row>, es: seq<Event>, k: nat)
    requires Untouched(row)
    ensures (forall j | 0 <= j < |es| :: !Known(es[j])) ==> Run(row, es) == row
    ensures FirstNewest(es, k) ==> Run(row, es).Some? && MirrorOf(Run(row, es).value) == Some(Mirror(es[k]))
  {
    WinnerIsFirstNewest(es);
    RunMirrorsWinner(row, es);
  }

  /** What an event makes the row say: a cancellation leaves the Free plan, active; any other known
      event its own plan, suspended if it is paused and active otherwise. */
  predicate Says(row: Row, e: Event) {
    && row.eventAt == Some(e.at) && row.customer == e.customer
    && (e.paddleStatus == "canceled" ==> row.plan == Free && row.status == Active)
    && (e.paddleStatus != "canceled" ==> row.plan == e.plan)
    && (e.paddleStatus in ["active", "trialing", "past_due"] ==> row.status == Active)
    && (e.paddleStatus == "paused" ==> row.status == Suspended)
  }

  /** In the row's and the event's own columns: after any deliveries the row says what the first
      of the newest events with one of the five known statuses says. */
  lemma RowSaysFirstNewest(row: Option<Row>, es: seq<Event>, k: nat)
    requires Untouched(row) && k < |es|
    requires es[k].paddleStatus in ["active", "trialing", "past_due", "paused", "canceled"]
    requires forall j | 0 <= j < |es| && Known(es[j]) :: es[j].at < es[k].at || (es[j].at == es[k].at && k <= j)
    ensures Run(row, es).Some? && Says(Run(row, es).value, es[k])
  {
    assert FirstNewest(es, k);
    RunMirrorsFirstNewest(row, es, k);
  }

  /** Only those five are known. */
  lemma KnownStatuses(e: Event)
    ensures Known(e) <==> e.paddleStatus in ["active", "trialing", "past_due", "paused", "canceled"]
  {}

  /** What a delivery returns for the log is what it did. */
  lemma OutcomeTellsRow(row: Option<Row>, e: Event)
    ensures var (r, outcome) := Deliver(row, e);
            match outcome
            case UnknownStatus => r == row && !Known(e)
            case StaleEvent =>
              r == row && Known(e) && row.Some? && row.value.eventAt.Some? && e.at <= row.value.eventAt.value
            case Applied(plan, status) =>
              && r.Some? && r.value.plan == plan && r.value.status == status && Says(r.value, e)
              && (row.Some? && row.value.eventAt.Some? ==> row.value.eventAt.value < e.at)
  {}

  ghost predicate SameDeliveries(es: seq<Event>, fs: seq<Event>) {
    forall e :: e in es <==> e in fs
  }

  /** Deliveries that carry the same time say the same thing. */
  ghost predicate DistinctTimes(es: seq<Event>) {
    forall e, f | e in es && f in es && e.at == f.at :: e == f
  }

  ghost predicate Newest(es: seq<Event>, e: Event) {
    e in es && Known(e) && forall f | f in es && Known(f) :: f.at <= e.at
  }

  ghost predicate SameMirror(a: Option<Row>, b: Option<Row>) {
    (a.None? <==> b.None?) && (a.Some? ==> MirrorOf(a.value) == MirrorOf(b.value))
  }

  /** The newest known-status events agree on what they mirror. */
  ghost predicate NewestAgree(es: seq<Event>) {
    forall e, f | Newest(es, e) && Newest(es, f) :: Mirror(e) == Mirror(f)
  }

  /** The row mirrors one of the newest events, if any has a known status. */
  lemma RunMirrorsANewest(row: Option<Row>, es: seq<Event>) returns (w: Option<Event>)
    requires Untouched(row)
    ensures w.None? ==> Run(row, es) == row && forall e | e in es :: !Known(e)
    ensures w.Some? ==>
              Newest(es, w.value) && Run(row, es).Some? && MirrorOf(Run(row, es).value) == Some(Mirror(w.value))
  {
    WinnerIsFirstNewest(es);
    RunMirrorsWinner(row, es);
    w := if Winner(es).None? then None else Some(es[Winner(es).value]);
  }

  lemma AgreeingNewestConverge(row: Option<Row>, es: seq<Event>, fs: seq<Event>)
    requires Untouched(row) && SameDeliveries(es, fs) && NewestAgree(es)
    ensures SameMirror(Run(row, es), Run(row, fs))
  {
    var v := RunMirrorsANewest(row, es);
    var w := RunMirrorsANewest(row, fs);
    assert v.Some? ==> v.value in fs;
    assert w.Some? ==> Newest(es, w.value);
  }

  /** Last writer wins whatever the order and the repeats: two histories of the same events
      with distinct times leave the same plan, status, customer and event time. */
  lemma DeliveryOrderIrrelevant(row: Option<Row>, es: seq<Event>, fs: seq<Event>)
    requires Untouched(row) && SameDeliveries(es, fs) && DistinctTimes(es)
    ensures SameMirror(Run(row, es), Run(row, fs))
  {
    AgreeingNewestConverge(row, es, fs);
  }

  ghost predicate OrderIrrelevant(row: Option<Row>, es: seq<Event>) {
    forall fs | SameDeliveries(es, fs) :: SameMirror(Run(row, es), Run(row, fs))
  }

  /** Exactly when the order of delivery cannot matter. */
  lemma OrderIrrelevantIff(row: Option<Row>, es: seq<Event>)
    requires Untouched(row)
    ensures OrderIrrelevant(row, es) <==> NewestAgree(es)
  {
    if NewestAgree(es) {
      forall fs | SameDeliveries(es, fs) ensures SameMirror(Run(row, es), Run(row, fs)) {
        AgreeingNewestConverge(row, es, fs);
      }
    }
    if OrderIrrelevant(row, es) {
      forall e, f | Newest(es, e) && Newest(es, f) ensures Mirror(e) == Mirror(f) {
        NewestDecides(row, es, e);
        NewestDecides(row, es, f);
      }
    }
  }

  lemma NewestDecides(row: Option<Row>, es: seq<Event>, e: Event)
    requires Untouched(row) && OrderIrrelevant(row, es) && Newest(es, e)
    ensures Run(row, es).Some? && MirrorOf(Run(row, es).value) == Some(Mirror(e))
  {
    NewestCanWin(row, es, e);
    assert SameMirror(Run(row, es), Run(row, [e] + es));
  }

  lemma NewestCanWin(row: Option<Row>, es: seq<Event>, e: Event)
    requires Untouched(row) && Newest(es, e)
    ensures SameDeliveries(es, [e] + es)
    ensures Run(row, [e] + es).Some? && MirrorOf(Run(row, [e] + es).value) == Some(Mirror(e))
  {
    var fs := [e] + es;
    forall j | 0 <= j < |fs| && Known(fs[j]) ensures fs[j].at <= e.at {
      assert fs[j] == e || fs[j] in es;
    }
    RunMirrorsFirstNewest(row, fs, 0);
  }

  /** The mirrored event time never goes back. */
  lemma TimeAdvances(row: Option<Row>, e: Event)
    ensures row.Some? && row.value.eventAt.Some? ==>
              var r := Deliver(row, e).0;
              r.Some? && r.value.eventAt.Some? && row.value.eventAt.value <= r.value.eventAt.value
  {}

  /** Delivering an event again changes nothing. */
  lemma {:induction false} RedeliveryIsNoOp(row: Option<Row>, es: seq<Event>, e: Event)
    requires e in es
    ensures Deliver(Run(row, es), e).0 == Run(row, es)
  {
    var n := |es| - 1;
    if es[n] != e {
      assert e in es[..n];
      RedeliveryIsNoOp(row, es[..n], e);
    }
  }

  // ----- the subscription pointer -----

  /** Which deliveries were written to the row. */
  ghost function AppliedFlags(row: Option<Row>, es: seq<Event>): (flags: seq<bool>)
    ensures |flags| == |es|
  {
    if es == [] then []
    else
      var n := |es| - 1;
      AppliedFlags(row, es[..n]) + [Deliver(Run(row, es[..n]), es[n]).1.Applied?]
  }

  /** Delivery `k` set the pointer and nothing applied since cleared or moved it. */
  ghost predicate SetBy(es: seq<Event>, applied: seq<bool>, k: nat)
    requires |applied| == |es|
  {
    && k < |es| && applied[k] && !IsCancellation(es[k])
    && forall j | k < j < |es| && applied[j] :: IsCancellation(es[j]) && es[j].subscription != es[k].subscription
  }

  lemma SetByLast(es: seq<Event>, applied: seq<bool>, k: nat)
    requires es != [] && |applied| == |es|
    ensures var n := |es| - 1;
            SetBy(es, applied, k) <==>
            if k == n then applied[n] && !IsCancellation(es[n])
            else SetBy(es[..n], applied[..n], k) &&
                 (applied[n] ==> IsCancellation(es[n]) && es[n].subscription != es[k].subscription)
  {
    var n := |es| - 1;
    if k < n {
      if SetBy(es, applied, k) {
        forall j | k < j < n && applied[..n][j]
          ensures IsCancellation(es[..n][j]) && es[..n][j].subscription != es[k].subscription
        {
          assert applied[j];
        }
      }
      if SetBy(es[..n], applied[..n], k) {
        forall j | k < j < n && applied[j] ensures IsCancellation(es[j]) && es[j].subscription != es[k].subscription {
          assert applied[..n][j];
        }
      }
    }
  }

  /** The pointer is s exactly when some applied non-cancellation about s is followed only by
      applied cancellations of other subscriptions; so the last applied event about s was not
      a cancellation. */
  lemma {:induction false} PointerExact(row: Option<Row>, es: seq<Event>, s: string)
    requires Untouched(row)
    ensures Pointer(Run(row, es)) == Some(s) <==>
            exists k :: 0 <= k < |es| && SetBy(es, AppliedFlags(row, es), k) && es[k].subscription == s
  {
    if es != [] {
      var n := |es| - 1;
      var applied := AppliedFlags(row, es);
      var front := AppliedFlags(row, es[..n]);
      assert applied[..n] == front;
      PointerExact(row, es[..n], s);
      PointerStep(Run(row, es[..n]), es[n], s);
      if k :| 0 <= k < n && SetBy(es[..n], front, k) && es[..n][k].subscription == s {
        SetByLast(es, applied, k);
        assert es[k] == es[..n][k];
      }
      SetByLast(es, applied, n);
      if k :| 0 <= k < |es| && SetBy(es, applied, k) && es[k].subscription == s {
        SetByLast(es, applied, k);
        assert k < n ==> es[k] == es[..n][k];
      }
    }
  }

  lemma PointerStep(row: Option<Row>, e: Event, s: string)
    ensures Pointer(Deliver(row, e).0) == Some(s) <==>
            if !Deliver(row, e).1.Applied? then Pointer(row) == Some(s)
            else if IsCancellation(e) then Pointer(row) == Some(s) && e.subscription != s
            else e.subscription == s
  {}

  /** A cancellation that is applied clears the pointer if it is about the mirrored
      subscription and leaves it alone otherwise. */
  lemma CancellationClearsOnlyIts(row: Option<Row>, e: Event)
    requires IsCancellation(e) && Deliver(row, e).1.Applied?
    ensures var r := Deliver(row, e).0;
            Pointer(r) != Some(e.subscription) &&
            (Pointer(row) != Some(e.subscription) ==> Pointer(r) == Pointer(row)) &&
            (Pointer(row) == Some(e.subscription) ==> Pointer(r) == None) &&
            r.value.plan == Free && r.value.status == Active
  {}

  // ----- the row, updated in place -----

  class AccountSubscription {
    var plan: Plan
    var status: Status
    var subscription: Option<string>
    var customer: Option<string>
    var eventAt: Option<int>

    ghost function Contents(): Row
      reads this
    {
      Row(plan, status, subscription, customer, eventAt)
    }

    /** add_subscription, and the row a first webhook creates. */
    constructor (plan: Plan)
      ensures Contents() == Row(plan, Active, None, None, None)
    {
      this.plan, status, subscription, customer, eventAt := plan, Active, None, None, None;
    }
  }

  /** apply_paddle_subscription on the account's row, or its absence. */
  method ApplyPaddleSubscription(row: AccountSubscription?, e: Event)
    returns (r: AccountSubscription?, outcome: Outcome)
    modifies row
    ensures var before := old(if row == null then None else Some(row.Contents()));
            ((if r == null then None else Some(r.Contents())), outcome) == Deliver(before, e)
    ensures row != null ==> r == row
  {
    r := row;
    var known := PaddleStatus(e.paddleStatus);
    if known.None? {
      return r, UnknownStatus;
    }
    var plan, status := e.plan, known.value;
    var cancelled := status == Canceled;
    if cancelled {
      plan, status := Free, Active;
    }
    if r == null {
      r := new AccountSubscription(plan);
    } else if r.eventAt.Some? && r.eventAt.value >= e.at {
      return r, StaleEvent;
    }
    var mirrored := Some(e.subscription);
    if cancelled {
      if r.subscription == Some(e.subscription) {
        mirrored := None;
      } else {
        mirrored := r.subscription;
      }
    }
    r.plan := plan;
    r.status := status;
    r.subscription := mirrored;
    r.customer := e.customer;
    r.eventAt := Some(e.at);
    outcome := Applied(plan, status);
  }
}
