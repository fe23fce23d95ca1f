/** The fixed-window limiter of app/auth/rate_limit.py. Instants are microseconds since the
    epoch; windows and retention are whole seconds. */
module RateLimit {
  const SECOND := 1_000_000

  datatype Bucket = Bucket(action: string, key: string, windowStart: nat)

  type Store = map<Bucket, nat>

  datatype Decision = Decision(allowed: bool, retryAfter: int)

  function Seconds(now: nat): nat {
    now / SECOND
  }

  function WindowStart(now: nat, window: nat): nat
    requires window > 0
  {
    Seconds(now) - Seconds(now) % window
  }

  function Attempts(store: Store, b: Bucket): nat {
    if b in store then store[b] else 0
  }

  function Consume(store: Store, b: Bucket): Store {
    store[b := Attempts(store, b) + 1]
  }

  function Decide(attempts: nat, limit: int, window: nat, now: nat): Decision
    requires window > 0
  {
    var left := window - Seconds(now) % window;
    Decision(attempts <= limit, if left > 1 then left else 1)
  }

  predicate Outdated(b: Bucket, retention: nat, now: nat) {
    b.windowStart * SECOND < now - retention * SECOND
  }

  function Prune(store: Store, retention: nat, now: nat): Store {
    map b | b in store && !Outdated(b, retention, now) :: store[b]
  }

  // ----- runs of calls and prunes -----

  datatype Op = Call(action: string, key: string, limit: int, window: nat, at: nat) | Sweep(at: nat)

  predicate ValidOp(op: Op) {
    op.Call? ==> op.window > 0
  }

  function BucketOf(op: Op): Bucket
    requires op.Call? && ValidOp(op)
  {
    Bucket(op.action, op.key, WindowStart(op.at, op.window))
  }

  ghost predicate ValidRun(ops: seq<Op>) {
    && (forall i | 0 <= i < |ops| :: ValidOp(ops[i]))
    && (forall i, j | 0 <= i < j < |ops| :: ops[i].at <= ops[j].at)
  }

  ghost function StoreAfter(ops: seq<Op>, retention: nat): Store
    requires forall i | 0 <= i < |ops| :: ValidOp(ops[i])
  {
    if ops == [] then map[]
    else
      var front, op := ops[..|ops| - 1], ops[|ops| - 1];
      if op.Call? then Consume(StoreAfter(front, retention), BucketOf(op))
      else Prune(StoreAfter(front, retention), retention, op.at)
  }

  /** How the limiter answers call `i`. */
  ghost function DecisionAt(ops: seq<Op>, retention: nat, i: nat): Decision
    requires ValidRun(ops) && i < |ops| && ops[i].Call?
  {
    var op := ops[i];
    Decide(Attempts(StoreAfter(ops[..i], retention), BucketOf(op)) + 1, op.limit, op.window, op.at)
  }

  /** The calls of a run that fall into bucket `b`, prunes or not. */
  ghost function CallsIn(ops: seq<Op>, b: Bucket): nat {
    if ops == [] then 0
    else
      var op := ops[|ops| - 1];
      CallsIn(ops[..|ops| - 1], b) + (if op.Call? && ValidOp(op) && BucketOf(op) == b then 1 else 0)
  }

  // ----- arithmetic of windows -----

  lemma DivModUnique(s: nat, w: nat, q: nat, r: nat)
    requires w > 0 && s == q * w + r && r < w
    ensures s / w == q && s % w == r
  {
    var d := s / w - q;
    assert d >= 1 ==> d * w >= w;
    assert d <= -1 ==> d * w + w <= 0;
    assert s == (s / w) * w + s % w;
    assert d * w == r - s % w;
  }

  lemma SecondsBound(now: nat)
    ensures Seconds(now) * SECOND <= now < (Seconds(now) + 1) * SECOND
  {}

  /** retry_after lies in 1..window, and waiting it out lands in the very next window. */
  lemma RetryReachesNextWindow(attempts: nat, limit: int, window: nat, now: nat)
    requires window > 0
    ensures var r := Decide(attempts, limit, window, now).retryAfter;
            1 <= r <= window && WindowStart(now + r * SECOND, window) == WindowStart(now, window) + window
  {
    var s := Seconds(now);
    var r := Decide(attempts, limit, window, now).retryAfter;
    assert r == window - s % window;
    assert Seconds(now + r * SECOND) == s + r;
    assert s == (s / window) * window + s % window;
    assert s + r == (s / window + 1) * window + 0;
    DivModUnique(s + r, window, s / window + 1, 0);
  }

  /** Windows are aligned to whole multiples of their length and hold the instant. */
  lemma WindowHolds(now: nat, window: nat)
    requires window > 0
    ensures WindowStart(now, window) % window == 0
    ensures WindowStart(now, window) * 1_000_000 <= now < (WindowStart(now, window) + window) * 1_000_000
  {
    var s := Seconds(now);
    SecondsBound(now);
    assert s == (s / window) * window + s % window;
    DivModUnique(s - s % window, window, s / window, 0);
  }

  /** Each call has its own bucket for its action, key and window. */
  lemma BucketIs(op: Op)
    requires op.Call? && op.window > 0
    ensures BucketOf(op).action == op.action && BucketOf(op).key == op.key
    ensures BucketOf(op).windowStart * 1_000_000 <= op.at < (BucketOf(op).windowStart + op.window) * 1_000_000
  {
    WindowHolds(op.at, op.window);
  }

  /** A prune forgets exactly the windows that started longer ago than the retention. */
  lemma PruneForgets(store: Store, retention: nat, now: nat, b: Bucket)
    ensures var kept := Prune(store, retention, now);
            && (b in kept <==> b in store && now - b.windowStart * 1_000_000 <= retention * 1_000_000)
            && (b in kept ==> kept[b] == store[b])
  {}

  /** An interval as long as the window meets at most two windows. */
  lemma TwoWindows(t0: nat, t: nat, window: nat)
    requires window > 0 && t0 <= t < t0 + window * SECOND
    ensures || WindowStart(t, window) == WindowStart(t0, window)
            || WindowStart(t, window) == WindowStart(t0, window) + window
  {
    var s0, s := Seconds(t0), Seconds(t);
    SecondsBound(t0);
    SecondsBound(t);
    assert s0 <= s <= s0 + window;
    SameOrNextMultiple(s0, s, window);
  }

  lemma SameOrNextMultiple(s0: nat, s: nat, w: nat)
    requires w > 0 && s0 <= s <= s0 + w
    ensures s - s % w == s0 - s0 % w || s - s % w == s0 - s0 % w + w
  {
    var q, r := s0 / w, s0 % w;
    assert s0 == q * w + r;
    var k := s - q * w;
    if k < w {
      DivModUnique(s, w, q, k);
    } else {
      assert (q + 1) * w == q * w + w;
      DivModUnique(s, w, q + 1, k - w);
    }
  }

  /** The window a call falls into is kept by any prune up to then, if it is not longer than
      the retention. */
  lemma CurrentWindowKept(now: nat, window: nat, retention: nat, action: string, key: string)
    requires 0 < window <= retention
    ensures !Outdated(Bucket(action, key, WindowStart(now, window)), retention, now)
  {
    SecondsBound(now);
    var s := Seconds(now);
    assert s % window <= window - 1;
  }

  // ----- exact decisions, pruned or not -----

  lemma {:induction false} StoreCounts(ops: seq<Op>, retention: nat, b: Bucket)
    requires ValidRun(ops)
    requires ops != [] ==> !Outdated(b, retention, ops[|ops| - 1].at)
    ensures Attempts(StoreAfter(ops, retention), b) == CallsIn(ops, b)
  {
    if ops != [] {
      var n := |ops| - 1;
      var front := ops[..n];
      if front != [] {
        assert front[n - 1].at <= ops[n].at;
      }
      StoreCounts(front, retention, b);
    }
  }

  /** With nondecreasing times and windows no longer than the retention, a call is allowed
      exactly when fewer than `limit` calls came before it in its window, however often and
      whenever the store was pruned. */
  lemma ExactDecision(ops: seq<Op>, retention: nat, i: nat)
    requires ValidRun(ops) && i < |ops| && ops[i].Call? && ops[i].window <= retention
    ensures DecisionAt(ops, retention, i).allowed <==> CallsIn(ops[..i], BucketOf(ops[i])) < ops[i].limit
  {
    var op := ops[i];
    CurrentWindowKept(op.at, op.window, retention, op.action, op.key);
    if i > 0 {
      assert ops[i - 1].at <= op.at;
      StoreCounts(ops[..i], retention, BucketOf(op));
    }
  }

  /** A run without its prunes, for the store that is never pruned. */
  ghost function StoreNeverPruned(ops: seq<Op>): Store
    requires forall i | 0 <= i < |ops| :: ValidOp(ops[i])
  {
    if ops == [] then map[]
    else
      var front, op := ops[..|ops| - 1], ops[|ops| - 1];
      if op.Call? then Consume(StoreNeverPruned(front), BucketOf(op)) else StoreNeverPruned(front)
  }

  lemma {:induction false} NeverPrunedCounts(ops: seq<Op>, b: Bucket)
    requires forall i | 0 <= i < |ops| :: ValidOp(ops[i])
    ensures Attempts(StoreNeverPruned(ops), b) == CallsIn(ops, b)
  {
    if ops != [] {
      NeverPrunedCounts(ops[..|ops| - 1], b);
    }
  }

  ghost predicate PruningInvisible(ops: seq<Op>, retention: nat)
    requires ValidRun(ops)
  {
    forall i | 0 <= i < |ops| && ops[i].Call? ::
      DecisionAt(ops, retention, i) ==
      Decide(Attempts(StoreNeverPruned(ops[..i]), BucketOf(ops[i])) + 1, ops[i].limit, ops[i].window, ops[i].at)
  }

  ghost predicate UsesWindow(ops: seq<Op>, window: nat) {
    forall i | 0 <= i < |ops| && ops[i].Call? :: ops[i].window == window
  }

  lemma ShortWindowsPrunable(ops: seq<Op>, window: nat, retention: nat)
    requires ValidRun(ops) && UsesWindow(ops, window) && window <= retention
    ensures PruningInvisible(ops, retention)
  {
    forall i | 0 <= i < |ops| && ops[i].Call?
      ensures DecisionAt(ops, retention, i) ==
              Decide(Attempts(StoreNeverPruned(ops[..i]), BucketOf(ops[i])) + 1, ops[i].limit, ops[i].window, ops[i].at)
    {
      var op := ops[i];
      CurrentWindowKept(op.at, op.window, retention, op.action, op.key);
      if i > 0 {
        assert ops[i - 1].at <= op.at;
        StoreCounts(ops[..i], retention, BucketOf(op));
      }
      NeverPrunedCounts(ops[..i], BucketOf(op));
    }
  }

  /** Pruning never changes a decision in any run with windows of a given length exactly when
      that length is within the retention. */
  lemma PruningInvisibleIff(window: nat, retention: nat)
    requires window > 0
    ensures (forall ops | ValidRun(ops) && UsesWindow(ops, window) :: PruningInvisible(ops, retention))
            <==> window <= retention
  {
    if window <= retention {
      forall ops | ValidRun(ops) && UsesWindow(ops, window) ensures PruningInvisible(ops, retention) {
        ShortWindowsPrunable(ops, window, retention);
      }
    } else {
      var ops := EarlyPrune(window);
      EarlyPruneForgets(window, retention);
      assert !PruningInvisible(ops, retention);
    }
  }

  ghost function EarlyPrune(window: nat): seq<Op>
    requires window > 0
  {
    [Call("login", "k", 1, window, 0), Sweep(window * SECOND - 1), Call("login", "k", 1, window, window * SECOND - 1)]
  }

  /** Two calls in one window with limit 1: the prune in between lets the second through. */
  lemma EarlyPruneForgets(window: nat, retention: nat)
    requires window > retention
    ensures ValidRun(EarlyPrune(window)) && UsesWindow(EarlyPrune(window), window)
    ensures !PruningInvisible(EarlyPrune(window), retention)
  {
    var ops := EarlyPrune(window);
    var b := Bucket("login", "k", 0);
    var last := window * SECOND - 1;
    assert Seconds(last) == window - 1;
    DivModUnique(window - 1, window, 0, window - 1);
    DivModUnique(0, window, 0, 0);
    assert BucketOf(ops[0]) == b && BucketOf(ops[2]) == b;
    assert ops[..1][..0] == [] && ops[..2][..1] == ops[..1];
    assert StoreAfter(ops[..1], retention) == map[b := 1];
    assert Outdated(b, retention, last) by {
      assert last - retention * SECOND >= SECOND - 1;
    }
    assert StoreAfter(ops[..2], retention) == Prune(map[b := 1], retention, last);
    assert Attempts(StoreAfter(ops[..2], retention), b) == 0;
    assert StoreNeverPruned(ops[..2]) == StoreNeverPruned(ops[..1]) == map[b := 1];
  }

  // ----- how many calls get through -----

  /** Every call into (action, key) uses this limit and window. */
  ghost predicate Policy(ops: seq<Op>, action: string, key: string, limit: nat, window: nat) {
    forall i | 0 <= i < |ops| && ops[i].Call? && ops[i].action == action && ops[i].key == key ::
      ops[i].limit == limit && ops[i].window == window
  }

  ghost function AllowedIn(ops: seq<Op>, retention: nat, n: nat, b: Bucket): nat
    requires ValidRun(ops) && n <= |ops|
  {
    if n == 0 then 0
    else AllowedIn(ops, retention, n - 1, b) +
         (if ops[n - 1].Call? && BucketOf(ops[n - 1]) == b && DecisionAt(ops, retention, n - 1).allowed then 1 else 0)
  }

  function Min(a: nat, b: nat): nat {
    if a < b then a else b
  }

  /** In each aligned window exactly min(attempts, limit) calls are allowed. */
  lemma {:induction false} AllowedPerWindow(ops: seq<Op>, retention: nat, n: nat, b: Bucket, limit: nat, window: nat)
    requires ValidRun(ops) && n <= |ops|
    requires Policy(ops, b.action, b.key, limit, window) && window <= retention
    ensures AllowedIn(ops, retention, n, b) == Min(CallsIn(ops[..n], b), limit)
  {
    if n > 0 {
      AllowedPerWindow(ops, retention, n - 1, b, limit, window);
      assert ops[..n][..n - 1] == ops[..n - 1];
      if ops[n - 1].Call? && BucketOf(ops[n - 1]) == b {
        ExactDecision(ops, retention, n - 1);
      }
    }
  }

  ghost function AllowedBetween(ops: seq<Op>, retention: nat, n: nat, action: string, key: string, from: nat,
                                to: nat): nat
    requires ValidRun(ops) && n <= |ops|
  {
    if n == 0 then 0
    else AllowedBetween(ops, retention, n - 1, action, key, from, to) +
         (if ops[n - 1].Call? && ops[n - 1].action == action && ops[n - 1].key == key && from <= ops[n - 1].at < to
             && DecisionAt(ops, retention, n - 1).allowed then 1 else 0)
  }

  lemma {:induction false} BetweenIsTwoWindows(ops: seq<Op>, retention: nat, n: nat, action: string, key: string,
                                               limit: nat, window: nat, from: nat)
    requires ValidRun(ops) && n <= |ops| && window > 0
    requires Policy(ops, action, key, limit, window)
    ensures var w0 := WindowStart(from, window);
            AllowedBetween(ops, retention, n, action, key, from, from + window * SECOND) <=
            AllowedIn(ops, retention, n, Bucket(action, key, w0)) +
            AllowedIn(ops, retention, n, Bucket(action, key, w0 + window))
  {
    if n > 0 {
      BetweenIsTwoWindows(ops, retention, n - 1, action, key, limit, window, from);
      var op := ops[n - 1];
      if op.Call? && op.action == action && op.key == key && from <= op.at < from + window * SECOND {
        TwoWindows(from, op.at, window);
      }
    }
  }

  /** Hence no interval as long as the window lets more than twice the limit through. */
  lemma AtMostTwiceTheLimit(ops: seq<Op>, retention: nat, action: string, key: string, limit: nat, window: nat,
                            from: nat)
    requires ValidRun(ops) && 0 < window <= retention
    requires Policy(ops, action, key, limit, window)
    ensures AllowedBetween(ops, retention, |ops|, action, key, from, from + window * SECOND) <= 2 * limit
  {
    var w0 := WindowStart(from, window);
    BetweenIsTwoWindows(ops, retention, |ops|, action, key, limit, window, from);
    AllowedPerWindow(ops, retention, |ops|, Bucket(action, key, w0), limit, window);
    AllowedPerWindow(ops, retention, |ops|, Bucket(action, key, w0 + window), limit, window);
  }

  // ----- the limiter over its table -----

  class DatabaseRateLimiter {
    var buckets: Store
    const retention: nat

    constructor (retention: nat)
      ensures buckets == map[] && this.retention == retention
    {
      buckets, this.retention := map[], retention;
    }

    method ConsumeBucket(action: string, key: string, limit: int, window: nat, now: nat) returns (d: Decision)
      requires window > 0
      modifies this`buckets
      ensures var b := Bucket(action, key, WindowStart(now, window));
              && buckets == Consume(old(buckets), b)
              && d == Decide(Attempts(old(buckets), b) + 1, limit, window, now)
    {
      var start := Seconds(now) - Seconds(now) % window;
      var b := Bucket(action, key, start);
      if b in buckets {
        buckets := buckets[b := buckets[b] + 1];
      } else {
        buckets := buckets[b := 1];
      }
      var attempts := buckets[b];
      var left := window - Seconds(now) % window;
      d := Decision(attempts <= limit, if left > 1 then left else 1);
    }

    method PruneBuckets(now: nat)
      modifies this`buckets
      ensures buckets == Prune(old(buckets), retention, now)
    {
      var cutoff := now - retention * SECOND;
      buckets := buckets - (set b | b in buckets && b.windowStart * SECOND < cutoff);
      assert buckets == Prune(old(buckets), retention, now);
    }
  }
}
