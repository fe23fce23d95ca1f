/** The leased job queue of app/jobs/worker.py: the pure effect of each committed transaction,
    and every interleaving of them. */
module JobQueue {
  import opened Options
  import opened Sorting

  type JobId = nat
  type Ref = nat
  type Project = Option<nat>
  type Worker = nat

  datatype Status = Pending | Running | Done | Failed

  datatype Job = Job(
    kind: string, refType: Option<string>, refId: Option<Ref>, project: Project,
    status: Status, leasedUntil: Option<int>, finishedAt: Option<int>,
    result: Option<string>, error: Option<string>, createdAt: int)

  /** What a worker slot remembers while its handler runs. */
  datatype Claim = Claim(job: JobId, lease: int)

  datatype State = State(jobs: map<JobId, Job>, claims: map<Worker, Claim>, now: int)

  /** `job_queue_max_active` and `job_lease_seconds`. */
  datatype Settings = Settings(maxActive: nat, leaseSeconds: nat)

  // ----- queries -----

  predicate Active(job: Job) {
    job.status == Pending || job.status == Running
  }

  function ActiveIn(jobs: map<JobId, Job>, p: Project): set<JobId> {
    set j | j in jobs && jobs[j].project == p && Active(jobs[j])
  }

  /** The subquery stops at the limit, so the count does too. */
  function ActiveCount(jobs: map<JobId, Job>, p: Project, cap: nat): nat {
    var n := |ActiveIn(jobs, p)|;
    if n < cap then n else cap
  }

  /** The active jobs an enqueue of this work would duplicate. */
  function Duplicates(jobs: map<JobId, Job>, p: Project, kind: string, refType: Option<string>, r: Ref): set<JobId> {
    set j | j in ActiveIn(jobs, p) && jobs[j].kind == kind && jobs[j].refType == refType && jobs[j].refId == Some(r)
  }

  function NewJob(p: Project, kind: string, refType: Option<string>, refId: Option<Ref>, now: int): Job {
    Job(kind, refType, refId, p, Pending, None, None, None, None, now)
  }

  /** A row as an enqueue at `now` leaves it: waiting, never leased, nothing to report. */
  predicate IsNew(job: Job, p: Project, kind: string, refType: Option<string>, now: int) {
    && job.project == p && job.kind == kind && job.refType == refType
    && job.status == Pending && job.createdAt == now
    && job.leasedUntil == None && job.finishedAt == None && job.result == None && job.error == None
  }

  // ----- enqueue -----

  datatype Enqueued = Added | AlreadyActive | QueueFull

  function EnqueueOutcome(cfg: Settings, jobs: map<JobId, Job>, p: Project, kind: string,
                          refType: Option<string>, refId: Option<Ref>): Enqueued {
    if refId.Some? && Duplicates(jobs, p, kind, refType, refId.value) != {} then AlreadyActive
    else if ActiveCount(jobs, p, cfg.maxActive) >= cfg.maxActive then QueueFull
    else Added
  }

  /** `list(dict.fromkeys(refs))`: first occurrences, in order. */
  function Unique(refs: seq<Ref>): (u: seq<Ref>)
    ensures NoDup(u)
    ensures forall r :: r in u <==> r in refs
    ensures |u| <= |refs|
  {
    if refs == [] then []
    else
      var front := Unique(refs[..|refs| - 1]);
      var last := refs[|refs| - 1];
      assert refs == refs[..|refs| - 1] + [last];
      if last in front then front else front + [last]
  }

  function Candidates(jobs: map<JobId, Job>, p: Project, kind: string, refType: string, refs: seq<Ref>): (c: seq<Ref>)
    ensures forall r :: r in c <==> r in refs && Duplicates(jobs, p, kind, Some(refType), r) == {}
    ensures |c| <= |refs|
  {
    if refs == [] then []
    else (if Duplicates(jobs, p, kind, Some(refType), refs[0]) == {} then [refs[0]] else [])
         + Candidates(jobs, p, kind, refType, refs[1..])
  }

  function ExistingRefs(jobs: map<JobId, Job>, p: Project, kind: string, refType: string, refs: seq<Ref>): set<Ref> {
    set r | r in refs && Duplicates(jobs, p, kind, Some(refType), r) != {}
  }

  function InsertAll(jobs: map<JobId, Job>, ids: seq<JobId>, refs: seq<Ref>, p: Project, kind: string,
                     refType: string, now: int)
    : map<JobId, Job>
    requires |refs| <= |ids|
    decreases |refs|
  {
    if refs == [] then jobs
    else InsertAll(jobs[ids[0] := NewJob(p, kind, Some(refType), Some(refs[0]), now)],
                   ids[1..], refs[1..], p, kind, refType, now)
  }

  datatype Bulk = Bulk(accepted: seq<Ref>, alreadyActive: nat, capacityReached: bool)

  /** What enqueue_jobs decides. */
  function BulkOutcome(cfg: Settings, jobs: map<JobId, Job>, p: Project, kind: string, refType: string,
                       refs: seq<Ref>): (b: Bulk)
    ensures |b.accepted| <= |refs|
  {
    var unique := Unique(refs);
    var candidates := Candidates(jobs, p, kind, refType, unique);
    var available := cfg.maxActive - ActiveCount(jobs, p, cfg.maxActive);
    var accepted := if available < |candidates| then candidates[..available] else candidates;
    Bulk(accepted, |ExistingRefs(jobs, p, kind, refType, unique)|, |accepted| < |candidates|)
  }

  // ----- claim, finish, requeue, reclaim -----

  predicate Before(jobs: map<JobId, Job>, i: JobId, j: JobId)
    requires i in jobs && j in jobs
  {
    jobs[i].createdAt < jobs[j].createdAt || (jobs[i].createdAt == jobs[j].createdAt && i <= j)
  }

  /** `j` is the row the claim query picks while other transactions hold locks on `locked`. */
  ghost predicate IsNext(jobs: map<JobId, Job>, locked: set<JobId>, j: JobId) {
    && j in jobs && jobs[j].status == Pending && j !in locked
    && forall i | i in jobs && jobs[i].status == Pending && i !in locked :: Before(jobs, j, i)
  }

  function Claimed(job: Job, lease: int): Job {
    job.(status := Running, leasedUntil := Some(lease), finishedAt := None, error := None)
  }

  function Requeued(job: Job): Job {
    job.(status := Pending, leasedUntil := None)
  }

  /** How a handler came back. */
  datatype Outcome = Returned(result: string) | Raised(error: string)

  function Finished(job: Job, now: int, outcome: Outcome): Job {
    match outcome
    case Returned(r) => job.(status := Done, result := Some(r), finishedAt := Some(now), leasedUntil := None)
    case Raised(e) => job.(status := Failed, error := Some(e), finishedAt := Some(now), leasedUntil := None)
  }

  predicate Expired(job: Job, now: int) {
    job.status == Running && job.leasedUntil.Some? && job.leasedUntil.value < now
  }

  function ReclaimAll(jobs: map<JobId, Job>, now: int): map<JobId, Job> {
    map j | j in jobs :: if Expired(jobs[j], now) then Requeued(jobs[j]) else jobs[j]
  }

  // ----- the interleavings -----

  datatype Op =
    | Enqueue(id: JobId, project: Project, kind: string, refType: Option<string>, refId: Option<Ref>)
    | EnqueueBulk(ids: seq<JobId>, project: Project, kind: string, bulkType: string, refs: seq<Ref>)
    | Take(worker: Worker, locked: set<JobId>, job: JobId)
    | Finish(worker: Worker, outcome: Outcome)
    | Cancel(worker: Worker)
    | Crash(worker: Worker)
    | Reclaim
    | Tick(seconds: nat)

  /** New primary keys are fresh, a slot claims only when idle and takes the row the query
      picks, and only a slot with a running handler finishes, is cancelled or crashes. */
  ghost predicate Enabled(s: State, op: Op) {
    match op
    case Enqueue(id, _, _, _, _) => id !in s.jobs
    case EnqueueBulk(ids, _, _, _, refs) =>
      |ids| == |refs| && NoDup(ids) && forall i | i in ids :: i !in s.jobs
    case Take(w, locked, j) => w !in s.claims && IsNext(s.jobs, locked, j)
    case Finish(w, _) => w in s.claims && s.claims[w].job in s.jobs
    case Cancel(w) => w in s.claims && s.claims[w].job in s.jobs
    case Crash(w) => w in s.claims
    case Reclaim => true
    case Tick(_) => true
  }

  ghost function Step(cfg: Settings, s: State, op: Op): State
    requires Enabled(s, op)
  {
    match op
    case Enqueue(id, p, kind, rt, r) =>
      if EnqueueOutcome(cfg, s.jobs, p, kind, rt, r) == Added
      then s.(jobs := s.jobs[id := NewJob(p, kind, rt, r, s.now)])
      else s
    case EnqueueBulk(ids, p, kind, rt, refs) =>
      s.(jobs := InsertAll(s.jobs, ids, BulkOutcome(cfg, s.jobs, p, kind, rt, refs).accepted, p, kind, rt, s.now))
    case Take(w, _, j) =>
      var lease := s.now + cfg.leaseSeconds;
      s.(jobs := s.jobs[j := Claimed(s.jobs[j], lease)], claims := s.claims[w := Claim(j, lease)])
    case Finish(w, outcome) =>
      var j := s.claims[w].job;
      s.(jobs := s.jobs[j := Finished(s.jobs[j], s.now, outcome)], claims := s.claims - {w})
    case Cancel(w) =>
      var j := s.claims[w].job;
      s.(jobs := if s.jobs[j].status == Running then s.jobs[j := Requeued(s.jobs[j])] else s.jobs,
         claims := s.claims - {w})
    case Crash(w) => s.(claims := s.claims - {w})
    case Reclaim => s.(jobs := ReclaimAll(s.jobs, s.now))
    case Tick(d) => s.(now := s.now + d)
  }

  /** A run, given as its states and the operations between them. */
  ghost predicate IsRun(cfg: Settings, states: seq<State>, ops: seq<Op>) {
    && |states| == |ops| + 1
    && forall k | 0 <= k < |ops| :: Enabled(states[k], ops[k]) && states[k + 1] == Step(cfg, states[k], ops[k])
  }

  // ----- invariants of every run -----

  ghost predicate RowConsistent(job: Job) {
    && (job.leasedUntil.Some? <==> job.status == Running)
    && (job.finishedAt.Some? <==> job.status == Done || job.status == Failed)
  }

  ghost predicate Consistent(s: State) {
    && (forall j | j in s.jobs :: RowConsistent(s.jobs[j]))
    && (forall w | w in s.claims :: s.claims[w].job in s.jobs)
  }

  ghost predicate Bounded(cfg: Settings, jobs: map<JobId, Job>) {
    forall p :: |ActiveIn(jobs, p)| <= cfg.maxActive
  }

  predicate SameWork(a: Job, b: Job) {
    a.project == b.project && a.kind == b.kind && a.refType == b.refType && a.refId == b.refId
  }

  ghost predicate Deduplicated(jobs: map<JobId, Job>) {
    forall i, j | i in jobs && j in jobs && Active(jobs[i]) && Active(jobs[j]) && jobs[i].refId.Some? ::
      SameWork(jobs[i], jobs[j]) ==> i == j
  }

  ghost predicate Inv(cfg: Settings, s: State) {
    Consistent(s) && Bounded(cfg, s.jobs) && Deduplicated(s.jobs)
  }

  /** `after` only changes rows in place and never makes a finished row active again. */
  ghost predicate NoNewActive(before: map<JobId, Job>, after: map<JobId, Job>) {
    && after.Keys == before.Keys
    && forall j | j in after :: SameWork(after[j], before[j]) && (Active(after[j]) ==> Active(before[j]))
  }

  lemma NoNewActiveKeeps(cfg: Settings, before: map<JobId, Job>, after: map<JobId, Job>)
    requires NoNewActive(before, after) && Bounded(cfg, before) && Deduplicated(before)
    ensures Bounded(cfg, after) && Deduplicated(after)
  {
    forall p ensures |ActiveIn(after, p)| <= cfg.maxActive {
      assert ActiveIn(after, p) <= ActiveIn(before, p);
      SubsetSize(ActiveIn(after, p), ActiveIn(before, p));
    }
  }

  lemma InsertActive(jobs: map<JobId, Job>, id: JobId, job: Job, p: Project)
    requires id !in jobs && Active(job)
    ensures |ActiveIn(jobs[id := job], p)| == |ActiveIn(jobs, p)| + (if p == job.project then 1 else 0)
  {
    assert ActiveIn(jobs[id := job], p) == ActiveIn(jobs, p) + (if p == job.project then {id} else {});
  }

  lemma InsertKeepsDedup(jobs: map<JobId, Job>, id: JobId, job: Job)
    requires id !in jobs && Deduplicated(jobs) && Active(job)
    requires job.refId.Some? ==> Duplicates(jobs, job.project, job.kind, job.refType, job.refId.value) == {}
    ensures Deduplicated(jobs[id := job])
  {
    var jobs' := jobs[id := job];
    forall i, j | i in jobs' && j in jobs' && Active(jobs'[i]) && Active(jobs'[j]) && jobs'[i].refId.Some?
                  && SameWork(jobs'[i], jobs'[j])
      ensures i == j
    {
      if i == id && j != id {
        assert j !in Duplicates(jobs, job.project, job.kind, job.refType, job.refId.value);
      } else if j == id && i != id {
        assert i !in Duplicates(jobs, job.project, job.kind, job.refType, job.refId.value);
      }
    }
  }

  lemma OtherRefStaysFree(jobs: map<JobId, Job>, id: JobId, job: Job, p: Project, kind: string,
                          refType: Option<string>, r: Ref)
    requires id !in jobs && job.refId != Some(r)
    ensures Duplicates(jobs[id := job], p, kind, refType, r) == Duplicates(jobs, p, kind, refType, r)
  {}

  lemma OthersStayFree(jobs: map<JobId, Job>, id: JobId, job: Job, p: Project, kind: string,
                       refType: Option<string>, refs: seq<Ref>)
    requires id !in jobs && refs != [] && NoDup(refs) && job.refId == Some(refs[0])
    requires forall r | r in refs :: Duplicates(jobs, p, kind, refType, r) == {}
    ensures forall r | r in refs[1..] :: Duplicates(jobs[id := job], p, kind, refType, r) == {}
  {
    forall r | r in refs[1..] ensures Duplicates(jobs[id := job], p, kind, refType, r) == {} {
      assert r in refs && r != refs[0];
      OtherRefStaysFree(jobs, id, job, p, kind, refType, r);
    }
  }

  /** Inserting a list of new, distinct, not yet active refs. */
  lemma InsertAllEffect(jobs: map<JobId, Job>, ids: seq<JobId>, refs: seq<Ref>, p: Project, kind: string,
                        refType: string, now: int)
    requires |refs| <= |ids| && NoDup(ids) && (forall i | i in ids :: i !in jobs)
    requires NoDup(refs) && forall r | r in refs :: Duplicates(jobs, p, kind, Some(refType), r) == {}
    requires Deduplicated(jobs)
    ensures var after := InsertAll(jobs, ids, refs, p, kind, refType, now);
            && (forall j | j in jobs :: j in after && after[j] == jobs[j])
            && (forall j | j in after && j !in jobs ::
                  IsNew(after[j], p, kind, Some(refType), now) && after[j].refId.Some?)
            && (forall q :: |ActiveIn(after, q)| == |ActiveIn(jobs, q)| + (if q == p then |refs| else 0))
            && (forall r | r in refs :: Duplicates(after, p, kind, Some(refType), r) != {})
            && Deduplicated(after)
  {
    InsertAllRows(jobs, ids, refs, p, kind, refType, now);
    InsertAllCounts(jobs, ids, refs, p, kind, refType, now);
    InsertAllDedup(jobs, ids, refs, p, kind, refType, now);
  }

  /** The rows there stay, the new ones are pending, and each ref has one. */
  lemma {:induction false} InsertAllRows(jobs: map<JobId, Job>, ids: seq<JobId>, refs: seq<Ref>, p: Project,
                                         kind: string, refType: string, now: int)
    requires |refs| <= |ids| && NoDup(ids) && (forall i | i in ids :: i !in jobs)
    ensures var after := InsertAll(jobs, ids, refs, p, kind, refType, now);
            && (forall j | j in jobs :: j in after && after[j] == jobs[j])
            && (forall j | j in after && j !in jobs ::
                  IsNew(after[j], p, kind, Some(refType), now) && after[j].refId.Some?)
            && (forall r | r in refs :: Duplicates(after, p, kind, Some(refType), r) != {})
    decreases |refs|
  {
    if refs != [] {
      var job := NewJob(p, kind, Some(refType), Some(refs[0]), now);
      var mid := jobs[ids[0] := job];
      assert ids == [ids[0]] + ids[1..] && refs == [refs[0]] + refs[1..];
      InsertAllRows(mid, ids[1..], refs[1..], p, kind, refType, now);
      var after := InsertAll(mid, ids[1..], refs[1..], p, kind, refType, now);
      assert ids[0] in mid && after[ids[0]] == mid[ids[0]] == job;
      assert ids[0] in Duplicates(after, p, kind, Some(refType), refs[0]);
    }
  }

  lemma {:induction false} InsertAllCounts(jobs: map<JobId, Job>, ids: seq<JobId>, refs: seq<Ref>, p: Project,
                                           kind: string, refType: string, now: int)
    requires |refs| <= |ids| && NoDup(ids) && (forall i | i in ids :: i !in jobs)
    ensures var after := InsertAll(jobs, ids, refs, p, kind, refType, now);
            forall q :: |ActiveIn(after, q)| == |ActiveIn(jobs, q)| + (if q == p then |refs| else 0)
    decreases |refs|
  {
    if refs != [] {
      var job := NewJob(p, kind, Some(refType), Some(refs[0]), now);
      assert ids == [ids[0]] + ids[1..] && ids[0] in ids;
      forall q { InsertActive(jobs, ids[0], job, q); }
      InsertAllCounts(jobs[ids[0] := job], ids[1..], refs[1..], p, kind, refType, now);
    }
  }

  lemma {:induction false} InsertAllDedup(jobs: map<JobId, Job>, ids: seq<JobId>, refs: seq<Ref>, p: Project,
                                          kind: string, refType: string, now: int)
    requires |refs| <= |ids| && NoDup(ids) && (forall i | i in ids :: i !in jobs)
    requires NoDup(refs) && forall r | r in refs :: Duplicates(jobs, p, kind, Some(refType), r) == {}
    requires Deduplicated(jobs)
    ensures Deduplicated(InsertAll(jobs, ids, refs, p, kind, refType, now))
    decreases |refs|
  {
    if refs != [] {
      var job := NewJob(p, kind, Some(refType), Some(refs[0]), now);
      assert ids == [ids[0]] + ids[1..] && refs == [refs[0]] + refs[1..];
      assert ids[0] in ids;
      InsertKeepsDedup(jobs, ids[0], job);
      OthersStayFree(jobs, ids[0], job, p, kind, Some(refType), refs);
      InsertAllDedup(jobs[ids[0] := job], ids[1..], refs[1..], p, kind, refType, now);
    }
  }

  lemma ExistingSplit(jobs: map<JobId, Job>, p: Project, kind: string, refType: string, refs: seq<Ref>)
    requires refs != [] && NoDup(refs)
    ensures |ExistingRefs(jobs, p, kind, refType, refs)| ==
            |ExistingRefs(jobs, p, kind, refType, refs[1..])| +
            (if Duplicates(jobs, p, kind, Some(refType), refs[0]) == {} then 0 else 1)
  {
    assert refs == [refs[0]] + refs[1..];
    var rest := ExistingRefs(jobs, p, kind, refType, refs[1..]);
    assert refs[0] !in rest;
    assert ExistingRefs(jobs, p, kind, refType, refs) ==
           rest + if Duplicates(jobs, p, kind, Some(refType), refs[0]) == {} then {} else {refs[0]};
  }

  lemma {:induction false} CandidatesNoDup(jobs: map<JobId, Job>, p: Project, kind: string, refType: string,
                                           refs: seq<Ref>)
    requires NoDup(refs)
    ensures NoDup(Candidates(jobs, p, kind, refType, refs))
    ensures |Candidates(jobs, p, kind, refType, refs)| + |ExistingRefs(jobs, p, kind, refType, refs)| == |refs|
  {
    if refs == [] {
      assert ExistingRefs(jobs, p, kind, refType, refs) == {};
    } else {
      CandidatesNoDup(jobs, p, kind, refType, refs[1..]);
      ExistingSplit(jobs, p, kind, refType, refs);
      assert refs[0] !in Candidates(jobs, p, kind, refType, refs[1..]);
    }
  }

  lemma AcceptedAreNew(cfg: Settings, jobs: map<JobId, Job>, p: Project, kind: string, refType: string, refs: seq<Ref>)
    requires Bounded(cfg, jobs)
    ensures var b := BulkOutcome(cfg, jobs, p, kind, refType, refs);
            && NoDup(b.accepted)
            && (forall r | r in b.accepted :: Duplicates(jobs, p, kind, Some(refType), r) == {})
            && |ActiveIn(jobs, p)| + |b.accepted| <= cfg.maxActive
  {
    CandidatesNoDup(jobs, p, kind, refType, Unique(refs));
    assert |ActiveIn(jobs, p)| <= cfg.maxActive;
  }

  /** `a` is asked for, and before the first time `b` is. */
  predicate AskedBefore(refs: seq<Ref>, a: Ref, b: Ref) {
    exists i :: 0 <= i < |refs| && refs[i] == a && b !in refs[..i + 1]
  }

  lemma {:induction false} UniqueKeepsOrder(refs: seq<Ref>, i: nat, j: nat)
    requires i < j < |Unique(refs)|
    ensures AskedBefore(refs, Unique(refs)[i], Unique(refs)[j])
  {
    var n := |refs| - 1;
    var front := Unique(refs[..n]);
    if j < |front| {
      UniqueKeepsOrder(refs[..n], i, j);
      var k :| 0 <= k < n && refs[..n][k] == front[i] && front[j] !in refs[..n][..k + 1];
      assert refs[..n][..k + 1] == refs[..k + 1];
    } else {
      assert front[i] in refs[..n];
      var k :| 0 <= k < n && refs[..n][k] == front[i];
      assert refs[n] !in refs[..n];
      assert forall x | x in refs[..k + 1] :: x in refs[..n];
    }
  }

  predicate InOrder(refs: seq<Ref>, a: Ref, b: Ref) {
    exists x, y :: 0 <= x < y < |refs| && refs[x] == a && refs[y] == b
  }

  lemma InOrderLater(refs: seq<Ref>, a: Ref, b: Ref)
    requires refs != [] && InOrder(refs[1..], a, b)
    ensures InOrder(refs, a, b)
  {
    var x, y :| 0 <= x < y < |refs| - 1 && refs[1..][x] == a && refs[1..][y] == b;
    assert refs[x + 1] == a && refs[y + 1] == b;
  }

  lemma InOrderFirst(refs: seq<Ref>, b: Ref)
    requires refs != [] && b in refs[1..]
    ensures InOrder(refs, refs[0], b)
  {
    var y :| 0 <= y < |refs| - 1 && refs[1..][y] == b;
    assert refs[y + 1] == b;
  }

  lemma InOrderStep(refs: seq<Ref>, head: seq<Ref>, rest: seq<Ref>, i: nat, j: nat)
    requires refs != [] && (head == [] || head == [refs[0]]) && i < j < |head| + |rest|
    requires forall r | r in rest :: r in refs[1..]
    requires i >= |head| ==> InOrder(refs[1..], rest[i - |head|], rest[j - |head|])
    ensures InOrder(refs, (head + rest)[i], (head + rest)[j])
  {
    if i >= |head| {
      InOrderLater(refs, rest[i - |head|], rest[j - |head|]);
    } else {
      assert rest[j - 1] in rest;
      InOrderFirst(refs, rest[j - 1]);
    }
  }

  lemma CandidatesSplit(jobs: map<JobId, Job>, p: Project, kind: string, refType: string, refs: seq<Ref>)
    returns (head: seq<Ref>, rest: seq<Ref>)
    requires refs != []
    ensures head == [] || head == [refs[0]]
    ensures rest == Candidates(jobs, p, kind, refType, refs[1..]) && forall r | r in rest :: r in refs[1..]
    ensures Candidates(jobs, p, kind, refType, refs) == head + rest
  {
    head := if Duplicates(jobs, p, kind, Some(refType), refs[0]) == {} then [refs[0]] else [];
    rest := Candidates(jobs, p, kind, refType, refs[1..]);
  }

  /** Candidates keep the order of the list they are taken from. */
  lemma {:induction false} CandidatesKeepOrder(jobs: map<JobId, Job>, p: Project, kind: string, refType: string,
                                               refs: seq<Ref>, i: nat, j: nat)
    requires i < j < |Candidates(jobs, p, kind, refType, refs)|
    ensures var c := Candidates(jobs, p, kind, refType, refs); InOrder(refs, c[i], c[j])
  {
    var head, rest := CandidatesSplit(jobs, p, kind, refType, refs);
    if i >= |head| {
      CandidatesKeepOrder(jobs, p, kind, refType, refs[1..], i - |head|, j - |head|);
    }
    InOrderStep(refs, head, rest, i, j);
  }

  lemma BeyondPrefix(a: seq<Ref>, c: seq<Ref>, j: nat)
    requires a <= c && j < |c| && c[j] !in a
    ensures |a| <= j
  {
    assert forall k | 0 <= k < |a| :: a[k] == c[k] && a[k] in a;
  }

  /** The refs that fit are the ones asked for first: one that is accepted is asked for before
      any inactive one that is not. */
  lemma EarliestFit(cfg: Settings, jobs: map<JobId, Job>, p: Project, kind: string, refType: string, refs: seq<Ref>,
                    a: Ref, b: Ref)
    requires Bounded(cfg, jobs) && a in BulkOutcome(cfg, jobs, p, kind, refType, refs).accepted
    requires b in refs && Duplicates(jobs, p, kind, Some(refType), b) == {}
    requires b !in BulkOutcome(cfg, jobs, p, kind, refType, refs).accepted
    ensures AskedBefore(refs, a, b)
  {
    var u := Unique(refs);
    var c, acc := Candidates(jobs, p, kind, refType, u), BulkOutcome(cfg, jobs, p, kind, refType, refs).accepted;
    BulkCounts(cfg, jobs, p, kind, refType, refs);
    assert b in u && b in c;
    var i :| 0 <= i < |acc| && acc[i] == a;
    var j :| 0 <= j < |c| && c[j] == b;
    assert c[i] == acc[i];
    BeyondPrefix(acc, c, j);
    CandidatesKeepOrder(jobs, p, kind, refType, u, i, j);
    var x, y :| 0 <= x < y < |u| && u[x] == a && u[y] == b;
    UniqueKeepsOrder(refs, x, y);
  }

  /** Refs that were inserted or had an active job before have one afterwards. */
  lemma AllActive(jobs: map<JobId, Job>, after: map<JobId, Job>, p: Project, kind: string, refType: string,
                  refs: seq<Ref>, inserted: seq<Ref>)
    requires forall j | j in jobs :: j in after && after[j] == jobs[j]
    requires forall r | r in inserted :: Duplicates(after, p, kind, Some(refType), r) != {}
    requires forall r | r in refs && r !in inserted :: Duplicates(jobs, p, kind, Some(refType), r) != {}
    ensures forall r | r in refs :: Duplicates(after, p, kind, Some(refType), r) != {}
  {
    forall r | r in refs && r !in inserted ensures Duplicates(after, p, kind, Some(refType), r) != {} {
      var j :| j in Duplicates(jobs, p, kind, Some(refType), r);
      assert j in Duplicates(after, p, kind, Some(refType), r);
    }
  }

  /** What the outcome says before anything is inserted. */
  lemma BulkCounts(cfg: Settings, jobs: map<JobId, Job>, p: Project, kind: string, refType: string, refs: seq<Ref>)
    requires Bounded(cfg, jobs)
    ensures var b := BulkOutcome(cfg, jobs, p, kind, refType, refs);
            var candidates := Candidates(jobs, p, kind, refType, Unique(refs));
            && b.accepted <= candidates
            && |candidates| + b.alreadyActive == |Unique(refs)|
            && (b.capacityReached <==> |ActiveIn(jobs, p)| + |candidates| > cfg.maxActive)
            && (b.capacityReached ==> |ActiveIn(jobs, p)| + |b.accepted| == cfg.maxActive)
            && (!b.capacityReached ==> b.accepted == candidates)
  {
    CandidatesNoDup(jobs, p, kind, refType, Unique(refs));
    assert |ActiveIn(jobs, p)| <= cfg.maxActive;
  }

  lemma OthersAreActive(jobs: map<JobId, Job>, p: Project, kind: string, refType: string, refs: seq<Ref>)
    ensures forall r | r in refs && r !in Candidates(jobs, p, kind, refType, Unique(refs)) ::
              Duplicates(jobs, p, kind, Some(refType), r) != {}
  {
    forall r | r in refs && r !in Candidates(jobs, p, kind, refType, Unique(refs))
      ensures Duplicates(jobs, p, kind, Some(refType), r) != {}
    {
      assert r in Unique(refs);
    }
  }

  /** The counts of a bulk enqueue on a queue within its bound: they add up over the unique
      refs, a prefix of the inactive ones is accepted, everything asked for is active afterwards
      unless the capacity was reached, and that is reported only with the queue exactly full. */
  lemma BulkReport(cfg: Settings, jobs: map<JobId, Job>, ids: seq<JobId>, p: Project, kind: string, refType: string,
                   refs: seq<Ref>, now: int)
    requires Bounded(cfg, jobs) && Deduplicated(jobs)
    requires |ids| == |refs| && NoDup(ids) && forall i | i in ids :: i !in jobs
    ensures var b := BulkOutcome(cfg, jobs, p, kind, refType, refs);
            var candidates := Candidates(jobs, p, kind, refType, Unique(refs));
            var after := InsertAll(jobs, ids, b.accepted, p, kind, refType, now);
            && b.accepted <= candidates
            && |candidates| + b.alreadyActive == |Unique(refs)|
            && |ActiveIn(after, p)| == |ActiveIn(jobs, p)| + |b.accepted|
            && (b.capacityReached <==> |ActiveIn(jobs, p)| + |candidates| > cfg.maxActive)
            && (b.capacityReached ==> |ActiveIn(after, p)| == cfg.maxActive)
            && (!b.capacityReached ==> |b.accepted| + b.alreadyActive == |Unique(refs)|)
            && (!b.capacityReached ==> forall r | r in refs :: Duplicates(after, p, kind, Some(refType), r) != {})
            && Deduplicated(after)
  {
    var b := BulkOutcome(cfg, jobs, p, kind, refType, refs);
    var after := InsertAll(jobs, ids, b.accepted, p, kind, refType, now);
    BulkCounts(cfg, jobs, p, kind, refType, refs);
    AcceptedAreNew(cfg, jobs, p, kind, refType, refs);
    InsertAllEffect(jobs, ids, b.accepted, p, kind, refType, now);
    if !b.capacityReached {
      OthersAreActive(jobs, p, kind, refType, refs);
      AllActive(jobs, after, p, kind, refType, refs, b.accepted);
    }
  }

  /** What counts against the capacity: every job that is neither done nor failed. */
  lemma ActiveAreUnfinished(jobs: map<JobId, Job>, p: Project)
    ensures ActiveIn(jobs, p) ==
            set j | j in jobs && jobs[j].project == p && !jobs[j].status.Done? && !jobs[j].status.Failed?
  {}

  /** A single enqueue on a queue within its bound adds one pending row exactly when the work is
      not active yet and there is room; it is refused only with the queue exactly full; and an
      active duplicate is the only one. */
  lemma EnqueueReport(cfg: Settings, jobs: map<JobId, Job>, id: JobId, p: Project, kind: string,
                      refType: Option<string>, refId: Option<Ref>, now: int)
    requires Bounded(cfg, jobs) && Deduplicated(jobs) && id !in jobs
    ensures var out := EnqueueOutcome(cfg, jobs, p, kind, refType, refId);
            var after := jobs[id := NewJob(p, kind, refType, refId, now)];
            && (out == Added <==> |ActiveIn(jobs, p)| < cfg.maxActive
                                  && (refId.Some? ==> Duplicates(jobs, p, kind, refType, refId.value) == {}))
            && (out == QueueFull ==> |ActiveIn(jobs, p)| == cfg.maxActive)
            && (out == Added ==> |ActiveIn(after, p)| == |ActiveIn(jobs, p)| + 1)
            && IsNew(after[id], p, kind, refType, now) && after[id].refId == refId
            && (out == AlreadyActive ==> refId.Some? && |Duplicates(jobs, p, kind, refType, refId.value)| == 1)
  {
    assert |ActiveIn(jobs, p)| <= cfg.maxActive;
    InsertActive(jobs, id, NewJob(p, kind, refType, refId, now), p);
    if refId.Some? && Duplicates(jobs, p, kind, refType, refId.value) != {} {
      var same := Duplicates(jobs, p, kind, refType, refId.value);
      var j :| j in same;
      forall i | i in same ensures i == j {
        assert SameWork(jobs[i], jobs[j]);
      }
      assert same == {j};
    }
  }

  /** A worker's transaction touches its own job's row and its own slot only; after it the slot is
      busy exactly if it claimed. */
  lemma WorkerStepFrame(cfg: Settings, s: State, op: Op)
    requires Enabled(s, op) && (op.Take? || op.Finish? || op.Cancel? || op.Crash?)
    ensures var s' := Step(cfg, s, op);
            var j := if op.Take? then op.job else s.claims[op.worker].job;
            && s'.jobs.Keys == s.jobs.Keys && s'.now == s.now
            && (forall i | i in s.jobs && i != j :: s'.jobs[i] == s.jobs[i])
            && (forall w | w != op.worker :: w in s'.claims <==> w in s.claims)
            && (forall w | w != op.worker && w in s.claims :: s'.claims[w] == s.claims[w])
            && (op.worker in s'.claims <==> op.Take?)
  {}

  lemma StepKeepsInv(cfg: Settings, s: State, op: Op)
    requires Inv(cfg, s) && Enabled(s, op)
    ensures Inv(cfg, Step(cfg, s, op))
  {
    match op
    case Enqueue(id, p, kind, rt, r) => EnqueueKeepsInv(cfg, s, id, p, kind, rt, r);
    case EnqueueBulk(ids, p, kind, rt, refs) => BulkKeepsInv(cfg, s, ids, p, kind, rt, refs);
    case Take(_, _, _) => RowStepKeepsInv(cfg, s, op);
    case Finish(_, _) => RowStepKeepsInv(cfg, s, op);
    case Cancel(_) => RowStepKeepsInv(cfg, s, op);
    case Crash(_) => RowStepKeepsInv(cfg, s, op);
    case Reclaim => RowStepKeepsInv(cfg, s, op);
    case Tick(_) => RowStepKeepsInv(cfg, s, op);
  }

  lemma RowStepKeepsInv(cfg: Settings, s: State, op: Op)
    requires Inv(cfg, s) && Enabled(s, op) && !op.Enqueue? && !op.EnqueueBulk?
    ensures Inv(cfg, Step(cfg, s, op))
  {
    RowStepInPlace(cfg, s, op);
    NoNewActiveKeeps(cfg, s.jobs, Step(cfg, s, op).jobs);
    RowStepConsistent(cfg, s, op);
  }

  lemma RowStepInPlace(cfg: Settings, s: State, op: Op)
    requires Enabled(s, op) && !op.Enqueue? && !op.EnqueueBulk?
    ensures NoNewActive(s.jobs, Step(cfg, s, op).jobs)
  {}

  lemma RowStepConsistent(cfg: Settings, s: State, op: Op)
    requires Consistent(s) && Enabled(s, op) && !op.Enqueue? && !op.EnqueueBulk?
    ensures Consistent(Step(cfg, s, op))
  {}

  lemma EnqueueKeepsInv(cfg: Settings, s: State, id: JobId, p: Project, kind: string, refType: Option<string>,
                        refId: Option<Ref>)
    requires Inv(cfg, s) && id !in s.jobs
    ensures Inv(cfg, Step(cfg, s, Enqueue(id, p, kind, refType, refId)))
  {
    if EnqueueOutcome(cfg, s.jobs, p, kind, refType, refId) == Added {
      var job := NewJob(p, kind, refType, refId, s.now);
      InsertKeepsDedup(s.jobs, id, job);
      var jobs' := s.jobs[id := job];
      forall q ensures |ActiveIn(jobs', q)| <= cfg.maxActive {
        InsertActive(s.jobs, id, job, q);
        assert |ActiveIn(s.jobs, q)| <= cfg.maxActive;
      }
    }
  }

  lemma BulkKeepsInv(cfg: Settings, s: State, ids: seq<JobId>, p: Project, kind: string, refType: string,
                     refs: seq<Ref>)
    requires Inv(cfg, s) && |ids| == |refs| && NoDup(ids) && forall i | i in ids :: i !in s.jobs
    ensures Inv(cfg, Step(cfg, s, EnqueueBulk(ids, p, kind, refType, refs)))
  {
    var b := BulkOutcome(cfg, s.jobs, p, kind, refType, refs);
    AcceptedAreNew(cfg, s.jobs, p, kind, refType, refs);
    InsertAllEffect(s.jobs, ids, b.accepted, p, kind, refType, s.now);
    var after := InsertAll(s.jobs, ids, b.accepted, p, kind, refType, s.now);
    forall q ensures |ActiveIn(after, q)| <= cfg.maxActive {
      assert |ActiveIn(s.jobs, p)| <= cfg.maxActive && |ActiveIn(s.jobs, q)| <= cfg.maxActive;
    }
    forall j | j in after ensures RowConsistent(after[j]) {
      assert j in s.jobs ==> after[j] == s.jobs[j];
    }
  }

  /** Capacity, deduplication and column consistency in every run: reclaims, cancellations,
      crashes and handlers that finish after losing their lease included. */
  lemma {:induction false} InvInEveryRun(cfg: Settings, states: seq<State>, ops: seq<Op>, k: nat)
    requires IsRun(cfg, states, ops) && Inv(cfg, states[0]) && k < |states|
    ensures Inv(cfg, states[k])
  {
    if k > 0 {
      InvInEveryRun(cfg, states, ops, k - 1);
      StepKeepsInv(cfg, states[k - 1], ops[k - 1]);
    }
  }

  lemma EmptyQueueInv(cfg: Settings, now: int)
    ensures Inv(cfg, State(map[], map[], now))
  {
    forall p ensures ActiveIn(map[], p) == {} {}
  }

  // ----- rows are never lost; what reclaim leaves behind -----

  lemma StepKeepsRows(cfg: Settings, s: State, op: Op)
    requires Inv(cfg, s) && Enabled(s, op)
    ensures s.jobs.Keys <= Step(cfg, s, op).jobs.Keys
    ensures forall j | j in s.jobs :: SameWork(s.jobs[j], Step(cfg, s, op).jobs[j])
  {
    if op.EnqueueBulk? {
      var b := BulkOutcome(cfg, s.jobs, op.project, op.kind, op.bulkType, op.refs);
      AcceptedAreNew(cfg, s.jobs, op.project, op.kind, op.bulkType, op.refs);
      InsertAllEffect(s.jobs, op.ids, b.accepted, op.project, op.kind, op.bulkType, s.now);
    }
  }

  lemma {:induction false} RowsNeverDisappear(cfg: Settings, states: seq<State>, ops: seq<Op>, i: nat, k: nat)
    requires IsRun(cfg, states, ops) && Inv(cfg, states[0]) && i <= k < |states|
    ensures states[i].jobs.Keys <= states[k].jobs.Keys
  {
    if i < k {
      RowsNeverDisappear(cfg, states, ops, i, k - 1);
      InvInEveryRun(cfg, states, ops, k - 1);
      StepKeepsRows(cfg, states[k - 1], ops[k - 1]);
    }
  }

  lemma ReclaimLeavesNoExpired(cfg: Settings, s: State, j: JobId)
    requires j in s.jobs
    ensures var s' := Step(cfg, s, Reclaim);
            j in s'.jobs && !Expired(s'.jobs[j], s.now) &&
            (if Expired(s.jobs[j], s.now) then s'.jobs[j] == Requeued(s.jobs[j]) else s'.jobs[j] == s.jobs[j])
  {}

  // ----- an enqueue gets its work done, or the queue is full -----

  /** After an enqueue step every ref asked for is active, or the queue is exactly full. */
  lemma EnqueueStepServes(cfg: Settings, s: State, op: Op, r: Ref)
    requires Inv(cfg, s) && Enabled(s, op)
    requires (op.Enqueue? && op.refId == Some(r)) || (op.EnqueueBulk? && r in op.refs)
    ensures var s', refType := Step(cfg, s, op), if op.Enqueue? then op.refType else Some(op.bulkType);
            || Duplicates(s'.jobs, op.project, op.kind, refType, r) != {}
            || |ActiveIn(s'.jobs, op.project)| == cfg.maxActive
  {
    if op.Enqueue? {
      EnqueueReport(cfg, s.jobs, op.id, op.project, op.kind, op.refType, op.refId, s.now);
      var after := s.jobs[op.id := NewJob(op.project, op.kind, op.refType, op.refId, s.now)];
      assert op.id in Duplicates(after, op.project, op.kind, op.refType, r);
    } else {
      BulkReport(cfg, s.jobs, op.ids, op.project, op.kind, op.bulkType, op.refs, s.now);
    }
  }

  /** And so does one without a ref: a row more, or the queue is full. */
  lemma PlainEnqueueStep(cfg: Settings, s: State, op: Op)
    requires Inv(cfg, s) && Enabled(s, op) && op.Enqueue? && op.refId.None?
    ensures |ActiveIn(Step(cfg, s, op).jobs, op.project)| ==
            if |ActiveIn(s.jobs, op.project)| < cfg.maxActive then |ActiveIn(s.jobs, op.project)| + 1 else cfg.maxActive
  {
    EnqueueReport(cfg, s.jobs, op.id, op.project, op.kind, op.refType, op.refId, s.now);
  }

  /** Time never goes back. */
  lemma {:induction false} ClockAdvances(cfg: Settings, states: seq<State>, ops: seq<Op>, i: nat, k: nat)
    requires IsRun(cfg, states, ops) && i <= k < |states|
    ensures states[i].now <= states[k].now
    decreases k
  {
    if i < k {
      ClockAdvances(cfg, states, ops, i, k - 1);
      assert Enabled(states[k - 1], ops[k - 1]) && states[k - 1 + 1] == Step(cfg, states[k - 1], ops[k - 1]);
    }
  }

  // ----- the queue serves the oldest first -----

  /** A transaction never changes when a row was created, and stamps the rows it adds. */
  lemma StepStamps(cfg: Settings, s: State, op: Op, j: JobId)
    requires Enabled(s, op) && j in Step(cfg, s, op).jobs
    ensures Step(cfg, s, op).jobs[j].createdAt == if j in s.jobs then s.jobs[j].createdAt else s.now
    ensures j !in s.jobs ==> Step(cfg, s, op).jobs[j].status == Pending
  {
    if op.EnqueueBulk? {
      InsertAllRows(s.jobs, op.ids, BulkOutcome(cfg, s.jobs, op.project, op.kind, op.bulkType, op.refs).accepted,
                    op.project, op.kind, op.bulkType, s.now);
    }
  }

  lemma RowsStay(cfg: Settings, s: State, op: Op)
    requires Enabled(s, op)
    ensures s.jobs.Keys <= Step(cfg, s, op).jobs.Keys
  {
    if op.EnqueueBulk? {
      InsertAllRows(s.jobs, op.ids, BulkOutcome(cfg, s.jobs, op.project, op.kind, op.bulkType, op.refs).accepted,
                    op.project, op.kind, op.bulkType, s.now);
    }
  }

  /** Step `a` of the run added row `i`. */
  ghost predicate AddedBy(states: seq<State>, a: nat, i: JobId) {
    a + 1 < |states| && i !in states[a].jobs && i in states[a + 1].jobs
  }

  lemma {:induction false} CreatedWhenAdded(cfg: Settings, states: seq<State>, ops: seq<Op>, a: nat, k: nat, i: JobId)
    requires IsRun(cfg, states, ops) && AddedBy(states, a, i) && a < k < |states|
    ensures i in states[k].jobs && states[k].jobs[i].createdAt == states[a].now
    decreases k
  {
    assert Enabled(states[k - 1], ops[k - 1]) && states[k - 1 + 1] == Step(cfg, states[k - 1], ops[k - 1]);
    if a < k - 1 {
      CreatedWhenAdded(cfg, states, ops, a, k - 1, i);
      RowsStay(cfg, states[k - 1], ops[k - 1]);
    }
    StepStamps(cfg, states[k - 1], ops[k - 1], i);
  }

  lemma NextIsOldest(jobs: map<JobId, Job>, locked: set<JobId>, j: JobId, i: JobId)
    requires IsNext(jobs, locked, j) && i in jobs && jobs[i].status == Pending && i !in locked
    ensures jobs[j].createdAt < jobs[i].createdAt || (jobs[j].createdAt == jobs[i].createdAt && j <= i)
  {
    assert Before(jobs, j, i);
  }

  /** First come, first served: a job is never claimed while one enqueued earlier, or at the same
      time with a lesser id, waits unlocked. */
  lemma OldestFirst(cfg: Settings, states: seq<State>, ops: seq<Op>, a: nat, i: JobId, b: nat, j: JobId, k: nat,
                    worker: Worker, locked: set<JobId>)
    requires IsRun(cfg, states, ops) && AddedBy(states, a, i) && AddedBy(states, b, j)
    requires a < k < |ops| && b < k
    requires states[a].now < states[b].now || (states[a].now == states[b].now && i < j)
    requires i in states[k].jobs && states[k].jobs[i].status == Pending && i !in locked
    ensures ops[k] != Op.Take(worker, locked, j)
  {
    CreatedWhenAdded(cfg, states, ops, a, k, i);
    CreatedWhenAdded(cfg, states, ops, b, k, j);
    assert Enabled(states[k], ops[k]);
    if ops[k] == Op.Take(worker, locked, j) {
      NextIsOldest(states[k].jobs, locked, j, i);
    }
  }

  // ----- exclusive ownership, and when it holds -----

  /** Every live handler's job is still running under the lease that handler took. */
  ghost predicate Holds(s: State, w: Worker) {
    w in s.claims && s.claims[w].job in s.jobs && s.jobs[s.claims[w].job].status == Running &&
    s.jobs[s.claims[w].job].leasedUntil == Some(s.claims[w].lease)
  }

  ghost predicate Exclusive(s: State) {
    && (forall w | w in s.claims :: Holds(s, w))
    && (forall v, w | v in s.claims && w in s.claims && s.claims[v].job == s.claims[w].job :: v == w)
  }

  /** No live handler is past its lease. */
  ghost predicate Timely(s: State) {
    forall w | w in s.claims :: s.now <= s.claims[w].lease
  }

  lemma StepKeepsExclusive(cfg: Settings, s: State, op: Op)
    requires Exclusive(s) && Enabled(s, op) && op != Reclaim
    ensures Exclusive(Step(cfg, s, op))
  {
    var s' := Step(cfg, s, op);
    if op.EnqueueBulk? {
      var accepted := BulkOutcome(cfg, s.jobs, op.project, op.kind, op.bulkType, op.refs).accepted;
      InsertAllRows(s.jobs, op.ids, accepted, op.project, op.kind, op.bulkType, s.now);
    }
    forall w | w in s'.claims ensures Holds(s', w) {
      if w in s.claims {
        assert Holds(s, w);
      }
    }
    if op.Take? {
      forall w | w in s.claims ensures s.claims[w].job != op.job {
        assert Holds(s, w);
      }
    }
  }

  /** Reclaiming keeps ownership exclusive exactly when no live handler has outlived its lease. */
  lemma ReclaimExclusiveIffTimely(cfg: Settings, s: State)
    requires Exclusive(s)
    ensures Exclusive(Step(cfg, s, Reclaim)) <==> Timely(s)
  {
    var s' := Step(cfg, s, Reclaim);
    forall w | w in s.claims ensures Holds(s', w) <==> s.now <= s.claims[w].lease {
      assert Holds(s, w);
    }
  }

  /** The timing hypothesis on a run: whenever a reclaim happens, no live handler is past its lease. */
  ghost predicate TimelyRun(states: seq<State>, ops: seq<Op>)
    requires |states| == |ops| + 1
  {
    forall k | 0 <= k < |ops| && ops[k] == Reclaim :: Timely(states[k])
  }

  lemma {:induction false} ExclusiveInTimelyRuns(cfg: Settings, states: seq<State>, ops: seq<Op>, k: nat)
    requires IsRun(cfg, states, ops) && Exclusive(states[0]) && TimelyRun(states, ops) && k < |states|
    ensures Exclusive(states[k])
  {
    if k > 0 {
      ExclusiveInTimelyRuns(cfg, states, ops, k - 1);
      if ops[k - 1] == Reclaim {
        ReclaimExclusiveIffTimely(cfg, states[k - 1]);
      } else {
        StepKeepsExclusive(cfg, states[k - 1], ops[k - 1]);
      }
    }
  }

  /** From an exclusive start, every state of a run is exclusive if and only if no handler is past
      its lease at any reclaim. */
  lemma ExclusiveIffTimely(cfg: Settings, states: seq<State>, ops: seq<Op>)
    requires IsRun(cfg, states, ops) && Exclusive(states[0])
    ensures (forall k | 0 <= k < |states| :: Exclusive(states[k])) <==> TimelyRun(states, ops)
  {
    if TimelyRun(states, ops) {
      forall k | 0 <= k < |states| ensures Exclusive(states[k]) {
        ExclusiveInTimelyRuns(cfg, states, ops, k);
      }
    }
    if forall k | 0 <= k < |states| :: Exclusive(states[k]) {
      forall k | 0 <= k < |ops| && ops[k] == Reclaim ensures Timely(states[k]) {
        assert Exclusive(states[k]) && Exclusive(states[k + 1]);
        ReclaimExclusiveIffTimely(cfg, states[k]);
      }
    }
  }

  predicate Final(job: Job) {
    job.status == Done || job.status == Failed
  }

  /** The moves of a job's status: claimed, returned to the queue, or finished. */
  predicate StatusMove(from: Status, to: Status) {
    || from == to
    || (from == Pending && to == Running)
    || (from == Running && (to == Pending || to == Done || to == Failed))
  }

  /** In such runs a row's status only ever moves along these. */
  lemma StatusMovesInTimelyRuns(cfg: Settings, states: seq<State>, ops: seq<Op>, k: nat, j: JobId)
    requires IsRun(cfg, states, ops) && Exclusive(states[0]) && TimelyRun(states, ops)
    requires k < |ops| && j in states[k].jobs
    ensures j in states[k + 1].jobs && StatusMove(states[k].jobs[j].status, states[k + 1].jobs[j].status)
  {
    ExclusiveInTimelyRuns(cfg, states, ops, k);
    var s, op := states[k], ops[k];
    if op.EnqueueBulk? {
      InsertAllRows(s.jobs, op.ids, BulkOutcome(cfg, s.jobs, op.project, op.kind, op.bulkType, op.refs).accepted,
                     op.project, op.kind, op.bulkType, s.now);
    } else if op.Take? || op.Finish? || op.Cancel? || op.Crash? {
      WorkerStepFrame(cfg, s, op);
      if !op.Take? {
        assert Holds(s, op.worker);
      }
    }
  }

  lemma FinalRowKept(cfg: Settings, s: State, op: Op, s': State, j: JobId)
    requires Exclusive(s) && Enabled(s, op) && s' == Step(cfg, s, op) && j in s.jobs && Final(s.jobs[j])
    ensures j in s'.jobs && s'.jobs[j] == s.jobs[j]
  {
    if op.EnqueueBulk? {
      InsertAllRows(s.jobs, op.ids, BulkOutcome(cfg, s.jobs, op.project, op.kind, op.bulkType, op.refs).accepted,
                    op.project, op.kind, op.bulkType, s.now);
    } else if op.Finish? || op.Cancel? {
      assert Holds(s, op.worker);
    }
  }

  /** From state h to the next, row `j` stays as it is if it is finished. */
  ghost predicate KeptAt(states: seq<State>, h: nat, j: JobId)
    requires h + 1 < |states|
  {
    j in states[h].jobs && Final(states[h].jobs[j]) ==>
      j in states[h + 1].jobs && states[h + 1].jobs[j] == states[h].jobs[j]
  }

  lemma {:induction false} KeptThroughout(states: seq<State>, i: nat, k: nat, j: JobId)
    requires i <= k < |states| && j in states[i].jobs && Final(states[i].jobs[j])
    requires forall h | 0 <= h < |states| - 1 :: KeptAt(states, h, j)
    ensures j in states[k].jobs && states[k].jobs[j] == states[i].jobs[j]
    decreases k
  {
    if i < k {
      KeptThroughout(states, i, k - 1, j);
      assert KeptAt(states, k - 1, j);
    }
  }

  /** In such runs a finished row never changes again. */
  lemma FinalRowsStay(cfg: Settings, states: seq<State>, ops: seq<Op>, i: nat, k: nat, j: JobId)
    requires IsRun(cfg, states, ops) && Exclusive(states[0]) && TimelyRun(states, ops)
    requires i <= k < |states| && j in states[i].jobs && Final(states[i].jobs[j])
    ensures j in states[k].jobs && states[k].jobs[j] == states[i].jobs[j]
  {
    forall h | 0 <= h < |states| - 1 ensures KeptAt(states, h, j) {
      ExclusiveInTimelyRuns(cfg, states, ops, h);
      if j in states[h].jobs && Final(states[h].jobs[j]) {
        FinalRowKept(cfg, states[h], ops[h], states[h + 1], j);
      }
    }
    KeptThroughout(states, i, k, j);
  }

  /** Without it both fail: a handler outlives its lease, the job is reclaimed and run a
      second time by another worker, and the late failure overwrites the success. */
  lemma LateHandlerBreaksOwnership()
    ensures var states := LateStates();
            && IsRun(Settings(1, 30), states, LateOps())
            && states[5].claims.Keys == {1, 2} && states[5].claims[1].job == states[5].claims[2].job == 0
            && states[6].jobs[0].status == Done && states[7].jobs[0].status == Failed
  {
    forall k | 0 <= k < 7
      ensures Enabled(LateStates()[k], LateOps()[k])
      ensures LateStates()[k + 1] == Step(Settings(1, 30), LateStates()[k], LateOps()[k])
    {
      LateStep(k);
    }
  }

  ghost function LateStates(): (r: seq<State>)
    ensures |r| == 8
  {
    var job := NewJob(None, "enrich", None, None, 0);
    var done := Finished(Claimed(job, 61), 31, Returned("ok"));
    [ State(map[], map[], 0),
      State(map[0 := job], map[], 0),
      State(map[0 := Claimed(job, 30)], map[1 := Claim(0, 30)], 0),
      State(map[0 := Claimed(job, 30)], map[1 := Claim(0, 30)], 31),
      State(map[0 := job], map[1 := Claim(0, 30)], 31),
      State(map[0 := Claimed(job, 61)], map[1 := Claim(0, 30), 2 := Claim(0, 61)], 31),
      State(map[0 := done], map[1 := Claim(0, 30)], 31),
      State(map[0 := Finished(done, 31, Raised("late"))], map[], 31) ]
  }

  ghost function LateOps(): (r: seq<Op>)
    ensures |r| == 7
  {
    [ Enqueue(0, None, "enrich", None, None), Take(1, {}, 0), Tick(31), Reclaim, Take(2, {}, 0),
      Finish(2, Returned("ok")), Finish(1, Raised("late")) ]
  }

  lemma LateStep(k: nat)
    requires k < 7
    ensures Enabled(LateStates()[k], LateOps()[k])
    ensures LateStates()[k + 1] == Step(Settings(1, 30), LateStates()[k], LateOps()[k])
  {
    var cfg, job := Settings(1, 30), NewJob(None, "enrich", None, None, 0);
    var s, s' := LateStates()[k], Step(cfg, LateStates()[k], LateOps()[k]);
    if k == 0 {
      FirstEnqueue(cfg, job);
    } else if k == 1 {
      TakeOnly(cfg, s, 1, job);
    } else if k == 4 {
      TakeOnly(cfg, s, 2, job);
    }
  }

  lemma FirstEnqueue(cfg: Settings, job: Job)
    requires cfg.maxActive > 0 && job == NewJob(None, "enrich", None, None, 0)
    ensures Step(cfg, State(map[], map[], 0), Enqueue(0, None, "enrich", None, None)) == State(map[0 := job], map[], 0)
  {
    assert ActiveIn(map[], None) == {};
  }

  lemma TakeOnly(cfg: Settings, s: State, w: Worker, job: Job)
    requires s.jobs == map[0 := job] && job.status == Pending && w !in s.claims
    ensures Enabled(s, Take(w, {}, 0))
    ensures Step(cfg, s, Take(w, {}, 0)).jobs == map[0 := Claimed(job, s.now + cfg.leaseSeconds)]
  {
    assert IsNext(s.jobs, {}, 0);
  }
}
