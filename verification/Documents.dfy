/** Append-only deliverable versions under a storage quota (app/management/service.py and the
    storage guard of app/accounts/plans.py). */
module Documents {
  import opened Options
  import opened AccountPlans
  import opened Sequences
  import opened Text

  type Byte = b: nat | b < 256
  type Bytes = seq<Byte>
  type Digest = string
  type DocId = nat
  type ProjectId = nat
  type AccountId = nat
  type CompartmentId = nat

  const TYPES := ["docx", "pdf", "html", "md", "xlsx", "pptx"]
  const STATUSES := ["draft", "review", "final", "archived"]
  const MAX_BYTES := 10 * 1024 * 1024
  const MAX_NAME := 200
  const MAX_COMPARTMENT_NAME := 120
  /** current_version and version_no are SMALLINT columns. */
  const MAX_VERSION := 32767

  datatype Compartment = Compartment(project: ProjectId, name: string)

  datatype Deliverable = Deliverable(
    project: ProjectId, compartment: CompartmentId, name: string, docType: string,
    status: string, owner: Option<string>, summary: Option<string>, current: nat)

  /** What a version's note says; a rollback writes its own. */
  datatype Note = Written(text: string) | RollbackTo(no: nat)

  datatype Version = Version(
    doc: DocId, no: nat, content: Bytes, size: nat, sha: Digest, mime: string, note: Option<Note>)

  datatype Event =
    | CompartmentCreated(compartment: CompartmentId, name: string)
    | Created(doc: DocId, name: string)
    | VersionAdded(doc: DocId, no: nat, rollbackOf: Option<nat>)
    | Deduplicated(doc: DocId)

  datatype Subscription = Subscription(plan: Plan, active: bool)

  datatype State = State(
    compartments: map<CompartmentId, Compartment>,
    docs: map<DocId, Deliverable>,
    versions: seq<Version>,
    events: seq<Event>,
    projects: map<ProjectId, AccountId>,
    subscriptions: map<AccountId, Subscription>)

  /** The digest function and the Free plan's megabytes. */
  datatype Env = Env(sha: Bytes -> Digest, freeMb: nat)

  datatype Error =
    | EmptyName | BadType | EmptyContent | TooLarge | BadStatus | EmptyCompartment
    | ProjectNotFound | DeliverableNotFound | VersionNotFound
    | AmbiguousName | DuplicateName | VersionOverflow
    | PlanLimit(resource: string, limit: nat)

  // ----- quota -----

  predicate CountsFor(st: State, account: AccountId, v: Version) {
    && v.doc in st.docs
    && st.docs[v.doc].project in st.projects
    && st.projects[st.docs[v.doc].project] == account
  }

  function UsedIn(st: State, account: AccountId, vs: seq<Version>): nat {
    if vs == [] then 0
    else UsedIn(st, account, vs[..|vs| - 1]) + (if CountsFor(st, account, vs[|vs| - 1]) then vs[|vs| - 1].size else 0)
  }

  function UsedStorage(st: State, account: AccountId): nat {
    UsedIn(st, account, st.versions)
  }

  function EnsureStorage(st: State, account: AccountId, extra: nat, env: Env): Option<Error> {
    if account !in st.subscriptions then None
    else if !st.subscriptions[account].active then Some(PlanLimit("subscription", 0))
    else
      match StorageLimit(st.subscriptions[account].plan, env.freeMb)
      case None => None
      case Some(limit) => if UsedStorage(st, account) + extra > limit then Some(PlanLimit("storage", limit)) else None
  }

  /** The account's plan has room for `extra` more bytes; one without a subscription always has. */
  predicate Fits(st: State, account: AccountId, extra: nat, env: Env) {
    account in st.subscriptions ==>
      st.subscriptions[account].active &&
      (StorageLimit(st.subscriptions[account].plan, env.freeMb).Some? ==>
         UsedStorage(st, account) + extra <= StorageLimit(st.subscriptions[account].plan, env.freeMb).value)
  }

  predicate WithinPlan(st: State, account: AccountId, env: Env) {
    Fits(st, account, 0, env)
  }

  // ----- lookups -----

  function CompartmentsNamed(st: State, p: ProjectId, name: string): set<CompartmentId> {
    set c | c in st.compartments && st.compartments[c].project == p && Lower(st.compartments[c].name) == Lower(name)
  }

  function Named(st: State, c: CompartmentId, name: string): set<DocId> {
    set d | d in st.docs && st.docs[d].compartment == c && Lower(st.docs[d].name) == Lower(name)
  }

  function FindVersion(vs: seq<Version>, d: DocId, no: nat): Option<Version> {
    if vs == [] then None
    else if vs[0].doc == d && vs[0].no == no then Some(vs[0])
    else FindVersion(vs[1..], d, no)
  }

  function GetVersion(st: State, p: ProjectId, d: DocId, no: Option<nat>): Result<Version, Error> {
    if d !in st.docs || st.docs[d].project != p then Err(DeliverableNotFound)
    else
      match FindVersion(st.versions, d, if no.Some? then no.value else st.docs[d].current)
      case None => Err(VersionNotFound)
      case Some(v) => Ok(v)
  }

  // ----- mutations -----

  /** What a caller uploads; the new ids are the primary keys that created rows would get. */
  datatype Upload = Upload(
    newId: DocId, newCompartment: CompartmentId, project: ProjectId, compartment: string, name: string,
    docType: string, content: Bytes, status: Option<string>, owner: Option<string>, summary: Option<string>,
    note: Option<string>)

  datatype Stored = Stored(doc: DocId, created: bool)

  function Mime(docType: string): string {
    if docType == "docx" then "application/vnd.openxmlformats-officedocument.wordprocessingml.document"
    else if docType == "xlsx" then "application/vnd.openxmlformats-officedocument.spreadsheetml.sheet"
    else if docType == "pptx" then "application/vnd.openxmlformats-officedocument.presentationml.presentation"
    else if docType == "pdf" then "application/pdf"
    else if docType == "html" then "text/html; charset=utf-8"
    else "text/markdown; charset=utf-8"
  }

  function CheckUpload(u: Upload): Option<Error> {
    if Strip(u.name) == "" then Some(EmptyName)
    else if u.docType !in TYPES then Some(BadType)
    else if u.content == [] then Some(EmptyContent)
    else if |u.content| > MAX_BYTES then Some(TooLarge)
    else if u.status.Some? && u.status.value !in STATUSES then Some(BadStatus)
    else if Strip(u.compartment) == "" then Some(EmptyCompartment)
    else None
  }

  /** The unique compartment of that name, created if there is none. */
  function Resolve(st: State, u: Upload): (State, Result<CompartmentId, Error>) {
    var name := Strip(u.compartment);
    var found := CompartmentsNamed(st, u.project, name);
    if |found| > 1 then (st, Err(AmbiguousName))
    else if |found| == 1 then (st, Ok(Only(found)))
    else if u.project !in st.projects then (st, Err(ProjectNotFound))
    else if TakenCompartment(st, u.project, Take(name, MAX_COMPARTMENT_NAME)) then (st, Err(DuplicateName))
    else
      var c := Compartment(u.project, Take(name, MAX_COMPARTMENT_NAME));
      (st.(compartments := st.compartments[u.newCompartment := c],
           events := st.events + [CompartmentCreated(u.newCompartment, c.name)]),
       Ok(u.newCompartment))
  }

  predicate TakenCompartment(st: State, p: ProjectId, name: string) {
    exists c | c in st.compartments :: st.compartments[c].project == p && st.compartments[c].name == name
  }

  predicate Taken(st: State, c: CompartmentId, name: string) {
    exists d | d in st.docs :: st.docs[d].compartment == c && st.docs[d].name == name
  }

  function Guard(st: State, p: ProjectId, extra: nat, env: Env): Option<Error> {
    if p !in st.projects then Some(ProjectNotFound) else EnsureStorage(st, st.projects[p], extra, env)
  }

  function Uploaded(d: DocId, no: nat, u: Upload, env: Env): Version {
    Version(d, no, u.content, |u.content|, env.sha(u.content), Mime(u.docType),
            if u.note.Some? then Some(Written(u.note.value)) else None)
  }

  function NewDoc(u: Upload, c: CompartmentId): Deliverable {
    Deliverable(u.project, c, Take(Strip(u.name), MAX_NAME), u.docType,
                if u.status.Some? then u.status.value else "draft", u.owner, u.summary, 1)
  }

  /** Metadata given with an upload overwrites the row's; the type always does. */
  function Retouched(doc: Deliverable, u: Upload): Deliverable {
    doc.(status := if u.status.Some? then u.status.value else doc.status,
         owner := if u.owner.Some? then u.owner else doc.owner,
         summary := if u.summary.Some? then u.summary else doc.summary,
         docType := u.docType)
  }

  function Create(st: State, c: CompartmentId, u: Upload, env: Env): (State, Result<Stored, Error>) {
    var denied := Guard(st, u.project, |u.content|, env);
    if denied.Some? then (st, Err(denied.value))
    else if Taken(st, c, Take(Strip(u.name), MAX_NAME)) then (st, Err(DuplicateName))
    else
      (st.(docs := st.docs[u.newId := NewDoc(u, c)],
           versions := st.versions + [Uploaded(u.newId, 1, u, env)],
           events := st.events + [Created(u.newId, NewDoc(u, c).name)]),
       Ok(Stored(u.newId, true)))
  }

  function Revise(st: State, d: DocId, u: Upload, env: Env): (State, Result<Stored, Error>)
    requires d in st.docs
  {
    var doc := Retouched(st.docs[d], u);
    var current := FindVersion(st.versions, d, doc.current);
    if current.Some? && current.value.sha == env.sha(u.content) then
      (st.(docs := st.docs[d := doc], events := st.events + [Deduplicated(d)]), Ok(Stored(d, false)))
    else
      var denied := Guard(st, u.project, |u.content|, env);
      if denied.Some? then (st, Err(denied.value))
      else if doc.current + 1 > MAX_VERSION then (st, Err(VersionOverflow))
      else
        (st.(docs := st.docs[d := doc.(current := doc.current + 1)],
             versions := st.versions + [Uploaded(d, doc.current + 1, u, env)],
             events := st.events + [VersionAdded(d, doc.current + 1, None)]),
         Ok(Stored(d, true)))
  }

  function Only(s: set<nat>): (d: nat)
    requires |s| == 1
    ensures s == {d}
  {
    OnlyMember(s);
    var d :| d in s;
    d
  }

  lemma OnlyMember(s: set<nat>)
    requires |s| == 1
    ensures exists d :: s == {d}
    ensures forall d, e | d in s && e in s :: d == e
    ensures forall d | d in s :: s == {d}
  {
    var d :| d in s;
    assert |s - {d}| == 0;
    assert s == {d};
  }

  /** What follows once the compartment is known. */
  function Store(st: State, c: CompartmentId, u: Upload, env: Env): (State, Result<Stored, Error>) {
    var found := Named(st, c, Strip(u.name));
    if |found| > 1 then (st, Err(AmbiguousName))
    else if |found| == 0 then Create(st, c, u, env)
    else Revise(st, Only(found), u, env)
  }

  /** put_deliverable; an error rolls back a compartment it created. */
  function Put(st: State, u: Upload, env: Env): (State, Result<Stored, Error>) {
    var bad := CheckUpload(u);
    if bad.Some? then (st, Err(bad.value))
    else
      var (mid, c) := Resolve(st, u);
      if c.Err? then (st, Err(c.error))
      else
        var (st', r) := Store(mid, c.value, u, env);
        if r.Err? then (st, r) else (st', r)
  }

  function Restored(d: DocId, no: nat, src: Version): Version {
    src.(doc := d, no := no, note := Some(RollbackTo(src.no)))
  }

  function Rollback(st: State, p: ProjectId, d: DocId, to: nat, env: Env): (State, Result<Version, Error>) {
    var src := GetVersion(st, p, d, Some(to));
    if src.Err? then (st, src)
    else
      var denied := Guard(st, p, src.value.size, env);
      if denied.Some? then (st, Err(denied.value))
      else if st.docs[d].current + 1 > MAX_VERSION then (st, Err(VersionOverflow))
      else
        var no := st.docs[d].current + 1;
        (st.(docs := st.docs[d := st.docs[d].(current := no)],
             versions := st.versions + [Restored(d, no, src.value)],
             events := st.events + [VersionAdded(d, no, Some(to))]),
         src)
  }

  // ----- invariant -----

  /** The version numbers of every deliverable are exactly 1..current, each once, and every
      row's size and digest are those of its content. */
  ghost predicate Inv(st: State, env: Env) {
    && (forall i | 0 <= i < |st.versions| ::
          st.versions[i].doc in st.docs && 1 <= st.versions[i].no <= st.docs[st.versions[i].doc].current)
    && (forall i | 0 <= i < |st.versions| ::
          st.versions[i].size == |st.versions[i].content| && st.versions[i].sha == env.sha(st.versions[i].content))
    && (forall i, j | 0 <= i < j < |st.versions| ::
          st.versions[i].doc == st.versions[j].doc ==> st.versions[i].no != st.versions[j].no)
    && (forall d, n | d in st.docs && 1 <= n <= st.docs[d].current :: HasVersion(st.versions, d, n))
    && (forall d | d in st.docs :: 1 <= st.docs[d].current <= MAX_VERSION)
  }

  ghost predicate HasVersion(vs: seq<Version>, d: DocId, n: nat) {
    exists i :: 0 <= i < |vs| && vs[i].doc == d && vs[i].no == n
  }

  lemma {:induction false} FindVersionSound(vs: seq<Version>, d: DocId, no: nat)
    ensures FindVersion(vs, d, no).Some? <==> HasVersion(vs, d, no)
    ensures FindVersion(vs, d, no).Some? ==>
              var v := FindVersion(vs, d, no).value;
              v in vs && v.doc == d && v.no == no
  {
    if vs != [] {
      FindVersionSound(vs[1..], d, no);
      if HasVersion(vs, d, no) && !(vs[0].doc == d && vs[0].no == no) {
        var i :| 0 <= i < |vs| && vs[i].doc == d && vs[i].no == no;
        assert vs[1..][i - 1] == vs[i];
      }
      if HasVersion(vs[1..], d, no) {
        var i :| 0 <= i < |vs[1..]| && vs[1..][i].doc == d && vs[1..][i].no == no;
        assert vs[i + 1] == vs[1..][i];
      }
    }
  }

  /** `st'` is `st` with `d`'s row set to `doc` and the version row `v` added. */
  ghost predicate Appended(st: State, st': State, d: DocId, doc: Deliverable, v: Version) {
    && st'.docs == st.docs[d := doc] && st'.versions == st.versions + [v]
    && st'.projects == st.projects && st'.subscriptions == st.subscriptions
    && v.doc == d && v.no == doc.current
    && (if d in st.docs then doc.current == st.docs[d].current + 1 && doc.project == st.docs[d].project
        else doc.current == 1)
  }

  lemma AddVersionKeepsInv(st: State, st': State, env: Env, d: DocId, doc: Deliverable, v: Version)
    requires Inv(st, env) && Appended(st, st', d, doc, v)
    requires doc.current <= MAX_VERSION && v.size == |v.content| && v.sha == env.sha(v.content)
    ensures Inv(st', env)
    ensures !HasVersion(st.versions, d, v.no)
  {
    var vs := st'.versions;
    forall e, n | e in st'.docs && 1 <= n <= st'.docs[e].current ensures HasVersion(vs, e, n) {
      if e == d && n == v.no {
        assert vs[|st.versions|] == v;
      } else {
        assert HasVersion(st.versions, e, n);
        var i :| 0 <= i < |st.versions| && st.versions[i].doc == e && st.versions[i].no == n;
        assert vs[i] == st.versions[i];
      }
    }
  }

  // ----- what each call does to usage -----

  /** Rows that count for the account as before add up as before. */
  lemma {:induction false} UsedSame(st: State, st': State, account: AccountId, vs: seq<Version>)
    requires forall i | 0 <= i < |vs| :: CountsFor(st', account, vs[i]) <==> CountsFor(st, account, vs[i])
    ensures UsedIn(st', account, vs) == UsedIn(st, account, vs)
  {
    if vs != [] {
      UsedSame(st, st', account, vs[..|vs| - 1]);
    }
  }

  lemma UsageUnmoved(st: State, st': State, d: DocId, p: ProjectId)
    requires d in st.docs && d in st'.docs && st' == st.(docs := st.docs[d := st'.docs[d]])
    requires st'.docs[d].project == st.docs[d].project
    ensures forall extra, env :: Guard(st', p, extra, env) == Guard(st, p, extra, env)
  {
    if p in st.projects {
      UsedSame(st, st', st.projects[p], st.versions);
    }
  }

  /** Appending one row raises the owner's usage by exactly its size and nobody else's. */
  lemma AppendUsage(st: State, st': State, env: Env, d: DocId, doc: Deliverable, v: Version, account: AccountId)
    requires Inv(st, env) && Appended(st, st', d, doc, v) && doc.project in st.projects
    ensures UsedStorage(st', account) ==
            UsedStorage(st, account) + (if account == st.projects[doc.project] then v.size else 0)
  {
    UsedSame(st, st', account, st.versions);
    assert st'.versions[..|st'.versions| - 1] == st.versions;
  }

  /** All deliverables of a compartment belong to the compartment's project. */
  ghost predicate Scoped(st: State) {
    forall d | d in st.docs :: InProject(st, st.docs[d].compartment, st.docs[d].project)
  }

  predicate InProject(st: State, c: CompartmentId, p: ProjectId) {
    c in st.compartments && st.compartments[c].project == p
  }

  /** The primary keys a put may create rows under are new. */
  predicate Fresh(st: State, u: Upload) {
    u.newId !in st.docs && u.newCompartment !in st.compartments
  }

  /** History grew by one row for `d` with the uploaded bytes, charged in full to the project's
      account and to no other, within its plan. */
  ghost predicate Charged(st: State, st': State, d: DocId, u: Upload, env: Env, account: AccountId) {
    && u.project in st.projects && d in st'.docs
    && st'.versions == st.versions + [Uploaded(d, st'.docs[d].current, u, env)]
    && UsedStorage(st', account) ==
       UsedStorage(st, account) + (if account == st.projects[u.project] then |u.content| else 0)
    && WithinPlan(st', st.projects[u.project], env)
  }

  /** A put either adds exactly one version, charged to its account; or none, and then changes
      no version and no usage; a failed one changes nothing. */
  ghost predicate PutOutcome(st: State, st': State, r: Result<Stored, Error>, u: Upload, env: Env, account: AccountId) {
    && Inv(st', env) && Scoped(st')
    && st.versions <= st'.versions
    && (r.Err? ==> st' == st)
    && (r.Ok? && !r.value.created ==>
          st'.versions == st.versions && UsedStorage(st', account) == UsedStorage(st, account))
    && (r.Ok? && r.value.created ==> Charged(st, st', r.value.doc, u, env, account))
  }

  /** Resolving a compartment touches no deliverable and no version. */
  ghost predicate Resolved(st: State, mid: State, u: Upload, c: CompartmentId) {
    && mid.docs == st.docs && mid.versions == st.versions
    && mid.projects == st.projects && mid.subscriptions == st.subscriptions
    && st.compartments.Keys <= mid.compartments.Keys
    && Scoped(mid) && InProject(mid, c, u.project)
  }

  lemma ResolveEffect(st: State, u: Upload)
    requires Scoped(st) && Fresh(st, u)
    ensures var (mid, c) := Resolve(st, u);
            if c.Err? then mid == st else Resolved(st, mid, u, c.value)
  {
    var (mid, c) := Resolve(st, u);
    if c.Ok? {
      var found := CompartmentsNamed(st, u.project, Strip(u.compartment));
      assert |found| == 1 ==> c.value in found;
      forall d | d in mid.docs ensures InProject(mid, mid.docs[d].compartment, mid.docs[d].project) {
        assert InProject(st, st.docs[d].compartment, st.docs[d].project);
      }
    }
  }

  lemma PutEffect(st: State, u: Upload, env: Env, account: AccountId)
    requires Inv(st, env) && Scoped(st) && Fresh(st, u)
    ensures PutOutcome(st, Put(st, u, env).0, Put(st, u, env).1, u, env, account)
  {
    var (mid, c) := Resolve(st, u);
    ResolveEffect(st, u);
    if CheckUpload(u).None? && c.Ok? {
      SameHistory(st, mid, env, account);
      StoreEffect(mid, c.value, u, env, account);
      if Store(mid, c.value, u, env).1.Ok? {
        SameOutcome(st, mid, Store(mid, c.value, u, env).0, Store(mid, c.value, u, env).1, u, env, account);
      }
    }
  }

  lemma SameHistory(st: State, mid: State, env: Env, account: AccountId)
    requires Inv(st, env) && mid.docs == st.docs && mid.versions == st.versions && mid.projects == st.projects
    ensures Inv(mid, env) && UsedStorage(mid, account) == UsedStorage(st, account)
  {
    UsedSame(st, mid, account, st.versions);
  }

  lemma SameOutcome(st: State, mid: State, st': State, r: Result<Stored, Error>, u: Upload, env: Env,
                    account: AccountId)
    requires PutOutcome(mid, st', r, u, env, account) && r.Ok?
    requires mid.versions == st.versions && mid.projects == st.projects
    requires UsedStorage(mid, account) == UsedStorage(st, account)
    ensures PutOutcome(st, st', r, u, env, account)
  {}

  lemma StoreEffect(st: State, c: CompartmentId, u: Upload, env: Env, account: AccountId)
    requires Inv(st, env) && Scoped(st) && u.newId !in st.docs && InProject(st, c, u.project)
    ensures PutOutcome(st, Store(st, c, u, env).0, Store(st, c, u, env).1, u, env, account)
  {
    var found := Named(st, c, Strip(u.name));
    if |found| == 0 {
      CreateEffect(st, c, u, env, account);
    } else if |found| == 1 {
      assert Only(found) in found;
      assert InProject(st, st.docs[Only(found)].compartment, st.docs[Only(found)].project);
      ReviseEffect(st, Only(found), u, env, account);
    }
  }

  lemma CreateEffect(st: State, c: CompartmentId, u: Upload, env: Env, account: AccountId)
    requires Inv(st, env) && Scoped(st) && u.newId !in st.docs && InProject(st, c, u.project)
    ensures PutOutcome(st, Create(st, c, u, env).0, Create(st, c, u, env).1, u, env, account)
  {
    var (st', r) := Create(st, c, u, env);
    if r.Ok? {
      CreateAppends(st, c, u, env);
      AppendedIsCharged(st, st', u.newId, u, env, account);
      ScopedAfter(st, st', u.newId);
    }
  }

  lemma CreateAppends(st: State, c: CompartmentId, u: Upload, env: Env)
    requires u.newId !in st.docs && Create(st, c, u, env).1.Ok?
    ensures var (st', r) := Create(st, c, u, env);
            && r == Ok(Stored(u.newId, true)) && Guard(st, u.project, |u.content|, env).None?
            && st'.compartments == st.compartments
            && u.newId in st'.docs && st'.docs[u.newId] == NewDoc(u, c)
            && Appended(st, st', u.newId, NewDoc(u, c), Uploaded(u.newId, 1, u, env))
  {}

  lemma ReviseEffect(st: State, d: DocId, u: Upload, env: Env, account: AccountId)
    requires Inv(st, env) && Scoped(st) && d in st.docs && st.docs[d].project == u.project
    ensures PutOutcome(st, Revise(st, d, u, env).0, Revise(st, d, u, env).1, u, env, account)
  {
    var (st', r) := Revise(st, d, u, env);
    if r.Ok? {
      ReviseWrites(st, d, u, env);
      ScopedAfter(st, st', d);
      if r.value.created {
        AppendedIsCharged(st, st', d, u, env, account);
      } else {
        UsedSame(st, st', account, st.versions);
        RetouchKeepsInv(st, st', env);
      }
    }
  }

  lemma ReviseWrites(st: State, d: DocId, u: Upload, env: Env)
    requires d in st.docs && Revise(st, d, u, env).1.Ok?
    ensures var (st', r) := Revise(st, d, u, env);
            && r.value.doc == d && st'.compartments == st.compartments && st'.projects == st.projects
            && d in st'.docs && st'.docs == st.docs[d := st'.docs[d]]
            && st'.docs[d].project == st.docs[d].project && st'.docs[d].compartment == st.docs[d].compartment
            && (!r.value.created ==> st'.versions == st.versions && st'.docs[d].current == st.docs[d].current)
            && (r.value.created ==>
                  && Guard(st, u.project, |u.content|, env).None? && st'.docs[d].current <= MAX_VERSION
                  && Appended(st, st', d, st'.docs[d], Uploaded(d, st'.docs[d].current, u, env)))
  {}

  lemma ScopedAfter(st: State, st': State, d: DocId)
    requires Scoped(st) && st'.compartments == st.compartments && d in st'.docs
    requires forall e | e in st'.docs && e != d :: e in st.docs && st'.docs[e] == st.docs[e]
    requires InProject(st', st'.docs[d].compartment, st'.docs[d].project)
             || (d in st.docs && st'.docs[d].compartment == st.docs[d].compartment
                 && st'.docs[d].project == st.docs[d].project)
    ensures Scoped(st')
  {
    forall e | e in st'.docs ensures InProject(st', st'.docs[e].compartment, st'.docs[e].project) {
      if e in st.docs {
        assert InProject(st, st.docs[e].compartment, st.docs[e].project);
      }
    }
  }

  /** An uploaded row that passed the guard is charged as promised. */
  lemma AppendedIsCharged(st: State, st': State, d: DocId, u: Upload, env: Env, account: AccountId)
    requires Inv(st, env) && d in st'.docs && st'.docs[d].current <= MAX_VERSION && st'.docs[d].project == u.project
    requires Appended(st, st', d, st'.docs[d], Uploaded(d, st'.docs[d].current, u, env))
    requires Guard(st, u.project, |u.content|, env).None?
    ensures Inv(st', env) && Charged(st, st', d, u, env, account)
  {
    var v := Uploaded(d, st'.docs[d].current, u, env);
    AddVersionKeepsInv(st, st', env, d, st'.docs[d], v);
    AppendUsage(st, st', env, d, st'.docs[d], v, account);
    AppendUsage(st, st', env, d, st'.docs[d], v, st.projects[u.project]);
  }

  lemma RetouchKeepsInv(st: State, st': State, env: Env)
    requires Inv(st, env) && st'.versions == st.versions && st'.docs.Keys == st.docs.Keys
    requires forall d | d in st.docs :: st'.docs[d].current == st.docs[d].current
    ensures Inv(st', env)
  {}

  // ----- reading back -----

  /** Reading the deliverable after a successful put returns the bytes that were put, unless
      the put was skipped because other bytes with the same digest are current. */
  ghost predicate ReadsBack(st: State, st': State, stored: Stored, u: Upload, env: Env) {
    var read := GetVersion(st', u.project, stored.doc, None);
    && read.Ok? && read.value.sha == env.sha(u.content)
    && (if stored.created then read.value.content == u.content
        else read == GetVersion(st, u.project, stored.doc, None))
  }

  lemma PutThenRead(st: State, u: Upload, env: Env)
    requires Inv(st, env) && Scoped(st) && Fresh(st, u) && Put(st, u, env).1.Ok?
    ensures ReadsBack(st, Put(st, u, env).0, Put(st, u, env).1.value, u, env)
  {
    var (st', r) := Put(st, u, env);
    PutEffect(st, u, env, 0);
    PutProject(st, u, env);
    if r.value.created {
      ReadAppended(st, st', env, r.value.doc);
    }
  }

  /** The deliverable written to is the project's own; a skipped put found the bytes current. */
  lemma PutProject(st: State, u: Upload, env: Env)
    requires Scoped(st) && Fresh(st, u) && Put(st, u, env).1.Ok?
    ensures var (st', r) := Put(st, u, env);
            && r.value.doc in st'.docs && st'.docs[r.value.doc].project == u.project
            && (!r.value.created ==> ReadsBack(st, st', r.value, u, env))
  {
    var (mid, c) := Resolve(st, u);
    ResolveEffect(st, u);
    var found := Named(mid, c.value, Strip(u.name));
    if |found| == 1 {
      assert Only(found) in found;
      assert InProject(mid, mid.docs[Only(found)].compartment, mid.docs[Only(found)].project);
    }
  }

  /** The appended row is the one a read of the current version finds. */
  lemma ReadAppended(st: State, st': State, env: Env, d: DocId)
    requires Inv(st', env) && d in st'.docs && |st'.versions| == |st.versions| + 1 && st.versions <= st'.versions
    requires st'.versions[|st.versions|].doc == d && st'.versions[|st.versions|].no == st'.docs[d].current
    ensures GetVersion(st', st'.docs[d].project, d, None) == Ok(st'.versions[|st.versions|])
  {
    var n := |st.versions|;
    var v := st'.versions[n];
    FindVersionSound(st'.versions, d, v.no);
    assert HasVersion(st'.versions, d, v.no);
    var found := FindVersion(st'.versions, d, v.no).value;
    var i :| 0 <= i < |st'.versions| && st'.versions[i] == found;
    assert i < n ==> st'.versions[i].doc == st'.versions[n].doc;
  }

  /** The documented promise, for a digest without collisions. */
  lemma PutThenReadSameBytes(st: State, u: Upload, env: Env)
    requires Inv(st, env) && Scoped(st) && Fresh(st, u) && Put(st, u, env).1.Ok?
    requires forall a, b :: env.sha(a) == env.sha(b) ==> a == b
    ensures var (st', r) := Put(st, u, env);
            var read := GetVersion(st', u.project, r.value.doc, None);
            read.Ok? && read.value.content == u.content
  {
    var (st', r) := Put(st, u, env);
    PutThenRead(st, u, env);
    PutEffect(st, u, env, 0);
    ReadIsDigested(st', env, u.project, r.value.doc);
  }

  lemma ReadIsDigested(st: State, env: Env, p: ProjectId, d: DocId)
    requires Inv(st, env) && GetVersion(st, p, d, None).Ok?
    ensures GetVersion(st, p, d, None).value.sha == env.sha(GetVersion(st, p, d, None).value.content)
  {
    FindVersionSound(st.versions, d, st.docs[d].current);
    var v := GetVersion(st, p, d, None).value;
    var i :| 0 <= i < |st.versions| && st.versions[i] == v;
  }

  /** What a rollback to `src` leaves behind: its content is current, as a new row, and it is
      still there itself; the row is charged like any other. */
  ghost predicate RolledBack(st: State, st': State, p: ProjectId, d: DocId, src: Version, env: Env,
                             account: AccountId) {
    && GetVersion(st, p, d, Some(src.no)) == Ok(src) && GetVersion(st', p, d, Some(src.no)) == Ok(src)
    && p in st.projects && |st'.versions| == |st.versions| + 1
    && d in st.docs && d in st'.docs && st'.docs[d] == st.docs[d].(current := st.docs[d].current + 1)
    && GetVersion(st', p, d, None).Ok? && GetVersion(st', p, d, None).value.content == src.content
    && UsedStorage(st', account) ==
       UsedStorage(st, account) + (if account == st.projects[p] then |src.content| else 0)
    && WithinPlan(st', st.projects[p], env)
  }

  lemma RollbackEffect(st: State, p: ProjectId, d: DocId, to: nat, env: Env, account: AccountId)
    requires Inv(st, env) && Scoped(st)
    ensures var (st', r) := Rollback(st, p, d, to, env);
            && Inv(st', env) && Scoped(st') && st.versions <= st'.versions
            && (r.Err? ==> st' == st)
            && (r.Ok? ==> r.value.no == to && RolledBack(st, st', p, d, r.value, env, account))
  {
    var (st', r) := Rollback(st, p, d, to, env);
    if r.Ok? {
      RollbackAppends(st, p, d, to, env);
      ScopedAfter(st, st', d);
      RestoredIsCharged(st, st', p, d, r.value, env, account);
      RestoredIsRead(st, st', p, d, r.value, env);
    }
  }

  lemma RollbackAppends(st: State, p: ProjectId, d: DocId, to: nat, env: Env)
    requires Rollback(st, p, d, to, env).1.Ok?
    ensures var (st', r) := Rollback(st, p, d, to, env);
            && GetVersion(st, p, d, Some(to)) == r && r.value.doc == d && r.value.no == to && r.value in st.versions
            && Guard(st, p, r.value.size, env).None? && st'.compartments == st.compartments
            && d in st.docs && d in st'.docs && st'.docs[d] == st.docs[d].(current := st.docs[d].current + 1)
            && st'.docs[d].current <= MAX_VERSION && st.docs[d].project == p
            && Appended(st, st', d, st'.docs[d], Restored(d, st'.docs[d].current, r.value))
  {
    FindVersionSound(st.versions, d, to);
  }

  lemma RestoredIsCharged(st: State, st': State, p: ProjectId, d: DocId, src: Version, env: Env, account: AccountId)
    requires Inv(st, env) && src in st.versions && d in st'.docs
    requires st'.docs[d].project == p && st'.docs[d].current <= MAX_VERSION
    requires Appended(st, st', d, st'.docs[d], Restored(d, st'.docs[d].current, src))
    requires Guard(st, p, src.size, env).None?
    ensures Inv(st', env) && p in st.projects && WithinPlan(st', st.projects[p], env)
    ensures UsedStorage(st', account) ==
            UsedStorage(st, account) + (if account == st.projects[p] then |src.content| else 0)
  {
    var v := Restored(d, st'.docs[d].current, src);
    var i :| 0 <= i < |st.versions| && st.versions[i] == src;
    AddVersionKeepsInv(st, st', env, d, st'.docs[d], v);
    AppendUsage(st, st', env, d, st'.docs[d], v, account);
    AppendUsage(st, st', env, d, st'.docs[d], v, st.projects[p]);
  }

  lemma RestoredIsRead(st: State, st': State, p: ProjectId, d: DocId, src: Version, env: Env)
    requires Inv(st, env) && Inv(st', env) && d in st'.docs && st'.docs[d].project == p
    requires GetVersion(st, p, d, Some(src.no)) == Ok(src)
    requires Appended(st, st', d, st'.docs[d], Restored(d, st'.docs[d].current, src))
    ensures GetVersion(st', p, d, Some(src.no)) == Ok(src)
    ensures GetVersion(st', p, d, None).Ok? && GetVersion(st', p, d, None).value.content == src.content
  {
    FindOld(st.versions, Restored(d, st'.docs[d].current, src), d, src.no);
    ReadAppended(st, st', env, d);
  }

  lemma {:induction false} FindOld(vs: seq<Version>, v: Version, d: DocId, no: nat)
    requires FindVersion(vs, d, no).Some?
    ensures FindVersion(vs + [v], d, no) == FindVersion(vs, d, no)
  {
    if !(vs[0].doc == d && vs[0].no == no) {
      FindOld(vs[1..], v, d, no);
      assert (vs + [v])[1..] == vs[1..] + [v];
    }
  }

  // ----- what a put writes, column by column -----

  /** The canonical type is kept with each version, whatever a client claims. */
  lemma MimeTypes()
    ensures Mime("pdf") == "application/pdf"
    ensures Mime("html") == "text/html; charset=utf-8" && Mime("md") == "text/markdown; charset=utf-8"
    ensures Mime("docx") == "application/vnd.openxmlformats-officedocument.wordprocessingml.document"
    ensures Mime("xlsx") == "application/vnd.openxmlformats-officedocument.spreadsheetml.sheet"
    ensures Mime("pptx") == "application/vnd.openxmlformats-officedocument.presentationml.presentation"
  {}

  /** An existing deliverable takes what was given and keeps the rest. */
  predicate Updates(was: Deliverable, doc: Deliverable, u: Upload) {
    && doc.project == was.project && doc.compartment == was.compartment && doc.name == was.name
    && doc.docType == u.docType
    && (if u.status.Some? then doc.status == u.status.value else doc.status == was.status)
    && (if u.owner.Some? then doc.owner == u.owner else doc.owner == was.owner)
    && (if u.summary.Some? then doc.summary == u.summary else doc.summary == was.summary)
  }

  /** A new one starts as a draft unless told otherwise, at version 1. */
  predicate Starts(doc: Deliverable, c: CompartmentId, u: Upload) {
    && doc.project == u.project && doc.compartment == c && doc.docType == u.docType
    && doc.name == (if |Strip(u.name)| > 200 then Strip(u.name)[..200] else Strip(u.name))
    && (if u.status.Some? then doc.status == u.status.value else doc.status == "draft")
    && doc.owner == u.owner && doc.summary == u.summary && doc.current == 1
  }

  /** The version row a put adds. */
  predicate IsUpload(v: Version, d: DocId, no: nat, u: Upload, env: Env) {
    && v.doc == d && v.no == no && v.content == u.content && v.size == |u.content|
    && v.sha == env.sha(u.content) && v.mime == Mime(u.docType)
    && (if u.note.Some? then v.note == Some(Written(u.note.value)) else v.note == None)
  }

  /** A successful put of `u` into compartment `c`, told from the tables before and after. */
  ghost predicate Wrote(st: State, st': State, c: CompartmentId, u: Upload, env: Env, stored: Stored) {
    var d := stored.doc;
    && d in st'.docs && st'.docs == st.docs[d := st'.docs[d]]
    && st'.compartments == st.compartments && st'.projects == st.projects && st'.subscriptions == st.subscriptions
    && (if d in st.docs then Updates(st.docs[d], st'.docs[d], u) else d == u.newId && Starts(st'.docs[d], c, u))
    && (if stored.created
        then |st'.versions| == |st.versions| + 1 && st.versions <= st'.versions
             && IsUpload(st'.versions[|st.versions|], d, st'.docs[d].current, u, env)
        else st'.versions == st.versions)
    && (d in st.docs ==> st'.docs[d].current == st.docs[d].current + if stored.created then 1 else 0)
    && st'.events == st.events + [if !stored.created then Deduplicated(d)
                                  else if d in st.docs then VersionAdded(d, st'.docs[d].current, None)
                                  else Created(d, st'.docs[d].name)]
  }

  lemma StoreWrites(st: State, c: CompartmentId, u: Upload, env: Env)
    requires u.newId !in st.docs && Store(st, c, u, env).1.Ok?
    ensures Wrote(st, Store(st, c, u, env).0, c, u, env, Store(st, c, u, env).1.value)
  {
    var found := Named(st, c, Strip(u.name));
    if |found| == 1 {
      assert Only(found) in found;
      ReviseIsWritten(st, Only(found), c, u, env);
    } else {
      CreateIsWritten(st, c, u, env);
    }
  }

  lemma CreateIsWritten(st: State, c: CompartmentId, u: Upload, env: Env)
    requires u.newId !in st.docs && Create(st, c, u, env).1.Ok?
    ensures Wrote(st, Create(st, c, u, env).0, c, u, env, Create(st, c, u, env).1.value)
  {}

  lemma ReviseIsWritten(st: State, d: DocId, c: CompartmentId, u: Upload, env: Env)
    requires d in st.docs && Revise(st, d, u, env).1.Ok?
    ensures Wrote(st, Revise(st, d, u, env).0, c, u, env, Revise(st, d, u, env).1.value)
  {}

  /** The project's compartment of that name, whatever its case, or a new one. */
  ghost predicate Found(st: State, mid: State, u: Upload, c: CompartmentId) {
    var name := Strip(u.compartment);
    if c in st.compartments
    then mid == st && st.compartments[c].project == u.project && Lower(st.compartments[c].name) == Lower(name)
    else c == u.newCompartment && mid.compartments.Keys == st.compartments.Keys + {c}
         && mid.compartments[c] == Compartment(u.project, if |name| > 120 then name[..120] else name)
         && (forall x | x in st.compartments :: mid.compartments[x] == st.compartments[x])
         && mid.events == st.events + [CompartmentCreated(c, mid.compartments[c].name)]
         && mid.docs == st.docs && mid.versions == st.versions && mid.projects == st.projects
  }

  lemma ResolveWrites(st: State, u: Upload)
    requires u.newCompartment !in st.compartments && Resolve(st, u).1.Ok?
    ensures Found(st, Resolve(st, u).0, u, Resolve(st, u).1.value)
  {
    var found := CompartmentsNamed(st, u.project, Strip(u.compartment));
    if |found| == 1 {
      assert Only(found) in found;
    }
  }

  /** Every successful put writes its compartment if it is new, and its deliverable. */
  lemma PutColumns(st: State, u: Upload, env: Env)
    requires Fresh(st, u) && Put(st, u, env).1.Ok?
    ensures var (st', r) := Put(st, u, env);
            exists mid, c :: Found(st, mid, u, c) && Wrote(mid, st', c, u, env, r.value)
  {
    var (mid, c) := Resolve(st, u);
    ResolveWrites(st, u);
    StoreWrites(mid, c.value, u, env);
  }

  /** What a rollback writes: the source's content, size, digest and type as the next version,
      marked with the version it restores. */
  lemma RollbackColumns(st: State, p: ProjectId, d: DocId, to: nat, env: Env)
    requires Rollback(st, p, d, to, env).1.Ok?
    ensures var (st', r) := Rollback(st, p, d, to, env);
            var src, n := r.value, |st.versions|;
            && d in st.docs && st'.docs == st.docs[d := st.docs[d].(current := st.docs[d].current + 1)]
            && |st'.versions| == n + 1 && st'.versions[..n] == st.versions
            && st'.versions[n].doc == d && st'.versions[n].no == st.docs[d].current + 1
            && st'.versions[n].content == src.content && st'.versions[n].size == src.size
            && st'.versions[n].sha == src.sha && st'.versions[n].mime == src.mime
            && st'.versions[n].note == Some(RollbackTo(to))
            && st'.events == st.events + [VersionAdded(d, st.docs[d].current + 1, Some(to))]
            && st'.compartments == st.compartments
  {
    FindVersionSound(st.versions, d, to);
  }

  // ----- why they fail -----

  /** The account's plan refuses: it is suspended, or the bytes do not fit. */
  predicate Refuses(st: State, p: ProjectId, extra: nat, env: Env, resource: string, limit: nat) {
    && p in st.projects && st.projects[p] in st.subscriptions
    && var sub := st.subscriptions[st.projects[p]];
       if sub.active
       then && resource == "storage" && StorageLimit(sub.plan, env.freeMb) == Some(limit)
            && UsedStorage(st, st.projects[p]) + extra > limit
       else resource == "subscription" && limit == 0
  }

  /** Each error of a put has its cause in the upload or in the tables. */
  lemma PutFailsBecause(st: State, u: Upload, env: Env)
    requires Put(st, u, env).1.Err? && u.newCompartment !in st.compartments && Scoped(st)
    ensures match Put(st, u, env).1.error
            case EmptyName => forall c | c in u.name :: Blank(c)
            case BadType => u.docType !in ["docx", "pdf", "html", "md", "xlsx", "pptx"]
            case EmptyContent => u.content == []
            case TooLarge => |u.content| > 10_485_760
            case BadStatus => u.status.Some? && u.status.value !in ["draft", "review", "final", "archived"]
            case EmptyCompartment => forall c | c in u.compartment :: Blank(c)
            case ProjectNotFound => u.project !in st.projects
            case AmbiguousName =>
              || |CompartmentsNamed(st, u.project, Strip(u.compartment))| > 1
              || exists c :: |Named(st, c, Strip(u.name))| > 1
            case DuplicateName =>
              || TakenCompartment(st, u.project, Take(Strip(u.compartment), MAX_COMPARTMENT_NAME))
              || exists c :: Taken(st, c, Take(Strip(u.name), MAX_NAME))
            case VersionOverflow => exists d :: d in st.docs && st.docs[d].current >= MAX_VERSION
            case PlanLimit(resource, limit) => Refuses(st, u.project, |u.content|, env, resource, limit)
            case DeliverableNotFound => false
            case VersionNotFound => false
  {
    StripEmptyIff(u.name);
    StripEmptyIff(u.compartment);
    var (mid, c) := Resolve(st, u);
    if CheckUpload(u).None? && c.Ok? {
      StoreFailsBecause(mid, c.value, u, env);
      if mid.docs == st.docs && mid.versions == st.versions && mid.projects == st.projects {
        forall a ensures UsedStorage(mid, a) == UsedStorage(st, a) {
          UsedSame(st, mid, a, st.versions);
        }
      }
    }
  }

  lemma StoreFailsBecause(st: State, c: CompartmentId, u: Upload, env: Env)
    requires Store(st, c, u, env).1.Err?
    ensures match Store(st, c, u, env).1.error
            case ProjectNotFound => u.project !in st.projects
            case AmbiguousName => |Named(st, c, Strip(u.name))| > 1
            case DuplicateName => Taken(st, c, Take(Strip(u.name), MAX_NAME))
            case VersionOverflow => exists d :: d in st.docs && st.docs[d].current >= MAX_VERSION
            case PlanLimit(resource, limit) => Refuses(st, u.project, |u.content|, env, resource, limit)
            case _ => false
  {
    var found := Named(st, c, Strip(u.name));
    if |found| == 1 {
      assert Only(found) in found;
    }
  }

  /** And of a rollback. */
  lemma RollbackFailsBecause(st: State, p: ProjectId, d: DocId, to: nat, env: Env)
    requires Inv(st, env) && Rollback(st, p, d, to, env).1.Err?
    ensures match Rollback(st, p, d, to, env).1.error
            case DeliverableNotFound => d !in st.docs || st.docs[d].project != p
            case VersionNotFound => d in st.docs && !(1 <= to <= st.docs[d].current)
            case ProjectNotFound => p !in st.projects
            case VersionOverflow => d in st.docs && st.docs[d].current == MAX_VERSION
            case PlanLimit(resource, limit) =>
              && GetVersion(st, p, d, Some(to)).Ok?
              && Refuses(st, p, |GetVersion(st, p, d, Some(to)).value.content|, env, resource, limit)
            case _ => false
  {
    RollbackVerdict(st, p, d, to, env);
    FindVersionSound(st.versions, d, to);
  }

  // ----- when they succeed -----

  predicate Room(st: State, p: ProjectId, extra: nat, env: Env) {
    p in st.projects && Fits(st, st.projects[p], extra, env)
  }

  /** The bytes are those of `d`'s current version, as far as the digest tells. */
  predicate Unchanged(st: State, d: DocId, env: Env, content: Bytes)
    requires d in st.docs
  {
    var read := GetVersion(st, st.docs[d].project, d, None);
    read.Ok? && read.value.sha == env.sha(content)
  }

  /** Once the compartment is known, a put is skipped exactly when the one deliverable of that
      name already has those bytes, and stores a version exactly when the bytes are new to it,
      the plan has room, a version number is left and no other deliverable has the cut name. */
  lemma StoreVerdict(st: State, c: CompartmentId, u: Upload, env: Env, d: DocId)
    ensures var found, r := Named(st, c, Strip(u.name)), Store(st, c, u, env).1;
            && (r == Ok(Stored(d, false)) <==> found == {d} && Unchanged(st, d, env, u.content))
            && (r == Ok(Stored(d, true)) <==>
                  && Room(st, u.project, |u.content|, env)
                  && ((found == {d} && !Unchanged(st, d, env, u.content) && st.docs[d].current < 32_767)
                      || (found == {} && d == u.newId && !Taken(st, c, Take(Strip(u.name), MAX_NAME)))))
  {
    var found := Named(st, c, Strip(u.name));
    if |found| == 1 {
      OnlyMember(found);
    }
  }

  /** What is asked of an upload by itself. */
  predicate Acceptable(u: Upload) {
    && (exists c :: c in u.name && !Blank(c)) && (exists c :: c in u.compartment && !Blank(c))
    && u.docType in ["docx", "pdf", "html", "md", "xlsx", "pptx"]
    && (u.status.Some? ==> u.status.value in ["draft", "review", "final", "archived"])
    && 0 < |u.content| <= 10_485_760
  }

  /** A put succeeds exactly when the upload is well formed, its compartment can be resolved
      and the bytes can be stored there. */
  lemma PutVerdict(st: State, u: Upload, env: Env, stored: Stored)
    ensures Put(st, u, env).1 == Ok(stored) <==>
            && Acceptable(u) && Resolve(st, u).1.Ok?
            && Store(Resolve(st, u).0, Resolve(st, u).1.value, u, env).1 == Ok(stored)
    ensures Resolve(st, u).1.Ok? <==>
            var name := Strip(u.compartment);
            || (exists c :: CompartmentsNamed(st, u.project, name) == {c})
            || (CompartmentsNamed(st, u.project, name) == {} && u.project in st.projects
                && !TakenCompartment(st, u.project, Take(name, MAX_COMPARTMENT_NAME)))
  {
    StripEmptyIff(u.name);
    StripEmptyIff(u.compartment);
    var found := CompartmentsNamed(st, u.project, Strip(u.compartment));
    if |found| == 1 {
      OnlyMember(found);
    }
  }

  /** A rollback succeeds exactly when the project has the deliverable, the version number is
      one of 1..current, the plan has room for its bytes again and a number is left. */
  lemma RollbackVerdict(st: State, p: ProjectId, d: DocId, to: nat, env: Env)
    requires Inv(st, env)
    ensures var src := GetVersion(st, p, d, Some(to));
            && (src.Ok? <==> d in st.docs && st.docs[d].project == p && 1 <= to <= st.docs[d].current)
            && (Rollback(st, p, d, to, env).1.Ok? <==>
                  src.Ok? && st.docs[d].current < 32_767 && Room(st, p, |src.value.content|, env))
  {
    FindVersionSound(st.versions, d, to);
    if d in st.docs && 1 <= to <= st.docs[d].current {
      assert HasVersion(st.versions, d, to);
    }
  }

  // ----- the same put again -----

  /** Stored names fit their columns. */
  ghost predicate NamesFit(st: State) {
    && (forall c | c in st.compartments :: |st.compartments[c].name| <= MAX_COMPARTMENT_NAME)
    && (forall d | d in st.docs :: |st.docs[d].name| <= MAX_NAME)
  }

  /** The upload repeated, with whatever keys new rows would get this time. */
  function Repeated(u: Upload, newId: DocId, newCompartment: CompartmentId): Upload {
    u.(newId := newId, newCompartment := newCompartment)
  }

  predicate SameCompartments(a: State, b: State) {
    a.compartments == b.compartments && a.projects == b.projects
  }

  /** The compartment is found again exactly when its name was stored whole. */
  lemma ResolveAgain(st: State, u: Upload, st': State, v: Upload)
    requires NamesFit(st) && u.newCompartment !in st.compartments && Resolve(st, u).1.Ok?
    requires SameCompartments(st', Resolve(st, u).0) && v.project == u.project && v.compartment == u.compartment
    ensures if |Strip(u.compartment)| <= MAX_COMPARTMENT_NAME then Resolve(st', v) == (st', Resolve(st, u).1)
            else Resolve(st', v).1.Err?
  {
    var name := Strip(u.compartment);
    var found, again := CompartmentsNamed(st, u.project, name), CompartmentsNamed(st', u.project, name);
    if |found| == 1 {
      assert |st.compartments[Only(found)].name| == |Lower(name)| by {
        assert Only(found) in found;
      }
      assert again == found;
    } else if |name| <= MAX_COMPARTMENT_NAME {
      assert u.newCompartment in again;
      assert again == {u.newCompartment};
    } else {
      assert |st'.compartments[u.newCompartment].name| == MAX_COMPARTMENT_NAME;
      assert again == {};
    }
  }

  /** So is the deliverable, and then the bytes are current already. */
  lemma StoreAgain(st: State, c: CompartmentId, u: Upload, v: Upload, env: Env)
    requires NamesFit(st) && u.newId !in st.docs && Store(st, c, u, env).1.Ok?
    requires v == Repeated(u, v.newId, v.newCompartment)
    requires var (st', r) := Store(st, c, u, env);
             r.value.doc in st'.docs && Unchanged(st', r.value.doc, env, u.content)
    ensures var (st', r) := Store(st, c, u, env);
            if |Strip(u.name)| <= MAX_NAME then Store(st', c, v, env).1 == Ok(Stored(r.value.doc, false))
            else Store(st', c, v, env).1.Err?
  {
    var (st', r) := Store(st, c, u, env);
    NamedAgain(st, c, u, env);
    if |Strip(u.name)| <= MAX_NAME {
      StoreVerdict(st', c, v, env, r.value.doc);
    }
  }

  lemma NamedAgain(st: State, c: CompartmentId, u: Upload, env: Env)
    requires NamesFit(st) && u.newId !in st.docs && Store(st, c, u, env).1.Ok?
    ensures var (st', r) := Store(st, c, u, env);
            if |Strip(u.name)| <= MAX_NAME then Named(st', c, Strip(u.name)) == {r.value.doc}
            else Named(st', c, Strip(u.name)) == {} && Taken(st', c, Take(Strip(u.name), MAX_NAME))
  {
    var (st', r) := Store(st, c, u, env);
    var name := Strip(u.name);
    var found, again := Named(st, c, name), Named(st', c, name);
    if |found| == 1 {
      assert |st.docs[Only(found)].name| == |Lower(name)| by {
        assert Only(found) in found;
      }
      assert again == found;
    } else if |name| <= MAX_NAME {
      assert u.newId in again;
      assert again == {u.newId};
    } else {
      assert |st'.docs[u.newId].name| == MAX_NAME;
      assert again == {};
      assert st'.docs[u.newId].compartment == c && st'.docs[u.newId].name == Take(name, MAX_NAME);
    }
  }

  /** The documented no-op: the same put again, right after one that succeeded, changes no
      version exactly when name and compartment name were stored whole; otherwise it fails. */
  lemma PutAgain(st: State, u: Upload, env: Env, newId: DocId, newCompartment: CompartmentId)
    requires Inv(st, env) && Scoped(st) && Fresh(st, u) && NamesFit(st) && Put(st, u, env).1.Ok?
    ensures var (st', r) := Put(st, u, env);
            var again := Put(st', Repeated(u, newId, newCompartment), env).1;
            if |Strip(u.name)| <= MAX_NAME && |Strip(u.compartment)| <= MAX_COMPARTMENT_NAME
            then again == Ok(Stored(r.value.doc, false))
            else again.Err?
  {
    var (mid, c) := Resolve(st, u);
    var (st', r) := Put(st, u, env);
    var v := Repeated(u, newId, newCompartment);
    ResolveEffect(st, u);
    ResolveNamesFit(st, u);
    PutThenRead(st, u, env);
    StoreKeepsCompartments(mid, c.value, u, env);
    ResolveAgain(st, u, st', v);
    StoreAgain(mid, c.value, u, v, env);
  }

  lemma StoreKeepsCompartments(st: State, c: CompartmentId, u: Upload, env: Env)
    ensures SameCompartments(Store(st, c, u, env).0, st)
  {}

  lemma ResolveNamesFit(st: State, u: Upload)
    requires NamesFit(st)
    ensures NamesFit(Resolve(st, u).0)
  {}

  lemma StoreNamesFit(st: State, c: CompartmentId, u: Upload, env: Env)
    requires NamesFit(st)
    ensures NamesFit(Store(st, c, u, env).0)
  {
    var found := Named(st, c, Strip(u.name));
    if |found| == 1 {
      assert Only(found) in found;
    }
  }

  /** A name of 201 characters: the second put finds no such deliverable and may not create it. */
  lemma LongNameIsRefused(env: Env)
    ensures var st := State(map[], map[], [], [], map[0 := 0], map[]);
            var u := LongUpload();
            && Put(st, u, env).1 == Ok(Stored(0, true))
            && Put(Put(st, u, env).0, Repeated(u, 1, 1), env).1.Err?
  {
    var st, u := State(map[], map[], [], [], map[0 := 0], map[]), LongUpload();
    assert CompartmentsNamed(st, 0, "docs") == {};
    assert Named(Resolve(st, u).0, 0, u.name) == {};
    StripWhole(u.name);
    StripWhole("docs");
    assert Put(st, u, env).1 == Ok(Stored(0, true));
    PutAgain(st, u, env, 1, 1);
  }

  function LongUpload(): Upload {
    Upload(0, 0, 0, "docs", seq(MAX_NAME + 1, _ => 'a'), "md", [0], None, None, None, None)
  }

  lemma StripWhole(s: string)
    requires s != "" && !Blank(s[0]) && !Blank(s[|s| - 1])
    ensures Strip(s) == s
  {}

  // ----- every run -----

  datatype Op =
    | DoPut(upload: Upload)
    | DoRollback(project: ProjectId, doc: DocId, to: nat)
    | DoSubscribe(account: AccountId, subscription: Subscription)

  function Step(st: State, op: Op, env: Env): State {
    match op
    case DoPut(u) => Put(st, u, env).0
    case DoRollback(p, d, to) => Rollback(st, p, d, to, env).0
    case DoSubscribe(a, s) => st.(subscriptions := st.subscriptions[a := s])
  }

  ghost predicate StepTo(st: State, op: Op, st': State, env: Env) {
    st' == Step(st, op, env) && (op.DoPut? ==> Fresh(st, op.upload))
  }

  ghost predicate IsRun(states: seq<State>, ops: seq<Op>, env: Env) {
    && |states| == |ops| + 1
    && forall k | 0 <= k < |ops| :: StepTo(states[k], ops[k], states[k + 1], env)
  }

  lemma {:induction false} InvInEveryRun(states: seq<State>, ops: seq<Op>, env: Env, k: nat)
    requires IsRun(states, ops, env) && Inv(states[0], env) && Scoped(states[0]) && k < |states|
    ensures Inv(states[k], env) && Scoped(states[k])
  {
    if k > 0 {
      InvInEveryRun(states, ops, env, k - 1);
      StepKeepsHistory(states[k - 1], ops[k - 1], states[k], env);
    }
  }

  /** In every run of puts and rollbacks, under any plan changes: versions stay numbered
      1..current, and no version is ever changed or removed. */
  lemma HistoryInEveryRun(states: seq<State>, ops: seq<Op>, env: Env, i: nat, k: nat)
    requires IsRun(states, ops, env) && Inv(states[0], env) && Scoped(states[0])
    requires i <= k < |states|
    ensures Inv(states[k], env)
    ensures states[i].versions <= states[k].versions
  {
    InvInEveryRun(states, ops, env, k);
    forall h | 0 <= h < |ops| ensures states[h].versions <= states[h + 1].versions {
      VersionsKept(states, ops, env, h);
    }
    VersionsOnlyGrow(states, i, k);
  }

  lemma {:induction false} VersionsOnlyGrow(states: seq<State>, i: nat, k: nat)
    requires i <= k < |states|
    requires forall h | 0 <= h < |states| - 1 :: states[h].versions <= states[h + 1].versions
    ensures states[i].versions <= states[k].versions
    decreases k
  {
    if i < k {
      VersionsOnlyGrow(states, i, k - 1);
      assert states[k - 1].versions <= states[k - 1 + 1].versions;
    }
  }

  lemma VersionsKept(states: seq<State>, ops: seq<Op>, env: Env, k: nat)
    requires IsRun(states, ops, env) && Inv(states[0], env) && Scoped(states[0]) && k < |ops|
    ensures states[k].versions <= states[k + 1].versions
  {
    InvInEveryRun(states, ops, env, k);
    StepKeepsHistory(states[k], ops[k], states[k + 1], env);
  }

  lemma StepKeepsHistory(st: State, op: Op, st': State, env: Env)
    requires Inv(st, env) && Scoped(st) && StepTo(st, op, st', env)
    ensures Inv(st', env) && Scoped(st') && st.versions <= st'.versions
  {
    match op
    case DoPut(u) => PutEffect(st, u, env, 0);
    case DoRollback(p, d, to) => RollbackEffect(st, p, d, to, env, 0);
    case DoSubscribe(_, _) => SubscribeKeepsInv(st, st', env);
  }

  /** Names fit in every run, so the same put again is decided by its own names' lengths. */
  lemma {:induction false} NamesFitInEveryRun(states: seq<State>, ops: seq<Op>, env: Env, k: nat)
    requires IsRun(states, ops, env) && NamesFit(states[0]) && k < |states|
    ensures NamesFit(states[k])
  {
    if k > 0 {
      NamesFitInEveryRun(states, ops, env, k - 1);
      StepKeepsNames(states[k - 1], ops[k - 1], states[k], env);
    }
  }

  lemma StepKeepsNames(st: State, op: Op, st': State, env: Env)
    requires NamesFit(st) && StepTo(st, op, st', env)
    ensures NamesFit(st')
  {
    if op.DoPut? {
      ResolveNamesFit(st, op.upload);
      var (mid, c) := Resolve(st, op.upload);
      if c.Ok? {
        StoreNamesFit(mid, c.value, op.upload, env);
      }
    }
  }

  lemma SubscribeKeepsInv(st: State, st': State, env: Env)
    requires Inv(st, env) && Scoped(st)
    requires st'.docs == st.docs && st'.versions == st.versions && st'.compartments == st.compartments
    ensures Inv(st', env) && Scoped(st')
  {
    assert forall d | d in st.docs :: InProject(st, st.docs[d].compartment, st.docs[d].project);
  }

  // ----- the audit trail accounts for every version -----

  /** How many events say that `d` got a version. */
  function VersionEvents(events: seq<Event>, d: DocId): nat {
    if events == [] then 0
    else
      var e := events[|events| - 1];
      VersionEvents(events[..|events| - 1], d)
      + (if (e.Created? && e.doc == d) || (e.VersionAdded? && e.doc == d) then 1 else 0)
  }

  /** Every deliverable has as many such events as versions, and nothing else has any. */
  ghost predicate Audited(st: State) {
    forall d :: VersionEvents(st.events, d) == if d in st.docs then st.docs[d].current else 0
  }

  lemma OneEvent(events: seq<Event>, e: Event, d: DocId)
    ensures VersionEvents(events + [e], d) ==
            VersionEvents(events, d) + (if (e.Created? && e.doc == d) || (e.VersionAdded? && e.doc == d) then 1 else 0)
  {
    assert (events + [e])[..|events|] == events;
  }

  lemma StepKeepsAudit(st: State, op: Op, st': State, env: Env)
    requires Audited(st) && StepTo(st, op, st', env)
    ensures Audited(st')
  {
    match op
    case DoPut(u) => PutAudited(st, u, env);
    case DoRollback(p, d, to) => RollbackAudited(st, p, d, to, env);
    case DoSubscribe(_, _) =>
      forall d ensures VersionEvents(st.events, d) == if d in st.docs then st.docs[d].current else 0 {}
  }

  lemma AddedEvent(st: State, st': State, e: Event)
    requires Audited(st) && st'.events == st.events + [e]
    requires forall d :: (if d in st'.docs then st'.docs[d].current else 0) ==
                         (if d in st.docs then st.docs[d].current else 0)
                         + (if (e.Created? && e.doc == d) || (e.VersionAdded? && e.doc == d) then 1 else 0)
    ensures Audited(st')
  {
    forall d ensures VersionEvents(st'.events, d) == if d in st'.docs then st'.docs[d].current else 0 {
      OneEvent(st.events, e, d);
    }
  }

  lemma PutAudited(st: State, u: Upload, env: Env)
    requires Audited(st) && Fresh(st, u)
    ensures Audited(Put(st, u, env).0)
  {
    var (mid, c) := Resolve(st, u);
    if CheckUpload(u).None? && c.Ok? && Store(mid, c.value, u, env).1.Ok? {
      if mid != st {
        AddedEvent(st, mid, mid.events[|st.events|]);
      }
      StoreAudited(mid, c.value, u, env);
    }
  }

  lemma StoreAudited(st: State, c: CompartmentId, u: Upload, env: Env)
    requires Audited(st) && u.newId !in st.docs && Store(st, c, u, env).1.Ok?
    ensures Audited(Store(st, c, u, env).0)
  {
    var st' := Store(st, c, u, env).0;
    AddedEvent(st, st', st'.events[|st.events|]);
  }

  lemma RollbackAudited(st: State, p: ProjectId, d: DocId, to: nat, env: Env)
    requires Audited(st)
    ensures Audited(Rollback(st, p, d, to, env).0)
  {
    var (st', r) := Rollback(st, p, d, to, env);
    if r.Ok? {
      AddedEvent(st, st', st'.events[|st.events|]);
    }
  }

  /** In every run, the events of a deliverable's audit trail number its versions. */
  lemma {:induction false} AuditInEveryRun(states: seq<State>, ops: seq<Op>, env: Env, k: nat)
    requires IsRun(states, ops, env) && Audited(states[0]) && k < |states|
    ensures Audited(states[k])
  {
    if k > 0 {
      AuditInEveryRun(states, ops, env, k - 1);
      StepKeepsAudit(states[k - 1], ops[k - 1], states[k], env);
    }
  }

  // ----- the service, updating its rows in place -----

  method Retouch(row: Deliverable, u: Upload) returns (doc: Deliverable)
    ensures doc == Retouched(row, u)
  {
    doc := row;
    if u.status.Some? {
      doc := doc.(status := u.status.value);
    }
    if u.owner.Some? {
      doc := doc.(owner := u.owner);
    }
    if u.summary.Some? {
      doc := doc.(summary := u.summary);
    }
    if doc.docType != u.docType {
      doc := doc.(docType := u.docType);
    }
  }

  class DocumentService {
    var compartments: map<CompartmentId, Compartment>
    var docs: map<DocId, Deliverable>
    var versions: seq<Version>
    var events: seq<Event>
    const projects: map<ProjectId, AccountId>
    var subscriptions: map<AccountId, Subscription>
    const env: Env

    function Contents(): State
      reads this
    {
      State(compartments, docs, versions, events, projects, subscriptions)
    }

    constructor (projects: map<ProjectId, AccountId>, subscriptions: map<AccountId, Subscription>, env: Env)
      ensures Contents() == State(map[], map[], [], [], projects, subscriptions) && this.env == env
    {
      compartments, docs, versions, events := map[], map[], [], [];
      this.projects, this.subscriptions, this.env := projects, subscriptions, env;
    }

    /** resolve_compartment with create=True. */
    method ResolveCompartment(u: Upload) returns (r: Result<CompartmentId, Error>)
      modifies this`compartments, this`events
      ensures (Contents(), r) == Resolve(old(Contents()), u)
    {
      var name := Strip(u.compartment);
      var found := CompartmentsNamed(Contents(), u.project, name);
      if |found| > 1 {
        return Err(AmbiguousName);
      }
      if |found| == 1 {
        return Ok(Only(found));
      }
      if u.project !in projects {
        return Err(ProjectNotFound);
      }
      if TakenCompartment(Contents(), u.project, Take(name, MAX_COMPARTMENT_NAME)) {
        return Err(DuplicateName);
      }
      var c := Compartment(u.project, Take(name, MAX_COMPARTMENT_NAME));
      compartments := compartments[u.newCompartment := c];
      events := events + [CompartmentCreated(u.newCompartment, c.name)];
      r := Ok(u.newCompartment);
    }

    /** The whole request: what it wrote before an error is rolled back. */
    method PutDeliverable(u: Upload) returns (r: Result<Stored, Error>)
      modifies this
      ensures (Contents(), r) == Put(old(Contents()), u, env)
    {
      var before := Contents();
      var bad := CheckUpload(u);
      if bad.Some? {
        return Err(bad.value);
      }
      var c := ResolveCompartment(u);
      if c.Err? {
        return Err(c.error);
      }
      r := StoreIn(c.value, u);
      if r.Err? {
        compartments, docs, versions, events := before.compartments, before.docs, before.versions, before.events;
      }
    }

    method StoreIn(c: CompartmentId, u: Upload) returns (r: Result<Stored, Error>)
      modifies this`docs, this`versions, this`events
      ensures r == Store(old(Contents()), c, u, env).1
      ensures r.Ok? ==> Contents() == Store(old(Contents()), c, u, env).0
    {
      var found := Named(Contents(), c, Strip(u.name));
      if |found| > 1 {
        return Err(AmbiguousName);
      }
      if |found| == 0 {
        var denied := Guard(Contents(), u.project, |u.content|, env);
        if denied.Some? {
          return Err(denied.value);
        }
        if Taken(Contents(), c, Take(Strip(u.name), MAX_NAME)) {
          return Err(DuplicateName);
        }
        docs := docs[u.newId := NewDoc(u, c)];
        versions := versions + [Uploaded(u.newId, 1, u, env)];
        events := events + [Created(u.newId, docs[u.newId].name)];
        return Ok(Stored(u.newId, true));
      }
      assert Only(found) in found;
      r := ReviseDoc(Only(found), u);
    }

    /** An existing deliverable: metadata first, then the content if it changed. */
    method ReviseDoc(d: DocId, u: Upload) returns (r: Result<Stored, Error>)
      requires d in docs
      modifies this`docs, this`versions, this`events
      ensures r == Revise(old(Contents()), d, u, env).1
      ensures r.Ok? ==> Contents() == Revise(old(Contents()), d, u, env).0
    {
      var was := Contents();
      var doc := Retouch(docs[d], u);
      docs := docs[d := doc];
      var current := FindVersion(versions, d, doc.current);
      if current.Some? && current.value.sha == env.sha(u.content) {
        events := events + [Deduplicated(d)];
        return Ok(Stored(d, false));
      }
      UsageUnmoved(was, Contents(), d, u.project);
      var denied := Guard(Contents(), u.project, |u.content|, env);
      if denied.Some? {
        return Err(denied.value);
      }
      var no := doc.current + 1;
      if no > MAX_VERSION {
        return Err(VersionOverflow);
      }
      versions := versions + [Uploaded(d, no, u, env)];
      docs := docs[d := doc.(current := no)];
      events := events + [VersionAdded(d, no, None)];
      r := Ok(Stored(d, true));
    }

    method RollbackDeliverable(p: ProjectId, d: DocId, to: nat) returns (r: Result<Version, Error>)
      modifies this
      ensures (Contents(), r) == Rollback(old(Contents()), p, d, to, env)
    {
      r := GetVersion(Contents(), p, d, Some(to));
      if r.Err? {
        return;
      }
      var denied := Guard(Contents(), p, r.value.size, env);
      if denied.Some? {
        return Err(denied.value);
      }
      var no := docs[d].current + 1;
      if no > MAX_VERSION {
        return Err(VersionOverflow);
      }
      versions := versions + [Restored(d, no, r.value)];
      docs := docs[d := docs[d].(current := no)];
      events := events + [VersionAdded(d, no, Some(to))];
    }
  }
}
