/** The plan-task table of app/management/service.py: what upserts and removals keep. */
module Plan {
  import opened Options
  import opened Sorting
  import opened Calendar
  import opened Text

  type Id = nat
  type ProjectId = nat

  const MAX_PLAN_DEPTH := 3

  datatype Task = Task(
    project: ProjectId, parent: Option<Id>, name: string, start: Option<Day>, end: Option<Day>,
    progress: nat, milestone: bool, deps: Option<seq<string>>, sortOrder: int, createdBy: string)

  type Tasks = map<Id, Task>

  datatype Error =
    | BadProgress | EndBeforeStart | ParentNotFound | TooDeep | Cycle | TaskNotFound | EmptyName | NotStorable

  /** Who edits, and the columns to write; None leaves one alone. */
  datatype Edit = Edit(
    name: Option<string>, parent: Option<Id>, start: Option<Day>, end: Option<Day>,
    progress: Option<int>, milestone: Option<bool>, deps: Option<seq<string>>, sortOrder: Option<int>,
    actor: string)

  // ----- forests -----

  /** `level` counts every task's distance to its root, roots having 1: such a numbering exists
      exactly when following parents always ends at a root. Parents share the project. */
  ghost predicate IsLevelling(tasks: Tasks, level: map<Id, nat>) {
    && level.Keys == tasks.Keys
    && forall t | t in tasks :: LevelOk(tasks, level, t)
  }

  ghost predicate LevelOk(tasks: Tasks, level: map<Id, nat>, t: Id)
    requires t in tasks && level.Keys == tasks.Keys
  {
    match tasks[t].parent
    case None => level[t] == 1
    case Some(p) => p in tasks && tasks[p].project == tasks[t].project && level[t] == level[p] + 1
  }

  ghost predicate Forest(tasks: Tasks) {
    exists level :: IsLevelling(tasks, level)
  }

  ghost function Levels(tasks: Tasks): (level: map<Id, nat>)
    requires Forest(tasks)
    ensures IsLevelling(tasks, level)
  {
    var level :| IsLevelling(tasks, level);
    level
  }

  /** The path from a task up to its root. */
  ghost function Ancestors(tasks: Tasks, level: map<Id, nat>, t: Id): (a: seq<Id>)
    requires IsLevelling(tasks, level) && t in tasks
    ensures a != [] && a[0] == t && |a| == level[t]
    decreases level[t]
  {
    assert LevelOk(tasks, level, t);
    match tasks[t].parent
    case None => [t]
    case Some(p) => [t] + Ancestors(tasks, level, p)
  }

  /** Entry i of the path sits i levels higher, inside the table and the project. */
  lemma {:induction false} AncestorLevels(tasks: Tasks, level: map<Id, nat>, t: Id, i: nat)
    requires IsLevelling(tasks, level) && t in tasks && i < level[t]
    ensures var a := Ancestors(tasks, level, t);
            && a[i] in tasks && level[a[i]] == level[t] - i
            && tasks[a[i]].project == tasks[t].project
            && a[i..] == Ancestors(tasks, level, a[i])
    decreases i
  {
    assert LevelOk(tasks, level, t);
    if i > 0 {
      var p := tasks[t].parent.value;
      AncestorLevels(tasks, level, p, i - 1);
      assert Ancestors(tasks, level, t)[1..] == Ancestors(tasks, level, p);
      assert Ancestors(tasks, level, t)[i..] == Ancestors(tasks, level, p)[i - 1..];
    }
  }

  lemma AncestorsNoDup(tasks: Tasks, level: map<Id, nat>, t: Id)
    requires IsLevelling(tasks, level) && t in tasks
    ensures NoDup(Ancestors(tasks, level, t))
    ensures Elems(Ancestors(tasks, level, t)) <= tasks.Keys
  {
    var a := Ancestors(tasks, level, t);
    forall i | 0 <= i < |a| ensures a[i] in tasks && level[a[i]] == level[t] - i {
      AncestorLevels(tasks, level, t, i);
    }
  }

  /** A task's depth is determined by the table alone. */
  lemma {:induction false} LevelUnique(tasks: Tasks, a: map<Id, nat>, b: map<Id, nat>, t: Id)
    requires IsLevelling(tasks, a) && IsLevelling(tasks, b) && t in tasks
    ensures a[t] == b[t]
    decreases a[t]
  {
    assert LevelOk(tasks, a, t) && LevelOk(tasks, b, t);
    if tasks[t].parent.Some? {
      LevelUnique(tasks, a, b, tasks[t].parent.value);
    }
  }

  // ----- _chain_up -----

  /** On a forest the walk up, with its guard against corrupt cycles, is the ancestor path. */
  method ChainUp(tasks: Tasks, ghost level: map<Id, nat>, taskId: Id) returns (chain: seq<Id>)
    requires IsLevelling(tasks, level)
    ensures chain == if taskId in tasks then Ancestors(tasks, level, taskId) else [taskId]
  {
    chain := [];
    var seen: set<Id> := {};
    var cur := Some(taskId);
    ghost var whole := if taskId in tasks then Ancestors(tasks, level, taskId) else [taskId];
    while cur.Some? && cur.value !in seen
      invariant seen == Elems(chain)
      invariant |chain| <= |whole| && chain == whole[..|chain|]
      invariant cur.Some? <==> |chain| < |whole|
      invariant cur.Some? ==> cur.value == whole[|chain|]
      decreases |whole| - |chain|
    {
      var t := cur.value;
      ghost var n := |chain|;
      seen := seen + {t};
      chain := chain + [t];
      assert Elems(chain) == seen;
      cur := if t in tasks then tasks[t].parent else None;
      if taskId in tasks {
        AncestorLevels(tasks, level, taskId, n);
        assert LevelOk(tasks, level, t);
        assert n + 1 < |whole| ==> whole[n..][1] == whole[n + 1];
      }
    }
    if taskId in tasks {
      AncestorsNoDup(tasks, level, taskId);
    }
  }

  // ----- upsert and remove -----

  function CheckEdit(e: Edit): Option<Error> {
    if e.progress.Some? && !(0 <= e.progress.value <= 100) then Some(BadProgress)
    else if e.start.Some? && e.end.Some? && e.end.value < e.start.value then Some(EndBeforeStart)
    else None
  }

  ghost function CheckParent(tasks: Tasks, level: map<Id, nat>, project: ProjectId, task: Option<Id>,
                             parent: Option<Id>): Option<Error>
    requires IsLevelling(tasks, level)
  {
    if parent.None? then None
    else
      var p := parent.value;
      if p !in tasks || tasks[p].project != project then Some(ParentNotFound)
      else if level[p] + 1 > MAX_PLAN_DEPTH then Some(TooDeep)
      else if task.Some? && task.value in Ancestors(tasks, level, p) then Some(Cycle)
      else None
  }

  function Edited(t: Task, e: Edit): Task {
    Task(t.project,
         if e.parent.Some? then e.parent else t.parent,
         if e.name.Some? then Strip(e.name.value) else t.name,
         if e.start.Some? then e.start else t.start,
         if e.end.Some? then e.end else t.end,
         if e.progress.Some? && e.progress.value >= 0 then e.progress.value else t.progress,
         if e.milestone.Some? then e.milestone.value else t.milestone,
         if e.deps.Some? then e.deps else t.deps,
         if e.sortOrder.Some? then e.sortOrder.value else t.sortOrder,
         t.createdBy)
  }

  function NewTask(project: ProjectId, e: Edit): Task {
    Task(project, e.parent, if e.name.Some? then Strip(e.name.value) else "", e.start, e.end,
         if e.progress.Some? && e.progress.value >= 0 then e.progress.value else 0,
         e.milestone == Some(true), e.deps, if e.sortOrder.Some? then e.sortOrder.value else 0, e.actor)
  }

  /** What the columns hold: name is VARCHAR(200), sort_order SMALLINT. */
  predicate Storable(t: Task) {
    |t.name| <= 200 && -32768 <= t.sortOrder <= 32767
  }

  ghost function Upsert(tasks: Tasks, project: ProjectId, task: Option<Id>, newId: Id, e: Edit)
    : (Tasks, Result<Id, Error>)
    requires Forest(tasks)
  {
    var bad := CheckEdit(e);
    if bad.Some? then (tasks, Err(bad.value))
    else
      var misplaced := CheckParent(tasks, Levels(tasks), project, task, e.parent);
      if misplaced.Some? then (tasks, Err(misplaced.value))
      else
        match task
        case Some(t) =>
          if t !in tasks || tasks[t].project != project then (tasks, Err(TaskNotFound))
          else if !Storable(Edited(tasks[t], e)) then (tasks, Err(NotStorable))
          else (tasks[t := Edited(tasks[t], e)], Ok(t))
        case None =>
          if NewTask(project, e).name == "" then (tasks, Err(EmptyName))
          else if !Storable(NewTask(project, e)) then (tasks, Err(NotStorable))
          else (tasks[newId := NewTask(project, e)], Ok(newId))
  }

  /** `t` or one of its descendants. */
  ghost predicate InSubtree(tasks: Tasks, level: map<Id, nat>, t: Id, x: Id)
    requires IsLevelling(tasks, level) && x in tasks
  {
    t in Ancestors(tasks, level, x)
  }

  /** Deleting a row deletes its children with it, and theirs. */
  ghost function Remove(tasks: Tasks, project: ProjectId, task: Id): (Tasks, Result<Id, Error>)
    requires Forest(tasks)
  {
    if task !in tasks || tasks[task].project != project then (tasks, Err(TaskNotFound))
    else (map x | x in tasks && !InSubtree(tasks, Levels(tasks), task, x) :: tasks[x], Ok(task))
  }

  // ----- every run keeps a forest -----

  /** Moving `t` under `p` shifts the levels of its subtree and of nothing else. */
  ghost function Shifted(tasks: Tasks, level: map<Id, nat>, t: Id, to: nat): (r: map<Id, nat>)
    requires IsLevelling(tasks, level) && t in tasks
  {
    map x | x in tasks ::
      if InSubtree(tasks, level, t, x) && level[x] >= level[t] then level[x] - level[t] + to else level[x]
  }

  lemma SubtreeStep(tasks: Tasks, level: map<Id, nat>, t: Id, x: Id)
    requires IsLevelling(tasks, level) && t in tasks && x in tasks
    ensures InSubtree(tasks, level, t, x) ==> level[x] >= level[t] && tasks[x].project == tasks[t].project
    ensures tasks[x].parent.Some? ==> tasks[x].parent.value in tasks
    ensures tasks[x].parent.Some? ==>
              (InSubtree(tasks, level, t, x) <==> x == t || InSubtree(tasks, level, t, tasks[x].parent.value))
    ensures tasks[x].parent.None? ==> (InSubtree(tasks, level, t, x) <==> x == t)
  {
    assert LevelOk(tasks, level, x);
    var a := Ancestors(tasks, level, x);
    if t in a {
      var i :| 0 <= i < |a| && a[i] == t;
      AncestorLevels(tasks, level, x, i);
    }
    if tasks[x].parent.Some? {
      assert a == [x] + Ancestors(tasks, level, tasks[x].parent.value);
    }
  }

  /** Reparenting below a task outside the moved subtree. */
  lemma ReparentKeepsLevelling(tasks: Tasks, level: map<Id, nat>, t: Id, task: Task)
    requires IsLevelling(tasks, level) && t in tasks && task.project == tasks[t].project
    requires task.parent.Some? && task.parent.value in tasks
    requires tasks[task.parent.value].project == task.project
    requires t !in Ancestors(tasks, level, task.parent.value)
    ensures IsLevelling(tasks[t := task], Shifted(tasks, level, t, level[task.parent.value] + 1))
  {
    var p := task.parent.value;
    var tasks', level' := tasks[t := task], Shifted(tasks, level, t, level[p] + 1);
    forall x | x in tasks' ensures LevelOk(tasks', level', x) {
      assert LevelOk(tasks, level, x);
      SubtreeStep(tasks, level, t, x);
      SubtreeStep(tasks, level, t, p);
      if x != t && tasks[x].parent.Some? {
        SubtreeStep(tasks, level, t, tasks[x].parent.value);
      }
    }
  }

  lemma InPlaceKeepsLevelling(tasks: Tasks, level: map<Id, nat>, t: Id, task: Task)
    requires IsLevelling(tasks, level) && t in tasks
    requires task.project == tasks[t].project && task.parent == tasks[t].parent
    ensures IsLevelling(tasks[t := task], level)
  {
    forall x | x in tasks ensures LevelOk(tasks[t := task], level, x) {
      assert LevelOk(tasks, level, x);
    }
  }

  lemma InsertKeepsLevelling(tasks: Tasks, level: map<Id, nat>, id: Id, task: Task)
    requires IsLevelling(tasks, level) && id !in tasks
    requires task.parent.Some? ==> task.parent.value in tasks && tasks[task.parent.value].project == task.project
    ensures IsLevelling(tasks[id := task], level[id := if task.parent.None? then 1 else level[task.parent.value] + 1])
  {
    var tasks', level' := tasks[id := task], level[id := if task.parent.None? then 1 else level[task.parent.value] + 1];
    forall x | x in tasks' ensures LevelOk(tasks', level', x) {
      if x != id {
        assert LevelOk(tasks, level, x);
      }
    }
  }

  /** The levelling an accepted upsert leaves behind. */
  ghost function LevelsAfter(tasks: Tasks, task: Option<Id>, newId: Id, e: Edit): map<Id, nat>
    requires Forest(tasks) && (e.parent.Some? ==> e.parent.value in tasks) && (task.Some? ==> task.value in tasks)
  {
    var level := Levels(tasks);
    match task
    case Some(t) => if e.parent.Some? then Shifted(tasks, level, t, level[e.parent.value] + 1) else level
    case None => level[newId := if e.parent.None? then 1 else level[e.parent.value] + 1]
  }

  /** What may be asked of a plan's rows: a parent of the same project at most two levels deep
      and not below the moved task, an existing task of the project or else a name that is not
      blank, progress between 0 and 100, dates in order, and values the columns can hold. */
  lemma UpsertVerdict(tasks: Tasks, project: ProjectId, task: Option<Id>, newId: Id, e: Edit)
    requires Forest(tasks)
    ensures Upsert(tasks, project, task, newId, e).1.Ok? <==>
            && (e.progress.Some? ==> 0 <= e.progress.value <= 100)
            && (e.start.Some? && e.end.Some? ==> e.start.value <= e.end.value)
            && (e.parent.Some? ==>
                  && e.parent.value in tasks && tasks[e.parent.value].project == project
                  && Levels(tasks)[e.parent.value] < MAX_PLAN_DEPTH
                  && (task.Some? ==> !InSubtree(tasks, Levels(tasks), task.value, e.parent.value)))
            && match task
               case Some(t) => t in tasks && tasks[t].project == project && Storable(Edited(tasks[t], e))
               case None => Storable(NewTask(project, e)) && e.name.Some? && exists c :: c in e.name.value && !Blank(c)
  {
    if task.None? && e.name.Some? {
      StripEmptyIff(e.name.value);
    }
  }

  /** What an accepted upsert has checked, and the table it leaves. */
  lemma UpsertAccepted(tasks: Tasks, project: ProjectId, task: Option<Id>, newId: Id, e: Edit)
    requires Forest(tasks)
    ensures var (tasks', r) := Upsert(tasks, project, task, newId, e);
            && (r.Err? ==> tasks' == tasks)
            && (r.Ok? ==>
                  && (e.parent.Some? ==>
                        && e.parent.value in tasks && tasks[e.parent.value].project == project
                        && (task.Some? ==> task.value !in Ancestors(tasks, Levels(tasks), e.parent.value)))
                  && (task.Some? ==> task.value in tasks && tasks[task.value].project == project)
                  && tasks' == match task
                               case Some(t) => tasks[t := Edited(tasks[t], e)]
                               case None => tasks[newId := NewTask(project, e)])
  {}

  lemma UpsertKeepsForest(tasks: Tasks, project: ProjectId, task: Option<Id>, newId: Id, e: Edit)
    requires Forest(tasks) && newId !in tasks
    ensures var (tasks', r) := Upsert(tasks, project, task, newId, e);
            && Forest(tasks')
            && (r.Err? ==> tasks' == tasks)
            && (r.Ok? ==> (e.parent.Some? ==> e.parent.value in tasks) && (task.Some? ==> task.value in tasks) &&
                          IsLevelling(tasks', LevelsAfter(tasks, task, newId, e)))
  {
    var (tasks', r) := Upsert(tasks, project, task, newId, e);
    UpsertAccepted(tasks, project, task, newId, e);
    if r.Ok? {
      AcceptedLevelling(tasks, project, task, newId, e, tasks');
      HasLevels(tasks', LevelsAfter(tasks, task, newId, e));
    }
  }

  lemma AcceptedLevelling(tasks: Tasks, project: ProjectId, task: Option<Id>, newId: Id, e: Edit, tasks': Tasks)
    requires Forest(tasks) && newId !in tasks
    requires e.parent.Some? ==>
               && e.parent.value in tasks && tasks[e.parent.value].project == project
               && (task.Some? ==> task.value !in Ancestors(tasks, Levels(tasks), e.parent.value))
    requires task.Some? ==> task.value in tasks && tasks[task.value].project == project
    requires tasks' == match task
                       case Some(t) => tasks[t := Edited(tasks[t], e)]
                       case None => tasks[newId := NewTask(project, e)]
    ensures IsLevelling(tasks', LevelsAfter(tasks, task, newId, e))
  {
    var level := Levels(tasks);
    match task
    case Some(t) =>
      if e.parent.Some? {
        ReparentKeepsLevelling(tasks, level, t, Edited(tasks[t], e));
      } else {
        InPlaceKeepsLevelling(tasks, level, t, Edited(tasks[t], e));
      }
    case None => InsertKeepsLevelling(tasks, level, newId, NewTask(project, e));
  }

  lemma HasLevels(tasks: Tasks, level: map<Id, nat>)
    requires IsLevelling(tasks, level)
    ensures Forest(tasks)
  {}

  /** What an edit makes of a row: each column given is written, names stripped; each other, the
      project and the creator stay. */
  predicate Rewrites(was: Task, e: Edit, row: Task) {
    && row.project == was.project && row.createdBy == was.createdBy
    && (if e.name.Some? then row.name == Strip(e.name.value) else row.name == was.name)
    && (if e.parent.Some? then row.parent == e.parent else row.parent == was.parent)
    && (if e.start.Some? then row.start == e.start else row.start == was.start)
    && (if e.end.Some? then row.end == e.end else row.end == was.end)
    && (if e.progress.Some? then row.progress == e.progress.value else row.progress == was.progress)
    && (if e.milestone.Some? then row.milestone == e.milestone.value else row.milestone == was.milestone)
    && (if e.deps.Some? then row.deps == e.deps else row.deps == was.deps)
    && (if e.sortOrder.Some? then row.sortOrder == e.sortOrder.value else row.sortOrder == was.sortOrder)
  }

  /** A new row has what was given, no progress, no milestone and place 0 unless told otherwise. */
  predicate Begins(project: ProjectId, e: Edit, row: Task) {
    && row.project == project && row.createdBy == e.actor && row.parent == e.parent
    && e.name.Some? && row.name == Strip(e.name.value)
    && row.start == e.start && row.end == e.end && row.deps == e.deps
    && row.progress == (if e.progress.Some? then e.progress.value else 0)
    && (row.milestone <==> e.milestone == Some(true))
    && row.sortOrder == (if e.sortOrder.Some? then e.sortOrder.value else 0)
  }

  /** What an accepted upsert writes: one row, as told. */
  lemma UpsertColumns(tasks: Tasks, project: ProjectId, task: Option<Id>, newId: Id, e: Edit)
    requires Forest(tasks) && newId !in tasks && Upsert(tasks, project, task, newId, e).1.Ok?
    ensures var (tasks', r) := Upsert(tasks, project, task, newId, e);
            && r.value in tasks' && tasks' == tasks[r.value := tasks'[r.value]]
            && (if task.Some?
                then r.value == task.value && r.value in tasks && Rewrites(tasks[r.value], e, tasks'[r.value])
                else r.value == newId && Begins(project, e, tasks'[r.value]))
            && |tasks'[r.value].name| <= 200 && -32_768 <= tasks'[r.value].sortOrder <= 32_767
  {}

  /** Why an edit is refused, error by error. */
  ghost predicate Refuses(tasks: Tasks, project: ProjectId, task: Option<Id>, e: Edit, error: Error)
    requires Forest(tasks)
  {
    match error
    case BadProgress => e.progress.Some? && !(0 <= e.progress.value <= 100)
    case EndBeforeStart => e.start.Some? && e.end.Some? && e.end.value < e.start.value
    case ParentNotFound => e.parent.Some? && (e.parent.value !in tasks || tasks[e.parent.value].project != project)
    case TooDeep => e.parent.Some? && e.parent.value in tasks && Levels(tasks)[e.parent.value] >= 3
    case Cycle =>
      && e.parent.Some? && e.parent.value in tasks && task.Some?
      && InSubtree(tasks, Levels(tasks), task.value, e.parent.value)
    case TaskNotFound => task.Some? && (task.value !in tasks || tasks[task.value].project != project)
    case EmptyName => task.None? && (e.name.None? || forall c | c in e.name.value :: Blank(c))
    case NotStorable =>
      || (e.name.Some? && |Strip(e.name.value)| > 200)
      || (e.sortOrder.Some? && !(-32_768 <= e.sortOrder.value <= 32_767))
      || (task.Some? && task.value in tasks && !Storable(tasks[task.value]))
  }

  lemma ParentRefused(tasks: Tasks, project: ProjectId, task: Option<Id>, e: Edit)
    requires Forest(tasks) && CheckParent(tasks, Levels(tasks), project, task, e.parent).Some?
    ensures Refuses(tasks, project, task, e, CheckParent(tasks, Levels(tasks), project, task, e.parent).value)
  {}

  lemma RowRefused(tasks: Tasks, project: ProjectId, task: Option<Id>, e: Edit)
    requires Forest(tasks)
    ensures task.Some? && task.value in tasks && !Storable(Edited(tasks[task.value], e)) ==>
              Refuses(tasks, project, task, e, NotStorable)
    ensures task.None? && NewTask(project, e).name == "" ==> Refuses(tasks, project, task, e, EmptyName)
    ensures task.None? && !Storable(NewTask(project, e)) ==> Refuses(tasks, project, task, e, NotStorable)
  {
    if e.name.Some? {
      StripEmptyIff(e.name.value);
    }
  }

  /** Each error of an upsert has its cause. */
  lemma UpsertFailsBecause(tasks: Tasks, project: ProjectId, task: Option<Id>, newId: Id, e: Edit)
    requires Forest(tasks) && Upsert(tasks, project, task, newId, e).1.Err?
    ensures Refuses(tasks, project, task, e, Upsert(tasks, project, task, newId, e).1.error)
  {
    if CheckEdit(e).None? {
      if CheckParent(tasks, Levels(tasks), project, task, e.parent).Some? {
        ParentRefused(tasks, project, task, e);
      } else {
        RowRefused(tasks, project, task, e);
      }
    }
  }

  /** A removal takes the task and its descendants, and leaves every other row as it was. */
  lemma RemoveColumns(tasks: Tasks, project: ProjectId, task: Id)
    requires Forest(tasks)
    ensures var (tasks', r) := Remove(tasks, project, task);
            && (r.Ok? <==> task in tasks && tasks[task].project == project)
            && (r.Err? ==> r.error == TaskNotFound && tasks' == tasks)
            && (r.Ok? ==> r.value == task)
            && (r.Ok? ==> forall x :: x in tasks' <==> x in tasks && !InSubtree(tasks, Levels(tasks), task, x))
            && forall x | x in tasks' :: x in tasks && tasks'[x] == tasks[x]
  {}

  /** A removal takes the whole subtree and leaves every other task as it was. */
  lemma RemoveKeepsForest(tasks: Tasks, project: ProjectId, task: Id)
    requires Forest(tasks)
    ensures var (tasks', r) := Remove(tasks, project, task);
            && Forest(tasks')
            && (r.Err? ==> tasks' == tasks)
            && (r.Ok? ==> IsLevelling(tasks', map x | x in tasks' :: Levels(tasks)[x]))
  {
    var (tasks', r) := Remove(tasks, project, task);
    if r.Ok? {
      var level := Levels(tasks);
      var level' := map x | x in tasks' :: level[x];
      forall x | x in tasks' ensures LevelOk(tasks', level', x) {
        assert LevelOk(tasks, level, x);
        SubtreeStep(tasks, level, task, x);
      }
      HasLevels(tasks', level');
    }
  }

  datatype Op =
    | DoUpsert(project: ProjectId, task: Option<Id>, newId: Id, edit: Edit)
    | DoRemove(project: ProjectId, removed: Id)

  ghost function Step(tasks: Tasks, op: Op): Tasks
    requires Forest(tasks)
  {
    match op
    case DoUpsert(p, t, n, e) => Upsert(tasks, p, t, n, e).0
    case DoRemove(p, t) => Remove(tasks, p, t).0
  }

  ghost predicate IsRun(states: seq<Tasks>, ops: seq<Op>) {
    && |states| == |ops| + 1 && Forest(states[0])
    && forall k | 0 <= k < |ops| :: StepOk(states[k], ops[k], states[k + 1])
  }

  ghost predicate StepOk(tasks: Tasks, op: Op, tasks': Tasks) {
    Forest(tasks) ==> tasks' == Step(tasks, op) && (op.DoUpsert? ==> op.newId !in tasks)
  }

  /** Every run of upserts and removals keeps an acyclic forest, each tree inside one project. */
  lemma {:induction false} ForestInEveryRun(states: seq<Tasks>, ops: seq<Op>, k: nat)
    requires IsRun(states, ops) && k < |states|
    ensures Forest(states[k])
  {
    if k > 0 {
      ForestInEveryRun(states, ops, k - 1);
      assert StepOk(states[k - 1], ops[k - 1], states[k]);
      StepKeepsForest(states[k - 1], ops[k - 1]);
    }
  }

  lemma StepKeepsForest(tasks: Tasks, op: Op)
    requires Forest(tasks) && (op.DoUpsert? ==> op.newId !in tasks)
    ensures Forest(Step(tasks, op))
  {
    match op
    case DoUpsert(p, t, n, e) => UpsertKeepsForest(tasks, p, t, n, e);
    case DoRemove(p, t) => RemoveKeepsForest(tasks, p, t);
  }

  /** list_plan_tasks: one project's rows out of the shared table. */
  function ProjectRows(tasks: Tasks, project: ProjectId): Tasks {
    map t | t in tasks && tasks[t].project == project :: tasks[t]
  }

  /** They make a forest of their own, every task as deep as in the whole table. */
  lemma ProjectRowsLevelling(tasks: Tasks, level: map<Id, nat>, project: ProjectId)
    requires IsLevelling(tasks, level)
    ensures IsLevelling(ProjectRows(tasks, project), map t | t in ProjectRows(tasks, project) :: level[t])
  {
    var rows := ProjectRows(tasks, project);
    forall t | t in rows ensures LevelOk(rows, map x | x in rows :: level[x], t) {
      assert LevelOk(tasks, level, t);
    }
  }

  lemma LevelsBounded(tasks: Tasks, level: map<Id, nat>, t: Id)
    requires IsLevelling(tasks, level) && t in tasks
    ensures level[t] <= |tasks|
  {
    AncestorsNoDup(tasks, level, t);
    NoDupSize(Ancestors(tasks, level, t));
    SubsetSize(Elems(Ancestors(tasks, level, t)), tasks.Keys);
    assert |tasks.Keys| == |tasks|;
  }

  // ----- depth -----

  ghost predicate Shallow(tasks: Tasks)
    requires Forest(tasks)
  {
    LowLevels(Levels(tasks))
  }

  ghost predicate LowLevels(level: map<Id, nat>) {
    forall x | x in level :: level[x] <= MAX_PLAN_DEPTH
  }

  /** How far below `t` its deepest descendant may lie: no member of the subtree is deeper. */
  ghost predicate HeightWithin(tasks: Tasks, t: Id, h: int)
    requires Forest(tasks) && t in tasks
  {
    forall x | x in tasks && InSubtree(tasks, Levels(tasks), t, x) :: Levels(tasks)[x] - Levels(tasks)[t] <= h
  }

  /** On a plan within three levels, an accepted upsert keeps it so exactly when it moves no
      task or the moved subtree fits below its new parent. */
  lemma DepthKeptIff(tasks: Tasks, project: ProjectId, task: Option<Id>, newId: Id, e: Edit)
    requires Forest(tasks) && Shallow(tasks) && newId !in tasks
    requires Upsert(tasks, project, task, newId, e).1.Ok?
    ensures var tasks' := Upsert(tasks, project, task, newId, e).0;
            && Forest(tasks') && (task.Some? ==> task.value in tasks) && (e.parent.Some? ==> e.parent.value in tasks)
            && (Shallow(tasks') <==>
                  task.None? || e.parent.None? ||
                  HeightWithin(tasks, task.value, MAX_PLAN_DEPTH - 1 - Levels(tasks)[e.parent.value]))
  {
    LevelsOfUpsert(tasks, project, task, newId, e);
    if task.Some? && e.parent.Some? {
      ShiftedShallowIff(tasks, task.value, Levels(tasks)[e.parent.value] + 1);
    } else if task.None? {
      InsertStaysLow(tasks, newId, e.parent);
    }
  }

  lemma LevelsOfUpsert(tasks: Tasks, project: ProjectId, task: Option<Id>, newId: Id, e: Edit)
    requires Forest(tasks) && newId !in tasks
    requires Upsert(tasks, project, task, newId, e).1.Ok?
    ensures var tasks' := Upsert(tasks, project, task, newId, e).0;
            && Forest(tasks') && (task.Some? ==> task.value in tasks)
            && (e.parent.Some? ==> e.parent.value in tasks && Levels(tasks)[e.parent.value] + 1 <= MAX_PLAN_DEPTH)
            && Levels(tasks') == LevelsAfter(tasks, task, newId, e)
  {
    UpsertKeepsForest(tasks, project, task, newId, e);
    SameLevels(Upsert(tasks, project, task, newId, e).0, LevelsAfter(tasks, task, newId, e));
  }

  lemma InsertStaysLow(tasks: Tasks, newId: Id, parent: Option<Id>)
    requires Forest(tasks) && Shallow(tasks)
    requires parent.Some? ==> parent.value in tasks && Levels(tasks)[parent.value] + 1 <= MAX_PLAN_DEPTH
    ensures LowLevels(Levels(tasks)[newId := if parent.None? then 1 else Levels(tasks)[parent.value] + 1])
  {}

  lemma SameLevels(tasks: Tasks, level: map<Id, nat>)
    requires IsLevelling(tasks, level)
    ensures Forest(tasks) && Levels(tasks) == level
  {
    forall x | x in tasks ensures Levels(tasks)[x] == level[x] {
      LevelUnique(tasks, Levels(tasks), level, x);
    }
  }

  lemma ShiftedShallowIff(tasks: Tasks, t: Id, to: nat)
    requires Forest(tasks) && Shallow(tasks) && t in tasks
    ensures LowLevels(Shifted(tasks, Levels(tasks), t, to)) <==>
            HeightWithin(tasks, t, MAX_PLAN_DEPTH - to)
  {
    var level := Levels(tasks);
    var after := Shifted(tasks, level, t, to);
    forall x | x in tasks
      ensures after[x] <= MAX_PLAN_DEPTH <==>
              (InSubtree(tasks, level, t, x) ==> level[x] - level[t] <= MAX_PLAN_DEPTH - to)
    {
      SubtreeStep(tasks, level, t, x);
    }
  }

  ghost predicate IsLeaf(tasks: Tasks, t: Id) {
    forall x | x in tasks :: tasks[x].parent != Some(t)
  }

  lemma {:induction false} LeafSubtree(tasks: Tasks, level: map<Id, nat>, t: Id, x: Id)
    requires IsLevelling(tasks, level) && t in tasks && x in tasks && IsLeaf(tasks, t)
    ensures InSubtree(tasks, level, t, x) <==> x == t
    decreases level[x]
  {
    SubtreeStep(tasks, level, t, x);
    assert LevelOk(tasks, level, x);
    if tasks[x].parent.Some? {
      LeafSubtree(tasks, level, t, tasks[x].parent.value);
    }
  }

  /** Runs that reparent only leaves never go deeper than three levels. */
  ghost predicate MovesOnlyLeaves(states: seq<Tasks>, ops: seq<Op>)
    requires |states| == |ops| + 1
  {
    forall k | 0 <= k < |ops| && ops[k].DoUpsert? && ops[k].task.Some? && ops[k].edit.parent.Some? ::
      IsLeaf(states[k], ops[k].task.value)
  }

  lemma {:induction false} ThreeLevelsMovingLeaves(states: seq<Tasks>, ops: seq<Op>, k: nat)
    requires IsRun(states, ops) && Shallow(states[0]) && MovesOnlyLeaves(states, ops) && k < |states|
    ensures Forest(states[k]) && Shallow(states[k])
  {
    if k > 0 {
      ThreeLevelsMovingLeaves(states, ops, k - 1);
      var tasks, op := states[k - 1], ops[k - 1];
      assert StepOk(tasks, op, states[k]);
      match op
      case DoUpsert(p, t, n, e) => LeafMoveShallow(tasks, p, t, n, e);
      case DoRemove(p, t) => RemoveShallow(tasks, p, t);
    }
  }

  lemma LeafMoveShallow(tasks: Tasks, p: ProjectId, t: Option<Id>, n: Id, e: Edit)
    requires Forest(tasks) && Shallow(tasks) && n !in tasks
    requires t.Some? && e.parent.Some? ==> IsLeaf(tasks, t.value)
    ensures var tasks' := Upsert(tasks, p, t, n, e).0; Forest(tasks') && Shallow(tasks')
  {
    if Upsert(tasks, p, t, n, e).1.Ok? {
      DepthKeptIff(tasks, p, t, n, e);
      if t.Some? && e.parent.Some? {
        forall x | x in tasks && InSubtree(tasks, Levels(tasks), t.value, x) ensures x == t.value {
          LeafSubtree(tasks, Levels(tasks), t.value, x);
        }
      }
    }
  }

  lemma RemoveShallow(tasks: Tasks, p: ProjectId, t: Id)
    requires Forest(tasks) && Shallow(tasks)
    ensures var tasks' := Remove(tasks, p, t).0; Forest(tasks') && Shallow(tasks')
  {
    var tasks' := Remove(tasks, p, t).0;
    RemoveKeepsForest(tasks, p, t);
    if Remove(tasks, p, t).1.Ok? {
      SameLevels(tasks', map x | x in tasks' :: Levels(tasks)[x]);
    }
  }

  /** Two phases of two levels each: moving one phase below the other's task is accepted, and
      its own task ends up four levels deep. */
  ghost function TwoPhases(): Tasks {
    var row := Task(0, None, "t", None, None, 0, false, None, 0, "");
    map[1 := row, 2 := row.(parent := Some(1)), 3 := row, 4 := row.(parent := Some(3))]
  }

  lemma TwoPhasesLevels(level: map<Id, nat>)
    requires level == map[1 := 1, 2 := 2, 3 := 1, 4 := 2]
    ensures IsLevelling(TwoPhases(), level)
    ensures Ancestors(TwoPhases(), level, 2) == [2, 1] && Ancestors(TwoPhases(), level, 4) == [4, 3]
  {
    assert Ancestors(TwoPhases(), level, 1) == [1] && Ancestors(TwoPhases(), level, 3) == [3];
  }

  lemma MovingSubtreeGoesDeeper()
    ensures var move := Edit(None, Some(2), None, None, None, None, None, None, "");
            && Forest(TwoPhases()) && Shallow(TwoPhases())
            && Upsert(TwoPhases(), 0, Some(3), 5, move).1 == Ok(3)
            && Forest(Upsert(TwoPhases(), 0, Some(3), 5, move).0)
            && !Shallow(Upsert(TwoPhases(), 0, Some(3), 5, move).0)
  {
    var level: map<Id, nat> := map[1 := 1, 2 := 2, 3 := 1, 4 := 2];
    var move := Edit(None, Some(2), None, None, None, None, None, None, "");
    TwoPhasesLevels(level);
    SameLevels(TwoPhases(), level);
    TaskBelowThree(level);
    MoveOnto2(TwoPhases(), move);
    DepthKeptIff(TwoPhases(), 0, Some(3), 5, move);
  }

  lemma TaskBelowThree(level: map<Id, nat>)
    requires IsLevelling(TwoPhases(), level) && Levels(TwoPhases()) == level && level[4] == 2 && level[3] == 1
    requires Ancestors(TwoPhases(), level, 4) == [4, 3]
    ensures !HeightWithin(TwoPhases(), 3, 0)
  {
    assert InSubtree(TwoPhases(), level, 3, 4);
  }

  lemma MoveOnto2(tasks: Tasks, move: Edit)
    requires Forest(tasks) && 2 in tasks && 3 in tasks && tasks[2].project == 0 && tasks[3].project == 0
    requires Levels(tasks)[2] == 2 && Ancestors(tasks, Levels(tasks), 2) == [2, 1] && Storable(tasks[3])
    requires move == Edit(None, Some(2), None, None, None, None, None, None, "")
    ensures Upsert(tasks, 0, Some(3), 5, move).1 == Ok(3)
  {}

  // ----- the service, updating its table in place -----

  /** Write the given columns; None leaves one alone. */
  method ApplyEdit(task: Task, e: Edit) returns (row: Task)
    requires e.progress.Some? ==> e.progress.value >= 0
    ensures row == Edited(task, e)
  {
    row := task;
    if e.name.Some? {
      row := row.(name := Strip(e.name.value));
    }
    if e.parent.Some? {
      row := row.(parent := e.parent);
    }
    if e.start.Some? {
      row := row.(start := e.start);
    }
    if e.end.Some? {
      row := row.(end := e.end);
    }
    if e.progress.Some? {
      row := row.(progress := e.progress.value);
    }
    if e.milestone.Some? {
      row := row.(milestone := e.milestone.value);
    }
    if e.deps.Some? {
      row := row.(deps := e.deps);
    }
    if e.sortOrder.Some? {
      row := row.(sortOrder := e.sortOrder.value);
    }
  }

  /** The audit records of plan tasks. */
  datatype Event =
    | Created(task: Id, actor: string, name: string)
    | Updated(task: Id, actor: string)
    | Removed(task: Id, actor: string, name: string)

  class PlanService {
    var tasks: Tasks
    var events: seq<Event>

    constructor ()
      ensures tasks == map[] && Forest(tasks) && events == []
    {
      tasks, events := map[], [];
      HasLevels(map[], map[]);
    }

    method UpsertPlanTask(project: ProjectId, task: Option<Id>, newId: Id, e: Edit) returns (r: Result<Id, Error>)
      requires Forest(tasks) && newId !in tasks
      modifies this
      ensures (tasks, r) == Upsert(old(tasks), project, task, newId, e)
      ensures Forest(tasks)
      ensures events == old(events) +
              if r.Err? then []
              else if task.Some? then [Updated(r.value, e.actor)]
              else [Created(r.value, e.actor, tasks[r.value].name)]
    {
      UpsertKeepsForest(tasks, project, task, newId, e);
      var bad := CheckEdit(e);
      if bad.Some? {
        return Err(bad.value);
      }
      if e.parent.Some? {
        var p := e.parent.value;
        if p !in tasks || tasks[p].project != project {
          return Err(ParentNotFound);
        }
        var chain := ChainUp(tasks, Levels(tasks), p);
        if |chain| + 1 > MAX_PLAN_DEPTH {
          return Err(TooDeep);
        }
        if task.Some? && task.value in chain {
          return Err(Cycle);
        }
      }
      if task.Some? {
        var t := task.value;
        if t !in tasks || tasks[t].project != project {
          return Err(TaskNotFound);
        }
        var row := ApplyEdit(tasks[t], e);
        if !Storable(row) {
          return Err(NotStorable);
        }
        tasks := tasks[t := row];
        events := events + [Updated(t, e.actor)];
        return Ok(t);
      }
      var name := if e.name.Some? then Strip(e.name.value) else "";
      if name == "" {
        return Err(EmptyName);
      }
      var created := NewTask(project, e);
      if !Storable(created) {
        return Err(NotStorable);
      }
      tasks := tasks[newId := created];
      events := events + [Created(newId, e.actor, name)];
      return Ok(newId);
    }

    /** The delete, with the cascade the foreign key carries out. */
    method RemovePlanTask(project: ProjectId, task: Id, actor: string) returns (r: Result<Id, Error>)
      requires Forest(tasks)
      modifies this
      ensures (tasks, r) == Remove(old(tasks), project, task)
      ensures Forest(tasks)
      ensures events == old(events) + if r.Err? then [] else [Removed(task, actor, old(tasks)[task].name)]
    {
      RemoveKeepsForest(tasks, project, task);
      if task !in tasks || tasks[task].project != project {
        return Err(TaskNotFound);
      }
      var name := tasks[task].name;
      var doomed := Cascade(tasks, Levels(tasks), task);
      tasks := tasks - doomed;
      assert tasks == Remove(old(tasks), project, task).0;
      events := events + [Removed(task, actor, name)];
      r := Ok(task);
    }
  }

  method Cascade(tasks: Tasks, ghost level: map<Id, nat>, task: Id) returns (doomed: set<Id>)
    requires IsLevelling(tasks, level) && task in tasks
    ensures doomed == set x | x in tasks && InSubtree(tasks, level, task, x)
  {
    doomed := {task};
    var more := set x | x in tasks && tasks[x].parent == Some(task) && x !in doomed;
    while more != {}
      invariant doomed <= tasks.Keys && task in doomed
      invariant forall x | x in doomed :: InSubtree(tasks, level, task, x)
      invariant more == set x | x in tasks && tasks[x].parent.Some? && tasks[x].parent.value in doomed && x !in doomed
      decreases tasks.Keys - doomed
    {
      forall x | x in more ensures InSubtree(tasks, level, task, x) {
        SubtreeStep(tasks, level, task, x);
      }
      doomed := doomed + more;
      more := set x | x in tasks && tasks[x].parent.Some? && tasks[x].parent.value in doomed && x !in doomed;
    }
    forall y | y in tasks && tasks[y].parent.Some? && tasks[y].parent.value in doomed ensures y in doomed {
      assert y !in more;
    }
    forall x | x in tasks && InSubtree(tasks, level, task, x) ensures x in doomed {
      ClosedHoldsSubtree(tasks, level, task, doomed, x);
    }
  }

  lemma {:induction false} ClosedHoldsSubtree(tasks: Tasks, level: map<Id, nat>, task: Id, closed: set<Id>, x: Id)
    requires IsLevelling(tasks, level) && task in closed && task in tasks && x in tasks
    requires forall y | y in tasks && tasks[y].parent.Some? && tasks[y].parent.value in closed :: y in closed
    requires InSubtree(tasks, level, task, x)
    ensures x in closed
    decreases level[x]
  {
    SubtreeStep(tasks, level, task, x);
    assert LevelOk(tasks, level, x);
    if x != task {
      ClosedHoldsSubtree(tasks, level, task, closed, tasks[x].parent.value);
    }
  }
}
