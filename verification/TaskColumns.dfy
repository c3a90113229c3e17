/** The task table column by column: which calls write a column, and with what. Over whole runs: attempts
    are launches, start times are launch times, and a restart lists running tasks as they were launched. */
module TaskColumns {
  import opened DependencyGraph
  import opened Options
  import opened Ordering
  import opened TaskModel
  import opened TaskRuns
  import TaskEdges
  import TaskLifecycle
  import TaskQueues

  // ---------- One step ----------

  /** The call is an accepted edit or move of task id. */
  ghost predicate Edits(db: Db, s: Step, id: TaskId) {
    match s
    case Update(x, q, need, ds) => x == id && UpdateQueuedTask(db, x, q, need, ds).Ok?
    case Move(x, _) => x == id && id in db.tasks && db.tasks[id].status in {Queued, Staged}
    case _ => false
  }

  /** The call gives the row of task id back to a queue, away from its GPU. */
  predicate GivesBack(t: Task, s: Step, id: TaskId) {
    match s
    case Preempt(x) => x == id
    case Interrupt(x, _) => x == id
    case Restart => t.status == Running
    case _ => false
  }

  predicate Launches(s: Step, id: TaskId) {
    s.Launch? && s.id == id
  }

  predicate TriesLaunch(s: Step, id: TaskId) {
    (s.Launch? || s.LaunchFailure?) && s.id == id
  }

  function NeedColumn(t: Task, s: Step, edits: bool): Need {
    if edits && s.Update? then s.need else t.need
  }

  function AttemptColumn(t: Task, s: Step, id: TaskId): nat {
    if TriesLaunch(s, id) then t.attemptCount + 1 else t.attemptCount
  }

  function StartColumn(t: Task, s: Step, id: TaskId): Option<int> {
    if Launches(s, id) then Some(s.now) else if GivesBack(t, s, id) then None else t.startedAt
  }

  function GpuColumn(t: Task, s: Step, id: TaskId, edits: bool): Option<nat> {
    if Launches(s, id) then Some(s.gpu)
    else if GivesBack(t, s, id) || (s.Retry? && s.id == id) || (edits && s.Move?) then None
    else t.assignedGpu
  }

  function RetryColumn(t: Task, s: Step, id: TaskId, edits: bool): Option<int> {
    if s.Retry? && s.id == id then Some(s.nextRetryAt)
    else if edits || Launches(s, id) || GivesBack(t, s, id) then None
    else t.nextRetryAt
  }

  function QueueColumn(t: Task, s: Step, id: TaskId, edits: bool): Queue {
    if edits && (s.Update? || s.Move?) then s.queue
    else if s == Preempt(id) then NormalQueue
    else if s.Interrupt? && s.id == id && s.target.Some? then s.target.value
    else t.queue
  }

  function StatusColumn(t: Task, s: Step, id: TaskId, edits: bool): Status {
    if Launches(s, id) then Running
    else if s == LaunchFailure(id) then Failed
    else if s.Finish? && s.id == id then s.status
    else if edits || GivesBack(t, s, id) || (s.Retry? && s.id == id) then
      if QueueColumn(t, s, id, edits) == StagedQueue then Staged else Queued
    else t.status
  }

  predicate RowFollows(t: Task, t': Task, s: Step, id: TaskId, edits: bool) {
    && t'.createdAt == t.createdAt
    && t'.need == NeedColumn(t, s, edits)
    && t'.attemptCount == AttemptColumn(t, s, id)
    && t'.startedAt == StartColumn(t, s, id)
    && t'.assignedGpu == GpuColumn(t, s, id, edits)
    && t'.nextRetryAt == RetryColumn(t, s, id, edits)
    && t'.queue == QueueColumn(t, s, id, edits)
    && t'.status == StatusColumn(t, s, id, edits)
  }

  /** Every column of a row that is there before and after a step. */
  lemma ColumnsAre(db: Db, s: Step, retryLimit: nat, id: TaskId)
    requires Valid(db) && Scheduled(db, s, retryLimit) && id in db.tasks && id in Apply(db, s).tasks
    ensures RowFollows(db.tasks[id], Apply(db, s).tasks[id], s, id, Edits(db, s, id))
  {
    match s
    case Update(_, _, _, _) => UpdatedColumns(db, s, id);
    case Move(_, _) => MovedColumns(db, s, id);
    case Reorder(_, _) => MovedColumns(db, s, id);
    case Restart => RestartedColumns(db, id);
    case Launch(_, _, _) => LaunchedColumns(db, s, retryLimit, id);
    case LaunchFailure(_) => LaunchedColumns(db, s, retryLimit, id);
    case Finish(_, _) => EndedColumns(db, s, retryLimit, id);
    case Retry(_, _) => EndedColumns(db, s, retryLimit, id);
    case Preempt(_) => EndedColumns(db, s, retryLimit, id);
    case Interrupt(_, _) => EndedColumns(db, s, retryLimit, id);
    case _ => OtherColumns(db, s, id);
  }

  predicate LeavesRows(s: Step) {
    s.Create? || s.Clone? || s.Delete? || s.AddDeps? || s.ReplaceDeps? || s.RemoveDeps?
  }

  lemma OtherColumns(db: Db, s: Step, id: TaskId)
    requires LeavesRows(s) && Valid(db) && id in db.tasks && id in Apply(db, s).tasks
    ensures RowFollows(db.tasks[id], Apply(db, s).tasks[id], s, id, Edits(db, s, id))
  {
    RowStays(db, s, id);
    SameRowFollows(db.tasks[id], s, id);
    assert !Edits(db, s, id);
  }

  lemma RowStays(db: Db, s: Step, id: TaskId)
    requires LeavesRows(s) && Valid(db) && id in db.tasks && id in Apply(db, s).tasks
    ensures Apply(db, s).tasks[id] == db.tasks[id]
  {}

  lemma SameRowFollows(t: Task, s: Step, id: TaskId)
    requires LeavesRows(s)
    ensures RowFollows(t, t, s, id, false)
  {}

  lemma UpdatedColumns(db: Db, s: Step, id: TaskId)
    requires s.Update? && id in db.tasks && id in Apply(db, s).tasks
    ensures RowFollows(db.tasks[id], Apply(db, s).tasks[id], s, id, Edits(db, s, id))
  {}

  lemma MovedColumns(db: Db, s: Step, id: TaskId)
    requires (s.Move? || s.Reorder?) && id in db.tasks && id in Apply(db, s).tasks
    ensures RowFollows(db.tasks[id], Apply(db, s).tasks[id], s, id, Edits(db, s, id))
  {}

  lemma RestartedColumns(db: Db, id: TaskId)
    requires id in db.tasks && TaskQueues.TasksOk(db.tasks)
    ensures id in Apply(db, Restart).tasks
    ensures RowFollows(db.tasks[id], Apply(db, Restart).tasks[id], Restart, id, Edits(db, Restart, id))
  {
    assert TaskQueues.TaskOk(db.tasks[id]);
  }

  lemma LaunchedColumns(db: Db, s: Step, retryLimit: nat, id: TaskId)
    requires (s.Launch? || s.LaunchFailure?) && Scheduled(db, s, retryLimit)
    requires id in db.tasks && id in Apply(db, s).tasks
    ensures RowFollows(db.tasks[id], Apply(db, s).tasks[id], s, id, Edits(db, s, id))
  {}

  lemma EndedColumns(db: Db, s: Step, retryLimit: nat, id: TaskId)
    requires (s.Finish? || s.Retry? || s.Preempt? || s.Interrupt?) && Scheduled(db, s, retryLimit)
    requires id in db.tasks && id in Apply(db, s).tasks && TaskQueues.TasksOk(db.tasks)
    ensures RowFollows(db.tasks[id], Apply(db, s).tasks[id], s, id, Edits(db, s, id))
  {
    assert TaskQueues.TaskOk(db.tasks[id]);
  }

  /** A row that is new after a step: only creating and cloning add one, under the next id. */
  lemma NewRowIs(db: Db, s: Step, id: TaskId)
    requires Valid(db) && id !in db.tasks && id in Apply(db, s).tasks
    ensures id == db.nextId && (s.Create? || (s.Clone? && s.id in db.tasks))
    ensures var t, q := Apply(db, s).tasks[id], if s.Create? then s.queue else db.tasks[s.id].queue;
            && t.need == (if s.Create? then s.need else db.tasks[s.id].need)
            && t.queue == q && t.status == (if q == StagedQueue then Staged else Queued)
            && t.createdAt == s.now && t.attemptCount == 0
            && t.startedAt == None && t.assignedGpu == None && t.nextRetryAt == None
  {
    OnlyAddingAdds(db, s, id);
  }

  lemma OnlyAddingAdds(db: Db, s: Step, id: TaskId)
    requires id !in db.tasks && id in Apply(db, s).tasks
    ensures id == db.nextId && (s.Create? || (s.Clone? && s.id in db.tasks))
  {}

  /** A create is accepted if every dependency it asks for is stored, a clone if its task has ended otherwise
      than by success. */
  ghost predicate Adds(db: Db, s: Step) {
    match s
    case Create(_, _, _, ds) => ds.Some? ==> forall d | d in ds.value :: d in db.tasks
    case Clone(x, _) => x in db.tasks && db.tasks[x].status in {Failed, Cancelled, Interrupted}
    case _ => false
  }

  lemma AddsExactly(db: Db, s: Step)
    requires Valid(db) && (s.Create? || s.Clone?)
    ensures Adds(db, s) ==> db.nextId in Apply(db, s).tasks && Apply(db, s).nextId == db.nextId + 1
    ensures !Adds(db, s) ==> Apply(db, s) == db
  {
    if s.Create? && s.ds.Some? {
      TaskEdges.CreateStoresWhatIsAsked(db, s.queue, s.need, s.now, s.ds.value, db.deps + Star(db.nextId, s.ds.value));
    }
  }

  lemma NotAddingKeepsKeys(db: Db, s: Step)
    requires !s.Create? && !s.Clone? && !s.Delete?
    ensures Apply(db, s).tasks.Keys == db.tasks.Keys && Apply(db, s).nextId == db.nextId
  {}

  /** Which rows there are after a step: deleting takes away the one row it names, unless that task is running;
      an accepted create or clone adds the next id; no other step adds or removes a row. */
  lemma RowsAre(db: Db, s: Step, x: TaskId)
    requires Valid(db)
    ensures x in Apply(db, s).tasks <==>
            || (x in db.tasks && !(s == Delete(x) && db.tasks[x].status != Running))
            || (x == db.nextId && Adds(db, s))
    ensures Apply(db, s).nextId == if Adds(db, s) then db.nextId + 1 else db.nextId
  {
    if s.Create? || s.Clone? {
      AddsExactly(db, s);
      AddingKeepsRows(db, s, x);
    } else if !s.Delete? {
      NotAddingKeepsKeys(db, s);
    }
  }

  lemma AddingKeepsRows(db: Db, s: Step, x: TaskId)
    requires s.Create? || s.Clone?
    ensures x != db.nextId ==> (x in Apply(db, s).tasks <==> x in db.tasks)
  {}

  /** An edit that names no dependencies is accepted exactly for a waiting task. */
  lemma EditsExactly(db: Db, id: TaskId, q: Queue, need: Need)
    ensures Edits(db, Update(id, q, need, None), id) <==> id in db.tasks && db.tasks[id].status in {Queued, Staged}
  {}

  // ---------- The attempt table ----------

  /** How a step writes the last attempt of task id. */
  function AttemptWritten(db: Db, s: Step, id: TaskId): Option<AttemptStatus> {
    match s
    case Launch(x, _, _) => if x == id then Some(AttemptRunning) else None
    case LaunchFailure(x) => if x == id then Some(AttemptEnded(Failed)) else None
    case Finish(x, status) => if x == id then Some(AttemptEnded(status)) else None
    case Retry(x, _) => if x == id then Some(RetryScheduled) else None
    case Preempt(x) => if x == id then Some(AttemptPreempted) else None
    case Interrupt(x, _) => if x == id then Some(InterruptedRequeued) else None
    case Restart => if IsRunning(db, id) then Some(InterruptedRequeued) else None
    case _ => None
  }

  /** Only the last attempt of a task is ever written; the others keep how they ended. */
  lemma AttemptsAre(db: Db, s: Step, retryLimit: nat, e: (TaskId, nat))
    requires Valid(db) && Scheduled(db, s, retryLimit) && e in Apply(db, s).attempts
    ensures e.0 in Apply(db, s).tasks
    ensures var w := AttemptWritten(db, s, e.0);
            if w.Some? && e.1 == Apply(db, s).tasks[e.0].attemptCount then Apply(db, s).attempts[e] == w.value
            else e in db.attempts && Apply(db, s).attempts[e] == db.attempts[e]
  {
    StepKeepsValid(db, s, retryLimit);
    if e.0 in db.tasks { assert TaskQueues.TaskOk(db.tasks[e.0]); }
    if s.Restart? {
      RestartAttemptKeys(db);
      RestartWrites(db, e);
    } else if s.Launch? || s.LaunchFailure? || s.Finish? || s.Retry? || s.Preempt? || s.Interrupt? {
      OneAttemptWritten(db, s, retryLimit, e);
    } else {
      NoAttemptWritten(db, s, e);
    }
  }

  lemma NoAttemptWritten(db: Db, s: Step, e: (TaskId, nat))
    requires !s.Restart? && !s.Launch? && !s.LaunchFailure? && !s.Finish? && !s.Retry? && !s.Preempt? && !s.Interrupt?
    requires e in Apply(db, s).attempts
    ensures e in db.attempts && Apply(db, s).attempts[e] == db.attempts[e]
  {}

  lemma RestartWrites(db: Db, e: (TaskId, nat))
    requires Valid(db) && e in db.attempts
    ensures e in Apply(db, Restart).attempts && e.0 in db.tasks && e.0 in Apply(db, Restart).tasks
    ensures Apply(db, Restart).tasks[e.0].attemptCount == db.tasks[e.0].attemptCount
    ensures Apply(db, Restart).attempts[e] ==
            if IsRunning(db, e.0) && e.1 == db.tasks[e.0].attemptCount then InterruptedRequeued else db.attempts[e]
  {
    assert TaskQueues.TaskOk(db.tasks[e.0]);
    if IsRunning(db, e.0) { assert (e.0, AttemptNo(db.tasks[e.0])) == e || e.1 != db.tasks[e.0].attemptCount; }
  }

  lemma OneAttemptWritten(db: Db, s: Step, retryLimit: nat, e: (TaskId, nat))
    requires Valid(db) && Scheduled(db, s, retryLimit) && e in Apply(db, s).attempts
    requires s.Launch? || s.LaunchFailure? || s.Finish? || s.Retry? || s.Preempt? || s.Interrupt?
    requires e.0 in db.tasks ==> TaskQueues.TaskOk(db.tasks[e.0])
    requires e.0 in Apply(db, s).tasks
    ensures var w := AttemptWritten(db, s, e.0);
            if w.Some? && e.1 == Apply(db, s).tasks[e.0].attemptCount then Apply(db, s).attempts[e] == w.value
            else e in db.attempts && Apply(db, s).attempts[e] == db.attempts[e]
  {}

  // ---------- Whole runs ----------

  function LastLaunch(run: seq<Step>, id: TaskId): Option<Step> {
    if run == [] then None
    else if Launches(run[|run| - 1], id) then Some(run[|run| - 1])
    else LastLaunch(run[..|run| - 1], id)
  }

  function LaunchTries(run: seq<Step>, id: TaskId): nat {
    if run == [] then 0
    else LaunchTries(run[..|run| - 1], id) + if TriesLaunch(run[|run| - 1], id) then 1 else 0
  }

  /** What the history says about the row of task id. */
  ghost predicate RowRemembers(db: Db, id: TaskId, tries: nat, last: Option<Step>) {
    && (id in db.tasks ==> db.tasks[id].attemptCount == tries)
    && (id >= db.nextId ==> tries == 0)
    && (IsRunning(db, id) ==>
          && last.Some? && last.value.Launch?
          && db.tasks[id].startedAt == Some(last.value.now) && db.tasks[id].assignedGpu == Some(last.value.gpu))
  }

  lemma RemembersStep(db: Db, s: Step, retryLimit: nat, id: TaskId, tries: nat, last: Option<Step>)
    requires Valid(db) && Scheduled(db, s, retryLimit) && RowRemembers(db, id, tries, last)
    ensures RowRemembers(Apply(db, s), id, tries + (if TriesLaunch(s, id) then 1 else 0),
                         if Launches(s, id) then Some(s) else last)
  {
    NextIdGrows(db, s);
    if id in Apply(db, s).tasks {
      if id in db.tasks {
        ColumnsAre(db, s, retryLimit, id);
      } else {
        NewRowIs(db, s, id);
      }
    }
  }

  lemma NextIdGrows(db: Db, s: Step)
    ensures db.nextId <= Apply(db, s).nextId
  {}

  /** Over any run: the attempt count of a task is the number of times its launch was tried, and a running
      task has the start time and the GPU of its last launch. */
  lemma {:induction false} RowsRemember(run: seq<Step>, retryLimit: nat, id: TaskId)
    requires ScheduledRun(EMPTY, run, retryLimit)
    ensures RowRemembers(After(EMPTY, run), id, LaunchTries(run, id), LastLaunch(run, id))
  {
    if run != [] {
      var n := |run| - 1;
      TaskLifecycle.RunPrefix(EMPTY, run, retryLimit);
      RowsRemember(run[..n], retryLimit, id);
      EmptyIsValid();
      RunKeepsValid(EMPTY, run[..n], retryLimit);
      RemembersStep(After(EMPTY, run[..n]), run[n], retryLimit, id, LaunchTries(run[..n], id), LastLaunch(run[..n], id));
    }
  }

  /** Of two tasks of one queue that a restart finds running, the one launched earlier stands before the other
      in the queue afterwards; of two launched at one instant, the one with the smaller id. */
  lemma RestartInLaunchOrder(run: seq<Step>, retryLimit: nat, a: TaskId, b: TaskId, q: Queue) returns (x: nat, y: nat)
    requires ScheduledRun(EMPTY, run, retryLimit)
    requires var db := After(EMPTY, run);
             IsRunning(db, a) && IsRunning(db, b) && db.tasks[a].queue == db.tasks[b].queue == q
    requires var la, lb := LastLaunch(run, a), LastLaunch(run, b);
             && la.Some? && la.value.Launch? && lb.Some? && lb.value.Launch?
             && (la.value.now < lb.value.now || (la.value.now == lb.value.now && a < b))
    ensures var r := Reading(RequeueRunningTasks(After(EMPTY, run)).tasks, q);
            x < y < |r| && r[x] == a && r[y] == b
  {
    var db := After(EMPTY, run);
    RowsRemember(run, retryLimit, a);
    RowsRemember(run, retryLimit, b);
    EmptyIsValid();
    RunKeepsValid(EMPTY, run, retryLimit);
    TaskQueues.RestartPrependsBlock(db, q);
    x, y := BlockOrder(db.tasks, q, a, b);
  }

  lemma BlockOrder(tasks: Tasks, q: Queue, a: TaskId, b: TaskId) returns (x: nat, y: nat)
    requires a in RunningIds(tasks, q) && b in RunningIds(tasks, q)
    requires tasks[a].startedAt.Some? && tasks[b].startedAt.Some?
    requires var s, t := tasks[a].startedAt.value, tasks[b].startedAt.value; s < t || (s == t && a < b)
    ensures x < y < |RunningBlock(tasks, q)| && RunningBlock(tasks, q)[x] == a && RunningBlock(tasks, q)[y] == b
  {
    var block := RunningBlock(tasks, q);
    assert a in block && b in block;
    x :| 0 <= x < |block| && block[x] == a;
    y :| 0 <= y < |block| && block[y] == b;
    assert forall i, j | 0 <= i < j < |block| :: Before(StartKeys(tasks), block[i], block[j]);
  }
}
