/** Whole runs of the task store: what every step keeps, and what follows for any history. */
module TaskRuns {
  import opened DependencyGraph
  import opened Options
  import opened Ordering
  import opened TaskModel
  import opened TaskQueues

  /** One atomic call of a database method. */
  datatype Step =
    | Create(queue: Queue, need: Need, now: int, ds: Option<seq<TaskId>>)
    | Update(id: TaskId, queue: Queue, need: Need, ds: Option<seq<TaskId>>)
    | Move(id: TaskId, queue: Queue)
    | Reorder(ids: seq<TaskId>, queue: Queue)
    | Delete(id: TaskId)
    | Clone(id: TaskId, now: int)
    | AddDeps(id: TaskId, deps: seq<TaskId>)
    | ReplaceDeps(id: TaskId, deps: seq<TaskId>)
    | RemoveDeps(id: TaskId, ds: Option<seq<TaskId>>)
    | Launch(id: TaskId, gpu: nat, now: int)
    | LaunchFailure(id: TaskId)
    | Finish(id: TaskId, status: Status)
    | Retry(id: TaskId, nextRetryAt: int)
    | Preempt(id: TaskId)
    | Interrupt(id: TaskId, target: Option<Queue>)
    | Restart

  /** A rejected call changes nothing. */
  function Committed(db: Db, o: Outcome): Db {
    if o.Ok? then o.db else db
  }

  ghost function Apply(db: Db, s: Step): Db {
    match s
    case Create(q, need, now, ds) => Committed(db, CreateTask(db, q, need, now, ds))
    case Update(id, q, need, ds) => Committed(db, UpdateQueuedTask(db, id, q, need, ds))
    case Move(id, q) => Committed(db, MoveTaskToQueue(db, id, q))
    case Reorder(ids, q) => Committed(db, ReorderQueue(db, ids, q))
    case Delete(id) => Committed(db, DeleteTask(db, id))
    case Clone(id, now) => Committed(db, CloneTaskForRequeue(db, id, now))
    case AddDeps(id, ds) => Committed(db, AddDependencies(db, id, ds))
    case ReplaceDeps(id, ds) => Committed(db, ReplaceDependencies(db, id, ds))
    case RemoveDeps(id, ds) => RemoveDependencies(db, id, ds)
    case Launch(id, gpu, now) => Committed(db, MarkTaskRunning(db, id, gpu, now))
    case LaunchFailure(id) =>
      if id in db.tasks then MarkTaskLaunchFailed(db, id, Some(db.tasks[id].attemptCount + 1)) else db
    case Finish(id, status) => Committed(db, FinishTask(db, id, status))
    case Retry(id, at) => Committed(db, ScheduleTaskRetry(db, id, at))
    case Preempt(id) => Committed(db, PreemptRunningTask(db, id, NormalQueue))
    case Interrupt(id, q) => Committed(db, RequeueRunningTask(db, id, q))
    case Restart => RequeueRunningTasks(db)
  }

  predicate IsRunning(db: Db, id: TaskId) {
    id in db.tasks && db.tasks[id].status == Running
  }

  predicate IsQueued(db: Db, id: TaskId) {
    id in db.tasks && db.tasks[id].status == Queued
  }

  /** The scheduler launches only queued tasks, and ends a task only from the watcher of its
      running process. retryLimit is the configured number of automatic retries. */
  ghost predicate Scheduled(db: Db, s: Step, retryLimit: nat) {
    match s
    case Launch(id, _, _) => IsQueued(db, id)
    case LaunchFailure(id) => IsQueued(db, id)
    case Finish(id, status) => IsRunning(db, id) && status in {Succeeded, Failed, Cancelled}
    case Retry(id, _) => IsRunning(db, id) && db.tasks[id].attemptCount - 1 < retryLimit
    case Preempt(id) => IsRunning(db, id)
    case Interrupt(id, _) => IsRunning(db, id)
    case _ => true
  }

  ghost function After(db: Db, run: seq<Step>): Db {
    if run == [] then db else Apply(After(db, run[..|run| - 1]), run[|run| - 1])
  }

  ghost predicate ScheduledRun(db: Db, run: seq<Step>, retryLimit: nat) {
    forall i | 0 <= i < |run| :: Scheduled(After(db, run[..i]), run[i], retryLimit)
  }

  // ---------- The invariant ----------

  ghost predicate GraphOk(db: Db) {
    Over(db.deps, db.tasks.Keys) && Acyclic(db.deps)
  }

  /** The attempt rows of a task are exactly 1..attemptCount; only the last row of a running
      task is itself running. */
  ghost predicate AttemptsOk(db: Db) {
    && (forall e: (TaskId, nat) :: e in db.attempts <==>
          e.0 in db.tasks && 1 <= e.1 <= db.tasks[e.0].attemptCount)
    && (forall e | e in db.attempts :: db.attempts[e] == AttemptRunning <==>
          IsRunning(db, e.0) && e.1 == db.tasks[e.0].attemptCount)
  }

  ghost predicate Valid(db: Db) {
    && TasksOk(db.tasks)
    && RanksDistinct(db.tasks)
    && GraphOk(db)
    && AttemptsOk(db)
    && (forall id | id in db.tasks :: id < db.nextId)
  }

  // ---------- One row changes ----------

  ghost predicate FreshRank(tasks: Tasks, id: TaskId, t: Task) {
    Waiting(t) ==> forall x | x in QueueIds(tasks, t.queue) && x != id :: RankOf(tasks[x]) != RankOf(t)
  }

  lemma PutKeepsRanks(tasks: Tasks, id: TaskId, t: Task)
    requires TasksOk(tasks) && RanksDistinct(tasks) && TaskOk(t) && FreshRank(tasks, id, t)
    ensures TasksOk(tasks[id := t]) && RanksDistinct(tasks[id := t])
  {
    var tasks' := tasks[id := t];
    forall x | x in tasks && x != id && Waiting(tasks[x]) && Waiting(t) && tasks[x].queue == t.queue
      ensures tasks[x].rank != t.rank
    {
      assert TaskOk(tasks[x]);
      assert x in QueueIds(tasks, t.queue);
    }
  }

  lemma EndIsFresh(tasks: Tasks, id: TaskId, t: Task)
    requires t.rank == Some(NextRank(tasks, t.queue))
    ensures FreshRank(tasks, id, t)
  {
    NextRankIsAbove(tasks, t.queue);
  }

  lemma HeadIsFresh(tasks: Tasks, id: TaskId, t: Task)
    requires t.rank == Some(HeadRank(tasks, t.queue, 1))
    ensures FreshRank(tasks, id, t)
  {
    HeadRankIsBelow(tasks, t.queue, 1);
  }

  /** Rewriting a waiting row as a waiting row touches nothing but the task table. */
  lemma WaitingRowKeepsValid(db: Db, id: TaskId, t: Task)
    requires Valid(db) && id in db.tasks && Waiting(db.tasks[id]) && Waiting(t)
    requires TaskOk(t) && FreshRank(db.tasks, id, t) && t.attemptCount == db.tasks[id].attemptCount
    ensures Valid(db.(tasks := db.tasks[id := t]))
  {
    PutKeepsRanks(db.tasks, id, t);
    var db' := db.(tasks := db.tasks[id := t]);
    assert db'.tasks.Keys == db.tasks.Keys;
    assert AttemptsOk(db') by {
      forall e | e in db'.attempts
        ensures db'.attempts[e] == AttemptRunning <==>
                IsRunning(db', e.0) && e.1 == db'.tasks[e.0].attemptCount
      {
        assert e in db.attempts;
      }
    }
  }

  /** Ending the last attempt of a running task. */
  lemma EndingKeepsValid(db: Db, id: TaskId, t: Task, a: AttemptStatus)
    requires Valid(db) && IsRunning(db, id)
    requires TaskOk(t) && FreshRank(db.tasks, id, t)
    requires t.status != Running && t.attemptCount == db.tasks[id].attemptCount && a != AttemptRunning
    ensures Valid(Booked(db, id, t, a))
  {
    PutKeepsRanks(db.tasks, id, t);
    assert TaskOk(db.tasks[id]);
    BookingKeepsAttempts(db, id, t, a);
    BookedIsValid(db, id, t, a);
  }

  /** Opening attempt attemptCount + 1 of a queued task, which starts running or fails at once. */
  lemma OpeningKeepsValid(db: Db, id: TaskId, t: Task, a: AttemptStatus)
    requires Valid(db) && IsQueued(db, id)
    requires TaskOk(t) && !Waiting(t) && t.attemptCount == db.tasks[id].attemptCount + 1
    requires a == AttemptRunning <==> t.status == Running
    ensures Valid(Booked(db, id, t, a))
  {
    PutKeepsRanks(db.tasks, id, t);
    BookingKeepsAttempts(db, id, t, a);
    BookedIsValid(db, id, t, a);
  }

  /** The booked attempt is the last one of the row, the same as before or the next. */
  lemma BookingKeepsAttempts(db: Db, id: TaskId, t: Task, a: AttemptStatus)
    requires AttemptsOk(db) && id in db.tasks && t.attemptCount >= 1
    requires || t.attemptCount == db.tasks[id].attemptCount
             || (t.attemptCount == db.tasks[id].attemptCount + 1 && !IsRunning(db, id))
    requires a == AttemptRunning <==> t.status == Running
    ensures AttemptsOk(Booked(db, id, t, a))
  {
    var db' := Booked(db, id, t, a);
    forall e | e in db'.attempts
      ensures db'.attempts[e] == AttemptRunning <==>
              IsRunning(db', e.0) && e.1 == db'.tasks[e.0].attemptCount
    {
      if e != (id, t.attemptCount) { assert e in db.attempts; }
    }
  }

  lemma BookedIsValid(db: Db, id: TaskId, t: Task, a: AttemptStatus)
    requires Valid(db) && id in db.tasks && AttemptsOk(Booked(db, id, t, a))
    requires TasksOk(db.tasks[id := t]) && RanksDistinct(db.tasks[id := t])
    ensures Valid(Booked(db, id, t, a))
  {
    assert Booked(db, id, t, a).tasks.Keys == db.tasks.Keys;
  }

  // ---------- Dependencies ----------

  /** On a valid database an existing task and other existing tasks as dependencies, adding or
      replacing is refused exactly when the result would have a cycle. */
  lemma CycleCheckIsExact(db: Db, id: TaskId, ds: seq<TaskId>)
    requires GraphOk(db) && id in db.tasks && id !in ds && forall d | d in ds :: d in db.tasks
    ensures AddDependencies(db, id, ds) == Rejected(WouldCycle) <==> !Acyclic(db.deps + Star(id, ds))
    ensures ReplaceDependencies(db, id, ds) == Rejected(WouldCycle) <==>
            !Acyclic(WithoutSource(db.deps, id) + Star(id, ds))
  {
    AddIsExact(db.deps, id, ds);
    ReplaceIsExact(db.deps, id, ds);
    if ds == [] {
      assert db.deps + Star(id, ds) == db.deps;
    }
  }

  lemma DependenciesKeepGraph(db: Db, id: TaskId, ds: seq<TaskId>)
    requires GraphOk(db)
    ensures AddDependencies(db, id, ds).Ok? ==> GraphOk(AddDependencies(db, id, ds).db)
    ensures ReplaceDependencies(db, id, ds).Ok? ==> GraphOk(ReplaceDependencies(db, id, ds).db)
  {
    if DependencyError(db, id, ds).None? {
      CycleCheckIsExact(db, id, ds);
    }
  }

  lemma ReplaceKeepsValid(db: Db, id: TaskId, ds: seq<TaskId>)
    requires Valid(db)
    ensures ReplaceDependencies(db, id, ds).Ok? ==> Valid(ReplaceDependencies(db, id, ds).db)
  {
    DependenciesKeepGraph(db, id, ds);
    if ReplaceDependencies(db, id, ds).Ok? {
      SameTablesValid(db, ReplaceDependencies(db, id, ds).db);
    }
  }

  lemma SameTablesValid(db: Db, db': Db)
    requires Valid(db) && GraphOk(db')
    requires db'.tasks == db.tasks && db'.attempts == db.attempts && db'.nextId == db.nextId
    ensures Valid(db')
  {}

  /** A new task cannot close a cycle: nothing points at it yet. */
  lemma CreateNeverCycles(db: Db, q: Queue, need: Need, now: int, ds: seq<TaskId>)
    requires Valid(db)
    ensures CreateTask(db, q, need, now, Some(ds)) != Rejected(WouldCycle)
  {
    if d :| d in ds && Reaches(db.deps, d, db.nextId) {
      ReachedIsTarget(db.deps, d, db.nextId);
      assert false;
    }
  }

  // ---------- Every step keeps the invariant ----------

  lemma CreateKeepsValid(db: Db, q: Queue, need: Need, now: int, ds: Option<seq<TaskId>>)
    requires Valid(db)
    ensures CreateTask(db, q, need, now, ds).Ok? ==> Valid(CreateTask(db, q, need, now, ds).db)
  {
    var t := NewTask(db, q, need, now);
    EndIsFresh(db.tasks, db.nextId, t);
    NewRowKeepsValid(db, t);
    if ds.Some? { ReplaceKeepsValid(Inserted(db, t), db.nextId, ds.value); }
  }

  lemma NewRowKeepsValid(db: Db, t: Task)
    requires Valid(db) && TaskOk(t) && Waiting(t) && t.attemptCount == 0
    requires FreshRank(db.tasks, db.nextId, t)
    ensures Valid(Inserted(db, t))
  {
    var id, db' := db.nextId, Inserted(db, t);
    PutKeepsRanks(db.tasks, id, t);
    assert id !in db.tasks;
    assert AttemptsOk(db') by {
      forall e: (TaskId, nat)
        ensures e in db'.attempts <==> e.0 in db'.tasks && 1 <= e.1 <= db'.tasks[e.0].attemptCount
      {
        assert e in db.attempts <==> e.0 in db.tasks && 1 <= e.1 <= db.tasks[e.0].attemptCount;
      }
    }
  }

  lemma UpdateKeepsValid(db: Db, id: TaskId, q: Queue, need: Need, ds: Option<seq<TaskId>>)
    requires Valid(db)
    ensures UpdateQueuedTask(db, id, q, need, ds).Ok? ==> Valid(UpdateQueuedTask(db, id, q, need, ds).db)
  {
    if id in db.tasks && Waiting(db.tasks[id]) {
      var t := db.tasks[id].(status := StatusFor(q), queue := q, rank := RankIn(db.tasks, id, q),
      need := need, nextRetryAt := None);
      RankInIsFresh(db, id, t, q);
      WaitingRowKeepsValid(db, id, t);
      if ds.Some? { ReplaceKeepsValid(db.(tasks := db.tasks[id := t]), id, ds.value); }
    }
  }

  lemma RankInIsFresh(db: Db, id: TaskId, t: Task, q: Queue)
    requires Valid(db) && id in db.tasks && Waiting(db.tasks[id])
    requires t.queue == q && t.status == StatusFor(q) && t.rank == RankIn(db.tasks, id, q)
    ensures FreshRank(db.tasks, id, t) && TaskOk(t)
  {
    assert TaskOk(db.tasks[id]);
    if InQueue(db.tasks[id], q) {
      forall x | x in QueueIds(db.tasks, q) && x != id ensures RankOf(db.tasks[x]) != RankOf(t) {
        assert TaskOk(db.tasks[x]) && Waiting(db.tasks[x]);
      }
    } else {
      EndIsFresh(db.tasks, id, t);
    }
  }

  lemma MoveKeepsValid(db: Db, id: TaskId, q: Queue)
    requires Valid(db)
    ensures MoveTaskToQueue(db, id, q).Ok? ==> Valid(MoveTaskToQueue(db, id, q).db)
  {
    if id in db.tasks && Waiting(db.tasks[id]) {
      var t := db.tasks[id].(status := StatusFor(q), queue := q, rank := RankIn(db.tasks, id, q),
      assignedGpu := None, nextRetryAt := None);
      RankInIsFresh(db, id, t, q);
      WaitingRowKeepsValid(db, id, t);
    }
  }

  lemma ReorderKeepsValid(db: Db, ids: seq<TaskId>, q: Queue)
    requires Valid(db)
    ensures ReorderQueue(db, ids, q).Ok? ==> Valid(ReorderQueue(db, ids, q).db)
  {
    if SameMembers(Reading(db.tasks, q), ids) {
      RankedRows(db.tasks, q, ids);
      var db' := db.(tasks := Ranked(db.tasks, q, ids));
      SameShapeAttempts(db, db');
    }
  }

  lemma RankedRows(tasks: Tasks, q: Queue, ids: seq<TaskId>)
    requires TasksOk(tasks) && RanksDistinct(tasks) && SameMembers(Reading(tasks, q), ids)
    ensures var tasks' := Ranked(tasks, q, ids); TasksOk(tasks') && RanksDistinct(tasks')
  {
    forall id | id in tasks ensures RankedRow(tasks, q, ids, id) { RankedRowIs(tasks, q, ids, id); }
  }

  ghost predicate RankedRow(tasks: Tasks, q: Queue, ids: seq<TaskId>, id: TaskId)
    requires id in tasks
  {
    var t := Ranked(tasks, q, ids)[id];
    && TaskOk(t) && t == tasks[id].(rank := t.rank)
    && (Waiting(t) && t.queue == q ==> id in ids && t.rank == Some(IndexOf(ids, id) + 1))
    && (t.queue != q ==> t == tasks[id])
  }

  lemma RankedRowIs(tasks: Tasks, q: Queue, ids: seq<TaskId>, id: TaskId)
    requires TasksOk(tasks) && SameMembers(Reading(tasks, q), ids) && id in tasks
    ensures RankedRow(tasks, q, ids, id)
  {
    assert TaskOk(tasks[id]);
    assert InQueue(tasks[id], q) <==> id in QueueIds(tasks, q);
  }

  /** The attempt table stays right when no row changes its attempt count or starts or stops running. */
  lemma SameShapeAttempts(db: Db, db': Db)
    requires AttemptsOk(db) && db'.attempts == db.attempts && db'.tasks.Keys == db.tasks.Keys
    requires forall id | id in db.tasks :: db'.tasks[id].attemptCount == db.tasks[id].attemptCount
    requires forall id | id in db.tasks :: db'.tasks[id].status == Running <==> db.tasks[id].status == Running
    ensures AttemptsOk(db')
  {
    forall e | e in db'.attempts
      ensures db'.attempts[e] == AttemptRunning <==>
              IsRunning(db', e.0) && e.1 == db'.tasks[e.0].attemptCount
    {
      assert e in db.attempts;
    }
  }

  lemma DeleteKeepsValid(db: Db, id: TaskId)
    requires Valid(db)
    ensures DeleteTask(db, id).Ok? ==> Valid(DeleteTask(db, id).db)
  {
    if id in db.tasks && db.tasks[id].status != Running {
      var db' := DeleteTask(db, id).db;
      SubgraphAcyclic(db.deps, db'.deps);
      assert AttemptsOk(db') by {
        forall e | e in db'.attempts
          ensures db'.attempts[e] == AttemptRunning <==>
                  IsRunning(db', e.0) && e.1 == db'.tasks[e.0].attemptCount
        { assert e in db.attempts; }
      }
    }
  }

  lemma RestartKeepsValid(db: Db)
    requires Valid(db)
    ensures Valid(RequeueRunningTasks(db))
  {
    var db' := RequeueRunningTasks(db);
    assert db'.tasks.Keys == db.tasks.Keys;
    forall id | id in db.tasks
      ensures TaskOk(db.tasks[id]) && TaskOk(db'.tasks[id])
    {
      assert TaskOk(db.tasks[id]);
    }
    RestartRanks(db);
    RestartAttempts(db);
  }

  lemma RestartRanks(db: Db)
    requires Valid(db)
    ensures RanksDistinct(RequeueRunningTasks(db).tasks)
  {
    var tasks, tasks' := db.tasks, RequeueRunningTasks(db).tasks;
    forall a, b | a in tasks' && b in tasks' && a != b && Waiting(tasks'[a]) && Waiting(tasks'[b])
      && tasks'[a].queue == tasks'[b].queue
      ensures tasks'[a].rank != tasks'[b].rank
    {
      assert TaskOk(tasks[a]) && TaskOk(tasks[b]);
      if tasks[a].status == Running && tasks[b].status == Running {
      } else if tasks[a].status == Running {
        RestartBelow(tasks, a, b);
      } else if tasks[b].status == Running {
        RestartBelow(tasks, b, a);
      }
    }
  }

  /** A restarted task ranks below every task already waiting in its queue. */
  lemma RestartBelow(tasks: Tasks, a: TaskId, b: TaskId)
    requires TasksOk(tasks) && a in tasks && b in tasks
    requires tasks[a].status == Running && Waiting(tasks[b]) && tasks[a].queue == tasks[b].queue
    ensures RankOf(RestartedTask(tasks, a)) < RankOf(tasks[b])
  {
    var q := tasks[a].queue;
    assert TaskOk(tasks[a]) && TaskOk(tasks[b]);
    assert b in QueueIds(tasks, q);
    assert a in RunningIds(tasks, q);
    HeadRankIsBelow(tasks, q, |RunningBlock(tasks, q)|);
  }

  lemma RestartAttempts(db: Db)
    requires Valid(db)
    ensures AttemptsOk(RequeueRunningTasks(db))
  {
    var db' := RequeueRunningTasks(db);
    RestartAttemptKeys(db);
    RestartEndsAttempts(db);
    forall e: (TaskId, nat)
      ensures e in db'.attempts <==> e.0 in db'.tasks && 1 <= e.1 <= db'.tasks[e.0].attemptCount
    {
      assert e in db.attempts <==> e.0 in db.tasks && 1 <= e.1 <= db.tasks[e.0].attemptCount;
    }
  }

  lemma RestartEndsAttempts(db: Db)
    requires TasksOk(db.tasks) && AttemptsOk(db)
    ensures var db' := RequeueRunningTasks(db);
            && (forall e | e in db'.attempts && e in db.attempts :: db'.attempts[e] != AttemptRunning)
            && (forall id | id in db'.tasks ::
                  db'.tasks[id].attemptCount == db.tasks[id].attemptCount && !IsRunning(db', id))
  {
    var db' := RequeueRunningTasks(db);
    forall e | e in db'.attempts && e in db.attempts ensures db'.attempts[e] != AttemptRunning {
      if db.attempts[e] == AttemptRunning {
        assert TaskOk(db.tasks[e.0]);
        assert e == (e.0, AttemptNo(db.tasks[e.0]));
      }
    }
  }

  lemma RestartAttemptKeys(db: Db)
    requires Valid(db)
    ensures RequeueRunningTasks(db).attempts.Keys == db.attempts.Keys
  {
    forall id | id in db.tasks && db.tasks[id].status == Running
      ensures (id, AttemptNo(db.tasks[id])) in db.attempts
    {
      assert TaskOk(db.tasks[id]);
    }
  }

  lemma PreemptKeepsValid(db: Db, id: TaskId)
    requires Valid(db) && IsRunning(db, id)
    ensures Valid(PreemptRunningTask(db, id, NormalQueue).db)
  {
    assert TaskOk(db.tasks[id]);
    var t := PreemptRunningTask(db, id, NormalQueue).db.tasks[id];
    HeadIsFresh(db.tasks, id, t);
    EndingKeepsValid(db, id, t, AttemptPreempted);
  }

  lemma InterruptKeepsValid(db: Db, id: TaskId, queue: Option<Queue>)
    requires Valid(db) && IsRunning(db, id)
    ensures Valid(RequeueRunningTask(db, id, queue).db)
  {
    assert TaskOk(db.tasks[id]);
    var t := RequeueRunningTask(db, id, queue).db.tasks[id];
    HeadIsFresh(db.tasks, id, t);
    EndingKeepsValid(db, id, t, InterruptedRequeued);
  }

  /** Every step, by a user, the launcher, a watcher or a restart, keeps the store valid. */
  lemma StepKeepsValid(db: Db, s: Step, retryLimit: nat)
    requires Valid(db) && Scheduled(db, s, retryLimit)
    ensures Valid(Apply(db, s))
  {
    match s
    case Create(q, need, now, ds) => CreateKeepsValid(db, q, need, now, ds);
    case Update(id, q, need, ds) => UpdateKeepsValid(db, id, q, need, ds);
    case Move(id, q) => MoveKeepsValid(db, id, q);
    case Reorder(ids, q) => ReorderKeepsValid(db, ids, q);
    case Delete(id) => DeleteKeepsValid(db, id);
    case Clone(id, now) =>
      if id in db.tasks { CreateKeepsValid(db, db.tasks[id].queue, db.tasks[id].need, now, None); }
    case AddDeps(_, _) => DependencyStepKeepsValid(db, s);
    case ReplaceDeps(_, _) => DependencyStepKeepsValid(db, s);
    case RemoveDeps(_, _) => DependencyStepKeepsValid(db, s);
    case _ => SchedulerStepKeepsValid(db, s, retryLimit);
  }

  lemma DependencyStepKeepsValid(db: Db, s: Step)
    requires Valid(db) && (s.AddDeps? || s.ReplaceDeps? || s.RemoveDeps?)
    ensures Valid(Apply(db, s))
  {
    match s
    case AddDeps(id, ds) =>
      DependenciesKeepGraph(db, id, ds);
      if AddDependencies(db, id, ds).Ok? { SameTablesValid(db, AddDependencies(db, id, ds).db); }
    case ReplaceDeps(id, ds) => ReplaceKeepsValid(db, id, ds);
    case RemoveDeps(id, ds) =>
      SubgraphAcyclic(db.deps, RemoveDependencies(db, id, ds).deps);
      SameTablesValid(db, RemoveDependencies(db, id, ds));
  }

  lemma SchedulerStepKeepsValid(db: Db, s: Step, retryLimit: nat)
    requires Valid(db) && Scheduled(db, s, retryLimit)
    requires s.Launch? || s.LaunchFailure? || s.Finish? || s.Retry? || s.Preempt? || s.Interrupt? || s.Restart?
    ensures Valid(Apply(db, s))
  {
    match s
    case Launch(id, gpu, now) => LaunchKeepsValid(db, id, gpu, now);
    case LaunchFailure(id) => FailedLaunchKeepsValid(db, id);
    case Finish(id, status) => FinishKeepsValid(db, id, status);
    case Retry(id, at) => RetryKeepsValid(db, id, at);
    case Preempt(id) => PreemptKeepsValid(db, id);
    case Interrupt(id, q) => InterruptKeepsValid(db, id, q);
    case Restart => RestartKeepsValid(db);
  }

  lemma LaunchKeepsValid(db: Db, id: TaskId, gpu: nat, now: int)
    requires Valid(db) && IsQueued(db, id)
    ensures Valid(MarkTaskRunning(db, id, gpu, now).db)
  {
    assert TaskOk(db.tasks[id]);
    OpeningKeepsValid(db, id, MarkTaskRunning(db, id, gpu, now).db.tasks[id], AttemptRunning);
  }

  lemma FailedLaunchKeepsValid(db: Db, id: TaskId)
    requires Valid(db) && IsQueued(db, id)
    ensures Valid(MarkTaskLaunchFailed(db, id, Some(db.tasks[id].attemptCount + 1)))
  {
    assert TaskOk(db.tasks[id]);
    OpeningKeepsValid(db, id, MarkTaskLaunchFailed(db, id, Some(db.tasks[id].attemptCount + 1)).tasks[id],
                      AttemptEnded(Failed));
  }

  lemma FinishKeepsValid(db: Db, id: TaskId, status: Status)
    requires Valid(db) && IsRunning(db, id) && status in {Succeeded, Failed, Cancelled}
    ensures Valid(FinishTask(db, id, status).db)
  {
    assert TaskOk(db.tasks[id]);
    EndingKeepsValid(db, id, db.tasks[id].(status := status), AttemptEnded(status));
  }

  lemma RetryKeepsValid(db: Db, id: TaskId, at: int)
    requires Valid(db) && IsRunning(db, id)
    ensures Valid(ScheduleTaskRetry(db, id, at).db)
  {
    assert TaskOk(db.tasks[id]);
    var t := ScheduleTaskRetry(db, id, at).db.tasks[id];
    HeadIsFresh(db.tasks, id, t);
    EndingKeepsValid(db, id, t, RetryScheduled);
  }

  lemma {:induction false} RunKeepsValid(db: Db, run: seq<Step>, retryLimit: nat)
    requires Valid(db) && ScheduledRun(db, run, retryLimit)
    ensures Valid(After(db, run))
  {
    if run != [] {
      var n := |run| - 1;
      assert run[..n] + [run[n]] == run;
      assert forall i | 0 <= i < n :: run[..n][..i] == run[..i];
      RunKeepsValid(db, run[..n], retryLimit);
      StepKeepsValid(After(db, run[..n]), run[n], retryLimit);
    }
  }

  lemma EmptyIsValid()
    ensures Valid(EMPTY)
  {
    forall x ensures !Reaches(EMPTY.deps, x, x) {
      if Reaches(EMPTY.deps, x, x) {
        ReachedIsTarget(EMPTY.deps, x, x);
        assert false;
      }
    }
  }
}
