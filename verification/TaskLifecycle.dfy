/** What any history of the task store guarantees: queues as sequences, absorbing end states,
    bounded retries, and a launchable task whenever work remains. */
module TaskLifecycle {
  import opened DependencyGraph
  import opened Options
  import opened Ordering
  import opened TaskModel
  import TaskQueues
  import opened TaskRuns

  // ---------- Queues as plain sequences ----------

  /** What step s does to queue k, said without ranks. */
  ghost function QueueAfter(db: Db, s: Step, k: Queue): seq<TaskId> {
    var r := Reading(db.tasks, k);
    match s
    case Create(q, need, now, ds) =>
      if CreateTask(db, q, need, now, ds).Ok? && k == q then r + [db.nextId] else r
    case Update(id, q, need, ds) =>
      if UpdateQueuedTask(db, id, q, need, ds).Ok? then TaskQueues.Kept(db.tasks, id, q, k) else r
    case Move(id, q) =>
      if MoveTaskToQueue(db, id, q).Ok? then TaskQueues.Kept(db.tasks, id, q, k) else r
    case Reorder(ids, q) => if k == q && multiset(ids) == multiset(r) then ids else r
    case Delete(id) => if IsRunning(db, id) then r else Without(r, id)
    case Clone(id, now) =>
      if CloneTaskForRequeue(db, id, now).Ok? && k == db.tasks[id].queue then r + [db.nextId] else r
    case Launch(id, _, _) => Without(r, id)
    case LaunchFailure(id) => Without(r, id)
    case Retry(id, _) => if id in db.tasks && k == db.tasks[id].queue then [id] + r else r
    case Preempt(id) => if k == NormalQueue then [id] + r else r
    case Interrupt(id, target) =>
      if id in db.tasks && k == (if target.Some? then target.value else db.tasks[id].queue) then [id] + r else r
    case Restart => RunningBlock(db.tasks, k) + r
    case _ => r
  }

  /** The rank encoding refines plain sequences, step by step. */
  lemma RanksRefineSequences(db: Db, s: Step, retryLimit: nat, k: Queue)
    requires Valid(db) && Scheduled(db, s, retryLimit)
    ensures Reading(Apply(db, s).tasks, k) == QueueAfter(db, s, k)
  {
    match s
    case Create(q, need, now, ds) => CreatedReading(db, q, need, now, ds, k);
    case Clone(id, now) => ClonedReading(db, id, now, k);
    case Update(id, q, need, ds) => UpdatedReading(db, id, q, need, ds, k);
    case Move(id, q) => MovedReading(db, id, q, k);
    case Reorder(ids, q) => ReorderedReading(db, ids, q, k);
    case Delete(id) => DeletedReading(db, id, k);
    case AddDeps(_, _) => DependencyReading(db, s, k);
    case ReplaceDeps(_, _) => DependencyReading(db, s, k);
    case RemoveDeps(_, _) => DependencyReading(db, s, k);
    case Launch(id, gpu, now) => LaunchedReading(db, id, gpu, now, k);
    case LaunchFailure(id) => FailedLaunchReading(db, id, k);
    case Finish(id, status) => FinishedReading(db, id, status, k);
    case Retry(id, at) => RetriedReading(db, id, at, k);
    case Preempt(id) => PreemptedReading(db, id, k);
    case Interrupt(id, target) => InterruptedReading(db, id, target, k);
    case Restart => RestartedReading(db, k);
  }

  lemma CreatedReading(db: Db, q: Queue, need: Need, now: int, ds: Option<seq<TaskId>>, k: Queue)
    requires Valid(db)
    ensures Reading(Apply(db, Create(q, need, now, ds)).tasks, k) == QueueAfter(db, Create(q, need, now, ds), k)
  {
    TaskQueues.CreateAppends(db, q, need, now, ds, k);
  }

  lemma ClonedReading(db: Db, id: TaskId, now: int, k: Queue)
    requires Valid(db)
    ensures Reading(Apply(db, Clone(id, now)).tasks, k) == QueueAfter(db, Clone(id, now), k)
  {
    var o := CloneTaskForRequeue(db, id, now);
    assert Apply(db, Clone(id, now)) == Committed(db, o);
    if o.Ok? { CloneAppends(db, id, now, k); }
  }

  lemma CloneAppends(db: Db, id: TaskId, now: int, k: Queue)
    requires Valid(db) && CloneTaskForRequeue(db, id, now).Ok?
    ensures id in db.tasks
    ensures Reading(CloneTaskForRequeue(db, id, now).db.tasks, k) ==
            Reading(db.tasks, k) + if k == db.tasks[id].queue then [db.nextId] else []
  {
    TaskQueues.CreateAppends(db, db.tasks[id].queue, db.tasks[id].need, now, None, k);
  }

  lemma UpdatedReading(db: Db, id: TaskId, q: Queue, need: Need, ds: Option<seq<TaskId>>, k: Queue)
    requires Valid(db)
    ensures Reading(Apply(db, Update(id, q, need, ds)).tasks, k) == QueueAfter(db, Update(id, q, need, ds), k)
  {
    TaskQueues.UpdateKeepsOrAppends(db, id, q, need, ds, k);
  }

  lemma MovedReading(db: Db, id: TaskId, q: Queue, k: Queue)
    requires Valid(db)
    ensures Reading(Apply(db, Move(id, q)).tasks, k) == QueueAfter(db, Move(id, q), k)
  {
    TaskQueues.MoveKeepsOrAppends(db, id, q, k);
  }

  lemma ReorderedReading(db: Db, ids: seq<TaskId>, q: Queue, k: Queue)
    ensures Reading(Apply(db, Reorder(ids, q)).tasks, k) == QueueAfter(db, Reorder(ids, q), k)
  {
    TaskQueues.ReorderIsExact(db, ids, q, k);
  }

  lemma DependencyReading(db: Db, s: Step, k: Queue)
    requires s.AddDeps? || s.ReplaceDeps? || s.RemoveDeps?
    ensures Reading(Apply(db, s).tasks, k) == QueueAfter(db, s, k)
  {
    assert Apply(db, s).tasks == db.tasks;
  }

  lemma LaunchedReading(db: Db, id: TaskId, gpu: nat, now: int, k: Queue)
    requires IsQueued(db, id)
    ensures Reading(Apply(db, Launch(id, gpu, now)).tasks, k) == QueueAfter(db, Launch(id, gpu, now), k)
  {
    TaskQueues.LaunchRemoves(db, id, gpu, now, k);
  }

  lemma FailedLaunchReading(db: Db, id: TaskId, k: Queue)
    requires IsQueued(db, id)
    ensures Reading(Apply(db, LaunchFailure(id)).tasks, k) == QueueAfter(db, LaunchFailure(id), k)
  {
    var attempt := Some(db.tasks[id].attemptCount + 1);
    assert Apply(db, LaunchFailure(id)) == MarkTaskLaunchFailed(db, id, attempt);
    TaskQueues.FailedLaunchRemoves(db, id, attempt, k);
  }

  lemma FinishedReading(db: Db, id: TaskId, status: Status, k: Queue)
    requires IsRunning(db, id) && status in {Succeeded, Failed, Cancelled}
    ensures Reading(Apply(db, Finish(id, status)).tasks, k) == QueueAfter(db, Finish(id, status), k)
  {
    assert Apply(db, Finish(id, status)) == FinishTask(db, id, status).db;
    TaskQueues.FinishLeavesQueues(db, id, status, k);
  }

  lemma RetriedReading(db: Db, id: TaskId, at: int, k: Queue)
    requires Valid(db) && IsRunning(db, id)
    ensures Reading(Apply(db, Retry(id, at)).tasks, k) == QueueAfter(db, Retry(id, at), k)
  {
    TaskQueues.RetryPrepends(db, id, at, k);
  }

  lemma PreemptedReading(db: Db, id: TaskId, k: Queue)
    requires IsRunning(db, id)
    ensures Reading(Apply(db, Preempt(id)).tasks, k) == QueueAfter(db, Preempt(id), k)
  {
    TaskQueues.PreemptPrepends(db, id, NormalQueue, k);
  }

  lemma InterruptedReading(db: Db, id: TaskId, target: Option<Queue>, k: Queue)
    requires IsRunning(db, id)
    ensures Reading(Apply(db, Interrupt(id, target)).tasks, k) == QueueAfter(db, Interrupt(id, target), k)
  {
    TaskQueues.InterruptPrepends(db, id, target, k);
  }

  lemma RestartedReading(db: Db, k: Queue)
    requires Valid(db)
    ensures Reading(Apply(db, Restart).tasks, k) == QueueAfter(db, Restart, k)
  {
    TaskQueues.RestartPrependsBlock(db, k);
  }

  lemma DeletedReading(db: Db, id: TaskId, k: Queue)
    ensures Reading(Apply(db, Delete(id)).tasks, k) == QueueAfter(db, Delete(id), k)
  {
    TaskQueues.DeleteRemoves(db, id, k);
    if id !in db.tasks {
      TaskQueues.ReadingMembers(db.tasks, k);
      TaskQueues.NoOp(Reading(db.tasks, k), id);
    }
  }

  // ---------- Lifecycle ----------

  predicate Ended(t: Task) {
    t.status in {Succeeded, Failed, Cancelled, Interrupted}
  }

  /** The steps that may take task id out of the running state. */
  predicate EndsRunning(s: Step, id: TaskId) {
    match s
    case Finish(x, _) => x == id
    case Retry(x, _) => x == id
    case Preempt(x) => x == id
    case Interrupt(x, _) => x == id
    case Restart => true
    case _ => false
  }

  ghost predicate LifecycleStep(db: Db, db': Db, s: Step, id: TaskId) {
    && db.nextId <= db'.nextId
    && (id in db.tasks ==>
          var t := db.tasks[id];
          && (id !in db'.tasks ==> s == Delete(id) && t.status != Running)
          && (id in db'.tasks && Ended(t) ==> db'.tasks[id] == t)
          && (id in db'.tasks && t.status == Running && db'.tasks[id].status != Running ==> EndsRunning(s, id)))
  }

  /** Most steps write one row, whose old status they have checked. */
  lemma OneRowStep(db: Db, db': Db, s: Step, id: TaskId, written: TaskId)
    requires db.nextId <= db'.nextId
    requires forall x | x in db.tasks && x != written :: x in db'.tasks && db'.tasks[x] == db.tasks[x]
    requires written in db.tasks ==> written in db'.tasks
    requires written in db.tasks && !Waiting(db.tasks[written]) ==>
      db.tasks[written].status == Running && EndsRunning(s, written)
    ensures LifecycleStep(db, db', s, id)
  {}

  lemma NoRowStep(db: Db, db': Db, s: Step, id: TaskId)
    requires db.nextId <= db'.nextId
    requires forall x | x in db.tasks :: x in db'.tasks && db'.tasks[x] == db.tasks[x]
    ensures LifecycleStep(db, db', s, id)
  {}

  /** One step: an ended task stays as it is until it is deleted, and only its own watcher or a
      restart ends a running one. */
  lemma StepRespectsLifecycle(db: Db, s: Step, retryLimit: nat, id: TaskId)
    requires Valid(db) && Scheduled(db, s, retryLimit)
    ensures LifecycleStep(db, Apply(db, s), s, id)
  {
    match s
    case Create(_, _, _, _) => AddingLifecycle(db, s, id);
    case Clone(_, _) => AddingLifecycle(db, s, id);
    case AddDeps(_, _) => DependencyLifecycle(db, s, id);
    case ReplaceDeps(_, _) => DependencyLifecycle(db, s, id);
    case RemoveDeps(_, _) => DependencyLifecycle(db, s, id);
    case Update(_, _, _, _) => UpdateIsOneRow(db, s, id);
    case Move(_, _) => MoveIsOneRow(db, s, id);
    case Reorder(ids, q) => ReorderLifecycle(db, ids, q, id);
    case Delete(x) => DeleteLifecycle(db, x, id);
    case Restart => RestartLifecycle(db, id);
    case _ => LaunchOrEndLifecycle(db, s, retryLimit, id);
  }

  lemma AddingLifecycle(db: Db, s: Step, id: TaskId)
    requires Valid(db) && (s.Create? || s.Clone?)
    ensures LifecycleStep(db, Apply(db, s), s, id)
  {
    NoRowStep(db, Apply(db, s), s, id);
  }

  lemma DependencyLifecycle(db: Db, s: Step, id: TaskId)
    requires s.AddDeps? || s.ReplaceDeps? || s.RemoveDeps?
    ensures LifecycleStep(db, Apply(db, s), s, id)
  {
    NoRowStep(db, Apply(db, s), s, id);
  }

  lemma DeleteLifecycle(db: Db, x: TaskId, id: TaskId)
    ensures LifecycleStep(db, Apply(db, Delete(x)), Delete(x), id)
  {}

  lemma RestartLifecycle(db: Db, id: TaskId)
    ensures LifecycleStep(db, Apply(db, Restart), Restart, id)
  {}

  lemma LaunchOrEndLifecycle(db: Db, s: Step, retryLimit: nat, id: TaskId)
    requires Scheduled(db, s, retryLimit)
    requires s.Launch? || s.LaunchFailure? || s.Finish? || s.Retry? || s.Preempt? || s.Interrupt?
    ensures LifecycleStep(db, Apply(db, s), s, id)
  {
    var db' := Apply(db, s);
    assert forall x | x in db.tasks && x != s.id :: x in db'.tasks && db'.tasks[x] == db.tasks[x];
    OneRowStep(db, db', s, id, s.id);
  }

  lemma MoveIsOneRow(db: Db, s: Step, id: TaskId)
    requires s.Move?
    ensures LifecycleStep(db, Apply(db, s), s, id)
  {
    if MoveTaskToQueue(db, s.id, s.queue).Ok? {
      OneRowStep(db, Apply(db, s), s, id, s.id);
    } else {
      NoRowStep(db, Apply(db, s), s, id);
    }
  }

  lemma UpdateIsOneRow(db: Db, s: Step, id: TaskId)
    requires s.Update?
    ensures LifecycleStep(db, Apply(db, s), s, id)
  {
    if UpdateQueuedTask(db, s.id, s.queue, s.need, s.ds).Ok? {
      OneRowStep(db, Apply(db, s), s, id, s.id);
    } else {
      NoRowStep(db, Apply(db, s), s, id);
    }
  }

  lemma ReorderLifecycle(db: Db, ids: seq<TaskId>, q: Queue, id: TaskId)
    ensures LifecycleStep(db, Apply(db, Reorder(ids, q)), Reorder(ids, q), id)
  {}

  /** Succeeded, failed and cancelled are absorbing: over any run an ended task is either
      unchanged or deleted, and its id never names another task. */
  lemma {:induction false} EndedIsAbsorbing(db: Db, run: seq<Step>, retryLimit: nat, id: TaskId)
    requires Valid(db) && ScheduledRun(db, run, retryLimit)
    requires id in db.tasks && Ended(db.tasks[id])
    ensures var db' := After(db, run);
            && (id in db'.tasks ==> db'.tasks[id] == db.tasks[id])
            && id < db'.nextId
  {
    assert id < db.nextId;
    if run != [] {
      var n := |run| - 1;
      RunPrefix(db, run, retryLimit);
      EndedIsAbsorbing(db, run[..n], retryLimit, id);
      RunKeepsValid(db, run[..n], retryLimit);
      var mid := After(db, run[..n]);
      if id in mid.tasks {
        StepRespectsLifecycle(mid, run[n], retryLimit, id);
      } else {
        IdsAreNotReused(mid, run[n], id);
      }
    }
  }

  lemma RunPrefix(db: Db, run: seq<Step>, retryLimit: nat)
    requires run != [] && ScheduledRun(db, run, retryLimit)
    ensures ScheduledRun(db, run[..|run| - 1], retryLimit)
    ensures Scheduled(After(db, run[..|run| - 1]), run[|run| - 1], retryLimit)
  {
    var n := |run| - 1;
    assert forall i | 0 <= i < n :: run[..n][..i] == run[..i];
  }

  lemma IdsAreNotReused(db: Db, s: Step, id: TaskId)
    requires id !in db.tasks && id < db.nextId
    ensures id !in Apply(db, s).tasks && id < Apply(db, s).nextId
  {}

  // ---------- Retries ----------

  function RetryCount(run: seq<Step>, id: TaskId): nat {
    if run == [] then 0
    else RetryCount(run[..|run| - 1], id) +
         (if run[|run| - 1].Retry? && run[|run| - 1].id == id then 1 else 0)
  }

  /** Every automatic retry uses up one attempt number, so the count stays behind the attempts. */
  ghost predicate RetriesBehind(db: Db, id: TaskId, n: nat, retryLimit: nat) {
    && n <= retryLimit
    && (id in db.tasks ==> n <= db.tasks[id].attemptCount)
    && (IsRunning(db, id) ==> n < db.tasks[id].attemptCount)
    && (id >= db.nextId ==> n == 0)
  }

  /** How a step moves the attempt count of one task. */
  ghost predicate AttemptsStep(db: Db, db': Db, s: Step, id: TaskId) {
    && db.nextId <= db'.nextId
    && (id in db'.tasks && id !in db.tasks ==> id >= db.nextId)
    && (id in db'.tasks && id in db.tasks ==> db.tasks[id].attemptCount <= db'.tasks[id].attemptCount)
    && (IsRunning(db', id) && !IsRunning(db, id) ==>
          id in db.tasks && db.tasks[id].attemptCount < db'.tasks[id].attemptCount)
    && (s.Retry? && s.id == id ==> IsRunning(db, id) && !IsRunning(db', id))
  }

  lemma AddingAttempts(db: Db, s: Step, id: TaskId)
    requires s.Create? || s.Clone? || s.AddDeps? || s.ReplaceDeps? || s.RemoveDeps? || s.Delete?
    requires db.nextId !in db.tasks
    ensures AttemptsStep(db, Apply(db, s), s, id)
  {}

  lemma WaitingAttempts(db: Db, s: Step, id: TaskId)
    requires s.Update? || s.Move? || s.Reorder?
    ensures AttemptsStep(db, Apply(db, s), s, id)
  {}

  lemma LaunchOrEndAttempts(db: Db, s: Step, retryLimit: nat, id: TaskId)
    requires Scheduled(db, s, retryLimit)
    requires s.Launch? || s.LaunchFailure? || s.Finish? || s.Retry? || s.Preempt? || s.Interrupt? || s.Restart?
    ensures AttemptsStep(db, Apply(db, s), s, id)
  {}

  lemma RetriesStayBehind(db: Db, s: Step, id: TaskId, n: nat, retryLimit: nat)
    requires Valid(db) && Scheduled(db, s, retryLimit) && RetriesBehind(db, id, n, retryLimit)
    ensures RetriesBehind(Apply(db, s), id, n + if s.Retry? && s.id == id then 1 else 0, retryLimit)
  {
    match s
    case Create(_, _, _, _) => AddingAttempts(db, s, id);
    case Clone(_, _) => AddingAttempts(db, s, id);
    case AddDeps(_, _) => AddingAttempts(db, s, id);
    case ReplaceDeps(_, _) => AddingAttempts(db, s, id);
    case RemoveDeps(_, _) => AddingAttempts(db, s, id);
    case Delete(_) => AddingAttempts(db, s, id);
    case Update(_, _, _, _) => WaitingAttempts(db, s, id);
    case Move(_, _) => WaitingAttempts(db, s, id);
    case Reorder(_, _) => WaitingAttempts(db, s, id);
    case _ => LaunchOrEndAttempts(db, s, retryLimit, id);
  }

  /** Over any run from an empty store, a task is retried automatically at most retryLimit times,
      however retries are mixed with preemptions, interrupts and restarts. */
  lemma {:induction false} RetriesAreBounded(run: seq<Step>, retryLimit: nat, id: TaskId)
    requires ScheduledRun(EMPTY, run, retryLimit)
    ensures RetryCount(run, id) <= retryLimit
    ensures RetriesBehind(After(EMPTY, run), id, RetryCount(run, id), retryLimit)
  {
    if run != [] {
      var n := |run| - 1;
      RunPrefix(EMPTY, run, retryLimit);
      RetriesAreBounded(run[..n], retryLimit, id);
      EmptyIsValid();
      RunKeepsValid(EMPTY, run[..n], retryLimit);
      RetriesStayBehind(After(EMPTY, run[..n]), run[n], id, RetryCount(run[..n], id), retryLimit);
    }
  }

  // ---------- No deadlock ----------

  /** While work remains and nothing has failed, some queued task has all its dependencies done. */
  lemma NoDependencyDeadlock(db: Db) returns (ready: TaskId)
    requires Valid(db)
    requires exists id :: IsQueued(db, id)
    requires forall id | id in db.tasks :: db.tasks[id].status in {Queued, Succeeded}
    ensures IsQueued(db, ready) && DependenciesSatisfied(db, ready)
  {
    var queued := set id | id in db.tasks && db.tasks[id].status == Queued;
    var some :| IsQueued(db, some);
    assert some in queued;
    ready := SomeMemberIsMinimal(db.deps, queued);
  }
}
