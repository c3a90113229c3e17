/** The task table, its dependency and attempt tables, and what each database method does to
    them, as functions on one immutable record. TaskStore.Database implements these in place. */
module TaskModel {
  import opened DependencyGraph
  import opened Options
  import opened Ordering

  datatype Queue = NormalQueue | UrgentQueue | StagedQueue

  datatype Status = Queued | Staged | Running | Succeeded | Failed | Cancelled | Interrupted

  /** What a task asks of a GPU. */
  datatype Need = Need(requestedGpu: Option<nat>, budgetMb: Option<int>, reservationMb: Option<int>)

  datatype Task = Task(
    status: Status, queue: Queue, rank: Option<int>, assignedGpu: Option<nat>,
    createdAt: int, startedAt: Option<int>, attemptCount: nat, nextRetryAt: Option<int>, need: Need)

  datatype AttemptStatus =
    | AttemptRunning
    | RetryScheduled
    | AttemptPreempted
    | InterruptedRequeued
    | AttemptEnded(status: Status)

  type Tasks = map<TaskId, Task>
  type Attempts = map<(TaskId, nat), AttemptStatus>

  datatype Db = Db(tasks: Tasks, deps: Graph, attempts: Attempts, nextId: TaskId)

  datatype Error =
    | NotFound | NotWaiting | NotRunning | NotTerminal | StillRunning | BadPermutation
    | DependsOnSelf | MissingDependency | WouldCycle

  /** A rejected call leaves every table as it was. */
  datatype Outcome = Ok(db: Db) | Rejected(error: Error)

  const EMPTY := Db(map[], {}, map[], 1)

  // ---------- Queues by rank ----------

  function StatusFor(q: Queue): Status {
    if q.StagedQueue? then Staged else Queued
  }

  predicate Waiting(t: Task) {
    t.status == Queued || t.status == Staged
  }

  predicate InQueue(t: Task, q: Queue) {
    t.status == StatusFor(q) && t.queue == q
  }

  /** Every waiting row has a rank (TaskOk), so the default is never read. */
  function RankOf(t: Task): int {
    if t.rank.Some? then t.rank.value else 0
  }

  function QueueIds(tasks: Tasks, q: Queue): set<TaskId> {
    set id | id in tasks && InQueue(tasks[id], q)
  }

  function RankKeys(tasks: Tasks): Keys {
    map id | id in tasks :: RankOf(tasks[id])
  }

  /** A queue as the scheduler lists it: by rank, then id. */
  ghost function Reading(tasks: Tasks, q: Queue): seq<TaskId> {
    SortIds(QueueIds(tasks, q), RankKeys(tasks))
  }

  /** COALESCE(MAX(rank), 0) + 1. */
  ghost function NextRank(tasks: Tasks, q: Queue): int {
    var r := Reading(tasks, q);
    if r == [] then 1 else RankOf(tasks[r[|r| - 1]]) + 1
  }

  /** MIN(rank) - n, or 1 for an empty queue. */
  ghost function HeadRank(tasks: Tasks, q: Queue, n: nat): int {
    var r := Reading(tasks, q);
    if r == [] then 1 else RankOf(tasks[r[0]]) - n
  }

  // ---------- Dependencies ----------

  ghost function DependencyError(db: Db, id: TaskId, ds: seq<TaskId>): Option<Error> {
    if id in ds then Some(DependsOnSelf)
    else if id !in db.tasks then Some(NotFound)
    else if exists d :: d in ds && d !in db.tasks then Some(MissingDependency)
    else if exists d :: d in ds && Reaches(db.deps, d, id) then Some(WouldCycle)
    else None
  }

  ghost function AddDependencies(db: Db, id: TaskId, ds: seq<TaskId>): Outcome {
    if ds == [] then Ok(db)
    else
      var e := DependencyError(db, id, ds);
      if e.Some? then Rejected(e.value) else Ok(db.(deps := db.deps + Star(id, ds)))
  }

  ghost function ReplaceDependencies(db: Db, id: TaskId, ds: seq<TaskId>): Outcome {
    var e := DependencyError(db, id, ds);
    if e.Some? then Rejected(e.value) else Ok(db.(deps := WithoutSource(db.deps, id) + Star(id, ds)))
  }

  function RemoveDependencies(db: Db, id: TaskId, ds: Option<seq<TaskId>>): Db {
    db.(deps := set e | e in db.deps && !(e.0 == id && (ds.None? || e.1 in ds.value)))
  }

  predicate DependenciesSatisfied(db: Db, id: TaskId) {
    forall e | e in db.deps :: e.0 == id && e.1 in db.tasks ==> db.tasks[e.1].status == Succeeded
  }

  // ---------- Changes to waiting tasks ----------

  ghost function NewTask(db: Db, q: Queue, need: Need, now: int): Task {
    Task(StatusFor(q), q, Some(NextRank(db.tasks, q)), None, now, None, 0, None, need)
  }

  function Inserted(db: Db, t: Task): Db {
    db.(tasks := db.tasks[db.nextId := t], nextId := db.nextId + 1)
  }

  ghost function CreateTask(db: Db, q: Queue, need: Need, now: int, ds: Option<seq<TaskId>>): Outcome {
    var db1 := Inserted(db, NewTask(db, q, need, now));
    if ds.Some? then ReplaceDependencies(db1, db.nextId, ds.value) else Ok(db1)
  }

  /** A task already in q keeps its rank; any other goes to the end of q. */
  ghost function RankIn(tasks: Tasks, id: TaskId, q: Queue): Option<int>
    requires id in tasks
  {
    if InQueue(tasks[id], q) && tasks[id].rank.Some? then tasks[id].rank else Some(NextRank(tasks, q))
  }

  ghost function UpdateQueuedTask(db: Db, id: TaskId, q: Queue, need: Need, ds: Option<seq<TaskId>>): Outcome {
    if id !in db.tasks || !Waiting(db.tasks[id]) then Rejected(NotWaiting)
    else
      var t := db.tasks[id].(status := StatusFor(q), queue := q, rank := RankIn(db.tasks, id, q),
      need := need, nextRetryAt := None);
      var db1 := db.(tasks := db.tasks[id := t]);
      if ds.Some? then ReplaceDependencies(db1, id, ds.value) else Ok(db1)
  }

  ghost function MoveTaskToQueue(db: Db, id: TaskId, q: Queue): Outcome {
    if id !in db.tasks then Rejected(NotFound)
    else if !Waiting(db.tasks[id]) then Rejected(NotWaiting)
    else
      var t := db.tasks[id].(status := StatusFor(q), queue := q, rank := RankIn(db.tasks, id, q),
      assignedGpu := None, nextRetryAt := None);
      Ok(db.(tasks := db.tasks[id := t]))
  }

  ghost predicate SameMembers(s: seq<TaskId>, ids: seq<TaskId>) {
    |s| == |ids| && forall x :: x in s <==> x in ids
  }

  /** Row i of the request gets rank i + 1. */
  ghost function Ranked(tasks: Tasks, q: Queue, ids: seq<TaskId>): Tasks {
    map id | id in tasks ::
      if InQueue(tasks[id], q) && id in ids then tasks[id].(rank := Some(IndexOf(ids, id) + 1)) else tasks[id]
  }

  ghost function ReorderQueue(db: Db, ids: seq<TaskId>, q: Queue): Outcome {
    if !SameMembers(Reading(db.tasks, q), ids) then Rejected(BadPermutation)
    else Ok(db.(tasks := Ranked(db.tasks, q, ids)))
  }

  function DeleteTask(db: Db, id: TaskId): Outcome {
    if id !in db.tasks then Rejected(NotFound)
    else if db.tasks[id].status == Running then Rejected(StillRunning)
    else Ok(Db(db.tasks - {id},
               set e | e in db.deps && e.0 != id && e.1 != id,
               map e | e in db.attempts && e.0 != id :: db.attempts[e],
               db.nextId))
  }

  ghost function CloneTaskForRequeue(db: Db, id: TaskId, now: int): Outcome {
    if id !in db.tasks then Rejected(NotFound)
    else if db.tasks[id].status !in {Failed, Cancelled, Interrupted} then Rejected(NotTerminal)
    else CreateTask(db, db.tasks[id].queue, db.tasks[id].need, now, None)
  }

  // ---------- Running and ending ----------

  /** The attempt a finishing row is booked under: at least 1. */
  function AttemptNo(t: Task): nat {
    if t.attemptCount == 0 then 1 else t.attemptCount
  }

  function Booked(db: Db, id: TaskId, t: Task, a: AttemptStatus): Db {
    db.(tasks := db.tasks[id := t], attempts := db.attempts[(id, AttemptNo(t)) := a])
  }

  /** The row changes only when it is still queued; the attempt row is written either way. */
  function MarkTaskRunning(db: Db, id: TaskId, gpu: nat, now: int): Outcome {
    if id !in db.tasks then Rejected(NotFound)
    else
      var t := db.tasks[id];
      var t' := if t.status != Queued then t
                else t.(status := Running, rank := None, assignedGpu := Some(gpu), startedAt := Some(now),
                nextRetryAt := None, attemptCount := t.attemptCount + 1);
      Ok(Booked(db, id, t', AttemptRunning))
  }

  function FinishTask(db: Db, id: TaskId, status: Status): Outcome {
    if id !in db.tasks then Rejected(NotFound)
    else Ok(Booked(db, id, db.tasks[id].(status := status), AttemptEnded(status)))
  }

  /** attempt is the number in the log file's name, when it has one. */
  function MarkTaskLaunchFailed(db: Db, id: TaskId, attempt: Option<nat>): Db {
    var db1 := if id !in db.tasks then db
               else
                 var t := db.tasks[id];
                 var a := if attempt.Some? then attempt.value else 1;
                 db.(tasks := db.tasks[id := t.(status := Failed, rank := None,
                       attemptCount := if t.attemptCount < a then a else t.attemptCount)]);
    if attempt.None? then db1
    else db1.(attempts := db1.attempts[(id, attempt.value) := AttemptEnded(Failed)])
  }

  ghost function ScheduleTaskRetry(db: Db, id: TaskId, nextRetryAt: int): Outcome {
    if id !in db.tasks then Rejected(NotFound)
    else
      var t := db.tasks[id];
      Ok(Booked(db, id, t.(status := Queued, rank := Some(HeadRank(db.tasks, t.queue, 1)),
                assignedGpu := None, nextRetryAt := Some(nextRetryAt)), RetryScheduled))
  }

  ghost function PreemptRunningTask(db: Db, id: TaskId, q: Queue): Outcome {
    if id !in db.tasks || db.tasks[id].status != Running then Rejected(NotRunning)
    else
      Ok(Booked(db, id, db.tasks[id].(status := Queued, rank := Some(HeadRank(db.tasks, q, 1)),
                assignedGpu := None, startedAt := None, nextRetryAt := None, queue := q), AttemptPreempted))
  }

  ghost function RequeueRunningTask(db: Db, id: TaskId, queue: Option<Queue>): Outcome {
    if id !in db.tasks && queue.None? then Rejected(NotFound)
    else if id !in db.tasks || db.tasks[id].status != Running then Rejected(NotRunning)
    else
      var q := if queue.Some? then queue.value else db.tasks[id].queue;
      Ok(Booked(db, id, db.tasks[id].(status := StatusFor(q), rank := Some(HeadRank(db.tasks, q, 1)),
                assignedGpu := None, startedAt := None, nextRetryAt := None, queue := q), InterruptedRequeued))
  }

  // ---------- Restart ----------

  function StartKeys(tasks: Tasks): Keys {
    map id | id in tasks ::
      if tasks[id].startedAt.Some? then tasks[id].startedAt.value else tasks[id].createdAt
  }

  function RunningIds(tasks: Tasks, q: Queue): set<TaskId> {
    set id | id in tasks && tasks[id].status == Running && tasks[id].queue == q
  }

  /** The running tasks of one queue name in start order. A running task never carries the staged
      name (TaskOk), so the minimum over queued rows of its queue is the one HeadRank takes. */
  ghost function RunningBlock(tasks: Tasks, q: Queue): seq<TaskId> {
    SortIds(RunningIds(tasks, q), StartKeys(tasks))
  }

  function Restarted(t: Task, rank: int, q: Queue): Task {
    t.(status := Queued, rank := Some(rank), assignedGpu := None, startedAt := None, nextRetryAt := None, queue := q)
  }

  ghost function RestartedTask(tasks: Tasks, id: TaskId): Task
    requires id in tasks && tasks[id].status == Running
  {
    var q := tasks[id].queue;
    var block := RunningBlock(tasks, q);
    Restarted(tasks[id], HeadRank(tasks, q, |block|) + IndexOf(block, id), q)
  }

  ghost function RequeueRunningTasks(db: Db): Db {
    var tasks := map id | id in db.tasks ::
      if db.tasks[id].status == Running then RestartedTask(db.tasks, id) else db.tasks[id];
    var closed := map id | id in db.tasks && db.tasks[id].status == Running
      :: (id, AttemptNo(db.tasks[id])) := InterruptedRequeued;
    db.(tasks := tasks, attempts := db.attempts + closed)
  }
}
