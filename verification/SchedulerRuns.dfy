/** Safety of the whole scheduler over any interleaving of ticks, watcher completions, stop
    requests, user operations and restarts. */
module SchedulerRuns {
  import opened DependencyGraph
  import opened Gpus
  import opened Matching
  import opened Options
  import opened Ordering
  import opened Readiness
  import opened SchedulerModel
  import opened TaskModel
  import TaskQueues
  import TaskRuns

  // ---------- The invariant ----------

  predicate IsWhole(tasks: Tasks, id: TaskId) {
    id in tasks && tasks[id].need.budgetMb.None?
  }

  ghost predicate HandlesOk(tasks: Tasks, running: map<TaskId, Handle>) {
    && (forall id :: id in running <==> id in tasks && tasks[id].status == Running)
    && (forall id | id in running :: HandleOk(tasks[id], running[id]))
  }

  predicate HandleOk(t: Task, h: Handle) {
    && t.assignedGpu == Some(h.gpu)
    && t.attemptCount == h.attempt
    && (h.stop == Some(Preemption) ==> h.requeueTo == Some(NormalQueue))
  }

  /** At most one running task without a memory budget occupies a GPU. */
  ghost predicate OneWholeTaskPerGpu(tasks: Tasks, running: map<TaskId, Handle>) {
    forall a, b | a in running && b in running && a != b && IsWhole(tasks, a) && IsWhole(tasks, b) ::
      running[a].gpu != running[b].gpu
  }

  ghost predicate BudgetsPositive(tasks: Tasks) {
    forall id | id in tasks && tasks[id].need.budgetMb.Some? :: tasks[id].need.budgetMb.value > 0
  }

  ghost predicate Safe(s: Sys) {
    && TaskRuns.Valid(s.db)
    && HandlesOk(s.db.tasks, s.running)
    && OneWholeTaskPerGpu(s.db.tasks, s.running)
    && BudgetsPositive(s.db.tasks)
  }

  // ---------- Steps ----------

  datatype SysStep =
    | TickStep(input: TickInput)
    | WatcherStep(id: TaskId, code: int, oomInLog: bool, now: int)
    | StopStep(id: TaskId, reason: StopReason, target: Option<Queue>)
    | UserStep(call: TaskRuns.Step)
    | ConfigureStep(checks: nat)
    | RebootStep(checks: nat)

  ghost predicate DistinctReadings(readings: seq<GpuInfo>) {
    forall x, y | 0 <= x < y < |readings| :: readings[x].index != readings[y].index
  }

  /** GPU readings name each GPU once, and show a process on every GPU where a reservation is held. */
  ghost predicate HonestReadings(s: Sys, cfg: Config, i: TickInput) {
    && DistinctReadings(i.readings)
    && (forall r, id | r in i.readings && id in Prepared(s, cfg, i).reservations
          && Prepared(s, cfg, i).reservations[id].gpu == r.index :: r.hasProcesses)
  }

  /** What users call; budgets have been checked to be positive. */
  ghost predicate UserCall(db: Db, c: TaskRuns.Step) {
    match c
    case Create(_, need, _, _) => need.budgetMb.Some? ==> need.budgetMb.value > 0
    case Update(_, _, need, _) => need.budgetMb.Some? ==> need.budgetMb.value > 0
    case Move(_, _) => true
    case Reorder(_, _) => true
    case Delete(_) => true
    case Clone(_, _) => true
    case AddDeps(_, _) => true
    case ReplaceDeps(_, _) => true
    case RemoveDeps(_, _) => true
    case _ => false
  }

  ghost predicate Enabled(s: Sys, cfg: Config, step: SysStep) {
    match step
    case TickStep(i) => HonestReadings(s, cfg, i)
    case WatcherStep(id, _, _, _) => id in s.running
    case StopStep(id, reason, target) => id in s.running && (reason == Preemption ==> target == Some(NormalQueue))
    case UserStep(c) => UserCall(s.db, c)
    case ConfigureStep(checks) => checks >= 1
    case RebootStep(checks) => checks >= 1
  }

  ghost function Next(s: Sys, cfg: Config, step: SysStep): Sys
    requires Enabled(s, cfg, step)
  {
    match step
    case TickStep(i) => Tick(s, cfg, i)
    case WatcherStep(id, code, oom, now) => Complete(s, cfg, id, code, oom, now)
    case StopStep(id, reason, target) => RequestStop(s, id, reason, target)
    case UserStep(c) => s.(db := TaskRuns.Apply(s.db, c))
    case ConfigureStep(checks) => s.(ready := Ready(map[], {}, checks))
    case RebootStep(checks) => Reboot(s, checks)
  }

  // ---------- The task list of a tick ----------

  lemma {:induction false} JobsOfIs(db: Db, ids: seq<TaskId>, now: int)
    requires Distinct(ids)
    ensures forall j | j in JobsOf(db, ids, now) ::
        j.id in ids && j.id in db.tasks && j.need == db.tasks[j.id].need && ReadyForLaunch(db, j.id, now)
    ensures DistinctIds(JobsOf(db, ids, now))
  {
    if ids != [] {
      var n := |ids| - 1;
      JobsOfIs(db, ids[..n], now);
      assert ids == ids[..n] + [ids[n]];
      var jobs := JobsOf(db, ids[..n], now);
      forall i | 0 <= i < |jobs| ensures jobs[i].id != ids[n] {
        assert jobs[i] in jobs;
      }
    }
  }

  /** Said on the rows themselves: the task is queued, every task it depends on has succeeded, and its
      retry time, if it has one, has come. */
  ghost predicate Startable(db: Db, id: TaskId, now: int) {
    && id in db.tasks && db.tasks[id].status == Queued
    && (forall e | e in db.deps && e.0 == id && e.1 in db.tasks :: db.tasks[e.1].status == Succeeded)
    && (db.tasks[id].nextRetryAt.Some? ==> db.tasks[id].nextRetryAt.value <= now)
  }

  /** Every listed task is startable. */
  lemma QueuedJobsAre(db: Db, now: int)
    ensures forall j | j in QueuedJobs(db, now) :: Startable(db, j.id, now) && j.need == db.tasks[j.id].need
    ensures DistinctIds(QueuedJobs(db, now))
  {
    var urgent, normal := Reading(db.tasks, UrgentQueue), Reading(db.tasks, NormalQueue);
    TaskQueues.ReadingMembers(db.tasks, UrgentQueue);
    TaskQueues.ReadingMembers(db.tasks, NormalQueue);
    var ids := urgent + normal;
    forall i, j | 0 <= i < j < |ids| ensures ids[i] != ids[j] {
      assert ids[i] in urgent || ids[i] in normal;
      assert j >= |urgent| ==> ids[j] in normal;
      assert i < |urgent| ==> ids[i] in urgent;
    }
    JobsOfIs(db, ids, now);
    forall id | id in ids ensures TaskRuns.IsQueued(db, id) {
      assert id in urgent || id in normal;
    }
  }

  // ---------- The plan of a tick ----------

  /** What the plan promises about itself, given honest readings. */
  ghost predicate GoodPlan(s: Sys, assignments: seq<Assignment>, now: int) {
    && WholeAlone(assignments)
    && (forall a | a in assignments ::
          && Startable(s.db, a.job.id, now) && a.job.need == s.db.tasks[a.job.id].need
          && (a.job.need.budgetMb.None? ==> a.gpu.index !in Occupied(s.running)))
    && (forall i, j | 0 <= i < j < |assignments| :: assignments[i].job.id != assignments[j].job.id)
  }

  lemma {:induction false} AvailableUnique(gpus: seq<Gpu>, cooling: set<nat>)
    requires UniqueIndices(gpus)
    ensures UniqueIndices(Available(gpus, cooling))
  {
    if gpus != [] {
      var n := |gpus| - 1;
      AvailableUnique(gpus[..n], cooling);
      var r := Available(gpus[..n], cooling);
      forall i | 0 <= i < |r| ensures r[i].index != gpus[n].index {
        assert r[i] in r;
      }
    }
  }

  /** The payload keeps indices unique, and calls a GPU idle only when no scheduler task runs there and
      its reading shows no process and less used memory than the threshold. */
  lemma PayloadFacts(s: Sys, cfg: Config, i: TickInput)
    requires DistinctReadings(i.readings)
    ensures UniqueIndices(TickPayload(s, cfg, i))
    ensures forall g | g in TickPayload(s, cfg, i) && g.idle ::
        && g.index !in Occupied(s.running)
        && exists r :: r in i.readings && r.index == g.index && !r.hasProcesses && r.usedMb < cfg.thresholdMb
  {
    var payload := TickPayload(s, cfg, i);
    forall g | g in payload && g.idle
      ensures g.index !in Occupied(s.running)
      ensures exists r :: r in i.readings && r.index == g.index && !r.hasProcesses && r.usedMb < cfg.thresholdMb
    {
      var k :| 0 <= k < |payload| && payload[k] == g;
      var r := i.readings[k];
      assert r in i.readings && r.index == g.index && !r.hasProcesses;
    }
  }

  lemma PlanIsGood(s: Sys, cfg: Config, i: TickInput)
    requires BudgetsPositive(s.db.tasks) && HonestReadings(s, cfg, i)
    ensures GoodPlan(s, Assignments(s, cfg, i), i.now)
  {
    var cooling := Cooling(s.cooldowns, cfg, i.now);
    var payload, jobs := TickPayload(s, cfg, i), QueuedJobs(s.db, i.now);
    var gpus, v := Available(payload, cooling), ViewOf(Prepared(s, cfg, i), cooling);
    QueuedJobsAre(s.db, i.now);
    PayloadFacts(s, cfg, i);
    AvailableUnique(payload, cooling);
    assert forall g | g in gpus :: g in payload;
    forall g, id | g in gpus && id in v.reservations && v.reservations[id].gpu == g.index ensures !g.idle {
      assert g.idle ==> exists r :: r in i.readings && r.index == g.index && !r.hasProcesses;
    }
    PlanFromMatch(s, v, jobs, gpus, i.now);
    if i.paused {
      assert Assignments(s, cfg, i) == [];
    }
  }

  lemma PlanFromMatch(s: Sys, v: View, jobs: seq<Job>, gpus: seq<Gpu>, now: int)
    requires BudgetsPositive(s.db.tasks) && UniqueIndices(gpus) && ReservationsVisible(v, gpus) && DistinctIds(jobs)
    requires forall j | j in jobs :: Startable(s.db, j.id, now) && j.need == s.db.tasks[j.id].need
    requires forall g | g in gpus && g.idle :: g.index !in Occupied(s.running)
    ensures GoodPlan(s, Match(v, jobs, gpus).assignments, now)
  {
    assert PositiveBudgets(jobs);
    PassIsExclusive(v, jobs, gpus);
    AssignmentsAreListed(v, jobs, gpus);
  }

  // ---------- Carrying the plan out ----------

  ghost predicate Listed(assignments: seq<Assignment>, id: TaskId) {
    exists a :: a in assignments && a.job.id == id
  }

  ghost predicate RunningFrom(s0: Sys, s: Sys, done: seq<Assignment>) {
    forall id | id in s.running ::
      || (id in s0.running && s.running[id] == s0.running[id])
      || (exists a :: a in done && a.job.id == id && a.gpu.index == s.running[id].gpu)
  }

  /** After part of the plan: the store differs only in the rows of the tasks handled so far. */
  ghost predicate RowsFrom(db0: Db, db: Db, done: seq<Assignment>) {
    && db.deps == db0.deps && db.tasks.Keys == db0.tasks.Keys
    && (forall id | id in db0.tasks ::
          && db.tasks[id].need == db0.tasks[id].need
          && (Listed(done, id) || db.tasks[id] == db0.tasks[id]))
  }

  ghost predicate PartlyDone(s0: Sys, s: Sys, done: seq<Assignment>) {
    Safe(s) && RunningFrom(s0, s, done) && RowsFrom(s0.db, s.db, done)
  }

  /** The moment a planned task is handled: it is queued, all its dependencies have succeeded, its
      retry time has come, and if it has no budget no other task runs on its GPU. */
  ghost predicate LaunchOk(s: Sys, a: Assignment, now: int) {
    && Startable(s.db, a.job.id, now)
    && a.job.need == s.db.tasks[a.job.id].need
    && (a.job.need.budgetMb.None? ==> a.gpu.index !in Occupied(s.running))
  }

  lemma NotHandledBefore(s0: Sys, plan: seq<Assignment>, k: nat, now: int)
    requires GoodPlan(s0, plan, now) && k < |plan|
    ensures !Listed(plan[..k], plan[k].job.id)
  {
    forall b | b in plan[..k] ensures b.job.id != plan[k].job.id {
      var j :| 0 <= j < k && plan[j] == b;
    }
  }

  /** Launches change no row that a planned task depends on: those have succeeded, and launches need queued rows. */
  lemma StillStartable(s0: Sys, s: Sys, done: seq<Assignment>, id: TaskId, now: int)
    requires RowsFrom(s0.db, s.db, done) && Startable(s0.db, id, now) && !Listed(done, id)
    requires forall x | Listed(done, x) :: TaskRuns.IsQueued(s0.db, x)
    ensures Startable(s.db, id, now)
  {
    assert forall e | e in s.db.deps && e.0 == id && e.1 in s.db.tasks ::
        s0.db.tasks[e.1].status == Succeeded && !Listed(done, e.1);
  }

  lemma StillFree(s0: Sys, s: Sys, plan: seq<Assignment>, k: nat, now: int)
    requires GoodPlan(s0, plan, now) && k < |plan| && RunningFrom(s0, s, plan[..k]) && plan[k].job.need.budgetMb.None?
    ensures plan[k].gpu.index !in Occupied(s.running)
  {
    var a := plan[k];
    assert a in plan;
    forall id | id in s.running ensures s.running[id].gpu != a.gpu.index {
      if !(id in s0.running && s.running[id] == s0.running[id]) {
        var b :| b in plan[..k] && b.job.id == id && b.gpu.index == s.running[id].gpu;
        var j :| 0 <= j < k && plan[j] == b;
      }
    }
  }

  lemma NextLaunchOk(s0: Sys, s: Sys, plan: seq<Assignment>, k: nat, now: int)
    requires GoodPlan(s0, plan, now) && k < |plan| && PartlyDone(s0, s, plan[..k])
    requires forall id | Listed(plan[..k], id) :: TaskRuns.IsQueued(s0.db, id)
    ensures LaunchOk(s, plan[k], now)
  {
    assert plan[k] in plan;
    NotHandledBefore(s0, plan, k, now);
    StillStartable(s0, s, plan[..k], plan[k].job.id, now);
    if plan[k].job.need.budgetMb.None? { StillFree(s0, s, plan, k, now); }
  }

  /** One row changed, and not in what it asks for. */
  ghost predicate OneRow(db: Db, db': Db, id: TaskId) {
    && id in db.tasks && db'.tasks.Keys == db.tasks.Keys && db'.deps == db.deps
    && db'.tasks[id].need == db.tasks[id].need
    && (forall x | x in db.tasks && x != id :: db'.tasks[x] == db.tasks[x])
  }

  lemma HandleAdded(tasks: Tasks, running: map<TaskId, Handle>, id: TaskId, t: Task, h: Handle)
    requires HandlesOk(tasks, running) && OneWholeTaskPerGpu(tasks, running) && id in tasks
    requires t.status == Running && HandleOk(t, h) && id !in running
    requires t.need == tasks[id].need && (t.need.budgetMb.None? ==> h.gpu !in Occupied(running))
    ensures HandlesOk(tasks[id := t], running[id := h]) && OneWholeTaskPerGpu(tasks[id := t], running[id := h])
  {
    forall b | b in running && t.need.budgetMb.None? ensures running[b].gpu != h.gpu {
      assert running[b].gpu in Occupied(running);
    }
  }

  lemma IdleRowWritten(tasks: Tasks, running: map<TaskId, Handle>, id: TaskId, t: Task)
    requires HandlesOk(tasks, running) && OneWholeTaskPerGpu(tasks, running)
    requires id !in running && t.status != Running
    ensures HandlesOk(tasks[id := t], running) && OneWholeTaskPerGpu(tasks[id := t], running)
  {}

  lemma NeedKept(tasks: Tasks, id: TaskId, t: Task)
    requires BudgetsPositive(tasks) && (t.need.budgetMb.Some? ==> t.need.budgetMb.value > 0)
    ensures BudgetsPositive(tasks[id := t])
  {}

  lemma StartedRow(s: Sys, a: Assignment, now: int)
    requires Safe(s) && LaunchOk(s, a, now)
    ensures var s', id := LaunchTask(s, a, now, true), a.job.id;
            && id in s'.db.tasks && s'.db.tasks == s.db.tasks[id := s'.db.tasks[id]] && s'.db.deps == s.db.deps
            && s'.running == s.running[id := s'.running[id]] && s'.running[id].gpu == a.gpu.index
            && s'.db.tasks[id].status == Running && s'.db.tasks[id].need == s.db.tasks[id].need
            && HandleOk(s'.db.tasks[id], s'.running[id])
  {}

  lemma LaunchKeepsValid(s: Sys, a: Assignment, now: int, ok: bool)
    requires TaskRuns.Valid(s.db) && LaunchOk(s, a, now)
    ensures TaskRuns.Valid(LaunchTask(s, a, now, ok).db)
  {
    LaunchedDb(s, a, now, ok);
    TaskRuns.StepKeepsValid(s.db, if ok then TaskRuns.Launch(a.job.id, a.gpu.index, now)
                                  else TaskRuns.LaunchFailure(a.job.id), 0);
  }

  lemma StartedKeepsSafe(s: Sys, a: Assignment, now: int)
    requires Safe(s) && LaunchOk(s, a, now)
    ensures Safe(LaunchTask(s, a, now, true)) && OneRow(s.db, LaunchTask(s, a, now, true).db, a.job.id)
  {
    var s', id := LaunchTask(s, a, now, true), a.job.id;
    LaunchKeepsValid(s, a, now, true);
    StartedRow(s, a, now);
    HandleAdded(s.db.tasks, s.running, id, s'.db.tasks[id], s'.running[id]);
    NeedKept(s.db.tasks, id, s'.db.tasks[id]);
  }

  lemma FailedRow(s: Sys, a: Assignment, now: int)
    requires LaunchOk(s, a, now)
    ensures var s', id := LaunchTask(s, a, now, false), a.job.id;
            && id in s'.db.tasks && s'.db.tasks == s.db.tasks[id := s'.db.tasks[id]] && s'.db.deps == s.db.deps
            && s'.running == s.running
            && s'.db.tasks[id].status == Failed && s'.db.tasks[id].need == s.db.tasks[id].need
  {}

  lemma LaunchedDb(s: Sys, a: Assignment, now: int, ok: bool)
    requires a.job.id in s.db.tasks
    ensures LaunchTask(s, a, now, ok).db ==
            TaskRuns.Apply(s.db, if ok then TaskRuns.Launch(a.job.id, a.gpu.index, now)
                                 else TaskRuns.LaunchFailure(a.job.id))
  {}

  lemma FailedKeepsHandles(s: Sys, a: Assignment, now: int)
    requires HandlesOk(s.db.tasks, s.running) && OneWholeTaskPerGpu(s.db.tasks, s.running) && BudgetsPositive(s.db.tasks)
    requires LaunchOk(s, a, now)
    ensures var s' := LaunchTask(s, a, now, false);
            && HandlesOk(s'.db.tasks, s'.running) && OneWholeTaskPerGpu(s'.db.tasks, s'.running)
            && BudgetsPositive(s'.db.tasks) && OneRow(s.db, s'.db, a.job.id)
  {
    var s', id := LaunchTask(s, a, now, false), a.job.id;
    FailedRow(s, a, now);
    IdleRowWritten(s.db.tasks, s.running, id, s'.db.tasks[id]);
    NeedKept(s.db.tasks, id, s'.db.tasks[id]);
  }

  lemma FailedKeepsSafe(s: Sys, a: Assignment, now: int)
    requires Safe(s) && LaunchOk(s, a, now)
    ensures Safe(LaunchTask(s, a, now, false)) && OneRow(s.db, LaunchTask(s, a, now, false).db, a.job.id)
  {
    LaunchKeepsValid(s, a, now, false);
    FailedKeepsHandles(s, a, now);
  }

  lemma ListedMore(plan: seq<Assignment>, k: nat)
    requires k < |plan|
    ensures forall id :: Listed(plan[..k + 1], id) <==> Listed(plan[..k], id) || id == plan[k].job.id
    ensures forall b :: b in plan[..k + 1] <==> b in plan[..k] || b == plan[k]
  {
    assert plan[..k + 1] == plan[..k] + [plan[k]];
    forall id ensures Listed(plan[..k + 1], id) <==> Listed(plan[..k], id) || id == plan[k].job.id {
      if b :| b in plan[..k] && b.job.id == id { assert b in plan[..k + 1]; }
      assert plan[k] in plan[..k + 1];
    }
  }

  lemma RunningFromMore(s0: Sys, s: Sys, s': Sys, plan: seq<Assignment>, k: nat)
    requires k < |plan| && RunningFrom(s0, s, plan[..k])
    requires forall id | id in s'.running ::
        (id in s.running && s'.running[id] == s.running[id])
        || (id == plan[k].job.id && plan[k].gpu.index == s'.running[id].gpu)
    ensures RunningFrom(s0, s', plan[..k + 1])
  {
    ListedMore(plan, k);
    forall id | id in s'.running && !(id in s0.running && s'.running[id] == s0.running[id])
      ensures exists b :: b in plan[..k + 1] && b.job.id == id && b.gpu.index == s'.running[id].gpu
    {
      if id in s.running && s'.running[id] == s.running[id] {
        var b :| b in plan[..k] && b.job.id == id && b.gpu.index == s.running[id].gpu;
        assert b in plan[..k + 1];
      } else {
        assert plan[k] in plan[..k + 1];
      }
    }
  }

  lemma RowsMore(s0: Sys, s: Sys, db': Db, plan: seq<Assignment>, k: nat)
    requires k < |plan| && RowsFrom(s0.db, s.db, plan[..k])
    requires OneRow(s.db, db', plan[k].job.id)
    ensures RowsFrom(s0.db, db', plan[..k + 1])
  {
    ListedMore(plan, k);
  }

  lemma ReservingKeepsSafe(s: Sys, a: Assignment, ok: bool)
    requires Safe(s) && a.job.need.reservationMb.Some?
    ensures Safe(StartReservation(s, a, ok))
    ensures StartReservation(s, a, ok).db == s.db && StartReservation(s, a, ok).running == s.running
  {}

  /** What handling one planned task may change. */
  ghost predicate CarriedFrom(s: Sys, s': Sys, a: Assignment) {
    && OneRow(s.db, s'.db, a.job.id)
    && forall id | id in s'.running ::
         (id in s.running && s'.running[id] == s.running[id])
         || (id == a.job.id && a.gpu.index == s'.running[id].gpu)
  }

  lemma LaunchCarries(s: Sys, a: Assignment, now: int, ok: bool)
    requires a.job.id in s.db.tasks && OneRow(s.db, LaunchTask(s, a, now, ok).db, a.job.id)
    ensures CarriedFrom(s, LaunchTask(s, a, now, ok), a)
  {}

  lemma NothingCarried(s: Sys, s': Sys, a: Assignment)
    requires a.job.id in s.db.tasks && s'.db == s.db && s'.running == s.running
    ensures CarriedFrom(s, s', a)
  {}

  lemma CarryIsSafe(s: Sys, a: Assignment, i: TickInput)
    requires Safe(s) && LaunchOk(s, a, i.now)
    ensures Safe(Carry(s, a, i)) && CarriedFrom(s, Carry(s, a, i), a)
  {
    if MustReserve(s, a) {
      ReservingKeepsSafe(s, a, a.job.id in i.reserved);
      NothingCarried(s, Carry(s, a, i), a);
    } else if a.job.id in i.started {
      StartedKeepsSafe(s, a, i.now);
      LaunchCarries(s, a, i.now, true);
    } else {
      FailedKeepsSafe(s, a, i.now);
      LaunchCarries(s, a, i.now, false);
    }
  }

  lemma CarryKeeps(s0: Sys, s: Sys, plan: seq<Assignment>, k: nat, i: TickInput)
    requires k < |plan| && PartlyDone(s0, s, plan[..k]) && LaunchOk(s, plan[k], i.now)
    ensures PartlyDone(s0, Carry(s, plan[k], i), plan[..k + 1])
  {
    CarryIsSafe(s, plan[k], i);
    PartlyDoneMore(s0, s, Carry(s, plan[k], i), plan, k);
  }

  lemma PartlyDoneMore(s0: Sys, s: Sys, s': Sys, plan: seq<Assignment>, k: nat)
    requires k < |plan| && PartlyDone(s0, s, plan[..k]) && Safe(s') && CarriedFrom(s, s', plan[k])
    ensures PartlyDone(s0, s', plan[..k + 1])
  {
    RowsMore(s0, s, s'.db, plan, k);
    RunningFromMore(s0, s, s', plan, k);
  }

  lemma {:induction false} CarryOutKeeps(s0: Sys, plan: seq<Assignment>, k: nat, i: TickInput)
    requires Safe(s0) && GoodPlan(s0, plan, i.now) && k <= |plan|
    ensures PartlyDone(s0, CarryOut(s0, plan[..k], i), plan[..k])
    ensures forall id | Listed(plan[..k], id) :: TaskRuns.IsQueued(s0.db, id)
  {
    forall id | Listed(plan[..k], id) ensures TaskRuns.IsQueued(s0.db, id) {
      var a :| a in plan[..k] && a.job.id == id;
      assert a in plan;
    }
    if k > 0 {
      CarryOutKeeps(s0, plan, k - 1, i);
      assert plan[..k][..k - 1] == plan[..k - 1];
      var s := CarryOut(s0, plan[..k - 1], i);
      NextLaunchOk(s0, s, plan, k - 1, i.now);
      CarryKeeps(s0, s, plan, k - 1, i);
    }
  }

  /** The preparation touches neither the store nor the running tasks. */
  lemma PreparedIsGood(s: Sys, cfg: Config, i: TickInput)
    requires Safe(s) && HonestReadings(s, cfg, i)
    ensures Safe(Prepared(s, cfg, i)) && GoodPlan(Prepared(s, cfg, i), Assignments(s, cfg, i), i.now)
  {
    PlanIsGood(s, cfg, i);
    SameStoreAndHandles(s, Prepared(s, cfg, i), Assignments(s, cfg, i), i.now);
  }

  lemma SameStoreAndHandles(s: Sys, s': Sys, plan: seq<Assignment>, now: int)
    requires Safe(s) && GoodPlan(s, plan, now) && s'.db == s.db && s'.running == s.running
    ensures Safe(s') && GoodPlan(s', plan, now)
  {}

  /** In every tick, every launch happens with the task queued, all its stored dependencies
      succeeded and its retry time past; and a task without a budget is launched only on a GPU
      where no scheduler task runs at that moment. */
  lemma EveryLaunchIsOk(s: Sys, cfg: Config, i: TickInput, k: nat)
    requires Safe(s) && HonestReadings(s, cfg, i) && k < |Assignments(s, cfg, i)|
    ensures LaunchOk(CarryOut(Prepared(s, cfg, i), Assignments(s, cfg, i)[..k], i), Assignments(s, cfg, i)[k], i.now)
  {
    var plan, s0 := Assignments(s, cfg, i), Prepared(s, cfg, i);
    PreparedIsGood(s, cfg, i);
    CarryOutKeeps(s0, plan, k, i);
    NextLaunchOk(s0, CarryOut(s0, plan[..k], i), plan, k, i.now);
  }

  lemma PlanKeepsSafe(s0: Sys, plan: seq<Assignment>, i: TickInput)
    requires Safe(s0) && GoodPlan(s0, plan, i.now)
    ensures Safe(CarryOut(s0, plan, i))
  {
    CarryOutKeeps(s0, plan, |plan|, i);
    assert plan[..|plan|] == plan;
  }

  lemma TickKeepsSafe(s: Sys, cfg: Config, i: TickInput)
    requires Safe(s) && HonestReadings(s, cfg, i)
    ensures Safe(Tick(s, cfg, i))
  {
    PreparedIsGood(s, cfg, i);
    PlanKeepsSafe(Prepared(s, cfg, i), Assignments(s, cfg, i), i);
  }

  // ---------- The other steps ----------

  lemma HandleRemoved(tasks: Tasks, running: map<TaskId, Handle>, id: TaskId, t: Task)
    requires HandlesOk(tasks, running) && OneWholeTaskPerGpu(tasks, running)
    requires id in tasks && t.status != Running && t.need == tasks[id].need
    ensures HandlesOk(tasks[id := t], running - {id}) && OneWholeTaskPerGpu(tasks[id := t], running - {id})
  {}

  /** The store step a verdict stands for. */
  function VerdictStep(id: TaskId, v: Verdict, retryAt: int): TaskRuns.Step {
    match v
    case Preempted(_) => TaskRuns.Preempt(id)
    case Requeued(target, _) => TaskRuns.Interrupt(id, target)
    case Retried => TaskRuns.Retry(id, retryAt)
    case Ended(status) => TaskRuns.Finish(id, status)
  }

  function RetryLimit(cfg: Config): nat {
    if cfg.retryLimit < 0 then 0 else cfg.retryLimit
  }

  /** What a verdict must satisfy to be a permitted step of the store. */
  predicate Permitted(v: Verdict, attempt: nat, limit: nat) {
    match v
    case Preempted(q) => q == NormalQueue
    case Requeued(_, _) => true
    case Retried => attempt - 1 < limit
    case Ended(status) => status in {Succeeded, Failed, Cancelled}
  }

  lemma DecisionIsPermitted(t: Task, h: Handle, code: int, oom: bool, cfg: Config)
    requires HandleOk(t, h)
    ensures Permitted(Decide(h, code, oom, cfg.retryLimit), t.attemptCount, RetryLimit(cfg))
  {}

  lemma PermittedIsScheduled(db: Db, id: TaskId, v: Verdict, retryAt: int, limit: nat)
    requires TaskRuns.IsRunning(db, id) && Permitted(v, db.tasks[id].attemptCount, limit)
    ensures TaskRuns.Scheduled(db, VerdictStep(id, v, retryAt), limit)
    ensures EndTask(db, id, v, retryAt) == Ok(TaskRuns.Apply(db, VerdictStep(id, v, retryAt)))
  {
    match v
    case Preempted(_) =>
    case Requeued(_, _) =>
    case Retried =>
    case Ended(_) =>
  }

  lemma CompletionKeepsSafe(s: Sys, cfg: Config, id: TaskId, code: int, oom: bool, now: int)
    requires Safe(s) && id in s.running
    ensures Safe(Complete(s, cfg, id, code, oom, now))
  {
    var v := Decide(s.running[id], code, oom, cfg.retryLimit);
    DecisionIsPermitted(s.db.tasks[id], s.running[id], code, oom, cfg);
    PermittedIsScheduled(s.db, id, v, RetryTime(cfg, now), RetryLimit(cfg));
    EndingKeepsSafe(s, Settle(s, cfg, id, v, now), id, v, RetryTime(cfg, now), RetryLimit(cfg));
  }

  lemma EndingKeepsSafe(s: Sys, s': Sys, id: TaskId, v: Verdict, retryAt: int, limit: nat)
    requires Safe(s) && id in s.running && Permitted(v, s.db.tasks[id].attemptCount, limit)
    requires EndTask(s.db, id, v, retryAt) == Ok(s'.db) && s'.running == s.running - {id}
    ensures Safe(s')
  {
    var step := VerdictStep(id, v, retryAt);
    PermittedIsScheduled(s.db, id, v, retryAt, limit);
    assert TaskRuns.Valid(s'.db) by { TaskRuns.StepKeepsValid(s.db, step, limit); }
    EndedRow(s.db, id, v, retryAt);
    HandleRemoved(s.db.tasks, s.running, id, s'.db.tasks[id]);
    NeedKept(s.db.tasks, id, s'.db.tasks[id]);
  }

  lemma EndedRow(db: Db, id: TaskId, v: Verdict, retryAt: int)
    requires TaskRuns.IsRunning(db, id) && (v.Ended? ==> v.status != Running)
    ensures var o := EndTask(db, id, v, retryAt);
            && o.Ok? && id in o.db.tasks
            && o.db.tasks == db.tasks[id := o.db.tasks[id]]
            && o.db.tasks[id].status != Running && o.db.tasks[id].need == db.tasks[id].need
  {}

  lemma StopKeepsSafe(s: Sys, id: TaskId, reason: StopReason, target: Option<Queue>)
    requires Safe(s) && id in s.running && (reason == Preemption ==> target == Some(NormalQueue))
    ensures Safe(RequestStop(s, id, reason, target))
  {
    var s' := RequestStop(s, id, reason, target);
    assert HandleOk(s.db.tasks[id], s.running[id]) && HandleOk(s.db.tasks[id], s'.running[id]);
    assert forall x | x in s.running :: s'.running[x].gpu == s.running[x].gpu;
  }

  /** User calls leave running rows alone and start none. */
  ghost predicate RunningRowsKept(tasks: Tasks, tasks': Tasks) {
    && (forall id | id in tasks && tasks[id].status == Running :: id in tasks' && tasks'[id] == tasks[id])
    && (forall id | id in tasks' && tasks'[id].status == Running :: id in tasks && tasks[id].status == Running)
  }

  lemma KeptRowsKeepHandles(tasks: Tasks, tasks': Tasks, running: map<TaskId, Handle>)
    requires HandlesOk(tasks, running) && OneWholeTaskPerGpu(tasks, running) && RunningRowsKept(tasks, tasks')
    ensures HandlesOk(tasks', running) && OneWholeTaskPerGpu(tasks', running)
  {
    assert forall id | id in running :: id in tasks && id in tasks' && tasks'[id] == tasks[id];
  }

  lemma UserCallKeepsRows(db: Db, c: TaskRuns.Step)
    requires UserCall(db, c) && BudgetsPositive(db.tasks) && db.nextId !in db.tasks
    ensures var tasks' := TaskRuns.Apply(db, c).tasks; RunningRowsKept(db.tasks, tasks') && BudgetsPositive(tasks')
  {
    match c
    case Create(q, need, now, ds) => CreateKeepsRows(db, q, need, now, ds);
    case Update(id, q, need, ds) => UpdateKeepsRows(db, id, q, need, ds);
    case Move(id, q) => MoveKeepsRows(db, id, q);
    case Reorder(ids, q) => ReorderKeepsRows(db, ids, q);
    case Delete(id) =>
    case Clone(id, now) =>
      if id in db.tasks { CreateKeepsRows(db, db.tasks[id].queue, db.tasks[id].need, now, None); }
    case _ =>
  }

  lemma CreateKeepsRows(db: Db, q: Queue, need: Need, now: int, ds: Option<seq<TaskId>>)
    requires BudgetsPositive(db.tasks) && db.nextId !in db.tasks
    requires need.budgetMb.Some? ==> need.budgetMb.value > 0
    ensures var o := CreateTask(db, q, need, now, ds);
            o.Ok? ==> RunningRowsKept(db.tasks, o.db.tasks) && BudgetsPositive(o.db.tasks)
  {}

  lemma UpdateKeepsRows(db: Db, id: TaskId, q: Queue, need: Need, ds: Option<seq<TaskId>>)
    requires BudgetsPositive(db.tasks) && (need.budgetMb.Some? ==> need.budgetMb.value > 0)
    ensures var o := UpdateQueuedTask(db, id, q, need, ds);
            o.Ok? ==> RunningRowsKept(db.tasks, o.db.tasks) && BudgetsPositive(o.db.tasks)
  {}

  lemma MoveKeepsRows(db: Db, id: TaskId, q: Queue)
    requires BudgetsPositive(db.tasks)
    ensures var o := MoveTaskToQueue(db, id, q);
            o.Ok? ==> RunningRowsKept(db.tasks, o.db.tasks) && BudgetsPositive(o.db.tasks)
  {}

  lemma ReorderKeepsRows(db: Db, ids: seq<TaskId>, q: Queue)
    requires BudgetsPositive(db.tasks)
    ensures var o := ReorderQueue(db, ids, q);
            o.Ok? ==> RunningRowsKept(db.tasks, o.db.tasks) && BudgetsPositive(o.db.tasks)
  {}

  lemma UserCallIsScheduled(db: Db, c: TaskRuns.Step, retryLimit: nat)
    requires UserCall(db, c)
    ensures TaskRuns.Scheduled(db, c, retryLimit)
  {}

  lemma RebootRows(db: Db)
    requires BudgetsPositive(db.tasks)
    ensures var tasks' := RequeueRunningTasks(db).tasks; BudgetsPositive(tasks') && HandlesOk(tasks', map[])
  {
    var tasks' := RequeueRunningTasks(db).tasks;
    assert forall id | id in tasks' :: tasks'[id].status != Running && tasks'[id].need == db.tasks[id].need;
  }

  lemma RebootKeepsSafe(s: Sys, checks: nat)
    requires Safe(s)
    ensures Safe(Reboot(s, checks))
  {
    TaskRuns.RestartKeepsValid(s.db);
    RebootRows(s.db);
  }

  /** Every step keeps the scheduler safe: at most one task without a budget per GPU, handles that
      agree with the store, and a valid store. */
  lemma StepKeepsSafe(s: Sys, cfg: Config, step: SysStep)
    requires Safe(s) && Enabled(s, cfg, step)
    ensures Safe(Next(s, cfg, step))
  {
    match step
    case TickStep(i) => TickKeepsSafe(s, cfg, i);
    case WatcherStep(id, code, oom, now) => CompletionKeepsSafe(s, cfg, id, code, oom, now);
    case StopStep(id, reason, target) => StopKeepsSafe(s, id, reason, target);
    case UserStep(c) => UserStepKeepsSafe(s, c);
    case ConfigureStep(_) =>
    case RebootStep(checks) => RebootKeepsSafe(s, checks);
  }

  lemma UserStepKeepsSafe(s: Sys, c: TaskRuns.Step)
    requires Safe(s) && UserCall(s.db, c)
    ensures Safe(s.(db := TaskRuns.Apply(s.db, c)))
  {
    UserCallIsScheduled(s.db, c, 0);
    var db' := TaskRuns.Apply(s.db, c);
    assert TaskRuns.Valid(db') by { TaskRuns.StepKeepsValid(s.db, c, 0); }
    UserCallKeepsRows(s.db, c);
    KeptRowsKeepHandles(s.db.tasks, db'.tasks, s.running);
  }

  // ---------- Whole runs ----------

  const COLD_START := Sys(EMPTY, map[], map[], map[], Ready(map[], {}, 1), map[])

  ghost predicate RunOf(states: seq<Sys>, cfg: Config, steps: seq<SysStep>) {
    && |states| == |steps| + 1
    && states[0] == COLD_START
    && forall k | 0 <= k < |steps| ::
         Enabled(states[k], cfg, steps[k]) && states[k + 1] == Next(states[k], cfg, steps[k])
  }

  lemma ColdStartIsSafe()
    ensures Safe(COLD_START)
  {
    TaskRuns.EmptyIsValid();
  }

  lemma {:induction false} EveryStateIsSafe(states: seq<Sys>, cfg: Config, steps: seq<SysStep>, k: nat)
    requires RunOf(states, cfg, steps) && k <= |steps|
    ensures Safe(states[k])
  {
    if k == 0 {
      ColdStartIsSafe();
    } else {
      var p := k - 1;
      EveryStateIsSafe(states, cfg, steps, p);
      StepKeepsSafe(states[p], cfg, steps[p]);
      assert states[p + 1] == Next(states[p], cfg, steps[p]);
    }
  }
}
