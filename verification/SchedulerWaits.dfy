/** Waiting times over whole runs: a retried task is not launched before its delay has passed, and a GPU
    on which a task was killed from outside is not used before its cooldown has passed. */
module SchedulerWaits {
  import opened DependencyGraph
  import opened Matching
  import opened Options
  import opened SchedulerModel
  import opened SchedulerOutcomes
  import opened SchedulerReadings
  import opened SchedulerRuns
  import opened TaskModel
  import SchedulerProgress
  import SchedulerTicks
  import TaskColumns
  import TaskRuns

  // ---------- Retries ----------

  predicate WaitsFor(db: Db, id: TaskId, due: int) {
    id in db.tasks && db.tasks[id].status == Queued && db.tasks[id].nextRetryAt == Some(due)
  }

  /** A user edits, moves or deletes the task. */
  predicate Handles(step: SysStep, id: TaskId) {
    step.UserStep? && (step.call.Update? || step.call.Move? || step.call.Delete?) && step.call.id == id
  }

  lemma NotPlannedYet(s: Sys, cfg: Config, i: TickInput, id: TaskId, due: int)
    requires Safe(s) && HonestReadings(s, cfg, i) && WaitsFor(s.db, id, due) && i.now < due
    ensures !Listed(Assignments(s, cfg, i), id)
  {
    PlanIsGood(s, cfg, i);
  }

  lemma TickWaits(s: Sys, cfg: Config, i: TickInput, id: TaskId, due: int)
    requires Safe(s) && HonestReadings(s, cfg, i) && WaitsFor(s.db, id, due) && i.now < due
    ensures WaitsFor(Tick(s, cfg, i).db, id, due)
  {
    NotPlannedYet(s, cfg, i, id, due);
    SchedulerTicks.TickDoes(s, cfg, i);
    assert SchedulerTicks.Untouched(Prepared(s, cfg, i), Tick(s, cfg, i), id);
  }

  lemma CallWaits(db: Db, c: TaskRuns.Step, id: TaskId, due: int)
    requires TaskRuns.Valid(db) && WaitsFor(db, id, due) && (UserCall(db, c) || c.Restart?)
    requires !((c.Update? || c.Move? || c.Delete?) && c.id == id)
    ensures WaitsFor(TaskRuns.Apply(db, c), id, due)
  {
    CallKeepsRow(db, c, id);
    if !c.Restart? { UserCallIsScheduled(db, c, 0); }
    TaskColumns.ColumnsAre(db, c, 0, id);
  }

  lemma CallKeepsRow(db: Db, c: TaskRuns.Step, id: TaskId)
    requires id in db.tasks && (UserCall(db, c) || c.Restart?) && !(c.Delete? && c.id == id)
    ensures id in TaskRuns.Apply(db, c).tasks
  {}

  lemma StepWaits(s: Sys, cfg: Config, step: SysStep, id: TaskId, due: int)
    requires Safe(s) && Enabled(s, cfg, step) && WaitsFor(s.db, id, due)
    requires !Handles(step, id) && (step.TickStep? ==> step.input.now < due)
    ensures WaitsFor(Next(s, cfg, step).db, id, due)
  {
    match step
    case TickStep(i) => TickWaits(s, cfg, i, id, due);
    case WatcherStep(x, code, oom, now) => CompletionLeavesTheRest(s, cfg, x, code, oom, now);
    case UserStep(c) => CallWaits(s.db, c, id, due);
    case RebootStep(_) => CallWaits(s.db, TaskRuns.Restart, id, due);
    case _ =>
  }

  /** After step j the ticks before k come before `due`, and no user handles the task. */
  ghost predicate LeftAloneUntil(steps: seq<SysStep>, j: nat, k: nat, id: TaskId, due: int) {
    k <= |steps| && forall m | j < m < k :: !Handles(steps[m], id) && (steps[m].TickStep? ==> steps[m].input.now < due)
  }

  lemma {:induction false} StillWaits(states: seq<Sys>, cfg: Config, steps: seq<SysStep>, j: nat, k: nat, id: TaskId, due: int)
    requires RunOf(states, cfg, steps) && j < k <= |steps| && LeftAloneUntil(steps, j, k, id, due)
    requires WaitsFor(states[j + 1].db, id, due)
    ensures WaitsFor(states[k].db, id, due)
  {
    if k > j + 1 {
      StillWaits(states, cfg, steps, j, k - 1, id, due);
      EveryStateIsSafe(states, cfg, steps, k - 1);
      StepWaits(states[k - 1], cfg, steps[k - 1], id, due);
    }
  }

  /** A watcher that schedules a retry. */
  predicate SchedulesRetry(s: Sys, cfg: Config, step: SysStep) {
    && step.WatcherStep? && step.id in s.running
    && RetriesLater(s.running[step.id], step.code, step.oomInLog, cfg)
  }

  lemma RetryIsDue(s: Sys, cfg: Config, step: SysStep)
    requires Safe(s) && SchedulesRetry(s, cfg, step) && cfg.retryDelay > 0
    ensures WaitsFor(Next(s, cfg, step).db, step.id, step.now + cfg.retryDelay)
  {
    CompletionMeans(s, cfg, step.id, step.code, step.oomInLog, step.now);
  }

  /** In every run: a task that failed for want of memory with retries left is queued again with a due time
      the configured delay later; it keeps waiting as long as ticks come before that time and no user handles
      it. */
  lemma RetriesWait(states: seq<Sys>, cfg: Config, steps: seq<SysStep>, j: nat, k: nat)
    requires RunOf(states, cfg, steps) && j < k <= |steps| && SchedulesRetry(states[j], cfg, steps[j]) && cfg.retryDelay > 0
    requires LeftAloneUntil(steps, j, k, steps[j].id, steps[j].now + cfg.retryDelay)
    ensures WaitsFor(states[k].db, steps[j].id, steps[j].now + cfg.retryDelay)
  {
    EveryStateIsSafe(states, cfg, steps, j);
    RetryIsDue(states[j], cfg, steps[j]);
    StillWaits(states, cfg, steps, j, k, steps[j].id, steps[j].now + cfg.retryDelay);
  }

  /** And no tick before that time plans it. */
  lemma RetriesAreNotPlannedEarly(states: seq<Sys>, cfg: Config, steps: seq<SysStep>, j: nat, k: nat)
    requires RunOf(states, cfg, steps) && j < k < |steps| && SchedulesRetry(states[j], cfg, steps[j]) && cfg.retryDelay > 0
    requires LeftAloneUntil(steps, j, k, steps[j].id, steps[j].now + cfg.retryDelay)
    requires steps[k].TickStep? && steps[k].input.now < steps[j].now + cfg.retryDelay
    ensures !Listed(Assignments(states[k], cfg, steps[k].input), steps[j].id)
  {
    RetriesWait(states, cfg, steps, j, k);
    EveryStateIsSafe(states, cfg, steps, k);
    NotPlannedYet(states[k], cfg, steps[k].input, steps[j].id, steps[j].now + cfg.retryDelay);
  }

  // ---------- Cooldowns ----------

  predicate CoolsSince(s: Sys, gpu: nat, start: int) {
    gpu in s.cooldowns && s.cooldowns[gpu] >= start
  }

  lemma NotUsedYet(s: Sys, cfg: Config, i: TickInput, gpu: nat, start: int)
    requires CoolsSince(s, gpu, start) && cfg.cooldown > 0 && i.now < start + cfg.cooldown
    ensures forall a | a in Assignments(s, cfg, i) :: a.gpu.index != gpu
  {
    QueuedJobsAre(s.db, i.now);
    var cooling := Cooling(s.cooldowns, cfg, i.now);
    AssignmentsAreListed(ViewOf(Prepared(s, cfg, i), cooling), QueuedJobs(s.db, i.now), SchedulerProgress.TickGpus(s, cfg, i));
    CoolingMeans(s, cfg, i.now, gpu);
  }

  lemma TickCools(s: Sys, cfg: Config, i: TickInput, gpu: nat, start: int)
    requires Safe(s) && HonestReadings(s, cfg, i)
    requires CoolsSince(s, gpu, start) && cfg.cooldown > 0 && i.now < start + cfg.cooldown
    ensures CoolsSince(Tick(s, cfg, i), gpu, start)
  {
    SchedulerTicks.PreparedMeans(s, cfg, i);
    assert CoolsDown(s, cfg, i.now, gpu);
    SchedulerTicks.TickDoes(s, cfg, i);
  }

  lemma StepCools(s: Sys, cfg: Config, step: SysStep, gpu: nat, start: int)
    requires Safe(s) && Enabled(s, cfg, step) && CoolsSince(s, gpu, start) && cfg.cooldown > 0
    requires !step.RebootStep? && (step.TickStep? ==> step.input.now < start + cfg.cooldown)
    requires step.WatcherStep? ==> step.now >= start
    ensures CoolsSince(Next(s, cfg, step), gpu, start)
  {
    match step
    case TickStep(i) => TickCools(s, cfg, i, gpu, start);
    case WatcherStep(x, code, oom, now) => CompletionLeavesTheRest(s, cfg, x, code, oom, now);
    case _ =>
  }

  /** After step j and before k: no restart, ticks before `end`, and no watcher's clock before `start`. */
  ghost predicate WithinCooldown(steps: seq<SysStep>, j: nat, k: nat, start: int, end: int) {
    k <= |steps| && forall m | j < m < k ::
      && !steps[m].RebootStep? && (steps[m].TickStep? ==> steps[m].input.now < end)
      && (steps[m].WatcherStep? ==> steps[m].now >= start)
  }

  lemma {:induction false} StillCools(states: seq<Sys>, cfg: Config, steps: seq<SysStep>, j: nat, k: nat, gpu: nat, start: int)
    requires RunOf(states, cfg, steps) && j < k <= |steps| && cfg.cooldown > 0
    requires WithinCooldown(steps, j, k, start, start + cfg.cooldown) && CoolsSince(states[j + 1], gpu, start)
    ensures CoolsSince(states[k], gpu, start)
  {
    if k > j + 1 {
      StillCools(states, cfg, steps, j, k - 1, gpu, start);
      EveryStateIsSafe(states, cfg, steps, k - 1);
      StepCools(states[k - 1], cfg, steps[k - 1], gpu, start);
    }
  }

  /** In every run: after a task was killed from outside, no tick within the cooldown plans any task on its
      GPU, as long as the service is not restarted and the clock does not go back. */
  lemma KilledGpusCoolDown(states: seq<Sys>, cfg: Config, steps: seq<SysStep>, j: nat, k: nat)
    requires RunOf(states, cfg, steps) && j < k < |steps| && steps[j].WatcherStep? && steps[k].TickStep?
    requires steps[j].id in states[j].running && Killed(states[j].running[steps[j].id], steps[j].code)
    requires WithinCooldown(steps, j, k, steps[j].now, steps[j].now + cfg.cooldown)
    requires steps[k].input.now < steps[j].now + cfg.cooldown && cfg.cooldown > 0
    ensures forall a | a in Assignments(states[k], cfg, steps[k].input) ::
        a.gpu.index != states[j].running[steps[j].id].gpu
  {
    var gpu := states[j].running[steps[j].id].gpu;
    EveryStateIsSafe(states, cfg, steps, j);
    CompletionLeavesTheRest(states[j], cfg, steps[j].id, steps[j].code, steps[j].oomInLog, steps[j].now);
    StillCools(states, cfg, steps, j, k, gpu, steps[j].now);
    NotUsedYet(states[k], cfg, steps[k].input, gpu, steps[j].now);
  }
}
