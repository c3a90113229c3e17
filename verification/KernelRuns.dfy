/** The results about scheduler runs, for runs in which policy changes, leases, ticks, watchers and user
    calls interleave. */
module KernelRuns {
  import opened DependencyGraph
  import opened Kernel
  import opened Matching
  import opened Options
  import opened Readiness
  import opened SchedulerModel
  import PausedWaits
  import SchedulerChoice
  import SchedulerGaps
  import SchedulerOutcomes
  import SchedulerPauses
  import SchedulerProgress
  import SchedulerReadiness
  import SchedulerReservations
  import SchedulerRuns
  import SchedulerWaits
  import TaskLifecycle
  import TaskRuns

  /** Succeeded, failed and cancelled are absorbing. */
  lemma EndedStaysEnded(states: seq<State>, cfg: Config, steps: seq<Kernel.Step>, j: nat, k: nat, id: TaskId)
    requires Kernel.RunOf(states, cfg, steps) && j <= k <= |steps|
    requires id in states[j].sys.db.tasks && TaskLifecycle.Ended(states[j].sys.db.tasks[id])
    ensures id in states[k].sys.db.tasks ==> states[k].sys.db.tasks[id] == states[j].sys.db.tasks[id]
    ensures id < states[k].sys.db.nextId
  {
    KernelRunsProject(states, cfg, steps);
    SchedulerPauses.EndedStaysEnded(SysOf(states), cfg, SysParts(states, cfg, steps), j, k, id);
  }

  lemma DeletedStaysDeleted(states: seq<State>, cfg: Config, steps: seq<Kernel.Step>, j: nat, k: nat, id: TaskId)
    requires Kernel.RunOf(states, cfg, steps) && j <= k <= |steps|
    requires id !in states[j].sys.db.tasks && id < states[j].sys.db.nextId
    ensures id !in states[k].sys.db.tasks
  {
    KernelRunsProject(states, cfg, steps);
    SchedulerPauses.DeletedStaysDeleted(SysOf(states), cfg, SysParts(states, cfg, steps), j, k, id);
  }

  /** Leases, policy changes and settings end no task: only its own watcher or a restart does. */
  lemma OnlyItsWatcherEndsATask(states: seq<State>, cfg: Config, steps: seq<Kernel.Step>, k: nat, id: TaskId)
    requires Kernel.RunOf(states, cfg, steps) && k < |steps|
    requires TaskRuns.IsRunning(states[k].sys.db, id) && !TaskRuns.IsRunning(states[k + 1].sys.db, id)
    ensures || (steps[k].Other? && steps[k].step.WatcherStep? && steps[k].step.id == id)
            || steps[k].Reboot?
  {
    KernelRunsProject(states, cfg, steps);
    SchedulerPauses.OnlyItsWatcherEndsATask(SysOf(states), cfg, SysParts(states, cfg, steps), k, id);
    WhichStep(states[k], cfg, steps[k]);
  }

  lemma WhichStep(st: State, cfg: Config, s: Kernel.Step)
    requires Enabled(st, cfg, s)
    ensures |SysStepOf(st, cfg, s)| == 1 && SysStepOf(st, cfg, s)[0].WatcherStep? ==>
              s.Other? && s.step == SysStepOf(st, cfg, s)[0]
    ensures |SysStepOf(st, cfg, s)| == 1 && SysStepOf(st, cfg, s)[0].RebootStep? ==> s.Reboot?
  {}

  /** A task is retried automatically at most the configured number of times. */
  lemma AutoRetriesAreBounded(states: seq<State>, cfg: Config, steps: seq<Kernel.Step>, id: TaskId)
    requires Kernel.RunOf(states, cfg, steps)
    ensures AutoRetryCount(states, cfg, steps, |steps|, id) <= SchedulerRuns.RetryLimit(cfg)
  {
    KernelRunsProject(states, cfg, steps);
    SameCount(states, cfg, steps, |steps|, id);
    SchedulerPauses.AutoRetriesAreBounded(SysOf(states), cfg, SysParts(states, cfg, steps), id);
  }

  predicate AutoRetries(st: State, cfg: Config, s: Kernel.Step, id: TaskId) {
    && s.Other? && s.step.WatcherStep? && s.step.id == id && id in st.sys.running
    && Decide(st.sys.running[id], s.step.code, s.step.oomInLog, cfg.retryLimit).Retried?
  }

  function AutoRetryCount(states: seq<State>, cfg: Config, steps: seq<Kernel.Step>, k: nat, id: TaskId): nat
    requires k <= |steps| < |states|
  {
    if k == 0 then 0
    else AutoRetryCount(states, cfg, steps, k - 1, id) + if AutoRetries(states[k - 1], cfg, steps[k - 1], id) then 1 else 0
  }

  lemma {:induction false} SameCount(states: seq<State>, cfg: Config, steps: seq<Kernel.Step>, k: nat, id: TaskId)
    requires |states| == |steps| + 1 && k <= |steps|
    ensures AutoRetryCount(states, cfg, steps, k, id) ==
            SchedulerPauses.AutoRetryCount(SysOf(states), cfg, SysParts(states, cfg, steps), k, id)
  {
    if k > 0 { SameCount(states, cfg, steps, k - 1, id); }
  }

  /** No running task holds a reservation. */
  lemma ReservationsAreReleased(states: seq<State>, cfg: Config, steps: seq<Kernel.Step>, k: nat)
    requires Kernel.RunOf(states, cfg, steps) && k <= |steps|
    ensures SchedulerReservations.NoneRunning(states[k].sys)
  {
    KernelRunsProject(states, cfg, steps);
    SchedulerPauses.ReservationsAreReleased(SysOf(states), cfg, SysParts(states, cfg, steps), k);
  }

  /** What the readiness counts have seen up to and including the refresh of the tick at k. */
  ghost function TickHistory(states: seq<State>, cfg: Config, steps: seq<Kernel.Step>, k: nat, i: TickInput): seq<Event>
    requires Kernel.RunOf(states, cfg, steps) && k < |steps|
    requires SysStepOf(states[k], cfg, steps[k]) == [SchedulerRuns.TickStep(i)]
  {
    KernelRunsProject(states, cfg, steps);
    SchedulerPauses.TickHistory(SysOf(states), cfg, SysParts(states, cfg, steps), k, i)
  }

  /** Two launches on one GPU in different ticks are kept apart, whatever policy changes and leases come
      in between. */
  lemma LaunchesAreKeptApart(states: seq<State>, cfg: Config, steps: seq<Kernel.Step>, j: nat, x: nat, k: nat,
                             first: TickInput, second: TickInput, b: Assignment)
      returns (p: nat, c: Condition, i: nat)
    requires Kernel.RunOf(states, cfg, steps) && j < k < |steps|
    requires SysStepOf(states[j], cfg, steps[j]) == [SchedulerRuns.TickStep(first)]
    requires SysStepOf(states[k], cfg, steps[k]) == [SchedulerRuns.TickStep(second)]
    requires SchedulerReadiness.LaunchedAt(states[j].sys, cfg, first, x, b.gpu.index)
    requires SchedulerReadiness.PlannedOnCount(states[k].sys, cfg, second, b)
    ensures SchedulerPauses.KeptApart(TickHistory(states, cfg, steps, k, second), p, i, b.gpu.index, c,
                                      states[k].sys.ready.required)
    ensures ConditionFor(SchedulerReadiness.ViewAt(states[k].sys, cfg, second), b.job, b.gpu) == Some(c)
  {
    KernelRunsProject(states, cfg, steps);
    p, c, i := SchedulerPauses.LaunchesAreKeptApart(SysOf(states), cfg, SysParts(states, cfg, steps), j, x, k,
                                                    first, second, b);
  }

  /** If work remains at an unpaused tick and the GPUs it needs have been good for long enough, the tick
      plans a task. */
  lemma RunsMakeProgress(states: seq<State>, cfg: Config, steps: seq<Kernel.Step>, k: nat, i: TickInput)
    requires Kernel.RunOf(states, cfg, steps) && k < |steps| && !i.paused
    requires SysStepOf(states[k], cfg, steps[k]) == [SchedulerRuns.TickStep(i)]
    requires SchedulerProgress.WorkRemains(states[k].sys.db, i.now)
    requires SchedulerProgress.GpusGoodForLong(states[k].sys, cfg, i, TickHistory(states, cfg, steps, k, i))
    ensures Assignments(states[k].sys, cfg, i) != []
  {
    KernelRunsProject(states, cfg, steps);
    SchedulerPauses.RunsMakeProgress(SysOf(states), cfg, SysParts(states, cfg, steps), k, i);
  }

  /** Whenever a planned task is handled: queued, all its dependencies succeeded, its retry time past, and
      without a budget alone on its GPU. */
  lemma EveryLaunchIsRight(states: seq<State>, cfg: Config, steps: seq<Kernel.Step>, k: nat, t: Input, x: nat)
    requires Kernel.RunOf(states, cfg, steps) && k < |steps| && steps[k] == TickNow(t)
    requires x < |Assignments(states[k].sys, cfg, InputFor(states[k], cfg, t))|
    ensures var s, i := states[k].sys, InputFor(states[k], cfg, t);
            SchedulerChoice.RightAt(SchedulerChoice.AtPosition(s, cfg, i, x), Assignments(s, cfg, i)[x], t.now)
  {
    EveryKernelStateIsSafe(states, cfg, steps, k);
    SchedulerChoice.LaunchIsRight(states[k].sys, cfg, InputFor(states[k], cfg, t), x);
  }

  // ---------- Waiting times and launch gaps ----------

  /** A task to be retried is not planned before its time, whatever else comes in between. */
  lemma RetriesAreNotPlannedEarly(states: seq<State>, cfg: Config, steps: seq<Kernel.Step>, j: nat, k: nat,
                                  w: SchedulerRuns.SysStep, i: TickInput)
    requires Kernel.RunOf(states, cfg, steps) && j < k < |steps| && cfg.retryDelay > 0
    requires SysStepOf(states[j], cfg, steps[j]) == [w] && SchedulerWaits.SchedulesRetry(states[j].sys, cfg, w)
    requires SysStepOf(states[k], cfg, steps[k]) == [SchedulerRuns.TickStep(i)] && i.now < w.now + cfg.retryDelay
    requires PausedWaits.LeftAloneUntil(SysParts(states, cfg, steps), j, k, w.id, w.now + cfg.retryDelay)
    ensures !SchedulerRuns.Listed(Assignments(states[k].sys, cfg, i), w.id)
  {
    KernelRunsProject(states, cfg, steps);
    PausedWaits.RetriesAreNotPlannedEarly(SysOf(states), cfg, SysParts(states, cfg, steps), j, k, w, i);
  }

  /** A GPU on which a task was killed from outside gets no task before its cooldown has passed. */
  lemma KilledGpusCoolDown(states: seq<State>, cfg: Config, steps: seq<Kernel.Step>, j: nat, k: nat,
                           w: SchedulerRuns.SysStep, i: TickInput)
    requires Kernel.RunOf(states, cfg, steps) && j < k < |steps| && cfg.cooldown > 0
    requires SysStepOf(states[j], cfg, steps[j]) == [w] && w.WatcherStep? && w.id in states[j].sys.running
    requires SchedulerOutcomes.Killed(states[j].sys.running[w.id], w.code)
    requires SysStepOf(states[k], cfg, steps[k]) == [SchedulerRuns.TickStep(i)] && i.now < w.now + cfg.cooldown
    requires PausedWaits.WithinCooldown(SysParts(states, cfg, steps), j, k, w.now, w.now + cfg.cooldown)
    ensures forall a | a in Assignments(states[k].sys, cfg, i) :: a.gpu.index != states[j].sys.running[w.id].gpu
  {
    KernelRunsProject(states, cfg, steps);
    PausedWaits.KilledGpusCoolDown(SysOf(states), cfg, SysParts(states, cfg, steps), j, k, w, i);
  }

  /** Between two launches on one GPU the readings of every tick from some point on were good for the second
      task, whatever policy changes and leases come in between. */
  lemma LaunchesNeedGoodReadings(states: seq<State>, cfg: Config, steps: seq<Kernel.Step>, j: nat, x: nat, k: nat,
                                 first: TickInput, second: TickInput, b: Assignment) returns (m: nat)
    requires Kernel.RunOf(states, cfg, steps) && j < k < |steps|
    requires SysStepOf(states[j], cfg, steps[j]) == [SchedulerRuns.TickStep(first)]
    requires SysStepOf(states[k], cfg, steps[k]) == [SchedulerRuns.TickStep(second)]
    requires SchedulerReadiness.LaunchedAt(states[j].sys, cfg, first, x, b.gpu.index)
    requires SchedulerReadiness.PlannedOnCount(states[k].sys, cfg, second, b)
    ensures j < m <= k
    ensures PausedWaits.GoodThroughout(SysOf(states), cfg, SysParts(states, cfg, steps), m, k, b.gpu.index,
                                       SchedulerGaps.NeededCondition(b))
    ensures || PausedWaits.Ticks(SysParts(states, cfg, steps), m, k + 1) >= states[k].sys.ready.required
            || PausedWaits.EndedBetween(SysOf(states), SysParts(states, cfg, steps), j, m, b.gpu.index)
  {
    KernelRunsProject(states, cfg, steps);
    m := PausedWaits.LaunchesNeedGoodReadings(SysOf(states), cfg, SysParts(states, cfg, steps), j, x, k, first, second, b);
  }
}
