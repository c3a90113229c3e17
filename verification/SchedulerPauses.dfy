/** Runs of the scheduler with pauses: at each point one scheduler step or none. Every result about
    scheduler runs holds of them, between the same points. */
module SchedulerPauses {
  import opened DependencyGraph
  import opened Matching
  import opened Options
  import opened Readiness
  import opened SchedulerModel
  import opened SchedulerRuns
  import SchedulerLifecycle
  import SchedulerProgress
  import SchedulerReadiness
  import SchedulerReservations
  import TaskLifecycle
  import TaskRuns

  type Parts = seq<seq<SysStep>>

  ghost predicate StepOrPause(s: Sys, s': Sys, cfg: Config, part: seq<SysStep>) {
    || (part == [] && s' == s)
    || (|part| == 1 && Enabled(s, cfg, part[0]) && s' == SchedulerRuns.Next(s, cfg, part[0]))
  }

  ghost predicate PausedRun(all: seq<Sys>, cfg: Config, parts: Parts) {
    && |all| == |parts| + 1
    && all[0] == COLD_START
    && forall k | 0 <= k < |parts| :: StepOrPause(all[k], all[k + 1], cfg, parts[k])
  }

  // ---------- Leaving the pauses out ----------

  function Steps(parts: Parts, k: nat): seq<SysStep>
    requires k <= |parts|
  {
    if k == 0 then [] else Steps(parts, k - 1) + parts[k - 1]
  }

  function States(all: seq<Sys>, parts: Parts, k: nat): seq<Sys>
    requires k <= |parts| < |all|
  {
    if k == 0 then [all[0]] else States(all, parts, k - 1) + if parts[k - 1] == [] then [] else [all[k]]
  }

  lemma RunThen(states: seq<Sys>, cfg: Config, steps: seq<SysStep>, s: Sys, step: SysStep)
    requires RunOf(states, cfg, steps) && Enabled(states[|steps|], cfg, step)
    requires s == SchedulerRuns.Next(states[|steps|], cfg, step)
    ensures RunOf(states + [s], cfg, steps + [step])
  {}

  /** At most one step at each point, and no change at a pause. */
  ghost predicate Shape(all: seq<Sys>, parts: Parts) {
    && |all| == |parts| + 1
    && forall k | 0 <= k < |parts| :: |parts[k]| <= 1 && (parts[k] == [] ==> all[k + 1] == all[k])
  }

  lemma PausedShape(all: seq<Sys>, cfg: Config, parts: Parts)
    requires PausedRun(all, cfg, parts)
    ensures Shape(all, parts)
  {
    forall k | 0 <= k < |parts| ensures |parts[k]| <= 1 && (parts[k] == [] ==> all[k + 1] == all[k]) {
      assert StepOrPause(all[k], all[k + 1], cfg, parts[k]);
    }
  }

  lemma {:induction false} Position(all: seq<Sys>, parts: Parts, k: nat)
    requires Shape(all, parts) && k <= |parts|
    ensures |States(all, parts, k)| == |Steps(parts, k)| + 1 && States(all, parts, k)[|Steps(parts, k)|] == all[k]
  {
    if k > 0 { Position(all, parts, k - 1); }
  }

  lemma OneMore(all: seq<Sys>, cfg: Config, parts: Parts, k: nat)
    requires PausedRun(all, cfg, parts) && k < |parts| && Shape(all, parts)
    requires RunOf(States(all, parts, k), cfg, Steps(parts, k))
    ensures RunOf(States(all, parts, k + 1), cfg, Steps(parts, k + 1))
  {
    Position(all, parts, k);
    assert StepOrPause(all[k], all[k + 1], cfg, parts[k]);
    if parts[k] == [] {
      assert States(all, parts, k + 1) == States(all, parts, k) && Steps(parts, k + 1) == Steps(parts, k);
    } else {
      assert parts[k] == [parts[k][0]];
      RunThen(States(all, parts, k), cfg, Steps(parts, k), all[k + 1], parts[k][0]);
    }
  }

  /** What is left is a run of the scheduler that ends in the same state. */
  lemma {:induction false} Project(all: seq<Sys>, cfg: Config, parts: Parts, k: nat)
    requires PausedRun(all, cfg, parts) && k <= |parts|
    ensures RunOf(States(all, parts, k), cfg, Steps(parts, k)) && States(all, parts, k)[|Steps(parts, k)|] == all[k]
  {
    PausedShape(all, cfg, parts);
    Position(all, parts, k);
    if k > 0 {
      Project(all, cfg, parts, k - 1);
      OneMore(all, cfg, parts, k - 1);
    }
  }

  /** The run up to j is where the run up to a later k begins. */
  lemma {:induction false} Grows(all: seq<Sys>, parts: Parts, j: nat, k: nat)
    requires j <= k <= |parts| < |all|
    ensures Steps(parts, j) <= Steps(parts, k) && States(all, parts, j) <= States(all, parts, k)
  {
    if j < k { Grows(all, parts, j, k - 1); }
  }

  /** So the state at j stands in every longer run, at the position that counts the steps before it,
      and so does the step that follows. */
  lemma Stands(all: seq<Sys>, parts: Parts, j: nat, k: nat)
    requires Shape(all, parts) && j <= k <= |parts|
    ensures var at := |Steps(parts, j)|;
            && at <= |Steps(parts, k)| < |States(all, parts, k)|
            && States(all, parts, k)[at] == all[j]
            && (j < k && parts[j] != [] ==> at < |Steps(parts, k)| && Steps(parts, k)[at] == parts[j][0])
  {
    Position(all, parts, j);
    Position(all, parts, k);
    Grows(all, parts, j, k);
    if j < k { Grows(all, parts, j + 1, k); }
  }

  // ---------- Safety and lifecycle ----------

  lemma EveryStateIsSafe(all: seq<Sys>, cfg: Config, parts: Parts, k: nat)
    requires PausedRun(all, cfg, parts) && k <= |parts|
    ensures Safe(all[k])
  {
    Project(all, cfg, parts, k);
    SchedulerRuns.EveryStateIsSafe(States(all, parts, k), cfg, Steps(parts, k), |Steps(parts, k)|);
  }

  lemma ReservationsAreReleased(all: seq<Sys>, cfg: Config, parts: Parts, k: nat)
    requires PausedRun(all, cfg, parts) && k <= |parts|
    ensures SchedulerReservations.NoneRunning(all[k])
  {
    Project(all, cfg, parts, k);
    SchedulerReservations.ReservationsAreReleased(States(all, parts, k), cfg, Steps(parts, k), |Steps(parts, k)|);
  }

  lemma EndedStaysEnded(all: seq<Sys>, cfg: Config, parts: Parts, j: nat, k: nat, id: TaskId)
    requires PausedRun(all, cfg, parts) && j <= k <= |parts|
    requires id in all[j].db.tasks && TaskLifecycle.Ended(all[j].db.tasks[id])
    ensures id in all[k].db.tasks ==> all[k].db.tasks[id] == all[j].db.tasks[id]
    ensures id < all[k].db.nextId
  {
    PausedShape(all, cfg, parts);
    Project(all, cfg, parts, k);
    Stands(all, parts, j, k);
    SchedulerLifecycle.EndedStaysEnded(States(all, parts, k), cfg, Steps(parts, k),
                                       |Steps(parts, j)|, |Steps(parts, k)|, id);
  }

  lemma DeletedStaysDeleted(all: seq<Sys>, cfg: Config, parts: Parts, j: nat, k: nat, id: TaskId)
    requires PausedRun(all, cfg, parts) && j <= k <= |parts|
    requires id !in all[j].db.tasks && id < all[j].db.nextId
    ensures id !in all[k].db.tasks
  {
    PausedShape(all, cfg, parts);
    Project(all, cfg, parts, k);
    Stands(all, parts, j, k);
    SchedulerLifecycle.DeletedStaysDeleted(States(all, parts, k), cfg, Steps(parts, k),
                                           |Steps(parts, j)|, |Steps(parts, k)|, id);
  }

  lemma OnlyItsWatcherEndsATask(all: seq<Sys>, cfg: Config, parts: Parts, k: nat, id: TaskId)
    requires PausedRun(all, cfg, parts) && k < |parts|
    requires TaskRuns.IsRunning(all[k].db, id) && !TaskRuns.IsRunning(all[k + 1].db, id)
    ensures |parts[k]| == 1
    ensures (parts[k][0].WatcherStep? && parts[k][0].id == id) || parts[k][0].RebootStep?
  {
    EveryStateIsSafe(all, cfg, parts, k);
    assert StepOrPause(all[k], all[k + 1], cfg, parts[k]);
    SchedulerLifecycle.OthersEndNothing(all[k], cfg, parts[k][0], id);
  }

  // ---------- Retries ----------

  function AutoRetryCount(all: seq<Sys>, cfg: Config, parts: Parts, k: nat, id: TaskId): nat
    requires k <= |parts| < |all|
  {
    if k == 0 then 0
    else AutoRetryCount(all, cfg, parts, k - 1, id) +
         if parts[k - 1] != [] && SchedulerLifecycle.AutoRetries(all[k - 1], cfg, parts[k - 1][0], id) then 1 else 0
  }

  lemma {:induction false} CountOnPrefix(a: seq<Sys>, b: seq<Sys>, cfg: Config, x: seq<SysStep>, y: seq<SysStep>,
                                         k: nat, id: TaskId)
    requires a <= b && x <= y && k <= |x| < |a| && |y| < |b|
    ensures SchedulerLifecycle.AutoRetryCount(a, cfg, x, k, id) == SchedulerLifecycle.AutoRetryCount(b, cfg, y, k, id)
  {
    if k > 0 { CountOnPrefix(a, b, cfg, x, y, k - 1, id); }
  }

  /** The counts of the run without pauses, up to k. */
  function CountWithout(all: seq<Sys>, cfg: Config, parts: Parts, k: nat, id: TaskId): nat
    requires k <= |parts| < |all| && |Steps(parts, k)| < |States(all, parts, k)|
  {
    SchedulerLifecycle.AutoRetryCount(States(all, parts, k), cfg, Steps(parts, k), |Steps(parts, k)|, id)
  }

  lemma CountAfterPause(all: seq<Sys>, cfg: Config, parts: Parts, k: nat, id: TaskId)
    requires Shape(all, parts) && k < |parts| && parts[k] == []
    requires |Steps(parts, k)| < |States(all, parts, k)|
    ensures |Steps(parts, k + 1)| < |States(all, parts, k + 1)|
    ensures CountWithout(all, cfg, parts, k + 1, id) == CountWithout(all, cfg, parts, k, id)
  {
    assert States(all, parts, k + 1) == States(all, parts, k) && Steps(parts, k + 1) == Steps(parts, k);
  }

  lemma CountAfterStep(all: seq<Sys>, cfg: Config, parts: Parts, k: nat, id: TaskId)
    requires Shape(all, parts) && k < |parts| && parts[k] != []
    requires |Steps(parts, k)| < |States(all, parts, k)|
    ensures |Steps(parts, k + 1)| < |States(all, parts, k + 1)|
    ensures CountWithout(all, cfg, parts, k + 1, id) == CountWithout(all, cfg, parts, k, id)
            + if SchedulerLifecycle.AutoRetries(all[k], cfg, parts[k][0], id) then 1 else 0
  {
    Position(all, parts, k + 1);
    Stands(all, parts, k, k + 1);
    Grows(all, parts, k, k + 1);
    CountOnPrefix(States(all, parts, k), States(all, parts, k + 1), cfg, Steps(parts, k), Steps(parts, k + 1),
                  |Steps(parts, k)|, id);
  }

  lemma {:induction false} SameRetries(all: seq<Sys>, cfg: Config, parts: Parts, k: nat, id: TaskId)
    requires Shape(all, parts) && k <= |parts|
    ensures |Steps(parts, k)| < |States(all, parts, k)|
    ensures AutoRetryCount(all, cfg, parts, k, id) == CountWithout(all, cfg, parts, k, id)
  {
    Position(all, parts, k);
    if k > 0 {
      SameRetries(all, cfg, parts, k - 1, id);
      if parts[k - 1] == [] {
        CountAfterPause(all, cfg, parts, k - 1, id);
      } else {
        CountAfterStep(all, cfg, parts, k - 1, id);
      }
    }
  }

  lemma AutoRetriesAreBounded(all: seq<Sys>, cfg: Config, parts: Parts, id: TaskId)
    requires PausedRun(all, cfg, parts)
    ensures AutoRetryCount(all, cfg, parts, |parts|, id) <= RetryLimit(cfg)
  {
    PausedShape(all, cfg, parts);
    Project(all, cfg, parts, |parts|);
    SameRetries(all, cfg, parts, |parts|, id);
    SchedulerLifecycle.AutoRetriesAreBounded(States(all, parts, |parts|), cfg, Steps(parts, |parts|), id);
  }

  // ---------- Launches and progress ----------

  /** What the readiness counts have seen up to and including the refresh of the tick at k. */
  ghost function TickHistory(all: seq<Sys>, cfg: Config, parts: Parts, k: nat, i: TickInput): seq<Event>
    requires PausedRun(all, cfg, parts) && k < |parts| && parts[k] == [TickStep(i)]
  {
    Project(all, cfg, parts, k);
    SchedulerReadiness.History(States(all, parts, k), cfg, Steps(parts, k), |Steps(parts, k)|)
    + [SchedulerReadiness.TickRefresh(all[k], cfg, i)]
  }

  lemma {:induction false} HistoryOnPrefix(a: seq<Sys>, b: seq<Sys>, cfg: Config, x: seq<SysStep>, y: seq<SysStep>, k: nat)
    requires RunOf(a, cfg, x) && RunOf(b, cfg, y) && a <= b && x <= y && k <= |x|
    ensures SchedulerReadiness.History(a, cfg, x, k) == SchedulerReadiness.History(b, cfg, y, k)
  {
    if k > 0 { HistoryOnPrefix(a, b, cfg, x, y, k - 1); }
  }

  /** A scheduler run that holds the tick at k, and where. */
  lemma TickStands(all: seq<Sys>, cfg: Config, parts: Parts, k: nat, i: TickInput)
      returns (states: seq<Sys>, steps: seq<SysStep>, at: nat)
    requires PausedRun(all, cfg, parts) && k < |parts| && parts[k] == [TickStep(i)]
    ensures states == States(all, parts, k + 1) && steps == Steps(parts, k + 1) && at == |Steps(parts, k)|
    ensures RunOf(states, cfg, steps) && at < |steps| && steps[at] == TickStep(i) && states[at] == all[k]
    ensures SchedulerReadiness.History(states, cfg, steps, at) + [SchedulerReadiness.TickRefresh(all[k], cfg, i)] ==
            TickHistory(all, cfg, parts, k, i)
  {
    PausedShape(all, cfg, parts);
    states, steps, at := States(all, parts, k + 1), Steps(parts, k + 1), |Steps(parts, k)|;
    Project(all, cfg, parts, k);
    Project(all, cfg, parts, k + 1);
    Stands(all, parts, k, k + 1);
    Grows(all, parts, k, k + 1);
    HistoryOnPrefix(States(all, parts, k), states, cfg, Steps(parts, k), steps, at);
  }

  /** Condition c was found satisfied at every refresh from event i on, after the launch at p; and these
      refreshes are `required` many, or some task ended on the GPU between p and i. */
  ghost predicate KeptApart(history: seq<Event>, p: nat, i: nat, gpu: nat, c: Condition, required: nat) {
    && p < |history| && history[p] == Cleared(gpu) && p < i && HeldSince(history, i, (gpu, c))
    && (Refreshes(history, i) >= required || exists r :: p < r < i && history[r] == Event.Released(gpu))
  }

  /** Two launches on one GPU in different ticks, the second without a live reservation. */
  lemma LaunchesAreKeptApart(all: seq<Sys>, cfg: Config, parts: Parts, j: nat, x: nat, k: nat,
                             first: TickInput, second: TickInput, b: Assignment)
      returns (p: nat, c: Condition, i: nat)
    requires PausedRun(all, cfg, parts) && j < k < |parts|
    requires parts[j] == [TickStep(first)] && parts[k] == [TickStep(second)]
    requires SchedulerReadiness.LaunchedAt(all[j], cfg, first, x, b.gpu.index)
    requires SchedulerReadiness.PlannedOnCount(all[k], cfg, second, b)
    ensures KeptApart(TickHistory(all, cfg, parts, k, second), p, i, b.gpu.index, c, all[k].ready.required)
    ensures ConditionFor(SchedulerReadiness.ViewAt(all[k], cfg, second), b.job, b.gpu) == Some(c)
  {
    PausedShape(all, cfg, parts);
    var states, steps, to := TickStands(all, cfg, parts, k, second);
    Stands(all, parts, j, k + 1);
    Stands(all, parts, j, k);
    var history;
    history, p, c, i := SchedulerReadiness.LaunchesAreKeptApart(states, cfg, steps, |Steps(parts, j)|, x, to, b);
  }

  lemma RunsMakeProgress(all: seq<Sys>, cfg: Config, parts: Parts, k: nat, i: TickInput)
    requires PausedRun(all, cfg, parts) && k < |parts| && parts[k] == [TickStep(i)] && !i.paused
    requires SchedulerProgress.WorkRemains(all[k].db, i.now)
    requires SchedulerProgress.GpusGoodForLong(all[k], cfg, i, TickHistory(all, cfg, parts, k, i))
    ensures Assignments(all[k], cfg, i) != []
  {
    var states, steps, at := TickStands(all, cfg, parts, k, i);
    SchedulerProgress.RunsMakeProgress(states, cfg, steps, at, i);
  }
}
