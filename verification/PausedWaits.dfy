/** Launch gaps, waiting times and stop requests in scheduler runs with pauses, between the points of such
    a run. */
module PausedWaits {
  import opened DependencyGraph
  import opened Matching
  import opened SchedulerModel
  import opened SchedulerPauses
  import opened SchedulerRuns
  import SchedulerGaps
  import SchedulerOutcomes
  import SchedulerReadiness
  import SchedulerReadings
  import SchedulerWaits

  // ---------- Positions ----------

  /** Every step of the run without pauses stands at some point of the run with them. */
  lemma {:induction false} Comes(all: seq<Sys>, parts: Parts, k: nat, m: nat) returns (n: nat)
    requires Shape(all, parts) && k <= |parts| && m < |Steps(parts, k)|
    ensures n < k && parts[n] == [Steps(parts, k)[m]] && |Steps(parts, n)| == m
  {
    if m < |Steps(parts, k - 1)| {
      n := Comes(all, parts, k - 1, m);
    } else {
      n := k - 1;
    }
  }

  lemma LaterPoint(all: seq<Sys>, parts: Parts, j: nat, n: nat)
    requires Shape(all, parts) && j <= |parts| && n <= |parts| && |Steps(parts, j)| < |Steps(parts, n)|
    ensures j < n
  {
    if n <= j { Grows(all, parts, n, j); }
  }

  /** Where the steps between two points stand. */
  lemma BetweenPoints(all: seq<Sys>, parts: Parts, j: nat, k: nat, m: nat) returns (n: nat)
    requires Shape(all, parts) && j < k <= |parts| && |Steps(parts, j)| < m < |Steps(parts, k)|
    ensures j < n < k && parts[n] == [Steps(parts, k)[m]] && |Steps(parts, n)| == m
  {
    n := Comes(all, parts, k, m);
    LaterPoint(all, parts, j, n);
  }

  lemma RunUpTo(all: seq<Sys>, cfg: Config, parts: Parts, k: nat)
    requires PausedRun(all, cfg, parts) && k < |parts|
    ensures RunOf(States(all, parts, k + 1), cfg, Steps(parts, k + 1)) && Shape(all, parts)
  {
    PausedShape(all, cfg, parts);
    Project(all, cfg, parts, k + 1);
  }

  /** Where the steps at points j and k stand in the run up to k. */
  lemma PointsStand(all: seq<Sys>, parts: Parts, j: nat, k: nat)
    requires Shape(all, parts) && j <= k < |parts| && parts[j] != [] && parts[k] != []
    ensures var run, calls, from, to := States(all, parts, k + 1), Steps(parts, k + 1), |Steps(parts, j)|, |Steps(parts, k)|;
            && from <= to < |calls| && |calls| + 1 == |run| && Steps(parts, k) <= calls && (j < k ==> from < to)
            && run[from] == all[j] && calls[from] == parts[j][0] && run[to] == all[k] && calls[to] == parts[k][0]
  {
    Position(all, parts, k + 1);
    Stands(all, parts, j, k + 1);
    Stands(all, parts, k, k + 1);
    Grows(all, parts, k, k + 1);
    Grows(all, parts, j, k);
    if j < k { Stands(all, parts, j, k); }
  }

  lemma Projected(all: seq<Sys>, cfg: Config, parts: Parts, j: nat, k: nat)
      returns (run: seq<Sys>, calls: seq<SysStep>, from: nat, to: nat)
    requires PausedRun(all, cfg, parts) && j < k < |parts| && parts[j] != [] && parts[k] != []
    ensures run == States(all, parts, k + 1) && calls == Steps(parts, k + 1) && Shape(all, parts)
    ensures from == |Steps(parts, j)| < to == |Steps(parts, k)| < |calls| && |run| == |calls| + 1 && Steps(parts, k) <= calls
    ensures RunOf(run, cfg, calls)
    ensures run[from] == all[j] && calls[from] == parts[j][0] && run[to] == all[k] && calls[to] == parts[k][0]
  {
    RunUpTo(all, cfg, parts, k);
    PointsStand(all, parts, j, k);
    run, calls, from, to := States(all, parts, k + 1), Steps(parts, k + 1), |Steps(parts, j)|, |Steps(parts, k)|;
  }

  // ---------- Waiting times ----------

  predicate LeavesAlone(part: seq<SysStep>, id: TaskId, due: int) {
    forall x | x in part :: !SchedulerWaits.Handles(x, id) && (x.TickStep? ==> x.input.now < due)
  }

  /** Between points j and k the ticks come before `due`, and no user handles the task. */
  ghost predicate LeftAloneUntil(parts: Parts, j: nat, k: nat, id: TaskId, due: int) {
    k <= |parts| && forall n | j < n < k :: LeavesAlone(parts[n], id, due)
  }

  lemma LeftAloneProjects(all: seq<Sys>, parts: Parts, j: nat, k: nat, calls: seq<SysStep>, id: TaskId, due: int)
    requires Shape(all, parts) && j < k <= |parts| && Steps(parts, k) <= calls && LeftAloneUntil(parts, j, k, id, due)
    ensures SchedulerWaits.LeftAloneUntil(calls, |Steps(parts, j)|, |Steps(parts, k)|, id, due)
  {
    forall m | |Steps(parts, j)| < m < |Steps(parts, k)|
      ensures !SchedulerWaits.Handles(calls[m], id) && (calls[m].TickStep? ==> calls[m].input.now < due)
    {
      var n := BetweenPoints(all, parts, j, k, m);
      assert calls[m] in parts[n];
    }
  }

  lemma RetriesAreNotPlannedEarly(all: seq<Sys>, cfg: Config, parts: Parts, j: nat, k: nat, w: SysStep, i: TickInput)
    requires PausedRun(all, cfg, parts) && j < k < |parts| && cfg.retryDelay > 0
    requires parts[j] == [w] && SchedulerWaits.SchedulesRetry(all[j], cfg, w)
    requires parts[k] == [TickStep(i)] && i.now < w.now + cfg.retryDelay
    requires LeftAloneUntil(parts, j, k, w.id, w.now + cfg.retryDelay)
    ensures !Listed(Assignments(all[k], cfg, i), w.id)
  {
    var run, calls, from, to := Projected(all, cfg, parts, j, k);
    LeftAloneProjects(all, parts, j, k, calls, w.id, w.now + cfg.retryDelay);
    SchedulerWaits.RetriesAreNotPlannedEarly(run, cfg, calls, from, to);
  }

  predicate StaysWithin(part: seq<SysStep>, start: int, end: int) {
    forall x | x in part ::
      !x.RebootStep? && (x.TickStep? ==> x.input.now < end) && (x.WatcherStep? ==> x.now >= start)
  }

  /** Between points j and k: no restart, ticks before `end`, and no watcher's clock before `start`. */
  ghost predicate WithinCooldown(parts: Parts, j: nat, k: nat, start: int, end: int) {
    k <= |parts| && forall n | j < n < k :: StaysWithin(parts[n], start, end)
  }

  lemma CooldownProjects(all: seq<Sys>, parts: Parts, j: nat, k: nat, calls: seq<SysStep>, start: int, end: int)
    requires Shape(all, parts) && j < k <= |parts| && Steps(parts, k) <= calls && WithinCooldown(parts, j, k, start, end)
    ensures SchedulerWaits.WithinCooldown(calls, |Steps(parts, j)|, |Steps(parts, k)|, start, end)
  {
    forall m | |Steps(parts, j)| < m < |Steps(parts, k)|
      ensures !calls[m].RebootStep? && (calls[m].TickStep? ==> calls[m].input.now < end)
      ensures calls[m].WatcherStep? ==> calls[m].now >= start
    {
      var n := BetweenPoints(all, parts, j, k, m);
      assert calls[m] in parts[n];
    }
  }

  lemma KilledGpusCoolDown(all: seq<Sys>, cfg: Config, parts: Parts, j: nat, k: nat, w: SysStep, i: TickInput)
    requires PausedRun(all, cfg, parts) && j < k < |parts| && cfg.cooldown > 0
    requires parts[j] == [w] && w.WatcherStep? && w.id in all[j].running
    requires SchedulerOutcomes.Killed(all[j].running[w.id], w.code)
    requires parts[k] == [TickStep(i)] && i.now < w.now + cfg.cooldown
    requires WithinCooldown(parts, j, k, w.now, w.now + cfg.cooldown)
    ensures forall a | a in Assignments(all[k], cfg, i) :: a.gpu.index != all[j].running[w.id].gpu
  {
    var run, calls, from, to := Projected(all, cfg, parts, j, k);
    CooldownProjects(all, parts, j, k, calls, w.now, w.now + cfg.cooldown);
    SchedulerWaits.KilledGpusCoolDown(run, cfg, calls, from, to);
  }

  // ---------- Launch gaps ----------

  function Ticks(parts: Parts, m: nat, k: nat): nat
    requires m <= k <= |parts|
  {
    if m == k then 0 else Ticks(parts, m, k - 1) + if parts[k - 1] != [] && parts[k - 1][0].TickStep? then 1 else 0
  }

  lemma {:induction false} TicksOnPrefix(x: seq<SysStep>, y: seq<SysStep>, m: nat, k: nat)
    requires x <= y && m <= k <= |x|
    ensures SchedulerGaps.Ticks(x, m, k) == SchedulerGaps.Ticks(y, m, k)
  {
    if m < k { TicksOnPrefix(x, y, m, k - 1); }
  }

  lemma {:induction false} SameTicks(all: seq<Sys>, parts: Parts, m: nat, k: nat)
    requires Shape(all, parts) && m <= k <= |parts|
    ensures |Steps(parts, m)| <= |Steps(parts, k)|
    ensures Ticks(parts, m, k) == SchedulerGaps.Ticks(Steps(parts, k), |Steps(parts, m)|, |Steps(parts, k)|)
  {
    Grows(all, parts, m, k);
    if m < k {
      SameTicks(all, parts, m, k - 1);
      TicksOnPrefix(Steps(parts, k - 1), Steps(parts, k), |Steps(parts, m)|, |Steps(parts, k - 1)|);
    }
  }

  ghost predicate GoodAt(s: Sys, cfg: Config, part: seq<SysStep>, gpu: nat, c: Condition) {
    forall x | x in part && x.TickStep? :: SchedulerReadings.ReadsGood(s, cfg, x.input, gpu, c)
  }

  /** At every tick from point m to point k the readings of the GPU were good. */
  ghost predicate GoodThroughout(all: seq<Sys>, cfg: Config, parts: Parts, m: nat, k: nat, gpu: nat, c: Condition)
    requires k < |parts| < |all|
  {
    m <= k && forall n | m <= n <= k :: GoodAt(all[n], cfg, parts[n], gpu, c)
  }

  lemma GoodProjects(all: seq<Sys>, cfg: Config, parts: Parts, m: nat, k: nat, gpu: nat, c: Condition)
    requires Shape(all, parts) && m <= k < |parts| && parts[k] != []
    requires |Steps(parts, k)| < |Steps(parts, k + 1)| < |States(all, parts, k + 1)|
    requires SchedulerGaps.GoodThroughout(States(all, parts, k + 1), cfg, Steps(parts, k + 1),
                                          |Steps(parts, m)|, |Steps(parts, k)|, gpu, c)
    ensures GoodThroughout(all, cfg, parts, m, k, gpu, c)
  {
    forall n | m <= n <= k ensures GoodAt(all[n], cfg, parts[n], gpu, c) {
      if parts[n] != [] {
        PointsStand(all, parts, n, k);
        Grows(all, parts, m, n);
        assert forall x | x in parts[n] :: x == parts[n][0];
      }
    }
  }

  /** Some task that ran on the GPU ended between points j and m. */
  ghost predicate EndedBetween(all: seq<Sys>, parts: Parts, j: nat, m: nat, gpu: nat)
    requires m <= |parts| < |all|
  {
    exists u :: j < u < m && EndsHere(all[u], parts[u], gpu)
  }

  predicate EndsHere(s: Sys, part: seq<SysStep>, gpu: nat) {
    part != [] && SchedulerGaps.EndsTaskOn(s, part[0], gpu)
  }

  /** What SchedulerGaps says about the run up to k. */
  ghost predicate GapInRun(run: seq<Sys>, cfg: Config, calls: seq<SysStep>, from: nat, at: nat, to: nat, b: Assignment) {
    && from < at <= to < |calls| < |run|
    && SchedulerGaps.GoodThroughout(run, cfg, calls, at, to, b.gpu.index, SchedulerGaps.NeededCondition(b))
    && (|| SchedulerGaps.Ticks(calls, at, to + 1) >= run[to].ready.required
        || SchedulerGaps.EndsAmong(run, calls, from, at, b.gpu.index))
  }

  lemma GapExists(run: seq<Sys>, cfg: Config, calls: seq<SysStep>, from: nat, x: nat, to: nat, b: Assignment) returns (at: nat)
    requires RunOf(run, cfg, calls) && from < to < |calls| && calls[from].TickStep? && calls[to].TickStep?
    requires SchedulerReadiness.LaunchedAt(run[from], cfg, calls[from].input, x, b.gpu.index)
    requires SchedulerReadiness.PlannedOnCount(run[to], cfg, calls[to].input, b)
    ensures GapInRun(run, cfg, calls, from, at, to, b)
  {
    at := SchedulerGaps.LaunchesNeedGoodReadings(run, cfg, calls, from, x, to, b);
  }

  /** Between two launches on one GPU, the second without a live reservation: every tick from some point m on
      read the GPU as good for the second task, and these ticks are `required` many, or a task ended on the GPU
      between the first launch and m. */
  lemma LaunchesNeedGoodReadings(all: seq<Sys>, cfg: Config, parts: Parts, j: nat, x: nat, k: nat,
                                 first: TickInput, second: TickInput, b: Assignment) returns (m: nat)
    requires PausedRun(all, cfg, parts) && j < k < |parts|
    requires parts[j] == [TickStep(first)] && parts[k] == [TickStep(second)]
    requires SchedulerReadiness.LaunchedAt(all[j], cfg, first, x, b.gpu.index)
    requires SchedulerReadiness.PlannedOnCount(all[k], cfg, second, b)
    ensures j < m <= k && GoodThroughout(all, cfg, parts, m, k, b.gpu.index, SchedulerGaps.NeededCondition(b))
    ensures Ticks(parts, m, k + 1) >= all[k].ready.required || EndedBetween(all, parts, j, m, b.gpu.index)
  {
    var run, calls, from, to := Projected(all, cfg, parts, j, k);
    var at := GapExists(run, cfg, calls, from, x, to, b);
    m := GapProjects(all, cfg, parts, j, k, at, b);
  }

  /** That, said about the points. */
  lemma GapProjects(all: seq<Sys>, cfg: Config, parts: Parts, j: nat, k: nat, at: nat, b: Assignment) returns (m: nat)
    requires Shape(all, parts) && j < k < |parts| && parts[k] != []
    requires GapInRun(States(all, parts, k + 1), cfg, Steps(parts, k + 1), |Steps(parts, j)|, at, |Steps(parts, k)|, b)
    ensures j < m <= k && GoodThroughout(all, cfg, parts, m, k, b.gpu.index, SchedulerGaps.NeededCondition(b))
    ensures Ticks(parts, m, k + 1) >= all[k].ready.required || EndedBetween(all, parts, j, m, b.gpu.index)
  {
    m := Comes(all, parts, k + 1, at);
    LaterPoint(all, parts, j, m);
    PointsStand(all, parts, k, k);
    GoodProjects(all, cfg, parts, m, k, b.gpu.index, SchedulerGaps.NeededCondition(b));
    GapEnds(all, cfg, parts, j, m, k, b);
  }

  lemma GapEnds(all: seq<Sys>, cfg: Config, parts: Parts, j: nat, m: nat, k: nat, b: Assignment)
    requires Shape(all, parts) && j < m <= k < |parts| && parts[k] != []
    requires GapInRun(States(all, parts, k + 1), cfg, Steps(parts, k + 1),
                      |Steps(parts, j)|, |Steps(parts, m)|, |Steps(parts, k)|, b)
    ensures Ticks(parts, m, k + 1) >= all[k].ready.required || EndedBetween(all, parts, j, m, b.gpu.index)
  {
    PointsStand(all, parts, k, k);
    SameTicks(all, parts, m, k + 1);
    Position(all, parts, k + 1);
    assert |Steps(parts, k + 1)| == |Steps(parts, k)| + 1;
    if SchedulerGaps.EndsAmong(States(all, parts, k + 1), Steps(parts, k + 1),
                               |Steps(parts, j)|, |Steps(parts, m)|, b.gpu.index) {
      EndProjects(all, parts, j, m, k, b.gpu.index);
    }
  }

  /** The point of a step between two points, and the state there. */
  lemma StepStands(all: seq<Sys>, parts: Parts, j: nat, m: nat, k: nat, u: nat) returns (n: nat)
    requires Shape(all, parts) && j < m <= k <= |parts|
    requires |Steps(parts, j)| < u < |Steps(parts, m)|
    ensures u < |Steps(parts, k)| < |States(all, parts, k)|
    ensures j < n < m && parts[n] != [] && parts[n][0] == Steps(parts, k)[u] && all[n] == States(all, parts, k)[u]
  {
    Grows(all, parts, m, k);
    n := BetweenPoints(all, parts, j, m, u);
    Stands(all, parts, n, k);
  }

  lemma EndProjects(all: seq<Sys>, parts: Parts, j: nat, m: nat, k: nat, gpu: nat)
    requires Shape(all, parts) && j < m <= k < |parts|
    requires |Steps(parts, m)| <= |Steps(parts, k + 1)| < |States(all, parts, k + 1)|
    requires SchedulerGaps.EndsAmong(States(all, parts, k + 1), Steps(parts, k + 1), |Steps(parts, j)|, |Steps(parts, m)|, gpu)
    ensures EndedBetween(all, parts, j, m, gpu)
  {
    var run, calls, from, to := States(all, parts, k + 1), Steps(parts, k + 1), |Steps(parts, j)|, |Steps(parts, m)|;
    var u :| from < u < to && SchedulerGaps.EndsTaskOn(run[u], calls[u], gpu);
    var n := StepStands(all, parts, j, m, k + 1, u);
    assert EndsHere(all[n], parts[n], gpu);
  }
}
