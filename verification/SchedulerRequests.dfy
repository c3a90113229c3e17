/** Stop requests over whole runs: how a task ends is decided by the last request since its launch. */
module SchedulerRequests {
  import opened DependencyGraph
  import opened Options
  import opened SchedulerModel
  import opened SchedulerOutcomes
  import opened SchedulerRuns
  import opened TaskModel
  import SchedulerTicks
  import TaskRuns

  /** The last stop request for the task among steps j to k - 1. */
  function LastRequest(steps: seq<SysStep>, id: TaskId, j: nat, k: nat): Option<StopReason>
    requires j <= k <= |steps|
  {
    if j == k then None
    else if steps[k - 1].StopStep? && steps[k - 1].id == id then Some(steps[k - 1].reason)
    else LastRequest(steps, id, j, k - 1)
  }

  /** The last target queue named by one of them. */
  function LastTarget(steps: seq<SysStep>, id: TaskId, j: nat, k: nat): Option<Queue>
    requires j <= k <= |steps|
  {
    if j == k then None
    else if steps[k - 1].StopStep? && steps[k - 1].id == id && steps[k - 1].target.Some? then steps[k - 1].target
    else LastTarget(steps, id, j, k - 1)
  }

  lemma TickHandles(s: Sys, cfg: Config, i: TickInput, id: TaskId)
    requires Safe(s) && HonestReadings(s, cfg, i) && id in Tick(s, cfg, i).running
    ensures id in s.running ==> Tick(s, cfg, i).running[id] == s.running[id]
    ensures id !in s.running ==> var h := Tick(s, cfg, i).running[id]; h.stop == None && h.requeueTo == None
  {
    PreparedIsGood(s, cfg, i);
    SchedulerTicks.TickDoes(s, cfg, i);
    if Listed(Assignments(s, cfg, i), id) {
      var a :| a in Assignments(s, cfg, i) && a.job.id == id;
      assert SchedulerTicks.Done(Prepared(s, cfg, i), Tick(s, cfg, i), a, i);
      assert Startable(s.db, id, i.now);
    } else {
      assert SchedulerTicks.Untouched(Prepared(s, cfg, i), Tick(s, cfg, i), id);
    }
  }

  /** Handles come from ticks, without a request; a stop request changes only what is asked of its task. */
  lemma StepHandles(s: Sys, cfg: Config, step: SysStep, id: TaskId)
    requires Safe(s) && Enabled(s, cfg, step) && id in Next(s, cfg, step).running
    ensures id !in s.running ==>
              step.TickStep? && Next(s, cfg, step).running[id].stop == None && Next(s, cfg, step).running[id].requeueTo == None
    ensures id in s.running ==>
              var h, h' := s.running[id], Next(s, cfg, step).running[id];
              && h'.gpu == h.gpu && h'.attempt == h.attempt
              && h'.stop == (if step.StopStep? && step.id == id then Some(step.reason) else h.stop)
              && h'.requeueTo == (if step.StopStep? && step.id == id && step.target.Some? then step.target else h.requeueTo)
  {
    if step.TickStep? { TickHandles(s, cfg, step.input, id); }
  }

  /** The task was launched by the tick at j and has run since; what is asked of it is what was asked since. */
  ghost predicate RunsSince(states: seq<Sys>, steps: seq<SysStep>, j: nat, k: nat, id: TaskId)
    requires k <= |steps| < |states|
  {
    && j < k && steps[j].TickStep? && id !in states[j].running
    && (forall m | j < m <= k :: id in states[m].running)
    && states[k].running[id].stop == LastRequest(steps, id, j + 1, k)
    && states[k].running[id].requeueTo == LastTarget(steps, id, j + 1, k)
  }

  lemma RunsOn(states: seq<Sys>, cfg: Config, steps: seq<SysStep>, j: nat, k: nat, id: TaskId)
    requires RunOf(states, cfg, steps) && k < |steps| && Safe(states[k])
    requires RunsSince(states, steps, j, k, id) && id in states[k + 1].running
    ensures RunsSince(states, steps, j, k + 1, id)
  {
    StepHandles(states[k], cfg, steps[k], id);
  }

  lemma RunStarts(states: seq<Sys>, cfg: Config, steps: seq<SysStep>, k: nat, id: TaskId)
    requires RunOf(states, cfg, steps) && k < |steps| && Safe(states[k])
    requires id !in states[k].running && id in states[k + 1].running
    ensures RunsSince(states, steps, k, k + 1, id)
  {
    StepHandles(states[k], cfg, steps[k], id);
  }

  lemma NothingRunsAtFirst(states: seq<Sys>, cfg: Config, steps: seq<SysStep>, k: nat, id: TaskId)
    requires RunOf(states, cfg, steps) && k <= |steps| && id in states[k].running
    ensures k > 0
  {}

  /** Every running task of every run, and its requests. */
  lemma {:induction false} RequestsAreRemembered(states: seq<Sys>, cfg: Config, steps: seq<SysStep>, k: nat, id: TaskId)
      returns (j: nat)
    requires RunOf(states, cfg, steps) && k <= |steps| && id in states[k].running
    ensures RunsSince(states, steps, j, k, id)
  {
    NothingRunsAtFirst(states, cfg, steps, k, id);
    var p := k - 1;
    EveryStateIsSafe(states, cfg, steps, p);
    j := p;
    if id in states[p].running {
      j := RequestsAreRemembered(states, cfg, steps, p, id);
      RunsOn(states, cfg, steps, j, p, id);
    } else {
      RunStarts(states, cfg, steps, p, id);
    }
  }

  /** How a task ends in a run, by the last stop request since its launch and the exit code: cancelled if it
      was cancelled last; succeeded or failed only if nothing was asked; else back in a queue. */
  lemma EndsAsRequested(states: seq<Sys>, cfg: Config, steps: seq<SysStep>, k: nat) returns (j: nat)
    requires RunOf(states, cfg, steps) && k < |steps| && steps[k].WatcherStep?
    ensures RunsSince(states, steps, j, k, steps[k].id) && steps[k].id in states[k + 1].db.tasks
    ensures var last, t := LastRequest(steps, steps[k].id, j + 1, k), states[k + 1].db.tasks[steps[k].id];
            && (t.status == Cancelled <==> last == Some(Cancel))
            && (t.status == Succeeded <==> last == None && steps[k].code == 0)
            && (t.status == Failed ==> last == None && steps[k].code != 0 && !KilledBySignal(steps[k].code))
            && (last in {Some(Preemption), Some(Interruption)} ==> t.status in {Queued, Staged})
  {
    var step := steps[k];
    j := RequestsAreRemembered(states, cfg, steps, k, step.id);
    EveryStateIsSafe(states, cfg, steps, k);
    CompletionMeans(states[k], cfg, step.id, step.code, step.oomInLog, step.now);
  }
}
