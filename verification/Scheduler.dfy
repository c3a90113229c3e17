/** The scheduler service: the tick, the launcher and the watchers, on its own fields, the
    database object and the readiness tracker. */
module Scheduler {
  import opened DependencyGraph
  import opened Gpus
  import opened Matching
  import opened Options
  import opened Readiness
  import opened SchedulerModel
  import opened SchedulerRuns
  import opened TaskModel
  import opened TaskStore
  import GpuPolicy
  import Kernel
  import TaskRuns

  lemma FirstPayloadUnique(st: Kernel.State, cfg: Config, t: Kernel.Input)
    requires DistinctReadings(t.first)
    ensures UniqueIndices(Kernel.FirstPayload(st, cfg, t))
  {}

  /** The payload refresh and the rest of the preparation together are the preparation of a tick. */
  lemma PreparedInParts(s: Sys, seen: Sys, prepared: Sys, cfg: Config, i: TickInput, gpus: seq<Gpu>, jobs: seq<Job>)
    requires gpus == TickPayload(s, cfg, i) && jobs == QueuedJobs(s.db, i.now)
    requires seen == Kernel.Pruned(s, cfg, i.now)
    requires var cooling := Cooling(s.cooldowns, cfg, i.now);
             prepared == seen.(reservations := SyncReservations(s.reservations, jobs, i.alive),
                               failures := SyncFailures(s.failures, jobs),
                               ready := Refresh(s.ready, SatisfiedKeys(gpus, BudgetsOf(jobs), cooling),
                                                SeenFreeGpus(gpus, cooling, s.ready.released)))
    ensures prepared == Prepared(s, cfg, i)
    ensures var cooling := Cooling(s.cooldowns, cfg, i.now);
            (if i.paused then [] else Match(ViewOf(prepared, cooling), jobs, Available(gpus, cooling)).assignments)
            == Assignments(s, cfg, i)
  {}

  class Service {
    const config: Config
    const database: Database
    const tracker: Tracker
    const policy: GpuPolicy.Store
    var running: map<TaskId, Handle>
    var reservations: map<nat, Reservation>
    var failures: map<nat, (nat, int)>
    var cooldowns: map<nat, int>

    ghost function State(): Sys
      reads this, database, tracker
    {
      Sys(database.State(), running, reservations, failures, tracker.State(), cooldowns)
    }

    ghost function Whole(): Kernel.State
      reads this, database, tracker, policy
    {
      Kernel.State(policy.State(), State())
    }

    constructor (config: Config, database: Database, tracker: Tracker, policy: GpuPolicy.Store)
      ensures this.config == config && this.database == database && this.tracker == tracker && this.policy == policy
      ensures State() == Sys(database.State(), map[], map[], map[], tracker.State(), map[])
    {
      this.config, this.database, this.tracker, this.policy := config, database, tracker, policy;
      running, reservations, failures, cooldowns := map[], map[], map[], map[];
    }

    // ---------- The parts of a tick ----------

    /** Build the payload from fresh readings; expired cooldowns are dropped and the idle tracking is
        brought up to date on the way. */
    method RefreshGpuPayload(readings: seq<GpuInfo>, now: int) returns (gpus: seq<Gpu>, cooling: set<nat>)
      requires DistinctReadings(readings)
      modifies `cooldowns, policy
      ensures cooling == Cooling(old(cooldowns), config, now)
      ensures gpus == Kernel.PayloadFor(old(policy.State()), old(State()), config, readings, now)
      ensures policy.State() == GpuPolicy.Sync(old(policy.State()), gpus, now)
      ensures State() == Kernel.Pruned(old(State()), config, now)
    {
      cooling := Cooling(cooldowns, config, now);
      cooldowns := map g | g in cooling && g in cooldowns :: cooldowns[g];
      var occupied, allowed := Occupied(running), Kernel.Allowed(policy.State(), readings, now);
      gpus := [];
      for k := 0 to |readings|
        invariant gpus == Payload(readings, config, occupied, allowed, cooling)[..k]
      {
        gpus := gpus + [PayloadEntry(readings[k], config, occupied, allowed, cooling)];
      }
      var _ := policy.SyncAutoRestoreIdleTracking(gpus, now);
    }

    /** Timed entries, payload and auto-restore. */
    method RestoreGpus(t: Kernel.Input) returns (gpus: seq<Gpu>, cooling: set<nat>, restored: set<nat>)
      requires DistinctReadings(t.first)
      modifies `cooldowns, policy
      ensures cooling == Cooling(old(cooldowns), config, t.now)
      ensures State() == Kernel.Pruned(old(State()), config, t.now)
      ensures gpus == Kernel.FirstPayload(old(Whole()), config, t)
      ensures restored == Kernel.Restored(old(Whole()), config, t)
      ensures policy.State() == Kernel.AfterRestore(old(Whole()), config, t)
    {
      FirstPayloadUnique(Whole(), config, t);
      policy.ApplyDueGpuSchedule(t.known, t.now);
      gpus, cooling := RefreshGpuPayload(t.first, t.now);
      restored := policy.ApplyAutoRestoreIdleGpus(gpus, t.now);
    }

    /** The payload a tick matches against: a second one if GPUs have been restored. */
    method RefreshGpus(t: Kernel.Input) returns (gpus: seq<Gpu>, cooling: set<nat>)
      requires DistinctReadings(t.first) && DistinctReadings(t.again)
      modifies `cooldowns, policy
      ensures cooling == Cooling(old(cooldowns), config, t.now)
      ensures State() == Kernel.Pruned(old(State()), config, t.now)
      ensures policy.State() == Kernel.PolicyAfter(old(Whole()), config, t)
      ensures gpus == TickPayload(old(State()), config, Kernel.InputFor(old(Whole()), config, t))
    {
      ghost var before := Whole();
      var restored;
      gpus, cooling, restored := RestoreGpus(t);
      ghost var p := policy.State();
      Kernel.PrunedPayload(p, before.sys, config, t.again, t.now);
      if restored == {} {
        Kernel.OneRefresh(before, config, t);
      } else {
        gpus, cooling := RefreshGpuPayload(t.again, t.now);
        Kernel.TwoRefreshes(before, config, t, p, gpus);
      }
    }

    method IsTaskReadyForLaunch(id: TaskId, now: int) returns (r: bool)
      requires id in database.tasks
      ensures r <==> ReadyForLaunch(database.State(), id, now)
    {
      var satisfied := database.AreDependenciesSatisfied(id);
      r := satisfied && (database.tasks[id].nextRetryAt.None? || database.tasks[id].nextRetryAt.value <= now);
    }

    method FilterReady(ids: seq<TaskId>, now: int) returns (jobs: seq<Job>)
      ensures jobs == JobsOf(database.State(), ids, now)
    {
      jobs := [];
      for k := 0 to |ids|
        invariant jobs == JobsOf(database.State(), ids[..k], now)
      {
        assert ids[..k + 1][..k] == ids[..k];
        if ids[k] in database.tasks {
          var ready := IsTaskReadyForLaunch(ids[k], now);
          if ready {
            jobs := jobs + [Job(ids[k], database.tasks[ids[k]].need)];
          }
        }
      }
      assert ids[..|ids|] == ids;
    }

    method ListReadyTasks(now: int) returns (jobs: seq<Job>)
      ensures jobs == QueuedJobs(database.State(), now)
    {
      var ids := database.ListQueuedTasks();
      jobs := FilterReady(ids, now);
    }

    method SyncMemoryReservations(jobs: seq<Job>, alive: set<nat>)
      modifies `reservations, `failures
      ensures reservations == SyncReservations(old(reservations), jobs, alive)
      ensures failures == SyncFailures(old(failures), jobs)
    {
      var kept: map<nat, Reservation> := map[];
      var rest := reservations.Keys;
      while rest != {}
        invariant rest <= reservations.Keys && reservations == old(reservations) && failures == old(failures)
        invariant kept == map id | id in reservations && id !in rest && Wanted(jobs, id, reservations[id], alive)
                            :: reservations[id].(alive := true)
        decreases rest
      {
        var id :| id in rest;
        if Wanted(jobs, id, reservations[id], alive) {
          kept := kept[id := reservations[id].(alive := true)];
        }
        rest := rest - {id};
      }
      reservations := kept;
      failures := map id | id in failures && (exists j | j in jobs :: j.id == id) :: failures[id];
    }

    method StartMemoryReservation(a: Assignment, ok: bool)
      requires a.job.need.reservationMb.Some?
      modifies `reservations, `failures
      ensures State() == StartReservation(old(State()), a, ok)
    {
      var id, mb := a.job.id, a.job.need.reservationMb.value;
      reservations := reservations - {id};
      if ok {
        reservations := reservations[id := Reservation(a.gpu.index, mb, true)];
        failures := failures - {id};
        assert reservations == old(reservations)[id := Reservation(a.gpu.index, mb, true)];
      } else {
        failures := failures[id := (a.gpu.index, mb)];
      }
    }

    method LaunchTask(a: Assignment, now: int, ok: bool)
      requires database.Valid() && TaskRuns.IsQueued(database.State(), a.job.id)
      modifies this, database, tracker
      ensures State() == SchedulerModel.LaunchTask(old(State()), a, now, ok) && database.Valid()
    {
      var id, gpu := a.job.id, a.gpu.index;
      reservations := reservations - {id};
      tracker.ClearGpuReadyCounts(gpu);
      var attempt := database.tasks[id].attemptCount + 1;
      if !ok {
        var _ := database.MarkTaskLaunchFailed(id, Some(attempt));
        return;
      }
      var _ := database.MarkTaskRunning(id, gpu, now);
      running := running[id := Handle(gpu, database.tasks[id].attemptCount, None, None)];
    }

    method CarryAssignment(a: Assignment, now: int, started: set<TaskId>, reserved: set<nat>, ghost i: TickInput)
      requires i.now == now && i.started == started && i.reserved == reserved
      requires database.Valid() && TaskRuns.IsQueued(database.State(), a.job.id)
      modifies this, database, tracker
      ensures State() == Carry(old(State()), a, i)
    {
      var wanted := a.job.need.reservationMb;
      if wanted.Some? && wanted.value > 0
         && !(a.job.id in failures && failures[a.job.id] == (a.gpu.index, wanted.value))
         && !(a.job.id in reservations
              && reservations[a.job.id] == Reservation(a.gpu.index, wanted.value, true)) {
        StartMemoryReservation(a, a.job.id in reserved);
      } else {
        LaunchTask(a, now, a.job.id in started);
      }
    }

    /** Refresh the reservations and the readiness counts. */
    method RefreshReadiness(gpus: seq<Gpu>, jobs: seq<Job>, cooling: set<nat>, alive: set<nat>)
      modifies `reservations, `failures, tracker
      ensures reservations == SyncReservations(old(reservations), jobs, alive)
      ensures failures == SyncFailures(old(failures), jobs)
      ensures tracker.State() == Refresh(old(tracker.State()), SatisfiedKeys(gpus, BudgetsOf(jobs), cooling),
                                         SeenFreeGpus(gpus, cooling, old(tracker.released)))
    {
      SyncMemoryReservations(jobs, alive);
      ghost var released := tracker.released;
      ghost var sat, seen := tracker.RefreshGpuReadyCounts(gpus, jobs, cooling);
      assert sat == SatisfiedKeys(gpus, BudgetsOf(jobs), cooling);
      assert seen == SeenFreeGpus(gpus, cooling, released);
    }

    /** What comes between the payload and the matching. */
    method PrepareTasks(gpus: seq<Gpu>, cooling: set<nat>, now: int, alive: set<nat>) returns (jobs: seq<Job>)
      modifies `reservations, `failures, tracker
      ensures jobs == QueuedJobs(database.State(), now)
      ensures State() == old(State()).(reservations := SyncReservations(old(reservations), jobs, alive),
                                       failures := SyncFailures(old(failures), jobs), ready := tracker.State())
      ensures tracker.State() == Refresh(old(tracker.State()), SatisfiedKeys(gpus, BudgetsOf(jobs), cooling),
                                         SeenFreeGpus(gpus, cooling, old(tracker.released)))
    {
      jobs := ListReadyTasks(now);
      RefreshReadiness(gpus, jobs, cooling, alive);
    }

    /** Everything a tick does under the lock. */
    method RunTick(gpus: seq<Gpu>, cooling: set<nat>, t: Kernel.Input, ghost before: Sys, ghost i: TickInput)
      requires Safe(before) && HonestReadings(before, config, i)
      requires gpus == TickPayload(before, config, i) && cooling == Cooling(before.cooldowns, config, i.now)
      requires State() == Kernel.Pruned(before, config, i.now)
      requires i.now == t.now && i.paused == t.paused && i.alive == t.alive
      requires i.started == t.started && i.reserved == t.reserved
      modifies this, database, tracker
      ensures State() == SchedulerModel.Tick(before, config, i) && Safe(State())
    {
      TickKeepsSafe(before, config, i);
      PreparedIsGood(before, config, i);
      ghost var seen := State();
      var jobs := PrepareTasks(gpus, cooling, t.now, t.alive);
      PreparedInParts(before, seen, State(), config, i, gpus, jobs);
      var plan := Plan(gpus, jobs, cooling, t.paused);
      CarryOutPlan(State(), plan, i, t);
    }

    /** One scheduling pass. */
    method Tick(t: Kernel.Input)
      requires Safe(State()) && DistinctReadings(t.first) && DistinctReadings(t.again)
      requires HonestReadings(State(), config, Kernel.InputFor(Whole(), config, t))
      modifies this, database, tracker, policy
      ensures Whole() == Kernel.FullTick(old(Whole()), config, t)
      ensures Safe(State())
    {
      ghost var before, i := State(), Kernel.InputFor(Whole(), config, t);
      var gpus, cooling := RefreshGpus(t);
      RunTick(gpus, cooling, t, before, i);
    }

    method Plan(gpus: seq<Gpu>, jobs: seq<Job>, cooling: set<nat>, paused: bool) returns (plan: seq<Assignment>)
      ensures plan == if paused then [] else Match(ViewOf(State(), cooling), jobs, Available(gpus, cooling)).assignments
    {
      if paused {
        return [];
      }
      var view := View(tracker.counts, tracker.required, reservations, cooling);
      plan := MatchTasksToGpus(view, jobs, Available(gpus, cooling));
    }

    method CarryOutPlan(ghost s0: Sys, plan: seq<Assignment>, ghost i: TickInput, t: Kernel.Input)
      requires State() == s0 && Safe(s0) && GoodPlan(s0, plan, i.now)
      requires i.now == t.now && i.started == t.started && i.reserved == t.reserved
      modifies this, database, tracker
      ensures State() == CarryOut(s0, plan, i)
    {
      for k := 0 to |plan|
        invariant State() == CarryOut(s0, plan[..k], i)
      {
        assert plan[..k + 1][..k] == plan[..k];
        CarryOutKeeps(s0, plan, k, i);
        NextLaunchOk(s0, State(), plan, k, i.now);
        CarryAssignment(plan[k], t.now, t.started, t.reserved, i);
      }
      assert plan[..|plan|] == plan;
    }

    // ---------- Watchers and stop requests ----------

    method Judge(h: Handle, code: int, oomInLog: bool) returns (v: Verdict)
      ensures v == Decide(h, code, oomInLog, config.retryLimit)
    {
      if h.stop == Some(Preemption) {
        return Preempted(if h.requeueTo.Some? then h.requeueTo.value else NormalQueue);
      }
      var status;
      if h.stop == Some(Cancel) {
        status := Cancelled;
      } else if h.stop == Some(Interruption) {
        return Requeued(h.requeueTo, false);
      } else if code in INTERRUPTED_EXIT_CODES {
        return Requeued(h.requeueTo, true);
      } else {
        status := if code == 0 then Succeeded else Failed;
      }
      if status == Failed && ShouldRetry(h, code, oomInLog, config.retryLimit) {
        return Retried;
      }
      return Ended(status);
    }

    method BookVerdict(id: TaskId, v: Verdict, now: int)
      requires database.Valid()
      modifies database
      ensures var o := EndTask(old(database.State()), id, v, RetryTime(config, now));
              database.State() == if o.Ok? then o.db else old(database.State())
    {
      match v
      case Preempted(q) => var _ := database.PreemptRunningTask(id, q);
      case Requeued(target, _) => var _ := database.RequeueRunningTask(id, target);
      case Retried => var _ := database.ScheduleTaskRetry(id, RetryTime(config, now));
      case Ended(status) => var _ := database.FinishTask(id, status);
    }

    method Settle(id: TaskId, v: Verdict, now: int)
      requires database.Valid() && id in running
      modifies this, database, tracker
      ensures State() == SchedulerModel.Settle(old(State()), config, id, v, now)
    {
      var gpu := running[id].gpu;
      if v.Requeued? && v.killed && config.cooldown > 0 {
        cooldowns := cooldowns[gpu := now];
        tracker.ClearGpuReadyCounts(gpu);
      }
      BookVerdict(id, v, now);
      running := running - {id};
      tracker.MarkRecentlyReleased(gpu);
    }

    /** The process of a running task has exited. */
    method WatchProcess(id: TaskId, code: int, oomInLog: bool, now: int)
      requires Safe(State()) && id in running
      modifies this, database, tracker
      ensures State() == Complete(old(State()), config, id, code, oomInLog, now)
      ensures Safe(State())
    {
      CompletionKeepsSafe(State(), config, id, code, oomInLog, now);
      var v := Judge(running[id], code, oomInLog);
      Settle(id, v, now);
    }

    method CancelTask(id: TaskId) returns (ok: bool)
      modifies `running
      ensures ok == (id in old(running))
      ensures State() == if ok then RequestStop(old(State()), id, Cancel, None) else old(State())
    {
      ok := id in running;
      if ok {
        running := running[id := running[id].(stop := Some(Cancel))];
      }
    }

    /** Preemption is refused while no urgent task is ready to run. */
    method PreemptTask(id: TaskId, now: int) returns (ok: bool)
      modifies `running
      ensures ok <==> id in old(running) && JobsOf(database.State(), Reading(database.tasks, UrgentQueue), now) != []
      ensures State() == if ok then RequestStop(old(State()), id, Preemption, Some(NormalQueue)) else old(State())
    {
      if id !in running {
        return false;
      }
      var ids := database.ListQueue(UrgentQueue);
      var urgent := JobsOf(database.State(), ids, now);
      ok := urgent != [];
      if ok {
        running := running[id := running[id].(stop := Some(Preemption), requeueTo := Some(NormalQueue))];
      }
    }

    method InterruptTaskToStaged(id: TaskId) returns (ok: bool)
      modifies `running
      ensures ok == (id in old(running))
      ensures State() == if ok then RequestStop(old(State()), id, Interruption, Some(StagedQueue)) else old(State())
    {
      ok := id in running;
      if ok {
        running := running[id := running[id].(stop := Some(Interruption), requeueTo := Some(StagedQueue))];
      }
    }
  }
}
