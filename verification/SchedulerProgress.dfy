/** Progress: while work remains and GPUs have been good for long enough, a tick plans something. */
module SchedulerProgress {
  import opened DependencyGraph
  import opened Gpus
  import opened Matching
  import opened Readiness
  import opened SchedulerModel
  import opened SchedulerReadiness
  import opened SchedulerRuns
  import opened TaskModel
  import TaskLifecycle
  import TaskQueues
  import TaskRuns

  // ---------- Every ready task is listed ----------

  lemma {:induction false} ReadyIsInJobs(db: Db, ids: seq<TaskId>, now: int, id: TaskId)
    requires id in ids && Startable(db, id, now)
    ensures Job(id, db.tasks[id].need) in JobsOf(db, ids, now)
  {
    var n := |ids| - 1;
    if ids[n] != id {
      assert ids == ids[..n] + [ids[n]];
      ReadyIsInJobs(db, ids[..n], now, id);
    }
  }

  lemma ReadyIsListed(db: Db, now: int, id: TaskId)
    requires TaskRuns.Valid(db) && Startable(db, id, now)
    ensures Job(id, db.tasks[id].need) in QueuedJobs(db, now)
  {
    assert TaskQueues.TaskOk(db.tasks[id]);
    TaskQueues.ReadingMembers(db.tasks, UrgentQueue);
    TaskQueues.ReadingMembers(db.tasks, NormalQueue);
    ReadyIsInJobs(db, Reading(db.tasks, UrgentQueue) + Reading(db.tasks, NormalQueue), now, id);
  }

  // ---------- An empty plan refuses everybody ----------

  lemma {:induction false} EmptyPlanRefuses(v: View, jobs: seq<Job>, gpus: seq<Gpu>)
    requires Match(v, jobs, gpus).assignments == []
    ensures Match(v, jobs, gpus).plan == Plan(InitialFree(gpus), {})
    ensures forall j | j in jobs :: Refused(v, Plan(InitialFree(gpus), {}), j, gpus)
  {
    if jobs != [] {
      var n := |jobs| - 1;
      EmptyPlanRefuses(v, jobs[..n], gpus);
      FirstAcceptingIs(v, Plan(InitialFree(gpus), {}), jobs[n], gpus);
      assert jobs == jobs[..n] + [jobs[n]];
    }
  }

  /** Before anything is claimed, a GPU that satisfies a task's condition has room for it. */
  lemma UnclaimedHasRoom(v: View, job: Job, gpus: seq<Gpu>, g: Gpu)
    requires UniqueIndices(gpus) && g in gpus && FreeIsRight(g) && ConditionFor(v, job, g).Some?
    ensures HasPlannedCapacity(v, Plan(InitialFree(gpus), {}), job, g)
  {
    InitialFreeIs(gpus);
  }

  /** The task may use g, which satisfies its condition with a full count. */
  predicate Serves(v: View, job: Job, g: Gpu) {
    && MayUse(job, g)
    && ConditionFor(v, job, g).Some?
    && CountOf(v.counts, g.index, ConditionFor(v, job, g).value) >= v.required
  }

  lemma ServedIsPlanned(v: View, jobs: seq<Job>, gpus: seq<Gpu>, job: Job, g: Gpu)
    requires UniqueIndices(gpus) && job in jobs && g in gpus && FreeIsRight(g) && Serves(v, job, g)
    ensures Match(v, jobs, gpus).assignments != []
  {
    if Match(v, jobs, gpus).assignments == [] {
      EmptyPlanRefuses(v, jobs, gpus);
      UnclaimedHasRoom(v, job, gpus, g);
      assert Accepts(v, Plan(InitialFree(gpus), {}), job, g);
      assert false;
    }
  }

  // ---------- One tick ----------

  function TickGpus(s: Sys, cfg: Config, i: TickInput): seq<Gpu> {
    Available(TickPayload(s, cfg, i), Cooling(s.cooldowns, cfg, i.now))
  }

  /** There is work, nothing has failed, and no retry has to wait. */
  ghost predicate WorkRemains(db: Db, now: int) {
    && (exists id :: TaskRuns.IsQueued(db, id))
    && (forall id | id in db.tasks :: db.tasks[id].status in {Queued, Succeeded})
    && (forall id | id in db.tasks :: db.tasks[id].nextRetryAt.None? || db.tasks[id].nextRetryAt.value <= now)
  }

  /** Every queued task whose dependencies are done is served by some GPU of this tick. */
  ghost predicate AllServed(s: Sys, cfg: Config, i: TickInput) {
    forall id | TaskRuns.IsQueued(s.db, id) && DependenciesSatisfied(s.db, id) ::
      exists g :: g in TickGpus(s, cfg, i) && Serves(ViewAt(s, cfg, i), Job(id, s.db.tasks[id].need), g)
  }

  lemma TickGpuFacts(s: Sys, cfg: Config, i: TickInput)
    requires DistinctReadings(i.readings)
    ensures UniqueIndices(TickGpus(s, cfg, i))
    ensures forall g | g in TickGpus(s, cfg, i) :: FreeIsRight(g)
  {
    var payload := TickPayload(s, cfg, i);
    PayloadFacts(s, cfg, i);
    AvailableUnique(payload, Cooling(s.cooldowns, cfg, i.now));
    forall g | g in payload ensures FreeIsRight(g) {
      var k :| 0 <= k < |payload| && payload[k] == g;
    }
  }

  /** Then the tick plans at least one task: dependencies cannot block all of them. */
  lemma TickPlansSomething(s: Sys, cfg: Config, i: TickInput)
    requires TaskRuns.Valid(s.db) && HonestReadings(s, cfg, i) && !i.paused
    requires WorkRemains(s.db, i.now) && AllServed(s, cfg, i)
    ensures Assignments(s, cfg, i) != []
  {
    var id := TaskLifecycle.NoDependencyDeadlock(s.db);
    ReadyIsListed(s.db, i.now, id);
    var g :| g in TickGpus(s, cfg, i) && Serves(ViewAt(s, cfg, i), Job(id, s.db.tasks[id].need), g);
    TickGpuFacts(s, cfg, i);
    ServedIsPlanned(ViewAt(s, cfg, i), QueuedJobs(s.db, i.now), TickGpus(s, cfg, i), Job(id, s.db.tasks[id].need), g);
  }

  // ---------- Whole runs ----------

  /** g satisfies the task's condition now, and has at every refresh since one that is `required`
      refreshes back or that found g recently released. */
  ghost predicate GoodForLong(v: View, history: seq<Event>, job: Job, g: Gpu) {
    && MayUse(job, g)
    && ConditionFor(v, job, g).Some?
    && exists from: nat ::
      && HeldSince(history, from, (g.index, ConditionFor(v, job, g).value))
      && (Refreshes(history, from) >= v.required || FlaggedAt(history, from, g.index))
  }

  /** Every queued task whose dependencies are done may use some GPU that has been good for long enough. */
  ghost predicate GpusGoodForLong(s: Sys, cfg: Config, i: TickInput, history: seq<Event>) {
    forall id | TaskRuns.IsQueued(s.db, id) && DependenciesSatisfied(s.db, id) ::
      exists g :: g in TickGpus(s, cfg, i) && GoodForLong(ViewAt(s, cfg, i), history, Job(id, s.db.tasks[id].need), g)
  }

  /** In any run of the scheduler: if work remains at an unpaused tick and, for every queued task whose
      dependencies are done, some GPU it may use has been good for long enough, the tick plans a task. */
  lemma RunsMakeProgress(states: seq<Sys>, cfg: Config, steps: seq<SysStep>, k: nat, i: TickInput)
    requires RunOf(states, cfg, steps) && k < |steps| && steps[k] == TickStep(i) && !i.paused
    requires WorkRemains(states[k].db, i.now)
    requires GpusGoodForLong(states[k], cfg, i, History(states, cfg, steps, k) + [TickRefresh(states[k], cfg, i)])
    ensures Assignments(states[k], cfg, i) != []
  {
    var s, v := states[k], ViewAt(states[k], cfg, i);
    var history := History(states, cfg, steps, k) + [TickRefresh(s, cfg, i)];
    EveryStateIsSafe(states, cfg, steps, k);
    forall id | TaskRuns.IsQueued(s.db, id) && DependenciesSatisfied(s.db, id)
      ensures exists g :: g in TickGpus(s, cfg, i) && Serves(v, Job(id, s.db.tasks[id].need), g)
    {
      var g :| g in TickGpus(s, cfg, i) && GoodForLong(v, history, Job(id, s.db.tasks[id].need), g);
      LongIsFull(states, cfg, steps, k, i, Job(id, s.db.tasks[id].need), g);
    }
    TickPlansSomething(s, cfg, i);
  }

  lemma LongIsFull(states: seq<Sys>, cfg: Config, steps: seq<SysStep>, k: nat, i: TickInput, job: Job, g: Gpu)
    requires RunOf(states, cfg, steps) && k < |steps| && steps[k] == TickStep(i)
    requires GoodForLong(ViewAt(states[k], cfg, i),
                         History(states, cfg, steps, k) + [TickRefresh(states[k], cfg, i)], job, g)
    ensures Serves(ViewAt(states[k], cfg, i), job, g)
  {
    var history := History(states, cfg, steps, k) + [TickRefresh(states[k], cfg, i)];
    CountsAfterRefresh(states, cfg, steps, k, i);
    FullCountMeans(1, history, (g.index, ConditionFor(ViewAt(states[k], cfg, i), job, g).value));
  }
}
