/** Which tasks a tick considers, in which order, and what it makes of them: said on the rows of the
    store, without the functions that compute it. */
module SchedulerChoice {
  import opened DependencyGraph
  import opened Matching
  import opened MatchingGreedy
  import opened Ordering
  import opened SchedulerModel
  import opened SchedulerProgress
  import opened SchedulerReadiness
  import opened SchedulerRuns
  import opened TaskModel
  import TaskQueues
  import TaskRuns

  // ---------- The list ----------

  /** Urgent tasks come before normal ones; within a queue the smaller rank comes first. */
  predicate Ahead(tasks: Tasks, a: TaskId, b: TaskId) {
    && a in tasks && b in tasks && tasks[a].rank.Some? && tasks[b].rank.Some?
    && if tasks[a].queue == tasks[b].queue
       then tasks[a].rank.value < tasks[b].rank.value || (tasks[a].rank == tasks[b].rank && a < b)
       else tasks[a].queue == UrgentQueue && tasks[b].queue == NormalQueue
  }

  ghost predicate AllAhead(tasks: Tasks, ids: seq<TaskId>) {
    forall x, y | 0 <= x < y < |ids| :: Ahead(tasks, ids[x], ids[y])
  }

  lemma ReadingAhead(tasks: Tasks, q: Queue)
    requires TaskQueues.TasksOk(tasks)
    ensures AllAhead(tasks, Reading(tasks, q))
  {
    var r := Reading(tasks, q);
    TaskQueues.ReadingMembers(tasks, q);
    forall x, y | 0 <= x < y < |r| ensures Ahead(tasks, r[x], r[y]) {
      assert r[x] in r && r[y] in r;
      assert TaskQueues.TaskOk(tasks[r[x]]) && TaskQueues.TaskOk(tasks[r[y]]);
      assert Before(RankKeys(tasks), r[x], r[y]);
    }
  }

  lemma QueuesAhead(tasks: Tasks)
    requires TaskQueues.TasksOk(tasks)
    ensures AllAhead(tasks, Reading(tasks, UrgentQueue) + Reading(tasks, NormalQueue))
  {
    var u, n := Reading(tasks, UrgentQueue), Reading(tasks, NormalQueue);
    ReadingAhead(tasks, UrgentQueue);
    ReadingAhead(tasks, NormalQueue);
    TaskQueues.ReadingMembers(tasks, UrgentQueue);
    TaskQueues.ReadingMembers(tasks, NormalQueue);
    forall x, y | 0 <= x < y < |u + n| ensures Ahead(tasks, (u + n)[x], (u + n)[y]) {
      if x < |u| <= y {
        assert u[x] in u && n[y - |u|] in n;
        assert TaskQueues.TaskOk(tasks[u[x]]) && TaskQueues.TaskOk(tasks[n[y - |u|]]);
      }
    }
  }

  ghost predicate JobsInOrder(tasks: Tasks, jobs: seq<Job>) {
    forall x, y | 0 <= x < y < |jobs| :: Ahead(tasks, jobs[x].id, jobs[y].id)
  }

  lemma {:induction false} JobsAhead(db: Db, ids: seq<TaskId>, now: int)
    requires Distinct(ids) && AllAhead(db.tasks, ids)
    ensures JobsInOrder(db.tasks, JobsOf(db, ids, now))
  {
    if ids != [] {
      var n := |ids| - 1;
      JobsAhead(db, ids[..n], now);
      JobsOfIs(db, ids[..n], now);
      var jobs := JobsOf(db, ids[..n], now);
      forall x | 0 <= x < |jobs| ensures Ahead(db.tasks, jobs[x].id, ids[n]) {
        assert jobs[x] in jobs;
        var y :| 0 <= y < n && ids[..n][y] == jobs[x].id;
        assert ids[y] == jobs[x].id;
      }
      var all := JobsOf(db, ids, now);
      assert all == jobs || all == jobs + [Job(ids[n], db.tasks[ids[n]].need)];
    }
  }

  /** The list of a tick holds exactly the startable tasks with their stored needs, each ahead of the
      next; there is only one such list. */
  lemma ListIsExact(db: Db, now: int)
    requires TaskRuns.Valid(db)
    ensures var jobs := QueuedJobs(db, now);
            && (forall j :: j in jobs <==> Startable(db, j.id, now) && j.need == db.tasks[j.id].need)
            && JobsInOrder(db.tasks, jobs)
  {
    QueuedJobsAre(db, now);
    forall j: Job | Startable(db, j.id, now) && j.need == db.tasks[j.id].need ensures j in QueuedJobs(db, now) {
      ReadyIsListed(db, now, j.id);
    }
    ListInOrder(db, now);
  }

  lemma ListInOrder(db: Db, now: int)
    requires TaskRuns.Valid(db)
    ensures JobsInOrder(db.tasks, QueuedJobs(db, now))
  {
    var ids := Reading(db.tasks, UrgentQueue) + Reading(db.tasks, NormalQueue);
    QueuesAhead(db.tasks);
    DistinctIfAhead(db.tasks, ids);
    JobsAhead(db, ids, now);
  }

  lemma DistinctIfAhead(tasks: Tasks, ids: seq<TaskId>)
    requires AllAhead(tasks, ids)
    ensures Distinct(ids)
  {
    forall x, y | 0 <= x < y < |ids| ensures ids[x] != ids[y] {
      assert Ahead(tasks, ids[x], ids[y]);
    }
  }

  // ---------- Urgent tasks ----------

  lemma {:induction false} JobsOfTwo(db: Db, a: seq<TaskId>, b: seq<TaskId>, now: int)
    ensures JobsOf(db, a + b, now) == JobsOf(db, a, now) + JobsOf(db, b, now)
  {
    if b == [] {
      assert a + b == a;
    } else {
      var n := |b| - 1;
      assert (a + b)[..|a + b| - 1] == a + b[..n];
      JobsOfTwo(db, a, b[..n], now);
    }
  }

  ghost function UrgentJobs(db: Db, now: int): seq<Job> {
    JobsOf(db, Reading(db.tasks, UrgentQueue), now)
  }

  /** What urgent tasks get in a tick is what they would get if no normal task were listed. */
  lemma NormalTasksDisplaceNobody(s: Sys, cfg: Config, i: TickInput)
    requires !i.paused
    ensures Match(ViewAt(s, cfg, i), UrgentJobs(s.db, i.now), TickGpus(s, cfg, i)).assignments <= Assignments(s, cfg, i)
  {
    JobsOfTwo(s.db, Reading(s.db.tasks, UrgentQueue), Reading(s.db.tasks, NormalQueue), i.now);
    UrgentUnaffected(ViewAt(s, cfg, i), UrgentJobs(s.db, i.now),
                     JobsOf(s.db, Reading(s.db.tasks, NormalQueue), i.now), TickGpus(s, cfg, i));
  }

  /** An urgent task is startable exactly when the urgent part of the list is not empty. */
  lemma UrgentIsExact(db: Db, now: int)
    requires TaskRuns.Valid(db)
    ensures UrgentJobs(db, now) != [] <==>
            exists id :: Startable(db, id, now) && db.tasks[id].queue == UrgentQueue
  {
    var u := Reading(db.tasks, UrgentQueue);
    TaskQueues.ReadingMembers(db.tasks, UrgentQueue);
    JobsOfIs(db, u, now);
    var jobs := UrgentJobs(db, now);
    if jobs != [] {
      assert jobs[0] in jobs && jobs[0].id in u;
      assert Startable(db, jobs[0].id, now);
    }
    if id :| Startable(db, id, now) && db.tasks[id].queue == UrgentQueue {
      assert TaskQueues.TaskOk(db.tasks[id]);
      ReadyIsInJobs(db, u, now, id);
    }
  }

  // ---------- The plan ----------

  lemma PausedPlansNothing(s: Sys, cfg: Config, i: TickInput)
    requires i.paused
    ensures Assignments(s, cfg, i) == []
  {}

  /** The plan of a tick after n tasks of its list. */
  ghost function PlanAfter(s: Sys, cfg: Config, i: TickInput, n: nat): seq<Assignment>
    requires n <= |QueuedJobs(s.db, i.now)|
  {
    Match(ViewAt(s, cfg, i), QueuedJobs(s.db, i.now)[..n], TickGpus(s, cfg, i)).assignments
  }

  lemma PlanGrows(s: Sys, cfg: Config, i: TickInput, n: nat)
    requires !i.paused && n <= |QueuedJobs(s.db, i.now)|
    ensures PlanAfter(s, cfg, i, n) <= Assignments(s, cfg, i)
    ensures n == 0 ==> PlanAfter(s, cfg, i, n) == []
    ensures n == |QueuedJobs(s.db, i.now)| ==> PlanAfter(s, cfg, i, n) == Assignments(s, cfg, i)
  {
    var jobs := QueuedJobs(s.db, i.now);
    PrefixOfPlan(ViewAt(s, cfg, i), jobs, TickGpus(s, cfg, i), n);
    if n == |jobs| { assert jobs[..n] == jobs; }
  }

  /** A tick goes through its list once: the n-th task is planned on the first GPU that takes it beside the
      tasks planned before, and is left out exactly if none does. */
  lemma TickIsGreedy(s: Sys, cfg: Config, i: TickInput, n: nat)
    requires DistinctReadings(i.readings) && n < |QueuedJobs(s.db, i.now)|
    ensures var v, job, gpus := ViewAt(s, cfg, i), QueuedJobs(s.db, i.now)[n], TickGpus(s, cfg, i);
            var before, after := PlanAfter(s, cfg, i, n), PlanAfter(s, cfg, i, n + 1);
            || (after == before && forall g | g in gpus :: !Takes(v, before, job, g))
            || (exists x: nat :: FirstTaking(v, before, job, gpus, x) && after == before + [Assignment(job, gpus[x])])
  {
    TickGpuFacts(s, cfg, i);
    PassIsGreedy(ViewAt(s, cfg, i), QueuedJobs(s.db, i.now), TickGpus(s, cfg, i), n);
  }

  // ---------- Whole runs ----------

  /** The state just before position x of the plan of a tick is handled. */
  ghost function AtPosition(s: Sys, cfg: Config, i: TickInput, x: nat): Sys
    requires x <= |Assignments(s, cfg, i)|
  {
    CarryOut(Prepared(s, cfg, i), Assignments(s, cfg, i)[..x], i)
  }

  /** The task at position x of the plan is queued, every task it depends on is stored and has succeeded, its
      retry time has come, and without a budget it has its GPU to itself. */
  ghost predicate RightAt(s: Sys, a: Assignment, now: int) {
    && a.job.id in s.db.tasks && s.db.tasks[a.job.id].status == Queued
    && (forall e | e in s.db.deps && e.0 == a.job.id :: e.1 in s.db.tasks && s.db.tasks[e.1].status == Succeeded)
    && (s.db.tasks[a.job.id].nextRetryAt.Some? ==> s.db.tasks[a.job.id].nextRetryAt.value <= now)
    && (s.db.tasks[a.job.id].need.budgetMb.None? ==> forall id | id in s.running :: s.running[id].gpu != a.gpu.index)
  }

  lemma LaunchIsRight(s: Sys, cfg: Config, i: TickInput, x: nat)
    requires Safe(s) && HonestReadings(s, cfg, i) && x < |Assignments(s, cfg, i)|
    ensures RightAt(AtPosition(s, cfg, i, x), Assignments(s, cfg, i)[x], i.now)
  {
    EveryLaunchIsOk(s, cfg, i, x);
    PreparedIsGood(s, cfg, i);
    CarryOutKeeps(Prepared(s, cfg, i), Assignments(s, cfg, i), x, i);
    var t := AtPosition(s, cfg, i, x);
    assert forall id | id in t.running :: t.running[id].gpu in Occupied(t.running);
  }

  /** In every run, whenever a planned task is handled, so it is in the state reached by then. */
  lemma EveryLaunchInRuns(states: seq<Sys>, cfg: Config, steps: seq<SysStep>, k: nat, i: TickInput, x: nat)
    requires RunOf(states, cfg, steps) && k < |steps| && steps[k] == TickStep(i) && x < |Assignments(states[k], cfg, i)|
    ensures RightAt(AtPosition(states[k], cfg, i, x), Assignments(states[k], cfg, i)[x], i.now)
  {
    EveryStateIsSafe(states, cfg, steps, k);
    LaunchIsRight(states[k], cfg, i, x);
  }
}
