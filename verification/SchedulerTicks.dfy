/** What a whole tick leaves behind: for every planned task what became of it, and for every other task
    that nothing did. */
module SchedulerTicks {
  import opened DependencyGraph
  import opened Matching
  import opened Options
  import opened SchedulerModel
  import opened SchedulerReadings
  import opened SchedulerRuns
  import opened TaskModel
  import SchedulerChoice
  import TaskRuns

  // ---------- Before the plan is carried out ----------

  /** The task may keep a reservation r: its process is alive, and the task is startable and asks for just
      this size, on this GPU or on any. */
  ghost predicate Keeps(s: Sys, i: TickInput, id: TaskId, r: Reservation) {
    && id in i.alive && Startable(s.db, id, i.now)
    && s.db.tasks[id].need.reservationMb == Some(r.mb)
    && (s.db.tasks[id].need.requestedGpu.Some? ==> s.db.tasks[id].need.requestedGpu.value == r.gpu)
  }

  lemma AskedForMeans(s: Sys, i: TickInput, id: TaskId, r: Reservation)
    requires TaskRuns.Valid(s.db)
    ensures Wanted(QueuedJobs(s.db, i.now), id, r, i.alive) <==> Keeps(s, i, id, r)
  {
    var jobs := QueuedJobs(s.db, i.now);
    SchedulerChoice.ListIsExact(s.db, i.now);
    if Keeps(s, i, id, r) { assert Job(id, s.db.tasks[id].need) in jobs; }
  }

  lemma ListedMeans(db: Db, now: int, id: TaskId)
    requires TaskRuns.Valid(db)
    ensures (exists j | j in QueuedJobs(db, now) :: j.id == id) <==> Startable(db, id, now)
  {
    SchedulerChoice.ListIsExact(db, now);
    if Startable(db, id, now) { assert Job(id, db.tasks[id].need) in QueuedJobs(db, now); }
  }

  /** The tick first drops exactly the reservations that may not be kept, the failures of tasks that are
      not startable, and the cooldowns that have run out. */
  lemma PreparedMeans(s: Sys, cfg: Config, i: TickInput)
    requires TaskRuns.Valid(s.db)
    ensures var p := Prepared(s, cfg, i);
            && p.db == s.db && p.running == s.running
            && (forall id :: id in p.reservations <==> id in s.reservations && Keeps(s, i, id, s.reservations[id]))
            && (forall id | id in p.reservations :: p.reservations[id] == s.reservations[id].(alive := true))
            && (forall id :: id in p.failures <==> id in s.failures && Startable(s.db, id, i.now))
            && (forall id | id in p.failures :: p.failures[id] == s.failures[id])
            && (forall g :: g in p.cooldowns <==> CoolsDown(s, cfg, i.now, g))
            && (forall g | g in p.cooldowns :: p.cooldowns[g] == s.cooldowns[g])
  {
    forall id, r { AskedForMeans(s, i, id, r); }
    forall id { ListedMeans(s.db, i.now, id); }
  }

  // ---------- One planned task ----------

  /** The task wants a reservation, holds no live one of that size on that GPU, and none has failed there. */
  ghost predicate Reserves(s: Sys, a: Assignment) {
    match a.job.need.reservationMb
    case None => false
    case Some(mb) =>
      && mb > 0
      && !(a.job.id in s.failures && s.failures[a.job.id] == (a.gpu.index, mb))
      && !(a.job.id in s.reservations && s.reservations[a.job.id] == Reservation(a.gpu.index, mb, true))
  }

  /** A task that only reserves: its row and handle stay, and the reservation is held or its failure noted. */
  ghost predicate Reserved(s0: Sys, s: Sys, a: Assignment, ok: bool) {
    var id := a.job.id;
    && id in s0.db.tasks && id in s.db.tasks && s.db.tasks[id] == s0.db.tasks[id] && id !in s.running
    && a.job.need.reservationMb.Some?
    && if ok then id !in s.failures && id in s.reservations
                  && s.reservations[id] == Reservation(a.gpu.index, a.job.need.reservationMb.value, true)
       else id !in s.reservations && id in s.failures
            && s.failures[id] == (a.gpu.index, a.job.need.reservationMb.value)
  }

  /** A task whose next attempt runs on its GPU, or failed at once. */
  ghost predicate Launched(s0: Sys, s: Sys, a: Assignment, now: int, ok: bool) {
    var id := a.job.id;
    && id in s0.db.tasks && id in s.db.tasks && id !in s.reservations
    && (id in s.failures <==> id in s0.failures)
    && s.db.tasks[id].attemptCount == s0.db.tasks[id].attemptCount + 1
    && s.db.tasks[id].need == s0.db.tasks[id].need
    && if ok then s.db.tasks[id].status == Running && s.db.tasks[id].assignedGpu == Some(a.gpu.index)
                  && s.db.tasks[id].startedAt == Some(now) && s.db.tasks[id].nextRetryAt == None
                  && id in s.running && s.running[id] == Handle(a.gpu.index, s.db.tasks[id].attemptCount, None, None)
       else s.db.tasks[id].status == Failed && id !in s.running
  }

  ghost predicate Done(s0: Sys, s: Sys, a: Assignment, i: TickInput) {
    if Reserves(s0, a) then Reserved(s0, s, a, a.job.id in i.reserved)
    else Launched(s0, s, a, i.now, a.job.id in i.started)
  }

  ghost predicate Untouched(s0: Sys, s: Sys, id: TaskId) {
    && (id in s.db.tasks <==> id in s0.db.tasks) && (id in s.db.tasks ==> s.db.tasks[id] == s0.db.tasks[id])
    && (id in s.running <==> id in s0.running) && (id in s.running ==> s.running[id] == s0.running[id])
    && (id in s.reservations <==> id in s0.reservations)
    && (id in s.reservations ==> s.reservations[id] == s0.reservations[id])
    && (id in s.failures <==> id in s0.failures) && (id in s.failures ==> s.failures[id] == s0.failures[id])
  }

  ghost predicate SameElsewhere(s0: Sys, s: Sys) {
    s.db.deps == s0.db.deps && s.db.nextId == s0.db.nextId && s.cooldowns == s0.cooldowns
    && s.ready.released <= s0.ready.released && s.ready.required == s0.ready.required
  }

  lemma LaunchDoes(s: Sys, a: Assignment, now: int, ok: bool)
    requires HandlesOk(s.db.tasks, s.running) && LaunchOk(s, a, now)
    ensures Launched(s, LaunchTask(s, a, now, ok), a, now, ok)
  {}

  lemma LaunchLeaves(s: Sys, a: Assignment, now: int, ok: bool)
    requires LaunchOk(s, a, now)
    ensures SameElsewhere(s, LaunchTask(s, a, now, ok))
    ensures forall x | x != a.job.id :: Untouched(s, LaunchTask(s, a, now, ok), x)
  {}

  lemma CarryDoes(s: Sys, a: Assignment, i: TickInput)
    requires HandlesOk(s.db.tasks, s.running) && LaunchOk(s, a, i.now)
    ensures Done(s, Carry(s, a, i), a, i) && SameElsewhere(s, Carry(s, a, i))
    ensures forall x | x != a.job.id :: Untouched(s, Carry(s, a, i), x)
  {
    if !MustReserve(s, a) {
      LaunchDoes(s, a, i.now, a.job.id in i.started);
      LaunchLeaves(s, a, i.now, a.job.id in i.started);
    }
  }

  // ---------- The whole plan ----------

  ghost predicate PlanDone(s0: Sys, s: Sys, plan: seq<Assignment>, i: TickInput) {
    && SameElsewhere(s0, s)
    && (forall a | a in plan :: Done(s0, s, a, i))
    && (forall id | !Listed(plan, id) :: Untouched(s0, s, id))
  }

  lemma DoneFrom(s0: Sys, s: Sys, s': Sys, a: Assignment, i: TickInput)
    requires Untouched(s0, s, a.job.id) && Done(s, s', a, i)
    ensures Done(s0, s', a, i)
  {}

  lemma DoneStays(s0: Sys, s: Sys, s': Sys, a: Assignment, i: TickInput)
    requires Done(s0, s, a, i) && Untouched(s, s', a.job.id)
    ensures Done(s0, s', a, i)
  {}

  lemma PlanDoneMore(s0: Sys, s: Sys, s': Sys, plan: seq<Assignment>, k: nat, i: TickInput)
    requires k < |plan| && PlanDone(s0, s, plan[..k], i) && forall y | 0 <= y < k :: plan[y].job.id != plan[k].job.id
    requires Done(s, s', plan[k], i) && SameElsewhere(s, s') && forall x | x != plan[k].job.id :: Untouched(s, s', x)
    ensures PlanDone(s0, s', plan[..k + 1], i)
  {
    ListedMore(plan, k);
    assert !Listed(plan[..k], plan[k].job.id);
    forall a | a in plan[..k + 1] ensures Done(s0, s', a, i) {
      if a == plan[k] { DoneFrom(s0, s, s', a, i); } else { DoneStays(s0, s, s', a, i); }
    }
    forall id | !Listed(plan[..k + 1], id) ensures Untouched(s0, s', id) {
      assert Untouched(s0, s, id) && Untouched(s, s', id);
    }
  }

  lemma NextIsDone(s0: Sys, s: Sys, plan: seq<Assignment>, k: nat, i: TickInput)
    requires Safe(s0) && GoodPlan(s0, plan, i.now) && k < |plan|
    requires PartlyDone(s0, s, plan[..k]) && forall id | Listed(plan[..k], id) :: TaskRuns.IsQueued(s0.db, id)
    requires PlanDone(s0, s, plan[..k], i)
    ensures PlanDone(s0, Carry(s, plan[k], i), plan[..k + 1], i)
  {
    NextLaunchOk(s0, s, plan, k, i.now);
    CarryDoes(s, plan[k], i);
    PlanDoneMore(s0, s, Carry(s, plan[k], i), plan, k, i);
  }

  lemma {:induction false} CarryOutDoes(s0: Sys, plan: seq<Assignment>, k: nat, i: TickInput)
    requires Safe(s0) && GoodPlan(s0, plan, i.now) && k <= |plan|
    ensures PlanDone(s0, CarryOut(s0, plan[..k], i), plan[..k], i)
  {
    if k > 0 {
      var m := k - 1;
      CarryOutDoes(s0, plan, m, i);
      assert plan[..k][..m] == plan[..m];
      CarryOutKeeps(s0, plan, m, i);
      NextIsDone(s0, CarryOut(s0, plan[..m], i), plan, m, i);
    }
  }

  /** A whole tick: each planned task has reserved or been launched, as its need and the environment say, and
      every other task keeps its row, handle and reservation. */
  lemma TickDoes(s: Sys, cfg: Config, i: TickInput)
    requires Safe(s) && HonestReadings(s, cfg, i)
    ensures PlanDone(Prepared(s, cfg, i), Tick(s, cfg, i), Assignments(s, cfg, i), i)
  {
    var plan := Assignments(s, cfg, i);
    PreparedIsGood(s, cfg, i);
    CarryOutDoes(Prepared(s, cfg, i), plan, |plan|, i);
    assert plan[..|plan|] == plan;
  }
}
