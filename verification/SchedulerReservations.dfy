/** Memory reservations over whole runs: who may hold one, and for what. */
module SchedulerReservations {
  import opened Matching
  import opened SchedulerModel
  import opened SchedulerRuns

  // ---------- A reservation is given up before its task starts ----------

  ghost predicate NoneRunning(s: Sys) {
    forall id | id in s.reservations :: id !in s.running
  }

  lemma CarryKeepsNoneRunning(s: Sys, a: Assignment, i: TickInput)
    requires HandlesOk(s.db.tasks, s.running) && LaunchOk(s, a, i.now) && NoneRunning(s)
    ensures NoneRunning(Carry(s, a, i))
  {
    assert a.job.id !in s.running;
  }

  lemma NextIsLaunchable(s0: Sys, plan: seq<Assignment>, k: nat, i: TickInput)
    requires Safe(s0) && GoodPlan(s0, plan, i.now) && k < |plan|
    ensures var s := CarryOut(s0, plan[..k], i); HandlesOk(s.db.tasks, s.running) && LaunchOk(s, plan[k], i.now)
  {
    CarryOutKeeps(s0, plan, k, i);
    NextLaunchOk(s0, CarryOut(s0, plan[..k], i), plan, k, i.now);
  }

  lemma {:induction false} CarryOutKeepsNoneRunning(s0: Sys, plan: seq<Assignment>, k: nat, i: TickInput)
    requires Safe(s0) && GoodPlan(s0, plan, i.now) && k <= |plan| && NoneRunning(s0)
    ensures NoneRunning(CarryOut(s0, plan[..k], i))
  {
    if k > 0 {
      CarryOutKeepsNoneRunning(s0, plan, k - 1, i);
      assert plan[..k][..k - 1] == plan[..k - 1];
      NextIsLaunchable(s0, plan, k - 1, i);
      CarryKeepsNoneRunning(CarryOut(s0, plan[..k - 1], i), plan[k - 1], i);
    }
  }

  lemma TickKeepsNoneRunning(s: Sys, cfg: Config, i: TickInput)
    requires Safe(s) && HonestReadings(s, cfg, i) && NoneRunning(s)
    ensures NoneRunning(Tick(s, cfg, i))
  {
    var plan, s0 := Assignments(s, cfg, i), Prepared(s, cfg, i);
    PreparedIsGood(s, cfg, i);
    CarryOutKeepsNoneRunning(s0, plan, |plan|, i);
    assert plan[..|plan|] == plan;
  }

  /** In every state of every run, no running task holds a reservation. */
  lemma {:induction false} ReservationsAreReleased(states: seq<Sys>, cfg: Config, steps: seq<SysStep>, k: nat)
    requires RunOf(states, cfg, steps) && k <= |steps|
    ensures NoneRunning(states[k])
  {
    if k > 0 {
      ReservationsAreReleased(states, cfg, steps, k - 1);
      EveryStateIsSafe(states, cfg, steps, k - 1);
      StepKeepsNoneRunning(states[k - 1], cfg, steps[k - 1]);
    }
  }

  lemma StepKeepsNoneRunning(s: Sys, cfg: Config, step: SysStep)
    requires Safe(s) && Enabled(s, cfg, step) && NoneRunning(s)
    ensures NoneRunning(Next(s, cfg, step))
  {
    match step
    case TickStep(i) => TickKeepsNoneRunning(s, cfg, i);
    case _ =>
  }

  // ---------- A reservation is for a listed task, as it asks ----------

  ghost predicate AllAskedFor(s: Sys, jobs: seq<Job>) {
    forall id | id in s.reservations :: s.reservations[id].alive && AskedFor(jobs, id, s.reservations[id])
  }

  lemma CarryKeepsAskedFor(s: Sys, a: Assignment, i: TickInput, jobs: seq<Job>)
    requires AllAskedFor(s, jobs) && a.job in jobs && MayUse(a.job, a.gpu)
    ensures AllAskedFor(Carry(s, a, i), jobs)
  {}

  lemma {:induction false} CarryOutKeepsAskedFor(s0: Sys, plan: seq<Assignment>, i: TickInput, jobs: seq<Job>)
    requires AllAskedFor(s0, jobs) && forall a | a in plan :: a.job in jobs && MayUse(a.job, a.gpu)
    ensures AllAskedFor(CarryOut(s0, plan, i), jobs)
  {
    if plan != [] {
      var n := |plan| - 1;
      CarryOutKeepsAskedFor(s0, plan[..n], i, jobs);
      assert plan[n] in plan;
      CarryKeepsAskedFor(CarryOut(s0, plan[..n], i), plan[n], i, jobs);
    }
  }

  /** After any tick, from any state, every reservation left is alive, and is held for a task that
      was ready in that tick, of the size it asks for and on the GPU it asks for. */
  lemma TickLeavesOnlyAskedFor(s: Sys, cfg: Config, i: TickInput)
    ensures AllAskedFor(Tick(s, cfg, i), QueuedJobs(s.db, i.now))
  {
    var jobs, s0, cooling := QueuedJobs(s.db, i.now), Prepared(s, cfg, i), Cooling(s.cooldowns, cfg, i.now);
    QueuedJobsAre(s.db, i.now);
    AssignmentsAreListed(ViewOf(s0, cooling), jobs, Available(TickPayload(s, cfg, i), cooling));
    SyncedAreAskedFor(s.reservations, jobs, i.alive);
    CarryOutKeepsAskedFor(s0, Assignments(s, cfg, i), i, jobs);
  }

  lemma SyncedAreAskedFor(reservations: map<nat, Reservation>, jobs: seq<Job>, alive: set<nat>)
    ensures var kept := SyncReservations(reservations, jobs, alive);
            forall id | id in kept :: kept[id].alive && AskedFor(jobs, id, kept[id])
  {
    var kept := SyncReservations(reservations, jobs, alive);
    forall id | id in kept ensures AskedFor(jobs, id, kept[id]) {
      assert Wanted(jobs, id, reservations[id], alive);
    }
  }
}
