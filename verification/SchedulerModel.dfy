/** The scheduler's state and its steps: one tick, one watcher completion, one stop request. */
module SchedulerModel {
  import opened DependencyGraph
  import opened Gpus
  import opened Matching
  import opened Options
  import opened Readiness
  import opened TaskModel

  datatype StopReason = Cancel | Preemption | Interruption

  /** A live process: where it runs, its attempt number, and what was asked of it. */
  datatype Handle = Handle(gpu: nat, attempt: nat, stop: Option<StopReason>, requeueTo: Option<Queue>)

  datatype Config = Config(thresholdMb: int, cooldown: int, retryLimit: int, retryDelay: int)

  datatype Sys = Sys(
    db: Db, running: map<TaskId, Handle>, reservations: map<nat, Reservation>,
    failures: map<nat, (nat, int)>, ready: Ready, cooldowns: map<nat, int>)

  /** What the environment supplies to one tick. allowed is the effective GPU set (None: all);
      alive are the tasks whose reservation process still runs; started and reserved say which
      launches and which reservation processes succeed. */
  datatype TickInput = TickInput(
    now: int, readings: seq<GpuInfo>, allowed: Option<set<nat>>, paused: bool,
    alive: set<nat>, started: set<TaskId>, reserved: set<nat>)

  // ---------- The payload ----------

  function Cooling(cooldowns: map<nat, int>, cfg: Config, now: int): set<nat> {
    set g | g in cooldowns && cfg.cooldown > 0 && cooldowns[g] + cfg.cooldown > now
  }

  function Occupied(running: map<TaskId, Handle>): set<nat> {
    set id | id in running :: running[id].gpu
  }

  function PayloadEntry(r: GpuInfo, cfg: Config, occupied: set<nat>, allowed: Option<set<nat>>, cooling: set<nat>): Gpu {
    var g := Describe(r, cfg.thresholdMb, r.index in occupied, allowed.None? || r.index in allowed.value);
    if r.index in cooling then g.(idle := false) else g
  }

  function Payload(readings: seq<GpuInfo>, cfg: Config, occupied: set<nat>, allowed: Option<set<nat>>, cooling: set<nat>)
    : (gpus: seq<Gpu>)
    ensures |gpus| == |readings|
    ensures forall i | 0 <= i < |gpus| :: gpus[i] == PayloadEntry(readings[i], cfg, occupied, allowed, cooling)
  {
    seq(|readings|, i requires 0 <= i < |readings| => PayloadEntry(readings[i], cfg, occupied, allowed, cooling))
  }

  /** Enabled GPUs that are not cooling, in payload order. */
  function Available(gpus: seq<Gpu>, cooling: set<nat>): (r: seq<Gpu>)
    ensures forall g :: g in r <==> g in gpus && g.enabled && g.index !in cooling
  {
    if gpus == [] then []
    else
      var n := |gpus| - 1;
      assert gpus == gpus[..n] + [gpus[n]];
      Available(gpus[..n], cooling) +
      (if gpus[n].enabled && gpus[n].index !in cooling then [gpus[n]] else [])
  }

  // ---------- The task list ----------

  predicate ReadyForLaunch(db: Db, id: TaskId, now: int)
    requires id in db.tasks
  {
    && DependenciesSatisfied(db, id)
    && (db.tasks[id].nextRetryAt.None? || db.tasks[id].nextRetryAt.value <= now)
  }

  function JobsOf(db: Db, ids: seq<TaskId>, now: int): seq<Job> {
    if ids == [] then []
    else
      var id := ids[|ids| - 1];
      JobsOf(db, ids[..|ids| - 1], now) +
      if id in db.tasks && ReadyForLaunch(db, id, now) then [Job(id, db.tasks[id].need)] else []
  }

  ghost function QueuedJobs(db: Db, now: int): seq<Job> {
    JobsOf(db, Reading(db.tasks, UrgentQueue) + Reading(db.tasks, NormalQueue), now)
  }

  // ---------- Reservations ----------

  /** Some listed task asks for this size, on this GPU or on any. */
  predicate AskedFor(jobs: seq<Job>, id: nat, r: Reservation) {
    exists j | j in jobs ::
      j.id == id && j.need.reservationMb == Some(r.mb) && (j.need.requestedGpu.None? || j.need.requestedGpu.value == r.gpu)
  }

  predicate Wanted(jobs: seq<Job>, id: nat, r: Reservation, alive: set<nat>) {
    id in alive && AskedFor(jobs, id, r)
  }

  function SyncReservations(reservations: map<nat, Reservation>, jobs: seq<Job>, alive: set<nat>): map<nat, Reservation> {
    map id | id in reservations && Wanted(jobs, id, reservations[id], alive) :: reservations[id].(alive := true)
  }

  function SyncFailures(failures: map<nat, (nat, int)>, jobs: seq<Job>): map<nat, (nat, int)> {
    map id | id in failures && (exists j | j in jobs :: j.id == id) :: failures[id]
  }

  // ---------- A tick ----------

  function SatisfiedKeys(gpus: seq<Gpu>, budgets: set<int>, cooling: set<nat>): (sat: set<Key>)
    ensures forall k :: k in sat <==> Satisfies(gpus, budgets, cooling, k)
  {
    var conditions := {Idle} + set mb | mb in budgets :: Budget(mb);
    var sat := set g, c | g in gpus && c in conditions && Satisfies([g], budgets, cooling, (g.index, c)) :: (g.index, c);
    forall k: Key | Satisfies(gpus, budgets, cooling, k) ensures k in sat {
      var g :| g in gpus && g.index == k.0 && g.index !in cooling && g.enabled && match k.1
        case Idle => g.idle
        case Budget(mb) => mb in budgets && HasBudgetCapacity(g, mb, 0);
      assert g in [g] && Satisfies([g], budgets, cooling, (g.index, k.1)) && k.1 in conditions;
    }
    sat
  }

  function SeenFreeGpus(gpus: seq<Gpu>, cooling: set<nat>, released: set<nat>): (seen: set<nat>)
    ensures forall g :: g in seen <==> SeenFree(gpus, cooling, released, g)
  {
    set g | g in released && SeenFree(gpus, cooling, released, g)
  }

  function TickPayload(s: Sys, cfg: Config, i: TickInput): seq<Gpu> {
    Payload(i.readings, cfg, Occupied(s.running), i.allowed, Cooling(s.cooldowns, cfg, i.now))
  }

  /** After the payload refresh, the reservation sync and the readiness refresh. */
  function PreparedWith(s: Sys, gpus: seq<Gpu>, jobs: seq<Job>, cooling: set<nat>, alive: set<nat>): Sys {
    s.(cooldowns := map g | g in cooling && g in s.cooldowns :: s.cooldowns[g],
       reservations := SyncReservations(s.reservations, jobs, alive),
       failures := SyncFailures(s.failures, jobs),
       ready := Refresh(s.ready, SatisfiedKeys(gpus, BudgetsOf(jobs), cooling),
                        SeenFreeGpus(gpus, cooling, s.ready.released)))
  }

  ghost function Prepared(s: Sys, cfg: Config, i: TickInput): Sys {
    PreparedWith(s, TickPayload(s, cfg, i), QueuedJobs(s.db, i.now), Cooling(s.cooldowns, cfg, i.now), i.alive)
  }

  function ViewOf(s: Sys, cooling: set<nat>): View {
    View(s.ready.counts, s.ready.required, s.reservations, cooling)
  }

  ghost function Assignments(s: Sys, cfg: Config, i: TickInput): seq<Assignment> {
    var cooling := Cooling(s.cooldowns, cfg, i.now);
    if i.paused then []
    else Match(ViewOf(Prepared(s, cfg, i), cooling), QueuedJobs(s.db, i.now),
               Available(TickPayload(s, cfg, i), cooling)).assignments
  }

  /** A task with a reservation first gets its reservation process; it is launched at a later
      tick, or at once when that process could not be started there before. */
  predicate MustReserve(s: Sys, a: Assignment) {
    && a.job.need.reservationMb.Some? && a.job.need.reservationMb.value > 0
    && (a.job.id in s.failures ==> s.failures[a.job.id] != (a.gpu.index, a.job.need.reservationMb.value))
    && !(a.job.id in s.reservations
         && s.reservations[a.job.id] == Reservation(a.gpu.index, a.job.need.reservationMb.value, true))
  }

  function StartReservation(s: Sys, a: Assignment, ok: bool): Sys
    requires a.job.need.reservationMb.Some?
  {
    var mb := a.job.need.reservationMb.value;
    if ok then
      s.(reservations := s.reservations[a.job.id := Reservation(a.gpu.index, mb, true)],
         failures := s.failures - {a.job.id})
    else
      s.(reservations := s.reservations - {a.job.id},
         failures := s.failures[a.job.id := (a.gpu.index, mb)])
  }

  function LaunchTask(s: Sys, a: Assignment, now: int, ok: bool): Sys
    requires a.job.id in s.db.tasks
  {
    var id, gpu := a.job.id, a.gpu.index;
    var s1 := s.(reservations := s.reservations - {id}, ready := ClearGpu(s.ready, gpu));
    if ok then
      var db := MarkTaskRunning(s.db, id, gpu, now).db;
      s1.(db := db, running := s.running[id := Handle(gpu, db.tasks[id].attemptCount, None, None)])
    else
      s1.(db := MarkTaskLaunchFailed(s.db, id, Some(s.db.tasks[id].attemptCount + 1)))
  }

  function Carry(s: Sys, a: Assignment, i: TickInput): Sys {
    if a.job.id !in s.db.tasks then s
    else if MustReserve(s, a) then StartReservation(s, a, a.job.id in i.reserved)
    else LaunchTask(s, a, i.now, a.job.id in i.started)
  }

  function CarryOut(s: Sys, assignments: seq<Assignment>, i: TickInput): Sys {
    if assignments == [] then s
    else Carry(CarryOut(s, assignments[..|assignments| - 1], i), assignments[|assignments| - 1], i)
  }

  ghost function Tick(s: Sys, cfg: Config, i: TickInput): Sys {
    CarryOut(Prepared(s, cfg, i), Assignments(s, cfg, i), i)
  }

  // ---------- A watcher's completion ----------

  /** Killed by HUP, INT, QUIT, KILL or TERM, seen as a signal or through a shell. */
  const INTERRUPTED_EXIT_CODES := {-1, -2, -3, -9, -15, 129, 130, 131, 137, 143}

  datatype Verdict = Preempted(queue: Queue) | Requeued(target: Option<Queue>, killed: bool) | Retried | Ended(status: Status)

  predicate Retryable(code: int, oomInLog: bool) {
    code in {137, 143, -9, -15} || oomInLog
  }

  predicate ShouldRetry(h: Handle, code: int, oomInLog: bool, retryLimit: int) {
    && retryLimit > 0
    && (if h.attempt - 1 > 0 then h.attempt - 1 else 0) < retryLimit
    && Retryable(code, oomInLog)
  }

  function Decide(h: Handle, code: int, oomInLog: bool, retryLimit: int): Verdict {
    if h.stop == Some(Preemption) then Preempted(if h.requeueTo.Some? then h.requeueTo.value else NormalQueue)
    else if h.stop == Some(Cancel) then Ended(Cancelled)
    else if h.stop == Some(Interruption) then Requeued(h.requeueTo, false)
    else if code in INTERRUPTED_EXIT_CODES then Requeued(h.requeueTo, true)
    else if code == 0 then Ended(Succeeded)
    else if ShouldRetry(h, code, oomInLog, retryLimit) then Retried
    else Ended(Failed)
  }

  /** The retry test's own list of kill codes is never reached: those exits are requeued first. */
  lemma KillsAreRequeuedNotRetried(h: Handle, code: int, oomInLog: bool, retryLimit: int)
    ensures Decide(h, code, oomInLog, retryLimit).Retried? ==>
              oomInLog && code != 0 && code !in {137, 143, -9, -15} && h.attempt <= retryLimit && h.stop.None?
  {
    match h.stop
    case None =>
    case Some(reason) => match reason { case Cancel => case Preemption => case Interruption => }
  }

  ghost function EndTask(db: Db, id: TaskId, v: Verdict, retryAt: int): Outcome {
    match v
    case Preempted(q) => PreemptRunningTask(db, id, q)
    case Requeued(target, _) => RequeueRunningTask(db, id, target)
    case Retried => ScheduleTaskRetry(db, id, retryAt)
    case Ended(status) => FinishTask(db, id, status)
  }

  /** The store is written, the handle dropped and the GPU flagged; a kill from outside also
      starts the GPU's cooldown. */
  ghost function Settle(s: Sys, cfg: Config, id: TaskId, v: Verdict, now: int): Sys
    requires id in s.running
  {
    var gpu := s.running[id].gpu;
    var o := EndTask(s.db, id, v, RetryTime(cfg, now));
    var cools := v.Requeued? && v.killed && cfg.cooldown > 0;
    var ready := if cools then ClearGpu(s.ready, gpu) else s.ready;
    s.(db := if o.Ok? then o.db else s.db,
       running := s.running - {id},
       cooldowns := if cools then s.cooldowns[gpu := now] else s.cooldowns,
       ready := ready.(released := ready.released + {gpu}))
  }

  function RetryTime(cfg: Config, now: int): int {
    now + if cfg.retryDelay < 0 then 0 else cfg.retryDelay
  }

  ghost function Complete(s: Sys, cfg: Config, id: TaskId, code: int, oomInLog: bool, now: int): Sys
    requires id in s.running
  {
    Settle(s, cfg, id, Decide(s.running[id], code, oomInLog, cfg.retryLimit), now)
  }

  /** A stop request marks the handle; interrupting without a target keeps an earlier target. */
  function RequestStop(s: Sys, id: TaskId, reason: StopReason, target: Option<Queue>): Sys
    requires id in s.running
  {
    var h := s.running[id];
    s.(running := s.running[id := h.(stop := Some(reason), requeueTo := if target.Some? then target else h.requeueTo)])
  }

  /** The service restarts: nothing in memory survives. */
  ghost function Reboot(s: Sys, checks: nat): Sys {
    Sys(RequeueRunningTasks(s.db), map[], map[], map[], Ready(map[], {}, checks), map[])
  }
}
