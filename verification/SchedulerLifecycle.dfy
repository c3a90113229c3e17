/** What a run of the scheduler is for the store, and the lifecycle of tasks in it. */
module SchedulerLifecycle {
  import opened DependencyGraph
  import opened Matching
  import opened SchedulerModel
  import opened SchedulerRuns
  import opened TaskModel
  import TaskLifecycle
  import TaskRuns

  // ---------- The store's view of a run ----------

  ghost predicate Explains(db: Db, run: seq<TaskRuns.Step>, db': Db, limit: nat) {
    TaskRuns.ScheduledRun(db, run, limit) && TaskRuns.After(db, run) == db'
  }

  function Retries(run: seq<TaskRuns.Step>, id: TaskId): nat {
    TaskLifecycle.RetryCount(run, id)
  }

  lemma ExplainedThen(db: Db, run: seq<TaskRuns.Step>, mid: Db, step: TaskRuns.Step, limit: nat)
    requires Explains(db, run, mid, limit) && TaskRuns.Scheduled(mid, step, limit)
    ensures Explains(db, run + [step], TaskRuns.Apply(mid, step), limit)
    ensures forall id :: Retries(run + [step], id) == Retries(run, id) + if step.Retry? && step.id == id then 1 else 0
  {
    var longer := run + [step];
    assert longer[..|longer| - 1] == run;
    assert forall i | 0 <= i < |run| :: longer[..i] == run[..i] && longer[i] == run[i];
  }

  /** How one planned task shows up in the store. */
  lemma CarryExplained(s: Sys, a: Assignment, i: TickInput, limit: nat, db: Db, run: seq<TaskRuns.Step>)
      returns (longer: seq<TaskRuns.Step>)
    requires LaunchOk(s, a, i.now) && Explains(db, run, s.db, limit)
    ensures Explains(db, longer, Carry(s, a, i).db, limit)
    ensures forall id :: Retries(longer, id) == Retries(run, id)
  {
    longer := run;
    if !MustReserve(s, a) {
      var step := if a.job.id in i.started then TaskRuns.Launch(a.job.id, a.gpu.index, i.now)
      else TaskRuns.LaunchFailure(a.job.id);
      ExplainedThen(db, run, s.db, step, limit);
      LaunchedDb(s, a, i.now, a.job.id in i.started);
      longer := run + [step];
    }
  }

  lemma {:induction false} PlanExplained(s0: Sys, plan: seq<Assignment>, k: nat, i: TickInput, limit: nat,
                                         db: Db, run: seq<TaskRuns.Step>) returns (longer: seq<TaskRuns.Step>)
    requires Safe(s0) && GoodPlan(s0, plan, i.now) && k <= |plan| && Explains(db, run, s0.db, limit)
    ensures Explains(db, longer, CarryOut(s0, plan[..k], i).db, limit)
    ensures forall id :: Retries(longer, id) == Retries(run, id)
  {
    if k == 0 {
      longer := run;
    } else {
      longer := PlanExplained(s0, plan, k - 1, i, limit, db, run);
      assert plan[..k][..k - 1] == plan[..k - 1];
      var s := CarryOut(s0, plan[..k - 1], i);
      CarryOutKeeps(s0, plan, k - 1, i);
      NextLaunchOk(s0, s, plan, k - 1, i.now);
      longer := CarryExplained(s, plan[k - 1], i, limit, db, longer);
    }
  }

  lemma WholePlanExplained(s0: Sys, plan: seq<Assignment>, i: TickInput, limit: nat, db: Db, run: seq<TaskRuns.Step>)
      returns (longer: seq<TaskRuns.Step>)
    requires Safe(s0) && GoodPlan(s0, plan, i.now) && Explains(db, run, s0.db, limit)
    ensures Explains(db, longer, CarryOut(s0, plan, i).db, limit)
    ensures forall id :: Retries(longer, id) == Retries(run, id)
  {
    longer := PlanExplained(s0, plan, |plan|, i, limit, db, run);
    assert plan[..|plan|] == plan;
  }

  lemma TickExplained(s: Sys, cfg: Config, i: TickInput, db: Db, run: seq<TaskRuns.Step>)
      returns (longer: seq<TaskRuns.Step>)
    requires Safe(s) && HonestReadings(s, cfg, i) && Explains(db, run, s.db, RetryLimit(cfg))
    ensures Explains(db, longer, Tick(s, cfg, i).db, RetryLimit(cfg))
    ensures forall id :: Retries(longer, id) == Retries(run, id)
  {
    PreparedIsGood(s, cfg, i);
    longer := WholePlanExplained(Prepared(s, cfg, i), Assignments(s, cfg, i), i, RetryLimit(cfg), db, run);
  }

  lemma EndingExplained(db0: Db, run: seq<TaskRuns.Step>, db: Db, x: TaskId, v: Verdict, retryAt: int, limit: nat)
    requires TaskRuns.IsRunning(db, x) && Permitted(v, db.tasks[x].attemptCount, limit)
    requires Explains(db0, run, db, limit)
    ensures EndTask(db, x, v, retryAt).Ok?
    ensures Explains(db0, run + [VerdictStep(x, v, retryAt)], EndTask(db, x, v, retryAt).db, limit)
    ensures forall id :: Retries(run + [VerdictStep(x, v, retryAt)], id) ==
                         Retries(run, id) + if v.Retried? && x == id then 1 else 0
  {
    PermittedIsScheduled(db, x, v, retryAt, limit);
    ExplainedThen(db0, run, db, VerdictStep(x, v, retryAt), limit);
  }

  lemma WatcherExplained(s: Sys, cfg: Config, id: TaskId, v: Verdict, now: int, db: Db, run: seq<TaskRuns.Step>)
      returns (longer: seq<TaskRuns.Step>)
    requires HandlesOk(s.db.tasks, s.running) && id in s.running
    requires Permitted(v, s.db.tasks[id].attemptCount, RetryLimit(cfg))
    requires Explains(db, run, s.db, RetryLimit(cfg))
    ensures Explains(db, longer, Settle(s, cfg, id, v, now).db, RetryLimit(cfg))
    ensures forall x :: Retries(longer, x) == Retries(run, x) + if v.Retried? && id == x then 1 else 0
  {
    EndingExplained(db, run, s.db, id, v, RetryTime(cfg, now), RetryLimit(cfg));
    longer := run + [VerdictStep(id, v, RetryTime(cfg, now))];
  }

  lemma CompletionExplained(s: Sys, cfg: Config, step: SysStep, db: Db, run: seq<TaskRuns.Step>)
      returns (longer: seq<TaskRuns.Step>)
    requires step.WatcherStep? && HandlesOk(s.db.tasks, s.running) && step.id in s.running
    requires Explains(db, run, s.db, RetryLimit(cfg))
    ensures Explains(db, longer, Complete(s, cfg, step.id, step.code, step.oomInLog, step.now).db, RetryLimit(cfg))
    ensures forall id :: Retries(longer, id) == Retries(run, id) + if AutoRetries(s, cfg, step, id) then 1 else 0
  {
    DecisionIsPermitted(s.db.tasks[step.id], s.running[step.id], step.code, step.oomInLog, cfg);
    var v := Decide(s.running[step.id], step.code, step.oomInLog, cfg.retryLimit);
    longer := WatcherExplained(s, cfg, step.id, v, step.now, db, run);
  }

  lemma CallExplained(s: Sys, cfg: Config, c: TaskRuns.Step, db: Db, run: seq<TaskRuns.Step>)
    requires (UserCall(s.db, c) || c.Restart?) && Explains(db, run, s.db, RetryLimit(cfg))
    ensures Explains(db, run + [c], TaskRuns.Apply(s.db, c), RetryLimit(cfg))
    ensures forall id :: Retries(run + [c], id) == Retries(run, id)
  {
    if !c.Restart? { UserCallIsScheduled(s.db, c, RetryLimit(cfg)); }
    ExplainedThen(db, run, s.db, c, RetryLimit(cfg));
  }

  /** Step step is a watcher scheduling an automatic retry of task id. */
  predicate AutoRetries(s: Sys, cfg: Config, step: SysStep, id: TaskId) {
    && step.WatcherStep? && step.id == id && step.id in s.running
    && Decide(s.running[step.id], step.code, step.oomInLog, cfg.retryLimit).Retried?
  }

  lemma StepExplained(s: Sys, cfg: Config, step: SysStep, db: Db, run: seq<TaskRuns.Step>)
      returns (longer: seq<TaskRuns.Step>)
    requires Safe(s) && Enabled(s, cfg, step) && Explains(db, run, s.db, RetryLimit(cfg))
    ensures Explains(db, longer, Next(s, cfg, step).db, RetryLimit(cfg))
    ensures forall id :: Retries(longer, id) == Retries(run, id) + if AutoRetries(s, cfg, step, id) then 1 else 0
  {
    if step.TickStep? {
      longer := TickExplained(s, cfg, step.input, db, run);
    } else if step.WatcherStep? {
      longer := CompletionExplained(s, cfg, step, db, run);
    } else {
      longer := QuietStepExplained(s, cfg, step, db, run);
    }
  }

  lemma QuietStepExplained(s: Sys, cfg: Config, step: SysStep, db: Db, run: seq<TaskRuns.Step>)
      returns (longer: seq<TaskRuns.Step>)
    requires Enabled(s, cfg, step) && !step.TickStep? && !step.WatcherStep?
    requires Explains(db, run, s.db, RetryLimit(cfg))
    ensures Explains(db, longer, Next(s, cfg, step).db, RetryLimit(cfg))
    ensures forall id :: Retries(longer, id) == Retries(run, id)
  {
    longer := run;
    if step.UserStep? || step.RebootStep? {
      var call := if step.UserStep? then step.call else TaskRuns.Restart;
      QuietDb(s, cfg, step, call);
      CallExplained(s, cfg, call, db, run);
      longer := run + [call];
    } else {
      StoreUntouched(s, cfg, step);
    }
  }

  lemma QuietDb(s: Sys, cfg: Config, step: SysStep, call: TaskRuns.Step)
    requires Enabled(s, cfg, step)
    requires (step.UserStep? && call == step.call) || (step.RebootStep? && call == TaskRuns.Restart)
    ensures Next(s, cfg, step).db == TaskRuns.Apply(s.db, call) && (UserCall(s.db, call) || call.Restart?)
  {}

  lemma StoreUntouched(s: Sys, cfg: Config, step: SysStep)
    requires Enabled(s, cfg, step) && (step.StopStep? || step.ConfigureStep?)
    ensures Next(s, cfg, step).db == s.db
  {}

  function AutoRetryCount(states: seq<Sys>, cfg: Config, steps: seq<SysStep>, k: nat, id: TaskId): nat
    requires k <= |steps| < |states|
  {
    if k == 0 then 0
    else AutoRetryCount(states, cfg, steps, k - 1, id) +
         if AutoRetries(states[k - 1], cfg, steps[k - 1], id) then 1 else 0
  }

  // ---------- Store runs one after another ----------

  lemma {:induction false} AfterTwo(db: Db, a: seq<TaskRuns.Step>, b: seq<TaskRuns.Step>)
    ensures TaskRuns.After(db, a + b) == TaskRuns.After(TaskRuns.After(db, a), b)
  {
    if b == [] {
      assert a + b == a;
    } else {
      var n := |b| - 1;
      assert (a + b)[..|a + b| - 1] == a + b[..n];
      AfterTwo(db, a, b[..n]);
    }
  }

  lemma {:induction false} RetriesTwo(a: seq<TaskRuns.Step>, b: seq<TaskRuns.Step>, id: TaskId)
    ensures Retries(a + b, id) == Retries(a, id) + Retries(b, id)
  {
    if b == [] {
      assert a + b == a;
    } else {
      var n := |b| - 1;
      assert (a + b)[..|a + b| - 1] == a + b[..n];
      RetriesTwo(a, b[..n], id);
    }
  }

  lemma ExplainsTwo(db: Db, a: seq<TaskRuns.Step>, mid: Db, b: seq<TaskRuns.Step>, db': Db, limit: nat)
    requires Explains(db, a, mid, limit) && Explains(mid, b, db', limit)
    ensures Explains(db, a + b, db', limit)
  {
    AfterTwo(db, a, b);
    forall i | 0 <= i < |a + b| ensures TaskRuns.Scheduled(TaskRuns.After(db, (a + b)[..i]), (a + b)[i], limit) {
      if i < |a| {
        assert (a + b)[..i] == a[..i];
      } else {
        assert (a + b)[..i] == a + b[..i - |a|];
        AfterTwo(db, a, b[..i - |a|]);
      }
    }
  }

  type Calls = seq<seq<TaskRuns.Step>>

  function Flat(parts: Calls, j: nat, k: nat): seq<TaskRuns.Step>
    requires j <= k <= |parts|
  {
    if j == k then [] else Flat(parts, j, k - 1) + parts[k - 1]
  }

  /** Each part leads from one database to the next. */
  ghost predicate Chain(dbs: seq<Db>, parts: Calls, leads: (Db, seq<TaskRuns.Step>, Db) -> bool) {
    |dbs| == |parts| + 1 && forall k | 0 <= k < |parts| :: leads(dbs[k], parts[k], dbs[k + 1])
  }

  /** A relation that holds of nothing done and of one run after another holds along the whole chain. */
  lemma {:induction false} ChainLeads(dbs: seq<Db>, parts: Calls, leads: (Db, seq<TaskRuns.Step>, Db) -> bool, j: nat, k: nat)
    requires Chain(dbs, parts, leads) && j <= k <= |parts|
    requires forall a :: leads(a, [], a)
    requires forall a, x, b, y, c | leads(a, x, b) && leads(b, y, c) :: leads(a, x + y, c)
    ensures leads(dbs[j], Flat(parts, j, k), dbs[k])
  {
    if j < k {
      ChainLeads(dbs, parts, leads, j, k - 1);
      assert leads(dbs[k - 1], parts[k - 1], dbs[k]);
    }
  }

  ghost predicate Explained(dbs: seq<Db>, parts: Calls, limit: nat) {
    |dbs| == |parts| + 1 && forall k | 0 <= k < |parts| :: Explains(dbs[k], parts[k], dbs[k + 1], limit)
  }

  lemma ChainExplains(dbs: seq<Db>, parts: Calls, limit: nat, j: nat, k: nat)
    requires Explained(dbs, parts, limit) && j <= k <= |parts|
    ensures Explains(dbs[j], Flat(parts, j, k), dbs[k], limit)
  {
    ghost var leads := (a, x, b) => Explains(a, x, b, limit);
    forall a, x, b, y, c | leads(a, x, b) && leads(b, y, c) ensures leads(a, x + y, c) {
      ExplainsTwo(a, x, b, y, c, limit);
    }
    ChainLeads(dbs, parts, leads, j, k);
  }

  // ---------- The store run inside a scheduler run ----------

  /** calls are what one scheduler step asks of the store. */
  ghost predicate CallsOf(s: Sys, cfg: Config, step: SysStep, calls: seq<TaskRuns.Step>)
    requires Enabled(s, cfg, step)
  {
    && Explains(s.db, calls, Next(s, cfg, step).db, RetryLimit(cfg))
    && forall id :: Retries(calls, id) == if AutoRetries(s, cfg, step, id) then 1 else 0
  }

  lemma CallsExist(s: Sys, cfg: Config, step: SysStep)
    requires Safe(s) && Enabled(s, cfg, step)
    ensures exists calls :: CallsOf(s, cfg, step, calls)
  {
    var calls := StepExplained(s, cfg, step, s.db, []);
    assert CallsOf(s, cfg, step, calls);
  }

  ghost function CallsIn(s: Sys, cfg: Config, step: SysStep): (calls: seq<TaskRuns.Step>)
    requires Safe(s) && Enabled(s, cfg, step)
    ensures CallsOf(s, cfg, step, calls)
  {
    CallsExist(s, cfg, step);
    var calls :| CallsOf(s, cfg, step, calls);
    calls
  }

  lemma CallsChain(states: seq<Sys>, cfg: Config, steps: seq<SysStep>) returns (dbs: seq<Db>, parts: Calls)
    requires RunOf(states, cfg, steps)
    ensures |dbs| == |states| && forall k | 0 <= k < |states| :: dbs[k] == states[k].db
    ensures Explained(dbs, parts, RetryLimit(cfg)) && Retrying(states, cfg, steps, parts)
  {
    forall k | 0 <= k < |steps| ensures Safe(states[k]) && Enabled(states[k], cfg, steps[k]) {
      EveryStateIsSafe(states, cfg, steps, k);
    }
    dbs := seq(|states|, k requires 0 <= k < |states| => states[k].db);
    parts := seq(|steps|, k requires 0 <= k < |steps| && Safe(states[k]) && Enabled(states[k], cfg, steps[k]) =>
                   CallsIn(states[k], cfg, steps[k]));
  }

  /** The parts hold the automatic retries of their steps. */
  ghost predicate Retrying(states: seq<Sys>, cfg: Config, steps: seq<SysStep>, parts: Calls)
    requires |steps| < |states|
  {
    && |parts| == |steps|
    && forall k, id | 0 <= k < |steps| ::
         Retries(parts[k], id) == if AutoRetries(states[k], cfg, steps[k], id) then 1 else 0
  }

  lemma {:induction false} FlatRetries(states: seq<Sys>, cfg: Config, steps: seq<SysStep>, parts: Calls,
                                       j: nat, k: nat, id: TaskId)
    requires |steps| < |states| && Retrying(states, cfg, steps, parts) && j <= k <= |steps|
    ensures AutoRetryCount(states, cfg, steps, j, id) + Retries(Flat(parts, j, k), id) ==
            AutoRetryCount(states, cfg, steps, k, id)
  {
    if j < k {
      FlatRetries(states, cfg, steps, parts, j, k - 1, id);
      RetriesTwo(Flat(parts, j, k - 1), parts[k - 1], id);
    }
  }

  /** Between any two states of a scheduler run, the store has made a run of permitted steps with the
      same automatic retries. */
  lemma RunsProject(states: seq<Sys>, cfg: Config, steps: seq<SysStep>, j: nat, k: nat)
      returns (run: seq<TaskRuns.Step>)
    requires RunOf(states, cfg, steps) && j <= k <= |steps|
    ensures Explains(states[j].db, run, states[k].db, RetryLimit(cfg))
    ensures forall id :: AutoRetryCount(states, cfg, steps, j, id) + Retries(run, id) ==
                         AutoRetryCount(states, cfg, steps, k, id)
  {
    var dbs, parts := CallsChain(states, cfg, steps);
    run := Flat(parts, j, k);
    ChainExplains(dbs, parts, RetryLimit(cfg), j, k);
    forall id { FlatRetries(states, cfg, steps, parts, j, k, id); }
  }

  /** In every run of the scheduler a task is retried automatically at most retryLimit times,
      however retries are mixed with preemptions, interrupts, kills and restarts. */
  lemma AutoRetriesAreBounded(states: seq<Sys>, cfg: Config, steps: seq<SysStep>, id: TaskId)
    requires RunOf(states, cfg, steps)
    ensures AutoRetryCount(states, cfg, steps, |steps|, id) <= RetryLimit(cfg)
  {
    var run := RunsProject(states, cfg, steps, 0, |steps|);
    TaskLifecycle.RetriesAreBounded(run, RetryLimit(cfg), id);
  }

  // ---------- Lifecycle in scheduler runs ----------

  /** Succeeded, failed and cancelled are absorbing: a task ended at one point of a scheduler run is,
      at every later point, unchanged or deleted, and its id never names another task. */
  lemma EndedStaysEnded(states: seq<Sys>, cfg: Config, steps: seq<SysStep>, j: nat, k: nat, id: TaskId)
    requires RunOf(states, cfg, steps) && j <= k <= |steps|
    requires id in states[j].db.tasks && TaskLifecycle.Ended(states[j].db.tasks[id])
    ensures id in states[k].db.tasks ==> states[k].db.tasks[id] == states[j].db.tasks[id]
    ensures id < states[k].db.nextId
  {
    var run := RunsProject(states, cfg, steps, j, k);
    EveryStateIsSafe(states, cfg, steps, j);
    TaskLifecycle.EndedIsAbsorbing(states[j].db, run, RetryLimit(cfg), id);
  }

  /** A deleted task never comes back. */
  lemma DeletedStaysDeleted(states: seq<Sys>, cfg: Config, steps: seq<SysStep>, j: nat, k: nat, id: TaskId)
    requires RunOf(states, cfg, steps) && j <= k <= |steps|
    requires id !in states[j].db.tasks && id < states[j].db.nextId
    ensures id !in states[k].db.tasks
  {
    var run := RunsProject(states, cfg, steps, j, k);
    NotReused(states[j].db, run, id);
  }

  lemma {:induction false} NotReused(db: Db, run: seq<TaskRuns.Step>, id: TaskId)
    requires id !in db.tasks && id < db.nextId
    ensures id !in TaskRuns.After(db, run).tasks && id < TaskRuns.After(db, run).nextId
  {
    if run != [] {
      var n := |run| - 1;
      NotReused(db, run[..n], id);
      TaskLifecycle.IdsAreNotReused(TaskRuns.After(db, run[..n]), run[n], id);
    }
  }

  /** A tick ends no running task: it writes only rows that were queued. */
  lemma TickEndsNothing(s: Sys, cfg: Config, i: TickInput, id: TaskId)
    requires Safe(s) && HonestReadings(s, cfg, i) && TaskRuns.IsRunning(s.db, id)
    ensures TaskRuns.IsRunning(Tick(s, cfg, i).db, id) && Tick(s, cfg, i).db.tasks[id] == s.db.tasks[id]
  {
    PreparedIsGood(s, cfg, i);
    PlanEndsNothing(Prepared(s, cfg, i), Assignments(s, cfg, i), i, id);
  }

  lemma PlanEndsNothing(s0: Sys, plan: seq<Assignment>, i: TickInput, id: TaskId)
    requires Safe(s0) && GoodPlan(s0, plan, i.now) && TaskRuns.IsRunning(s0.db, id)
    ensures id in CarryOut(s0, plan, i).db.tasks && CarryOut(s0, plan, i).db.tasks[id] == s0.db.tasks[id]
  {
    CarryOutKeeps(s0, plan, |plan|, i);
    assert plan[..|plan|] == plan;
    RowKept(s0.db, CarryOut(s0, plan, i).db, plan, id);
  }

  lemma RowKept(db0: Db, db: Db, done: seq<Assignment>, id: TaskId)
    requires RowsFrom(db0, db, done) && TaskRuns.IsRunning(db0, id)
    requires forall x | Listed(done, x) :: TaskRuns.IsQueued(db0, x)
    ensures id in db.tasks && db.tasks[id] == db0.tasks[id]
  {}

  lemma WatcherEndsItsOwn(s: Sys, cfg: Config, step: SysStep, id: TaskId)
    requires Safe(s) && step.WatcherStep? && step.id in s.running && step.id != id && TaskRuns.IsRunning(s.db, id)
    ensures TaskRuns.IsRunning(Complete(s, cfg, step.id, step.code, step.oomInLog, step.now).db, id)
  {
    var v := Decide(s.running[step.id], step.code, step.oomInLog, cfg.retryLimit);
    EndedRow(s.db, step.id, v, RetryTime(cfg, step.now));
  }

  lemma CallEndsNothing(db: Db, c: TaskRuns.Step, id: TaskId)
    requires UserCall(db, c) && BudgetsPositive(db.tasks) && db.nextId !in db.tasks && TaskRuns.IsRunning(db, id)
    ensures TaskRuns.IsRunning(TaskRuns.Apply(db, c), id)
  {
    UserCallKeepsRows(db, c);
  }

  /** A task that stops running at some step of a scheduler run was ended by its own watcher or by a
      restart of the service. */
  lemma OnlyItsWatcherEndsATask(states: seq<Sys>, cfg: Config, steps: seq<SysStep>, k: nat, id: TaskId)
    requires RunOf(states, cfg, steps) && k < |steps|
    requires TaskRuns.IsRunning(states[k].db, id) && !TaskRuns.IsRunning(states[k + 1].db, id)
    ensures (steps[k].WatcherStep? && steps[k].id == id) || steps[k].RebootStep?
  {
    EveryStateIsSafe(states, cfg, steps, k);
    OthersEndNothing(states[k], cfg, steps[k], id);
  }

  lemma OthersEndNothing(s: Sys, cfg: Config, step: SysStep, id: TaskId)
    requires Safe(s) && Enabled(s, cfg, step) && TaskRuns.IsRunning(s.db, id)
    ensures (step.WatcherStep? && step.id == id) || step.RebootStep? || TaskRuns.IsRunning(Next(s, cfg, step).db, id)
  {
    match step
    case TickStep(i) => TickEndsNothing(s, cfg, i, id);
    case WatcherStep(x, _, _, _) => if x != id { WatcherEndsItsOwn(s, cfg, step, id); }
    case UserStep(c) => CallEndsNothing(s.db, c, id);
    case StopStep(_, _, _) =>
    case ConfigureStep(_) =>
    case RebootStep(_) =>
  }
}
