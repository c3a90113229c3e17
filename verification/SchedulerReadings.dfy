/** What the scheduler makes of its GPU readings: when a GPU counts as idle or as roomy, and what the
    readings must have been between two launches on one GPU. */
module SchedulerReadings {
  import opened Gpus
  import opened Matching
  import opened Options
  import opened Readiness
  import opened SchedulerModel
  import opened SchedulerReadiness
  import opened SchedulerRuns
  import opened TaskModel
  import SchedulerChoice
  import SchedulerProgress
  import TaskRuns

  // ---------- One reading ----------

  /** A kill from outside was seen on the GPU less than the cooldown ago. */
  predicate CoolsDown(s: Sys, cfg: Config, now: int, gpu: nat) {
    gpu in s.cooldowns && cfg.cooldown > 0 && now < s.cooldowns[gpu] + cfg.cooldown
  }

  ghost predicate NobodyRunsOn(s: Sys, gpu: nat) {
    forall id | id in s.running :: s.running[id].gpu != gpu
  }

  predicate Usable(s: Sys, cfg: Config, i: TickInput, gpu: nat) {
    (i.allowed.Some? ==> gpu in i.allowed.value) && !CoolsDown(s, cfg, i.now, gpu)
  }

  ghost predicate ReadsIdle(s: Sys, cfg: Config, i: TickInput, gpu: nat) {
    && Usable(s, cfg, i, gpu) && NobodyRunsOn(s, gpu)
    && exists r :: r in i.readings && r.index == gpu && r.usedMb < cfg.thresholdMb && !r.hasProcesses
  }

  /** More than 2048 MB beyond mb are free. */
  ghost predicate ReadsRoom(s: Sys, cfg: Config, i: TickInput, gpu: nat, mb: int) {
    && Usable(s, cfg, i, gpu)
    && exists r :: r in i.readings && r.index == gpu && r.totalMb - r.usedMb > mb + 2048
  }

  lemma OccupiedMeans(s: Sys, gpu: nat)
    ensures gpu in Occupied(s.running) <==> !NobodyRunsOn(s, gpu)
  {
    if !NobodyRunsOn(s, gpu) {
      var id :| id in s.running && s.running[id].gpu == gpu;
      assert s.running[id].gpu in Occupied(s.running);
    }
  }

  /** The payload entry of each reading, field by field. */
  lemma EntryMeans(s: Sys, cfg: Config, i: TickInput, x: nat)
    requires x < |i.readings|
    ensures var r, g := i.readings[x], TickPayload(s, cfg, i)[x];
            && g.index == r.index && g.totalMb == r.totalMb && g.usedMb == r.usedMb && FreeIsRight(g)
            && (g.enabled <==> (i.allowed.Some? ==> r.index in i.allowed.value))
            && (g.occupied <==> !NobodyRunsOn(s, r.index))
            && (g.idle <==> Usable(s, cfg, i, r.index) && NobodyRunsOn(s, r.index)
                            && r.usedMb < cfg.thresholdMb && !r.hasProcesses)
  {
    OccupiedMeans(s, i.readings[x].index);
  }

  /** The GPUs a tick matches against are the entries of the usable readings. */
  lemma CandidatesMean(s: Sys, cfg: Config, i: TickInput, g: Gpu)
    ensures g in SchedulerProgress.TickGpus(s, cfg, i) <==>
            exists x :: 0 <= x < |i.readings| && TickPayload(s, cfg, i)[x] == g && Usable(s, cfg, i, i.readings[x].index)
  {
    var payload := TickPayload(s, cfg, i);
    if g in SchedulerProgress.TickGpus(s, cfg, i) {
      var x :| 0 <= x < |payload| && payload[x] == g;
      EntryMeans(s, cfg, i, x);
    }
    if x :| 0 <= x < |i.readings| && payload[x] == g && Usable(s, cfg, i, i.readings[x].index) {
      EntryMeans(s, cfg, i, x);
      assert payload[x] in payload;
    }
  }

  /** They stand in the order of the readings. */
  lemma {:induction false} AvailableInOrder(gpus: seq<Gpu>, cooling: set<nat>, x: nat, y: nat) returns (p: nat, q: nat)
    requires x < y < |Available(gpus, cooling)|
    ensures p < q < |gpus| && gpus[p] == Available(gpus, cooling)[x] && gpus[q] == Available(gpus, cooling)[y]
  {
    var n := |gpus| - 1;
    var before := Available(gpus[..n], cooling);
    if y < |before| {
      p, q := AvailableInOrder(gpus[..n], cooling, x, y);
    } else {
      assert before[x] in before;
      p :| 0 <= p < n && gpus[..n][p] == before[x];
      q := n;
    }
  }

  // ---------- A refresh ----------

  /** Some startable task asks for this budget. */
  ghost predicate BudgetAsked(db: Db, now: int, mb: int) {
    exists id :: Startable(db, id, now) && db.tasks[id].need.budgetMb == Some(mb)
  }

  lemma BudgetsMean(db: Db, now: int, mb: int)
    requires TaskRuns.Valid(db)
    ensures mb in BudgetsOf(QueuedJobs(db, now)) <==> BudgetAsked(db, now, mb)
  {
    SchedulerChoice.ListIsExact(db, now);
    var jobs := QueuedJobs(db, now);
    if mb in BudgetsOf(jobs) {
      var j :| j in jobs && j.need.budgetMb == Some(mb);
      assert Startable(db, j.id, now);
    }
    if id :| Startable(db, id, now) && db.tasks[id].need.budgetMb == Some(mb) {
      assert Job(id, db.tasks[id].need) in jobs;
    }
  }

  /** The condition of key k, read off one payload entry. */
  ghost predicate EntryShows(g: Gpu, c: Condition, asked: bool) {
    match c
    case Idle => g.idle
    case Budget(mb) => asked && g.totalMb - g.usedMb > mb + 2048
  }

  ghost predicate SomeEntryShows(gpus: seq<Gpu>, gpu: nat, c: Condition, asked: bool) {
    exists x :: 0 <= x < |gpus| && gpus[x].index == gpu && gpus[x].enabled && EntryShows(gpus[x], c, asked)
  }

  lemma SatisfiedByEntry(gpus: seq<Gpu>, budgets: set<int>, cooling: set<nat>, gpu: nat, c: Condition)
    requires forall g | g in gpus :: FreeIsRight(g)
    ensures (gpu, c) in SatisfiedKeys(gpus, budgets, cooling) <==>
            gpu !in cooling && SomeEntryShows(gpus, gpu, c, c.Budget? && c.mb in budgets)
  {
    var asked := c.Budget? && c.mb in budgets;
    if Satisfies(gpus, budgets, cooling, (gpu, c)) {
      var g :| g in gpus && g.index == gpu && g.index !in cooling && g.enabled && match c
        case Idle => g.idle
        case Budget(mb) => mb in budgets && HasBudgetCapacity(g, mb, 0);
      var x :| 0 <= x < |gpus| && gpus[x] == g;
      assert EntryShows(gpus[x], c, asked);
    }
    if gpu !in cooling && SomeEntryShows(gpus, gpu, c, asked) {
      var x :| 0 <= x < |gpus| && gpus[x].index == gpu && gpus[x].enabled && EntryShows(gpus[x], c, asked);
      assert gpus[x] in gpus;
    }
  }

  /** What a count is counted for, said on the readings. */
  ghost predicate ReadsGood(s: Sys, cfg: Config, i: TickInput, gpu: nat, c: Condition) {
    match c
    case Idle => ReadsIdle(s, cfg, i, gpu)
    case Budget(mb) => BudgetAsked(s.db, i.now, mb) && ReadsRoom(s, cfg, i, gpu, mb)
  }

  lemma EntriesAreRight(s: Sys, cfg: Config, i: TickInput)
    ensures forall g | g in TickPayload(s, cfg, i) :: FreeIsRight(g)
  {
    var payload := TickPayload(s, cfg, i);
    forall g | g in payload ensures FreeIsRight(g) {
      var x :| 0 <= x < |payload| && payload[x] == g;
      EntryMeans(s, cfg, i, x);
    }
  }

  lemma CoolingMeans(s: Sys, cfg: Config, now: int, gpu: nat)
    ensures gpu in Cooling(s.cooldowns, cfg, now) <==> CoolsDown(s, cfg, now, gpu)
  {}

  lemma ShownByReading(s: Sys, cfg: Config, i: TickInput, gpu: nat, c: Condition)
    requires TaskRuns.Valid(s.db)
    ensures (!CoolsDown(s, cfg, i.now, gpu)
             && SomeEntryShows(TickPayload(s, cfg, i), gpu, c, c.Budget? && BudgetAsked(s.db, i.now, c.mb)))
            <==> ReadsGood(s, cfg, i, gpu, c)
  {
    var payload := TickPayload(s, cfg, i);
    var asked := c.Budget? && BudgetAsked(s.db, i.now, c.mb);
    if x :| 0 <= x < |payload| && payload[x].index == gpu && payload[x].enabled && EntryShows(payload[x], c, asked) {
      EntryMeans(s, cfg, i, x);
      assert i.readings[x] in i.readings;
    }
    if ReadsGood(s, cfg, i, gpu, c) {
      var r :| r in i.readings && r.index == gpu
               && (c.Idle? ==> r.usedMb < cfg.thresholdMb && !r.hasProcesses)
               && (c.Budget? ==> r.totalMb - r.usedMb > c.mb + 2048);
      var x :| 0 <= x < |i.readings| && i.readings[x] == r;
      EntryMeans(s, cfg, i, x);
      assert EntryShows(payload[x], c, asked);
    }
  }

  /** A refresh counts (gpu, idle) exactly if the GPU reads idle, and (gpu, budget) exactly if some startable
      task asks for the budget and the GPU reads roomy enough. */
  lemma CountedIsRead(s: Sys, cfg: Config, i: TickInput, gpu: nat, c: Condition)
    requires TaskRuns.Valid(s.db)
    ensures (gpu, c) in TickRefresh(s, cfg, i).sat <==> ReadsGood(s, cfg, i, gpu, c)
  {
    EntriesAreRight(s, cfg, i);
    CoolingMeans(s, cfg, i.now, gpu);
    var jobs := QueuedJobs(s.db, i.now);
    SatisfiedByEntry(TickPayload(s, cfg, i), BudgetsOf(jobs), Cooling(s.cooldowns, cfg, i.now), gpu, c);
    if c.Budget? { BudgetsMean(s.db, i.now, c.mb); }
    ShownByReading(s, cfg, i, gpu, c);
  }

  /** A refresh uses up the release flag of a flagged GPU exactly if the GPU is read, is not cooling down,
      and no scheduler task runs on it. */
  lemma SeenIsRead(s: Sys, cfg: Config, i: TickInput, gpu: nat)
    ensures gpu in TickRefresh(s, cfg, i).seen <==>
            && gpu in s.ready.released && !CoolsDown(s, cfg, i.now, gpu) && NobodyRunsOn(s, gpu)
            && exists r :: r in i.readings && r.index == gpu
  {
    CoolingMeans(s, cfg, i.now, gpu);
    var payload := TickPayload(s, cfg, i);
    if gpu in TickRefresh(s, cfg, i).seen {
      var g :| g in payload && g.index == gpu && !g.occupied;
      var x :| 0 <= x < |payload| && payload[x] == g;
      EntryMeans(s, cfg, i, x);
      assert i.readings[x] in i.readings;
    }
    if r :| r in i.readings && r.index == gpu && NobodyRunsOn(s, gpu) && gpu in s.ready.released {
      var x :| 0 <= x < |i.readings| && i.readings[x] == r;
      EntryMeans(s, cfg, i, x);
      assert payload[x] in payload;
    }
  }
}
