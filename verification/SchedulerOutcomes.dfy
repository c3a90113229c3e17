/** What a tick and a watcher's completion do, said on the rows, handles and queues they leave behind. */
module SchedulerOutcomes {
  import opened DependencyGraph
  import opened Options
  import opened SchedulerModel
  import opened SchedulerRuns
  import opened TaskModel
  import TaskLifecycle
  import TaskQueues
  import TaskRuns

  // ---------- The end of a process ----------

  /** Ended by HUP, INT, QUIT, KILL or TERM, as a negative signal number or as 128 plus it. */
  predicate KilledBySignal(code: int) {
    code in {-1, -2, -3, -9, -15} || code in {129, 130, 131, 137, 143}
  }

  predicate Killed(h: Handle, code: int) {
    h.stop.None? && KilledBySignal(code)
  }

  /** It failed by itself for want of memory, and retries are left. */
  predicate RetriesLater(h: Handle, code: int, oomInLog: bool, cfg: Config) {
    h.stop.None? && code != 0 && !KilledBySignal(code) && oomInLog && h.attempt <= cfg.retryLimit
  }

  predicate FailsForGood(h: Handle, code: int, oomInLog: bool, cfg: Config) {
    h.stop.None? && code != 0 && !KilledBySignal(code) && !(oomInLog && h.attempt <= cfg.retryLimit)
  }

  /** The verdict of the branches, each with its exact condition. */
  lemma DecisionMeans(h: Handle, code: int, oom: bool, cfg: Config)
    requires h.attempt >= 1 && (h.stop == Some(Preemption) ==> h.requeueTo == Some(NormalQueue))
    ensures var v := Decide(h, code, oom, cfg.retryLimit);
            && (v == Ended(Succeeded) <==> h.stop.None? && code == 0)
            && (v == Ended(Cancelled) <==> h.stop == Some(Cancel))
            && (v == Ended(Failed) <==> FailsForGood(h, code, oom, cfg))
            && (v == Retried <==> RetriesLater(h, code, oom, cfg))
            && (v == Preempted(NormalQueue) <==> h.stop == Some(Preemption))
            && (v == Requeued(h.requeueTo, false) <==> h.stop == Some(Interruption))
            && (v == Requeued(h.requeueTo, true) <==> Killed(h, code))
            && (v in {Ended(Succeeded), Ended(Cancelled), Ended(Failed), Retried, Preempted(NormalQueue)} || v.Requeued?)
  {
    match h.stop
    case None =>
    case Some(reason) => match reason { case Cancel => case Preemption => case Interruption => }
  }

  /** The row of a running task after its last attempt has ended with verdict v. */
  predicate RowMeans(t0: Task, t: Task, v: Verdict, at: int) {
    && t.attemptCount == t0.attemptCount && t.need == t0.need
    && match v
       case Preempted(q) => t.status == Queued && t.queue == q && t.assignedGpu == None && t.nextRetryAt == None
       case Requeued(to, _) =>
         && t.queue == (if to.Some? then to.value else t0.queue) && t.assignedGpu == None && t.nextRetryAt == None
         && t.status == if t.queue == StagedQueue then Staged else Queued
       case Retried => t.status == Queued && t.queue == t0.queue && t.assignedGpu == None && t.nextRetryAt == Some(at)
       case Ended(status) => t == t0.(status := status)
  }

  lemma VerdictRow(db: Db, id: TaskId, v: Verdict, at: int)
    requires TaskRuns.IsRunning(db, id)
    ensures var o := EndTask(db, id, v, at); o.Ok? && id in o.db.tasks && RowMeans(db.tasks[id], o.db.tasks[id], v, at)
  {
    match v
    case Preempted(_) =>
    case Requeued(_, _) =>
    case Retried =>
    case Ended(_) =>
  }

  lemma CompletionRow(s: Sys, cfg: Config, id: TaskId, code: int, oom: bool, now: int)
    requires Safe(s) && id in s.running
    ensures id in s.db.tasks && id in Complete(s, cfg, id, code, oom, now).db.tasks
    ensures s.running[id].attempt == s.db.tasks[id].attemptCount >= 1
    ensures RowMeans(s.db.tasks[id], Complete(s, cfg, id, code, oom, now).db.tasks[id],
                     Decide(s.running[id], code, oom, cfg.retryLimit), if cfg.retryDelay > 0 then now + cfg.retryDelay else now)
  {
    assert TaskQueues.TaskOk(s.db.tasks[id]) && HandleOk(s.db.tasks[id], s.running[id]);
    VerdictRow(s.db, id, Decide(s.running[id], code, oom, cfg.retryLimit), RetryTime(cfg, now));
  }

  /** Every way a process can end, and the status and retry time of its task's row afterwards. */
  lemma CompletionMeans(s: Sys, cfg: Config, id: TaskId, code: int, oom: bool, now: int)
    requires Safe(s) && id in s.running
    ensures id in s.db.tasks && id in Complete(s, cfg, id, code, oom, now).db.tasks
    ensures var h, t := s.running[id], Complete(s, cfg, id, code, oom, now).db.tasks[id];
            && (t.status == Succeeded <==> h.stop.None? && code == 0)
            && (t.status == Cancelled <==> h.stop == Some(Cancel))
            && (t.status == Failed <==> FailsForGood(h, code, oom, cfg))
            && (t.status == Queued && t.nextRetryAt.Some? <==> RetriesLater(h, code, oom, cfg))
            && (t.status in {Queued, Staged} <==>
                  h.stop in {Some(Preemption), Some(Interruption)} || Killed(h, code) || RetriesLater(h, code, oom, cfg))
            && (RetriesLater(h, code, oom, cfg) ==>
                  t.nextRetryAt == Some(if cfg.retryDelay > 0 then now + cfg.retryDelay else now))
            && (t.status in {Queued, Staged} ==> t.assignedGpu == None)
            && t.attemptCount == h.attempt && t.need == s.db.tasks[id].need
  {
    CompletionRow(s, cfg, id, code, oom, now);
    assert HandleOk(s.db.tasks[id], s.running[id]);
    DecisionMeans(s.running[id], code, oom, cfg);
    StatusOf(s.running[id], s.db.tasks[id], Complete(s, cfg, id, code, oom, now).db.tasks[id], code, oom, cfg,
             if cfg.retryDelay > 0 then now + cfg.retryDelay else now);
  }

  lemma StatusOf(h: Handle, t0: Task, t: Task, code: int, oom: bool, cfg: Config, at: int)
    requires h.attempt >= 1 && (h.stop == Some(Preemption) ==> h.requeueTo == Some(NormalQueue))
    requires RowMeans(t0, t, Decide(h, code, oom, cfg.retryLimit), at)
    ensures t.status == Succeeded <==> h.stop.None? && code == 0
    ensures t.status == Cancelled <==> h.stop == Some(Cancel)
    ensures t.status == Failed <==> FailsForGood(h, code, oom, cfg)
    ensures t.status == Queued && t.nextRetryAt.Some? <==> RetriesLater(h, code, oom, cfg)
    ensures t.status in {Queued, Staged} <==>
            h.stop in {Some(Preemption), Some(Interruption)} || Killed(h, code) || RetriesLater(h, code, oom, cfg)
    ensures RetriesLater(h, code, oom, cfg) ==> t.nextRetryAt == Some(at)
    ensures t.status in {Queued, Staged} ==> t.assignedGpu == None
  {
    DecisionMeans(h, code, oom, cfg);
    match h.stop
    case None =>
    case Some(reason) => match reason { case Cancel => case Preemption => case Interruption => }
  }

  /** The queue whose head the task goes to, if it comes back. */
  function ComesBackTo(h: Handle, own: Queue, code: int, oomInLog: bool, cfg: Config): Option<Queue> {
    if h.stop == Some(Preemption) then Some(NormalQueue)
    else if h.stop == Some(Interruption) || Killed(h, code) then Some(if h.requeueTo.Some? then h.requeueTo.value else own)
    else if RetriesLater(h, code, oomInLog, cfg) then Some(own)
    else None
  }

  /** The queue to whose head a verdict sends a task of queue own. */
  function SentTo(v: Verdict, own: Queue): Option<Queue> {
    match v
    case Preempted(_) => Some(NormalQueue)
    case Requeued(to, _) => if to.Some? then to else Some(own)
    case Retried => Some(own)
    case Ended(_) => None
  }

  lemma VerdictMoves(db: Db, id: TaskId, v: Verdict, at: int, k: Queue)
    requires id in db.tasks
    ensures TaskLifecycle.QueueAfter(db, VerdictStep(id, v, at), k) ==
            (if SentTo(v, db.tasks[id].queue) == Some(k) then [id] else []) + Reading(db.tasks, k)
  {
    match v
    case Preempted(_) => assert VerdictStep(id, v, at) == TaskRuns.Preempt(id);
    case Requeued(to, _) => assert VerdictStep(id, v, at) == TaskRuns.Interrupt(id, to);
    case Retried => assert VerdictStep(id, v, at) == TaskRuns.Retry(id, at);
    case Ended(status) => assert VerdictStep(id, v, at) == TaskRuns.Finish(id, status);
  }

  lemma SentAsAsked(t: Task, h: Handle, code: int, oom: bool, cfg: Config)
    requires HandleOk(t, h) && t.attemptCount >= 1
    ensures SentTo(Decide(h, code, oom, cfg.retryLimit), t.queue) == ComesBackTo(h, t.queue, code, oom, cfg)
  {
    DecisionMeans(h, code, oom, cfg);
  }

  /** The store's step behind a completion. */
  lemma CompletionStep(s: Sys, cfg: Config, id: TaskId, code: int, oom: bool, now: int) returns (step: TaskRuns.Step)
    requires Safe(s) && id in s.running
    ensures step == VerdictStep(id, Decide(s.running[id], code, oom, cfg.retryLimit), RetryTime(cfg, now))
    ensures TaskRuns.Scheduled(s.db, step, RetryLimit(cfg))
    ensures Complete(s, cfg, id, code, oom, now).db == TaskRuns.Apply(s.db, step)
  {
    var v := Decide(s.running[id], code, oom, cfg.retryLimit);
    DecisionIsPermitted(s.db.tasks[id], s.running[id], code, oom, cfg);
    PermittedIsScheduled(s.db, id, v, RetryTime(cfg, now), RetryLimit(cfg));
    step := VerdictStep(id, v, RetryTime(cfg, now));
  }

  /** A task that comes back stands at the head of that queue; nothing else moves in any queue. */
  lemma CompletionMovesOne(s: Sys, cfg: Config, id: TaskId, code: int, oom: bool, now: int, k: Queue)
    requires Safe(s) && id in s.running
    ensures id in s.db.tasks
    ensures var to := ComesBackTo(s.running[id], s.db.tasks[id].queue, code, oom, cfg);
            Reading(Complete(s, cfg, id, code, oom, now).db.tasks, k) ==
            (if to == Some(k) then [id] else []) + Reading(s.db.tasks, k)
  {
    assert HandleOk(s.db.tasks[id], s.running[id]) && TaskQueues.TaskOk(s.db.tasks[id]);
    SentAsAsked(s.db.tasks[id], s.running[id], code, oom, cfg);
    var step := CompletionStep(s, cfg, id, code, oom, now);
    TaskLifecycle.RanksRefineSequences(s.db, step, RetryLimit(cfg), k);
    VerdictMoves(s.db, id, Decide(s.running[id], code, oom, cfg.retryLimit), RetryTime(cfg, now), k);
  }

  ghost predicate OnlyRow(db: Db, db': Db, id: TaskId) {
    && db'.deps == db.deps && db'.nextId == db.nextId && db'.tasks.Keys == db.tasks.Keys
    && forall x | x in db.tasks && x != id :: db'.tasks[x] == db.tasks[x]
  }

  lemma EndingWritesOneRow(db: Db, id: TaskId, v: Verdict, at: int)
    requires TaskRuns.IsRunning(db, id)
    ensures EndTask(db, id, v, at).Ok? && OnlyRow(db, EndTask(db, id, v, at).db, id)
  {
    match v
    case Preempted(_) =>
    case Requeued(_, _) =>
    case Retried =>
    case Ended(_) =>
  }

  /** Everything outside the row: cools says that the GPU starts a cooldown. */
  ghost predicate LeavesTheRest(s: Sys, s': Sys, gpu: nat, cools: bool, now: int) {
    && s'.ready.released == s.ready.released + {gpu} && s'.ready.required == s.ready.required
    && s'.reservations == s.reservations && s'.failures == s.failures
    && s'.cooldowns == (if cools then s.cooldowns[gpu := now] else s.cooldowns)
    && (forall k :: k in s'.ready.counts <==> k in s.ready.counts && !(cools && k.0 == gpu))
    && (forall k | k in s'.ready.counts :: s'.ready.counts[k] == s.ready.counts[k])
  }

  lemma SettlingLeaves(s: Sys, cfg: Config, id: TaskId, v: Verdict, now: int)
    requires id in s.running
    ensures var s', o := Settle(s, cfg, id, v, now), EndTask(s.db, id, v, RetryTime(cfg, now));
            && LeavesTheRest(s, s', s.running[id].gpu, v.Requeued? && v.killed && cfg.cooldown > 0, now)
            && s'.running == s.running - {id} && (o.Ok? ==> s'.db == o.db)
  {}

  lemma KilledVerdict(t: Task, h: Handle, code: int, oom: bool, cfg: Config)
    requires HandleOk(t, h) && t.attemptCount >= 1
    ensures var v := Decide(h, code, oom, cfg.retryLimit); v.Requeued? && v.killed <==> Killed(h, code)
  {
    DecisionMeans(h, code, oom, cfg);
  }

  /** The rest of the state: the handle is gone and the GPU is flagged; a kill from outside alone starts
      the GPU's cooldown and drops its counts; other rows, handles and reservations stay. */
  lemma CompletionLeavesTheRest(s: Sys, cfg: Config, id: TaskId, code: int, oom: bool, now: int)
    requires Safe(s) && id in s.running
    ensures var s' := Complete(s, cfg, id, code, oom, now);
            && OnlyRow(s.db, s'.db, id) && s'.running == s.running - {id}
            && LeavesTheRest(s, s', s.running[id].gpu, Killed(s.running[id], code) && cfg.cooldown > 0, now)
  {
    var v := Decide(s.running[id], code, oom, cfg.retryLimit);
    assert HandleOk(s.db.tasks[id], s.running[id]) && TaskQueues.TaskOk(s.db.tasks[id]);
    EndingWritesOneRow(s.db, id, v, RetryTime(cfg, now));
    KilledVerdict(s.db.tasks[id], s.running[id], code, oom, cfg);
    SettlingLeaves(s, cfg, id, v, now);
  }
}
