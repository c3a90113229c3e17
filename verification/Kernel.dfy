/** The scheduler and its GPU policy together: one whole tick, and runs in which policy changes,
    leases, ticks, watchers and user calls interleave. */
module Kernel {
  import opened DependencyGraph
  import opened Gpus
  import opened Matching
  import opened Options
  import opened SchedulerModel
  import GpuLeases
  import GpuPolicy
  import SchedulerPauses
  import SchedulerRuns

  type Policy = GpuPolicy.Policy

  datatype State = State(policy: Policy, sys: Sys)

  /** A tick asks for the GPUs when timed entries are looked at (known), for the first payload, and,
      if GPUs have been restored, for a second one. */
  datatype Input = Input(
    now: int, known: set<nat>, first: seq<GpuInfo>, again: seq<GpuInfo>, paused: bool,
    alive: set<nat>, started: set<TaskId>, reserved: set<nat>)

  // ---------- One whole tick ----------

  function Indices(readings: seq<GpuInfo>): set<nat> {
    set r | r in readings :: r.index
  }

  function Allowed(p: Policy, readings: seq<GpuInfo>, now: int): Option<set<nat>> {
    GpuPolicy.EffectiveAllowedSet(p, Indices(readings), now)
  }

  function PayloadFor(p: Policy, s: Sys, cfg: Config, readings: seq<GpuInfo>, now: int): seq<Gpu> {
    Payload(readings, cfg, Occupied(s.running), Allowed(p, readings, now), Cooling(s.cooldowns, cfg, now))
  }

  function Scheduled(st: State, t: Input): Policy {
    GpuPolicy.ApplySchedule(st.policy, t.known, t.now)
  }

  function FirstPayload(st: State, cfg: Config, t: Input): seq<Gpu> {
    PayloadFor(Scheduled(st, t), st.sys, cfg, t.first, t.now)
  }

  /** Refreshing the payload also brings the idle tracking up to date. */
  function Tracked(st: State, cfg: Config, t: Input): Policy {
    GpuPolicy.Sync(Scheduled(st, t), FirstPayload(st, cfg, t), t.now)
  }

  function Restored(st: State, cfg: Config, t: Input): set<nat> {
    GpuPolicy.Restored(Tracked(st, cfg, t), GpuPolicy.Restore(FirstPayload(st, cfg, t), t.now))
  }

  /** The policy between restoring and the second payload. */
  function AfterRestore(st: State, cfg: Config, t: Input): Policy {
    GpuPolicy.AutoRestore(Tracked(st, cfg, t), FirstPayload(st, cfg, t), t.now)
  }

  function PolicyAfter(st: State, cfg: Config, t: Input): Policy {
    var p := AfterRestore(st, cfg, t);
    if Restored(st, cfg, t) == {} then p
    else GpuPolicy.Sync(p, PayloadFor(p, st.sys, cfg, t.again, t.now), t.now)
  }

  function LastReadings(st: State, cfg: Config, t: Input): seq<GpuInfo> {
    if Restored(st, cfg, t) == {} then t.first else t.again
  }

  function InputFor(st: State, cfg: Config, t: Input): TickInput {
    var readings := LastReadings(st, cfg, t);
    TickInput(t.now, readings, Allowed(PolicyAfter(st, cfg, t), readings, t.now), t.paused,
              t.alive, t.started, t.reserved)
  }

  ghost function FullTick(st: State, cfg: Config, t: Input): State {
    State(PolicyAfter(st, cfg, t), Tick(st.sys, cfg, InputFor(st, cfg, t)))
  }

  lemma SyncKeepsAllowed(p: Policy, gpus: seq<Gpu>, readings: seq<GpuInfo>, at: int, now: int)
    ensures Allowed(GpuPolicy.Sync(p, gpus, at), readings, now) == Allowed(p, readings, now)
  {}

  lemma NoRestoreKeepsAllowed(p: Policy, gpus: seq<Gpu>, readings: seq<GpuInfo>, now: int)
    requires GpuPolicy.Restored(p, GpuPolicy.Restore(gpus, now)) == {}
    ensures Allowed(GpuPolicy.AutoRestore(p, gpus, now), readings, now) == Allowed(p, readings, now)
  {}

  /** What a tick matches against: the first payload, unless GPUs have been restored. */
  lemma LastPayload(st: State, cfg: Config, t: Input)
    ensures TickPayload(st.sys, cfg, InputFor(st, cfg, t)) ==
            if Restored(st, cfg, t) == {} then FirstPayload(st, cfg, t)
            else PayloadFor(AfterRestore(st, cfg, t), st.sys, cfg, t.again, t.now)
  {
    var p := AfterRestore(st, cfg, t);
    if Restored(st, cfg, t) == {} {
      NoRestoreKeepsAllowed(Tracked(st, cfg, t), FirstPayload(st, cfg, t), t.first, t.now);
      SyncKeepsAllowed(Scheduled(st, t), FirstPayload(st, cfg, t), t.first, t.now, t.now);
    } else {
      SyncKeepsAllowed(p, PayloadFor(p, st.sys, cfg, t.again, t.now), t.again, t.now, t.now);
    }
  }

  function Pruned(s: Sys, cfg: Config, now: int): Sys {
    s.(cooldowns := map g | g in Cooling(s.cooldowns, cfg, now) && g in s.cooldowns :: s.cooldowns[g])
  }

  /** Dropping expired cooldowns changes nothing for a second look at the same instant. */
  lemma PrunedPayload(p: Policy, s: Sys, cfg: Config, readings: seq<GpuInfo>, now: int)
    ensures Cooling(Pruned(s, cfg, now).cooldowns, cfg, now) == Cooling(s.cooldowns, cfg, now)
    ensures Pruned(Pruned(s, cfg, now), cfg, now) == Pruned(s, cfg, now)
    ensures PayloadFor(p, Pruned(s, cfg, now), cfg, readings, now) == PayloadFor(p, s, cfg, readings, now)
  {}

  lemma OneRefresh(st: State, cfg: Config, t: Input)
    requires Restored(st, cfg, t) == {}
    ensures PolicyAfter(st, cfg, t) == AfterRestore(st, cfg, t)
    ensures TickPayload(st.sys, cfg, InputFor(st, cfg, t)) == FirstPayload(st, cfg, t)
  {
    LastPayload(st, cfg, t);
  }

  lemma TwoRefreshes(st: State, cfg: Config, t: Input, p: Policy, gpus: seq<Gpu>)
    requires Restored(st, cfg, t) != {} && p == AfterRestore(st, cfg, t)
    requires gpus == PayloadFor(p, Pruned(st.sys, cfg, t.now), cfg, t.again, t.now)
    ensures PolicyAfter(st, cfg, t) == GpuPolicy.Sync(p, gpus, t.now)
    ensures TickPayload(st.sys, cfg, InputFor(st, cfg, t)) == gpus
  {
    LastPayload(st, cfg, t);
    PrunedPayload(p, st.sys, cfg, t.again, t.now);
  }

  /** An entry of the payload is enabled exactly if its GPU is one of the allowed ones. */
  lemma EnabledIsSchedulable(p: Policy, s: Sys, cfg: Config, readings: seq<GpuInfo>, now: int, g: Gpu)
    requires g in PayloadFor(p, s, cfg, readings, now)
    ensures g.enabled <==> g.index in GpuPolicy.Schedulable(p, Indices(readings), now)
  {
    var payload := PayloadFor(p, s, cfg, readings, now);
    var k :| 0 <= k < |payload| && payload[k] == g;
    assert readings[k] in readings && readings[k].index == g.index;
  }

  lemma AssignedIsEnabled(s: Sys, cfg: Config, i: TickInput, a: Assignment)
    requires a in Assignments(s, cfg, i)
    ensures a.gpu in TickPayload(s, cfg, i) && a.gpu.enabled
  {
    var cooling := Cooling(s.cooldowns, cfg, i.now);
    SchedulerRuns.QueuedJobsAre(s.db, i.now);
    var view, gpus := ViewOf(Prepared(s, cfg, i), cooling), Available(TickPayload(s, cfg, i), cooling);
    AssignmentsAreListed(view, QueuedJobs(s.db, i.now), gpus);
  }

  /** No task is ever planned on a GPU that is switched off or leased: the plan of a whole tick uses
      only GPUs of the allowlist, after timed entries and auto-restore, minus the active leases. */
  lemma PlansOnlySchedulable(st: State, cfg: Config, t: Input, a: Assignment)
    requires a in Assignments(st.sys, cfg, InputFor(st, cfg, t))
    ensures var p, known := PolicyAfter(st, cfg, t), Indices(LastReadings(st, cfg, t));
            a.gpu.index in GpuPolicy.AllowedOf(p.allow, known) && a.gpu.index !in GpuPolicy.Leased(p.leases, t.now)
  {
    AssignedIsEnabled(st.sys, cfg, InputFor(st, cfg, t), a);
    var p, readings := PolicyAfter(st, cfg, t), LastReadings(st, cfg, t);
    EnabledIsSchedulable(p, st.sys, cfg, readings, t.now, a.gpu);
    GpuPolicy.SchedulableIs(p, Indices(readings), t.now);
  }

  // ---------- Runs ----------

  /** Settings reach the readiness counts and the policy at once; so does a restart, which forgets
      what is only in memory. */
  datatype Step =
    | TickNow(input: Input)
    | PolicyCall(change: GpuPolicy.Step)
    | Settings(checks: nat, limit: Option<int>)
    | Reboot(checks: nat)
    | Other(step: SchedulerRuns.SysStep)

  /** A policy call is a user's change, or a look at timed entries or a payload refresh on request.
      Only ticks restore; settings have their own step. */
  predicate IsPolicyCall(s: GpuPolicy.Step) {
    !s.Restore? && !s.SetLimit?
  }

  ghost predicate Enabled(st: State, cfg: Config, s: Step) {
    match s
    case TickNow(t) =>
      SchedulerRuns.DistinctReadings(t.first) && SchedulerRuns.HonestReadings(st.sys, cfg, InputFor(st, cfg, t))
    case PolicyCall(change) => IsPolicyCall(change)
    case Settings(checks, _) => checks >= 1
    case Reboot(checks) => checks >= 1
    case Other(step) =>
      (step.WatcherStep? || step.StopStep? || step.UserStep?) && SchedulerRuns.Enabled(st.sys, cfg, step)
  }

  ghost function Next(st: State, cfg: Config, s: Step): State
    requires Enabled(st, cfg, s)
  {
    match s
    case TickNow(t) => FullTick(st, cfg, t)
    case PolicyCall(change) => st.(policy := GpuPolicy.Apply(st.policy, change))
    case Settings(checks, limit) =>
      State(GpuPolicy.Apply(st.policy, GpuPolicy.SetLimit(limit)),
            SchedulerRuns.Next(st.sys, cfg, SchedulerRuns.ConfigureStep(checks)))
    case Reboot(checks) =>
      State(GpuPolicy.Apply(st.policy, GpuPolicy.SetLimit(st.policy.limit)),
            SchedulerRuns.Next(st.sys, cfg, SchedulerRuns.RebootStep(checks)))
    case Other(step) => st.(sys := SchedulerRuns.Next(st.sys, cfg, step))
  }

  const NO_POLICY := GpuPolicy.Policy(None, map[], map[], map[], None)

  ghost predicate RunOf(states: seq<State>, cfg: Config, steps: seq<Step>) {
    && |states| == |steps| + 1
    && states[0] == State(NO_POLICY, SchedulerRuns.COLD_START)
    && forall k | 0 <= k < |steps| ::
         Enabled(states[k], cfg, steps[k]) && states[k + 1] == Next(states[k], cfg, steps[k])
  }

  // ---------- The scheduler's view ----------

  /** The scheduler step in s, if it holds one. */
  function SysStepOf(st: State, cfg: Config, s: Step): seq<SchedulerRuns.SysStep> {
    match s
    case TickNow(t) => [SchedulerRuns.TickStep(InputFor(st, cfg, t))]
    case PolicyCall(_) => []
    case Settings(checks, _) => [SchedulerRuns.ConfigureStep(checks)]
    case Reboot(checks) => [SchedulerRuns.RebootStep(checks)]
    case Other(step) => [step]
  }

  function SysParts(states: seq<State>, cfg: Config, steps: seq<Step>): (parts: seq<seq<SchedulerRuns.SysStep>>)
    requires |states| == |steps| + 1
    ensures |parts| == |steps| && forall i | 0 <= i < |steps| :: parts[i] == SysStepOf(states[i], cfg, steps[i])
  {
    seq(|steps|, i requires 0 <= i < |steps| => SysStepOf(states[i], cfg, steps[i]))
  }

  function SysOf(states: seq<State>): (all: seq<Sys>)
    ensures |all| == |states| && forall i | 0 <= i < |states| :: all[i] == states[i].sys
  {
    seq(|states|, i requires 0 <= i < |states| => states[i].sys)
  }

  lemma OneSysStep(st: State, cfg: Config, s: Step)
    requires Enabled(st, cfg, s)
    ensures SchedulerPauses.StepOrPause(st.sys, Next(st, cfg, s).sys, cfg, SysStepOf(st, cfg, s))
  {}

  /** Every run of the kernel is, state by state and step by step, a run of the scheduler that pauses at
      policy changes. */
  lemma KernelRunsProject(states: seq<State>, cfg: Config, steps: seq<Step>)
    requires RunOf(states, cfg, steps)
    ensures SchedulerPauses.PausedRun(SysOf(states), cfg, SysParts(states, cfg, steps))
  {
    forall i | 0 <= i < |steps|
      ensures SchedulerPauses.StepOrPause(SysOf(states)[i], SysOf(states)[i + 1], cfg, SysParts(states, cfg, steps)[i])
    {
      OneSysStep(states[i], cfg, steps[i]);
    }
  }

  /** At most one running task without a budget per GPU, in every state of every kernel run. */
  lemma EveryKernelStateIsSafe(states: seq<State>, cfg: Config, steps: seq<Step>, k: nat)
    requires RunOf(states, cfg, steps) && k <= |steps|
    ensures SchedulerRuns.Safe(states[k].sys)
  {
    KernelRunsProject(states, cfg, steps);
    SchedulerPauses.EveryStateIsSafe(SysOf(states), cfg, SysParts(states, cfg, steps), k);
  }

  // ---------- The policy's view ----------

  /** What a tick does to the policy before it restores. */
  function BeforeRestore(st: State, cfg: Config, t: Input): seq<GpuPolicy.Step> {
    [GpuPolicy.RunSchedule(t.known, t.now)] + [GpuPolicy.Observe(FirstPayload(st, cfg, t), t.now)]
  }

  function TickSteps(st: State, cfg: Config, t: Input): seq<GpuPolicy.Step> {
    BeforeRestore(st, cfg, t) + [GpuPolicy.Restore(FirstPayload(st, cfg, t), t.now)] + SecondLook(st, cfg, t)
  }

  function SecondLook(st: State, cfg: Config, t: Input): seq<GpuPolicy.Step> {
    if Restored(st, cfg, t) == {} then []
    else [GpuPolicy.Observe(PayloadFor(AfterRestore(st, cfg, t), st.sys, cfg, t.again, t.now), t.now)]
  }

  function PolicySteps(st: State, cfg: Config, s: Step): seq<GpuPolicy.Step> {
    match s
    case TickNow(t) => TickSteps(st, cfg, t)
    case PolicyCall(change) => [change]
    case Settings(_, limit) => [GpuPolicy.SetLimit(limit)]
    case Reboot(_) => [GpuPolicy.SetLimit(st.policy.limit)]
    case Other(_) => []
  }

  function PolicyHistory(states: seq<State>, cfg: Config, steps: seq<Step>, k: nat): seq<GpuPolicy.Step>
    requires k <= |steps| < |states|
  {
    if k == 0 then [] else PolicyHistory(states, cfg, steps, k - 1) + PolicySteps(states[k - 1], cfg, steps[k - 1])
  }

  lemma BeforeRestoreIs(st: State, cfg: Config, t: Input)
    ensures GpuPolicy.After(st.policy, BeforeRestore(st, cfg, t)) == Tracked(st, cfg, t)
  {
    var schedule, see := GpuPolicy.RunSchedule(t.known, t.now), GpuPolicy.Observe(FirstPayload(st, cfg, t), t.now);
    GpuPolicy.AfterTwo(st.policy, [schedule], [see]);
    GpuPolicy.AfterOne(st.policy, schedule);
    GpuPolicy.AfterOne(Scheduled(st, t), see);
  }

  lemma TickPolicySteps(st: State, cfg: Config, t: Input)
    ensures GpuPolicy.After(st.policy, TickSteps(st, cfg, t)) == PolicyAfter(st, cfg, t)
  {
    var start, restore := BeforeRestore(st, cfg, t), GpuPolicy.Restore(FirstPayload(st, cfg, t), t.now);
    BeforeRestoreIs(st, cfg, t);
    GpuPolicy.AfterTwo(st.policy, start, [restore]);
    GpuPolicy.AfterOne(Tracked(st, cfg, t), restore);
    GpuPolicy.AfterTwo(st.policy, start + [restore], SecondLook(st, cfg, t));
    SecondLookIs(st, cfg, t);
  }

  lemma SecondLookIs(st: State, cfg: Config, t: Input)
    ensures GpuPolicy.After(AfterRestore(st, cfg, t), SecondLook(st, cfg, t)) == PolicyAfter(st, cfg, t)
  {
    var p, looks := AfterRestore(st, cfg, t), SecondLook(st, cfg, t);
    AtMostOneStep(p, looks);
    assert looks == [] <==> Restored(st, cfg, t) == {};
  }

  lemma AtMostOneStep(p: Policy, steps: seq<GpuPolicy.Step>)
    ensures steps == [] ==> GpuPolicy.After(p, steps) == p
    ensures |steps| == 1 ==> GpuPolicy.After(p, steps) == GpuPolicy.Apply(p, steps[0])
  {
    if |steps| == 1 {
      assert steps == [steps[0]];
      GpuPolicy.AfterOne(p, steps[0]);
    }
  }

  lemma StepPolicySteps(st: State, cfg: Config, s: Step)
    requires Enabled(st, cfg, s)
    ensures GpuPolicy.After(st.policy, PolicySteps(st, cfg, s)) == Next(st, cfg, s).policy
  {
    match s
    case TickNow(t) => TickPolicySteps(st, cfg, t);
    case PolicyCall(change) => GpuPolicy.AfterOne(st.policy, change);
    case Settings(_, limit) => GpuPolicy.AfterOne(st.policy, GpuPolicy.SetLimit(limit));
    case Reboot(_) => GpuPolicy.AfterOne(st.policy, GpuPolicy.SetLimit(st.policy.limit));
    case Other(_) =>
  }

  /** Every run of the kernel is a run of the policy; so the results about leases and about restoring
      hold of kernel runs. */
  lemma {:induction false} PolicyRunsProject(states: seq<State>, cfg: Config, steps: seq<Step>, k: nat)
    requires RunOf(states, cfg, steps) && k <= |steps|
    ensures GpuPolicy.After(NO_POLICY, PolicyHistory(states, cfg, steps, k)) == states[k].policy
  {
    if k > 0 {
      PolicyRunsProject(states, cfg, steps, k - 1);
      StepPolicySteps(states[k - 1], cfg, steps[k - 1]);
      var before := PolicyHistory(states, cfg, steps, k - 1);
      GpuPolicy.AfterTwo(NO_POLICY, before, PolicySteps(states[k - 1], cfg, steps[k - 1]));
    }
  }

  /** In every kernel run: a GPU restored by a tick has been seen switched off, unleased and idle at
      every observation since one at least the limit earlier, ticks and requests alike. */
  lemma RestoredGpusHadWaited(states: seq<State>, cfg: Config, steps: seq<Step>, k: nat, t: Input, gpu: nat)
      returns (history: seq<GpuPolicy.Step>, i: nat)
    requires RunOf(states, cfg, steps) && k < |steps| && steps[k] == TickNow(t) && gpu in Restored(states[k], cfg, t)
    ensures history == PolicyHistory(states, cfg, steps, k) + BeforeRestore(states[k], cfg, t)
    ensures GpuPolicy.WaitingSince(NO_POLICY, history, i, gpu)
    ensures var p := Tracked(states[k], cfg, t); p.limit.Some? && t.now - history[i].at >= p.limit.value > 0
  {
    history := PolicyHistory(states, cfg, steps, k) + BeforeRestore(states[k], cfg, t);
    PolicyRunsProject(states, cfg, steps, k);
    BeforeRestoreIs(states[k], cfg, t);
    GpuPolicy.AfterTwo(NO_POLICY, PolicyHistory(states, cfg, steps, k), BeforeRestore(states[k], cfg, t));
    i := GpuPolicy.RestoreNeedsUnbrokenWait(NO_POLICY, history,
                                            GpuPolicy.Restore(FirstPayload(states[k], cfg, t), t.now), gpu);
  }

  /** In every kernel run in which no observation finds a switched-off idle GPU leased: the schedulable
      set is at every point that of the same observations and changes without leases, less the GPUs
      leased then. */
  lemma KernelLeasesLeaveNoTrace(states: seq<State>, cfg: Config, steps: seq<Step>, k: nat, known: set<nat>, now: int)
    requires RunOf(states, cfg, steps) && k <= |steps|
    requires GpuLeases.NoneMasked(NO_POLICY, PolicyHistory(states, cfg, steps, k))
    ensures var without := GpuPolicy.After(NO_POLICY, GpuLeases.WithoutLeases(PolicyHistory(states, cfg, steps, k)));
            GpuPolicy.Schedulable(states[k].policy, known, now) ==
            GpuPolicy.Schedulable(without, known, now) - GpuPolicy.Leased(states[k].policy.leases, now)
  {
    PolicyRunsProject(states, cfg, steps, k);
    GpuLeases.EndedLeasesGiveBackEverything(NO_POLICY, PolicyHistory(states, cfg, steps, k), known, now);
    assert GpuLeases.Ended(NO_POLICY) == NO_POLICY;
  }
}
