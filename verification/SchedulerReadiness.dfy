/** The readiness history of a whole scheduler run: launches on one GPU are kept apart. */
module SchedulerReadiness {
  import opened DependencyGraph
  import opened Matching
  import opened Options
  import opened Readiness
  import opened SchedulerModel
  import opened SchedulerRuns

  // ---------- What each step does to the counts ----------

  /** The planned task at position k is launched, not merely reserved for. */
  predicate Launches(s0: Sys, plan: seq<Assignment>, k: nat, i: TickInput)
    requires k < |plan|
  {
    var s := CarryOut(s0, plan[..k], i);
    plan[k].job.id in s.db.tasks && !MustReserve(s, plan[k])
  }

  function PlanEvents(s0: Sys, plan: seq<Assignment>, k: nat, i: TickInput): seq<Event>
    requires k <= |plan|
  {
    if k == 0 then []
    else PlanEvents(s0, plan, k - 1, i) + LaunchEvents(s0, plan, k - 1, i)
  }

  ghost function TickRefresh(s: Sys, cfg: Config, i: TickInput): Event {
    var cooling := Cooling(s.cooldowns, cfg, i.now);
    var gpus := TickPayload(s, cfg, i);
    Refreshed(SatisfiedKeys(gpus, BudgetsOf(QueuedJobs(s.db, i.now)), cooling),
              SeenFreeGpus(gpus, cooling, s.ready.released))
  }

  ghost function EventsOf(s: Sys, cfg: Config, step: SysStep): seq<Event>
    requires Enabled(s, cfg, step)
  {
    match step
    case TickStep(i) =>
      [TickRefresh(s, cfg, i)]
      + PlanEvents(Prepared(s, cfg, i), Assignments(s, cfg, i), |Assignments(s, cfg, i)|, i)
    case WatcherStep(id, code, oom, _) =>
      var v := Decide(s.running[id], code, oom, cfg.retryLimit);
      (if v.Requeued? && v.killed && cfg.cooldown > 0 then [Cleared(s.running[id].gpu)] else [])
      + [Event.Released(s.running[id].gpu)]
    case ConfigureStep(checks) => [Configured(checks)]
    case RebootStep(checks) => [Configured(checks)]
    case StopStep(_, _, _) => []
    case UserStep(_) => []
  }

  /** The event of the planned task at position k, if it is launched. */
  function LaunchEvents(s0: Sys, plan: seq<Assignment>, k: nat, i: TickInput): seq<Event>
    requires k < |plan|
  {
    if Launches(s0, plan, k, i) then [Cleared(plan[k].gpu.index)] else []
  }

  lemma OneLaunchFolds(s0: Sys, plan: seq<Assignment>, k: nat, i: TickInput)
    requires k < |plan|
    ensures CarryOut(s0, plan[..k + 1], i).ready == Fold(CarryOut(s0, plan[..k], i).ready, LaunchEvents(s0, plan, k, i))
  {
    assert plan[..k + 1][..k] == plan[..k];
    if Launches(s0, plan, k, i) { FoldOne(CarryOut(s0, plan[..k], i).ready, Cleared(plan[k].gpu.index)); }
  }

  lemma FoldJoins(r: Ready, a: seq<Event>, b: seq<Event>, end: Ready)
    requires end == Fold(Fold(r, a), b)
    ensures end == Fold(r, a + b)
  {
    FoldTwo(r, a, b);
  }

  lemma {:induction false} PlanEventsFold(s0: Sys, plan: seq<Assignment>, k: nat, i: TickInput)
    requires k <= |plan|
    ensures CarryOut(s0, plan[..k], i).ready == Fold(s0.ready, PlanEvents(s0, plan, k, i))
  {
    if k > 0 {
      var q := k - 1;
      PlanEventsFold(s0, plan, q, i);
      OneLaunchFolds(s0, plan, q, i);
      FoldJoins(s0.ready, PlanEvents(s0, plan, q, i), LaunchEvents(s0, plan, q, i), CarryOut(s0, plan[..q + 1], i).ready);
      assert PlanEvents(s0, plan, k, i) == PlanEvents(s0, plan, q, i) + LaunchEvents(s0, plan, q, i);
    }
  }

  lemma FoldOne(r: Ready, e: Event)
    ensures Fold(r, [e]) == Readiness.Next(r, e)
  {
    assert [e][..0] == [];
  }

  lemma TickFolds(s: Sys, cfg: Config, i: TickInput)
    requires Enabled(s, cfg, TickStep(i))
    ensures Prepared(s, cfg, i).ready == Readiness.Next(s.ready, TickRefresh(s, cfg, i))
    ensures Tick(s, cfg, i).ready == Fold(s.ready, EventsOf(s, cfg, TickStep(i)))
  {
    var s0, plan := Prepared(s, cfg, i), Assignments(s, cfg, i);
    assert plan[..|plan|] == plan;
    PlanEventsFold(s0, plan, |plan|, i);
    FoldOne(s.ready, TickRefresh(s, cfg, i));
    FoldTwo(s.ready, [TickRefresh(s, cfg, i)], PlanEvents(s0, plan, |plan|, i));
  }

  lemma WatcherFolds(s: Sys, cfg: Config, id: TaskId, v: Verdict, now: int)
    requires id in s.running
    ensures var gpu := s.running[id].gpu;
            var cleared := if v.Requeued? && v.killed && cfg.cooldown > 0 then [Cleared(gpu)] else [];
            Settle(s, cfg, id, v, now).ready == Fold(s.ready, cleared + [Event.Released(gpu)])
  {
    var gpu := s.running[id].gpu;
    var cleared := if v.Requeued? && v.killed && cfg.cooldown > 0 then [Cleared(gpu)] else [];
    FoldMore(s.ready, cleared, Event.Released(gpu));
    if cleared != [] { FoldOne(s.ready, Cleared(gpu)); }
  }

  lemma StepFolds(s: Sys, cfg: Config, step: SysStep)
    requires Enabled(s, cfg, step)
    ensures SchedulerRuns.Next(s, cfg, step).ready == Fold(s.ready, EventsOf(s, cfg, step))
  {
    match step
    case TickStep(i) => TickFolds(s, cfg, i);
    case WatcherStep(id, code, oom, now) =>
      WatcherFolds(s, cfg, id, Decide(s.running[id], code, oom, cfg.retryLimit), now);
    case ConfigureStep(checks) => FoldOne(s.ready, Configured(checks));
    case RebootStep(checks) => FoldOne(s.ready, Configured(checks));
    case StopStep(_, _, _) =>
    case UserStep(_) =>
  }

  // ---------- Whole runs ----------

  ghost function History(states: seq<Sys>, cfg: Config, steps: seq<SysStep>, k: nat): seq<Event>
    requires RunOf(states, cfg, steps) && k <= |steps|
  {
    if k == 0 then [] else History(states, cfg, steps, k - 1) + EventsOf(states[k - 1], cfg, steps[k - 1])
  }

  lemma {:induction false} HistoryExplainsCounts(states: seq<Sys>, cfg: Config, steps: seq<SysStep>, k: nat)
    requires RunOf(states, cfg, steps) && k <= |steps|
    ensures states[k].ready == After(1, History(states, cfg, steps, k)) && states[k].ready.required >= 1
  {
    if k > 0 {
      HistoryExplainsCounts(states, cfg, steps, k - 1);
      StepFolds(states[k - 1], cfg, steps[k - 1]);
      FoldTwo(Ready(map[], {}, 1), History(states, cfg, steps, k - 1), EventsOf(states[k - 1], cfg, steps[k - 1]));
      RequiredStays(states[k - 1], cfg, steps[k - 1]);
    }
  }

  lemma {:induction false} CarryOutRequired(s0: Sys, plan: seq<Assignment>, k: nat, i: TickInput)
    requires k <= |plan|
    ensures CarryOut(s0, plan[..k], i).ready.required == s0.ready.required
  {
    if k > 0 {
      assert plan[..k][..k - 1] == plan[..k - 1];
      CarryOutRequired(s0, plan, k - 1, i);
    }
  }

  lemma RequiredStays(s: Sys, cfg: Config, step: SysStep)
    requires Enabled(s, cfg, step) && s.ready.required >= 1
    ensures SchedulerRuns.Next(s, cfg, step).ready.required >= 1
  {
    match step
    case TickStep(i) =>
      var plan := Assignments(s, cfg, i);
      assert plan[..|plan|] == plan;
      CarryOutRequired(Prepared(s, cfg, i), plan, |plan|, i);
    case _ =>
  }

  lemma {:induction false} HistoryGrows(states: seq<Sys>, cfg: Config, steps: seq<SysStep>, j: nat, k: nat)
    requires RunOf(states, cfg, steps) && j <= k <= |steps|
    ensures History(states, cfg, steps, j) <= History(states, cfg, steps, k)
  {
    if j < k { HistoryGrows(states, cfg, steps, j, k - 1); }
  }

  /** Where in the history the launch at position x of the plan of step j stands. */
  lemma {:induction false} LaunchEvent(s0: Sys, plan: seq<Assignment>, x: nat, k: nat, i: TickInput) returns (p: nat)
    requires x < k <= |plan| && Launches(s0, plan, x, i)
    ensures p < |PlanEvents(s0, plan, k, i)| && PlanEvents(s0, plan, k, i)[p] == Cleared(plan[x].gpu.index)
  {
    if k == x + 1 {
      p := |PlanEvents(s0, plan, x, i)|;
    } else {
      p := LaunchEvent(s0, plan, x, k - 1, i);
    }
  }

  ghost function ViewAt(s: Sys, cfg: Config, i: TickInput): View {
    ViewOf(Prepared(s, cfg, i), Cooling(s.cooldowns, cfg, i.now))
  }

  /** A launch at position x of the plan of a tick in state s. */
  ghost predicate LaunchedAt(s: Sys, cfg: Config, i: TickInput, x: nat, gpu: nat) {
    var plan := Assignments(s, cfg, i);
    x < |plan| && plan[x].gpu.index == gpu && Launches(Prepared(s, cfg, i), plan, x, i)
  }

  /** A planned task whose place rests on a readiness count. */
  ghost predicate PlannedOnCount(s: Sys, cfg: Config, i: TickInput, b: Assignment) {
    b in Assignments(s, cfg, i) && !HasLiveReservation(ViewAt(s, cfg, i), b.job.id, b.gpu.index)
  }

  /** Two launches on one GPU in different ticks, the second without a live reservation: the condition c
      of the second task on that GPU was found satisfied at every refresh from event i on, after the
      first launch; these refreshes are `required` many, or some task ended on the GPU between the launch
      and i. The history runs up to and including the refresh of the second tick; p is where the first
      launch stands in it. */
  lemma LaunchesAreKeptApart(states: seq<Sys>, cfg: Config, steps: seq<SysStep>, j: nat, x: nat, k: nat, b: Assignment)
      returns (history: seq<Event>, p: nat, c: Condition, i: nat)
    requires RunOf(states, cfg, steps) && j < k < |steps| && steps[j].TickStep? && steps[k].TickStep?
    requires LaunchedAt(states[j], cfg, steps[j].input, x, b.gpu.index)
    requires PlannedOnCount(states[k], cfg, steps[k].input, b)
    ensures history == History(states, cfg, steps, k) + [TickRefresh(states[k], cfg, steps[k].input)]
    ensures |History(states, cfg, steps, j)| < p < |history| && history[p] == Cleared(b.gpu.index)
    ensures ConditionFor(ViewAt(states[k], cfg, steps[k].input), b.job, b.gpu) == Some(c)
    ensures p < i && HeldSince(history, i, (b.gpu.index, c))
    ensures Refreshes(history, i) >= states[k].ready.required
            || exists r :: p < r < i && history[r] == Event.Released(b.gpu.index)
  {
    history := History(states, cfg, steps, k) + [TickRefresh(states[k], cfg, steps[k].input)];
    p := LaunchPosition(states, cfg, steps, j, x, k);
    c := FullAtTheEnd(states, cfg, steps, k, b);
    i := LaunchGap(1, history, p, (b.gpu.index, c));
  }

  lemma LaunchPosition(states: seq<Sys>, cfg: Config, steps: seq<SysStep>, j: nat, x: nat, k: nat) returns (p: nat)
    requires RunOf(states, cfg, steps) && j < k <= |steps| && steps[j].TickStep?
    requires var first := Assignments(states[j], cfg, steps[j].input);
             x < |first| && Launches(Prepared(states[j], cfg, steps[j].input), first, x, steps[j].input)
    ensures var history := History(states, cfg, steps, k);
            && |History(states, cfg, steps, j)| < p < |history|
            && history[p] == Cleared(Assignments(states[j], cfg, steps[j].input)[x].gpu.index)
  {
    var events := EventsStand(states, cfg, steps, j, k);
    var q := TickPosition(states[j], cfg, steps[j].input, x, events);
    p := |History(states, cfg, steps, j)| + q;
    Inside(History(states, cfg, steps, j), events, History(states, cfg, steps, k), q);
  }

  lemma Inside(a: seq<Event>, b: seq<Event>, whole: seq<Event>, q: nat)
    requires a + b <= whole && q < |b|
    ensures |a| + q < |whole| && whole[|a| + q] == b[q]
  {
    assert (a + b)[|a| + q] == b[q];
  }

  /** The events of one step stand in every longer history, after those of the steps before it. */
  lemma EventsStand(states: seq<Sys>, cfg: Config, steps: seq<SysStep>, j: nat, k: nat) returns (events: seq<Event>)
    requires RunOf(states, cfg, steps) && j < k <= |steps|
    ensures Enabled(states[j], cfg, steps[j]) && events == EventsOf(states[j], cfg, steps[j])
    ensures History(states, cfg, steps, j) + events <= History(states, cfg, steps, k)
  {
    events := EventsOf(states[j], cfg, steps[j]);
    HistoryGrows(states, cfg, steps, j + 1, k);
    assert History(states, cfg, steps, j + 1) == History(states, cfg, steps, j) + events;
  }

  lemma AfterRefresh(s0: Sys, plan: seq<Assignment>, x: nat, i: TickInput, refresh: Event, events: seq<Event>)
      returns (q: nat)
    requires x < |plan| && Launches(s0, plan, x, i) && events == [refresh] + PlanEvents(s0, plan, |plan|, i)
    ensures 0 < q < |events| && events[q] == Cleared(plan[x].gpu.index)
  {
    q := LaunchEvent(s0, plan, x, |plan|, i);
    q := q + 1;
  }

  lemma TickEvents(s: Sys, cfg: Config, i: TickInput)
    requires Enabled(s, cfg, TickStep(i))
    ensures EventsOf(s, cfg, TickStep(i)) ==
            [TickRefresh(s, cfg, i)] + PlanEvents(Prepared(s, cfg, i), Assignments(s, cfg, i), |Assignments(s, cfg, i)|, i)
  {}

  /** The launch inside its own tick's events; the refresh comes first. */
  lemma TickPosition(s: Sys, cfg: Config, i: TickInput, x: nat, events: seq<Event>) returns (q: nat)
    requires Enabled(s, cfg, TickStep(i)) && x < |Assignments(s, cfg, i)|
    requires Launches(Prepared(s, cfg, i), Assignments(s, cfg, i), x, i)
    requires events == EventsOf(s, cfg, TickStep(i))
    ensures 0 < q < |events| && events[q] == Cleared(Assignments(s, cfg, i)[x].gpu.index)
  {
    TickEvents(s, cfg, i);
    q := AfterRefresh(Prepared(s, cfg, i), Assignments(s, cfg, i), x, i, TickRefresh(s, cfg, i), events);
  }

  /** The counts a tick matches against are those of the history up to its own refresh. */
  lemma CountsAfterRefresh(states: seq<Sys>, cfg: Config, steps: seq<SysStep>, k: nat, i: TickInput)
    requires RunOf(states, cfg, steps) && k < |steps| && steps[k] == TickStep(i)
    ensures var r := After(1, History(states, cfg, steps, k) + [TickRefresh(states[k], cfg, i)]);
            r == Prepared(states[k], cfg, i).ready && r.required >= 1
  {
    HistoryExplainsCounts(states, cfg, steps, k);
    TickFolds(states[k], cfg, i);
    FoldTwo(Ready(map[], {}, 1), History(states, cfg, steps, k), [TickRefresh(states[k], cfg, i)]);
    FoldOne(states[k].ready, TickRefresh(states[k], cfg, i));
  }

  lemma FullAtTheEnd(states: seq<Sys>, cfg: Config, steps: seq<SysStep>, k: nat, b: Assignment) returns (c: Condition)
    requires RunOf(states, cfg, steps) && k < |steps| && steps[k].TickStep?
    requires b in Assignments(states[k], cfg, steps[k].input)
    requires !HasLiveReservation(ViewAt(states[k], cfg, steps[k].input), b.job.id, b.gpu.index)
    ensures ConditionFor(ViewAt(states[k], cfg, steps[k].input), b.job, b.gpu) == Some(c)
    ensures var r := After(1, History(states, cfg, steps, k) + [TickRefresh(states[k], cfg, steps[k].input)]);
            r.required == states[k].ready.required >= 1 && CountOf(r.counts, b.gpu.index, c) >= r.required
  {
    c := CountWasFull(states[k], cfg, steps[k].input, b);
    CountsAfterRefresh(states, cfg, steps, k, steps[k].input);
  }

  lemma CountWasFull(s: Sys, cfg: Config, i: TickInput, b: Assignment) returns (c: Condition)
    requires b in Assignments(s, cfg, i) && !HasLiveReservation(ViewAt(s, cfg, i), b.job.id, b.gpu.index)
    ensures ConditionFor(ViewAt(s, cfg, i), b.job, b.gpu) == Some(c)
    ensures CountOf(Prepared(s, cfg, i).ready.counts, b.gpu.index, c) >= s.ready.required
  {
    var v, cooling := ViewAt(s, cfg, i), Cooling(s.cooldowns, cfg, i.now);
    AssignedWasReady(v, QueuedJobs(s.db, i.now), Available(TickPayload(s, cfg, i), cooling), b);
    c := ConditionFor(v, b.job, b.gpu).value;
  }
}
