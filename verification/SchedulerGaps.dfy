/** Two launches on one GPU, said on the run itself: what the readings must have been at the ticks in
    between. */
module SchedulerGaps {
  import opened Matching
  import opened Options
  import opened Readiness
  import opened SchedulerModel
  import opened SchedulerReadiness
  import opened SchedulerReadings
  import opened SchedulerRuns

  // ---------- Events and steps ----------

  function Ticks(steps: seq<SysStep>, m: nat, k: nat): nat
    requires m <= k <= |steps|
  {
    if m == k then 0 else Ticks(steps, m, k - 1) + if steps[k - 1].TickStep? then 1 else 0
  }

  /** The step an event of the history belongs to. */
  lemma {:induction false} WhichStep(states: seq<Sys>, cfg: Config, steps: seq<SysStep>, k: nat, p: nat) returns (t: nat, q: nat)
    requires RunOf(states, cfg, steps) && k <= |steps| && p < |History(states, cfg, steps, k)|
    ensures t < k && Enabled(states[t], cfg, steps[t]) && q < |EventsOf(states[t], cfg, steps[t])|
    ensures p == |History(states, cfg, steps, t)| + q
    ensures History(states, cfg, steps, k)[p] == EventsOf(states[t], cfg, steps[t])[q]
  {
    var last := k - 1;
    var before := History(states, cfg, steps, last);
    if p < |before| {
      t, q := WhichStep(states, cfg, steps, last, p);
    } else {
      t, q := last, p - |before|;
    }
  }

  lemma {:induction false} PlanEventsClear(s0: Sys, plan: seq<Assignment>, k: nat, i: TickInput)
    requires k <= |plan|
    ensures forall e | e in PlanEvents(s0, plan, k, i) :: e.Cleared?
  {
    if k > 0 { PlanEventsClear(s0, plan, k - 1, i); }
  }

  lemma TickEventKinds(s: Sys, cfg: Config, i: TickInput, q: nat)
    requires Enabled(s, cfg, TickStep(i)) && q < |EventsOf(s, cfg, TickStep(i))|
    ensures var e := EventsOf(s, cfg, TickStep(i))[q];
            if q == 0 then e == TickRefresh(s, cfg, i) else e.Cleared?
  {
    TickEvents(s, cfg, i);
    PlanEventsClear(Prepared(s, cfg, i), Assignments(s, cfg, i), |Assignments(s, cfg, i)|, i);
  }

  /** A refresh is the first event of a tick, a release comes from a watcher. */
  lemma EventKinds(s: Sys, cfg: Config, step: SysStep, q: nat)
    requires Enabled(s, cfg, step) && q < |EventsOf(s, cfg, step)|
    ensures EventsOf(s, cfg, step)[q].Refreshed? ==> step.TickStep? && q == 0
    ensures EventsOf(s, cfg, step)[q].Released? ==>
              step.WatcherStep? && EventsOf(s, cfg, step)[q].gpu == s.running[step.id].gpu
  {
    if step.TickStep? { TickEventKinds(s, cfg, step.input, q); }
  }

  lemma {:induction false} RefreshesTwo(a: seq<Event>, b: seq<Event>, i: nat)
    requires i <= |a|
    ensures Refreshes(a + b, i) == Refreshes(a, i) + Refreshes(b, 0)
    decreases |b|
  {
    if b == [] {
      assert a + b == a;
    } else {
      var n := |b| - 1;
      assert (a + b)[..|a + b| - 1] == a + b[..n];
      RefreshesTwo(a, b[..n], i);
    }
  }

  lemma {:induction false} NoRefreshes(events: seq<Event>)
    requires forall e | e in events :: !e.Refreshed?
    ensures Refreshes(events, 0) == 0
  {
    if events != [] { NoRefreshes(events[..|events| - 1]); }
  }

  lemma OneRefresh(e: Event)
    requires e.Refreshed?
    ensures Refreshes([e], 0) == 1
  {
    assert [e][..0] == [];
  }

  lemma RefreshesOfStep(s: Sys, cfg: Config, step: SysStep)
    requires Enabled(s, cfg, step)
    ensures Refreshes(EventsOf(s, cfg, step), 0) == if step.TickStep? then 1 else 0
  {
    if step.TickStep? {
      TickRefreshes(s, cfg, step.input);
    } else {
      var events := EventsOf(s, cfg, step);
      forall e | e in events ensures !e.Refreshed? {
        var q :| 0 <= q < |events| && events[q] == e;
        EventKinds(s, cfg, step, q);
      }
      NoRefreshes(events);
    }
  }

  lemma TickRefreshes(s: Sys, cfg: Config, i: TickInput)
    requires Enabled(s, cfg, TickStep(i))
    ensures Refreshes(EventsOf(s, cfg, TickStep(i)), 0) == 1
  {
    var plan := Assignments(s, cfg, i);
    TickEvents(s, cfg, i);
    PlanEventsClear(Prepared(s, cfg, i), plan, |plan|, i);
    OneRefresh(TickRefresh(s, cfg, i));
    NoRefreshes(PlanEvents(Prepared(s, cfg, i), plan, |plan|, i));
    RefreshesTwo([TickRefresh(s, cfg, i)], PlanEvents(Prepared(s, cfg, i), plan, |plan|, i), 0);
  }

  lemma RefreshesGrow(states: seq<Sys>, cfg: Config, steps: seq<SysStep>, p: nat, i: nat)
    requires RunOf(states, cfg, steps) && p < |steps| && i <= |History(states, cfg, steps, p)|
    ensures i <= |History(states, cfg, steps, p + 1)|
    ensures Refreshes(History(states, cfg, steps, p + 1), i) ==
            Refreshes(History(states, cfg, steps, p), i) + if steps[p].TickStep? then 1 else 0
  {
    RefreshesOfStep(states[p], cfg, steps[p]);
    RefreshesTwo(History(states, cfg, steps, p), EventsOf(states[p], cfg, steps[p]), i);
  }

  lemma {:induction false} RefreshesAreTicks(states: seq<Sys>, cfg: Config, steps: seq<SysStep>, m: nat, k: nat)
    requires RunOf(states, cfg, steps) && m <= k <= |steps|
    requires |History(states, cfg, steps, m)| <= |History(states, cfg, steps, k)|
    ensures Refreshes(History(states, cfg, steps, k), |History(states, cfg, steps, m)|) == Ticks(steps, m, k)
  {
    if m < k {
      var p := k - 1;
      HistoryGrows(states, cfg, steps, m, p);
      RefreshesAreTicks(states, cfg, steps, m, p);
      RefreshesGrow(states, cfg, steps, p, |History(states, cfg, steps, m)|);
    }
  }

  // ---------- Between two launches ----------

  /** The history up to the refresh of tick k. */
  ghost function UpToRefresh(states: seq<Sys>, cfg: Config, steps: seq<SysStep>, k: nat): seq<Event>
    requires RunOf(states, cfg, steps) && k < |steps| && steps[k].TickStep?
  {
    History(states, cfg, steps, k) + [TickRefresh(states[k], cfg, steps[k].input)]
  }

  /** A tick refreshes at the event that counts those before it. */
  lemma RefreshStands(states: seq<Sys>, cfg: Config, steps: seq<SysStep>, t: nat, k: nat)
    requires RunOf(states, cfg, steps) && t <= k < |steps| && steps[t].TickStep? && steps[k].TickStep?
    ensures |History(states, cfg, steps, t)| < |UpToRefresh(states, cfg, steps, k)|
    ensures UpToRefresh(states, cfg, steps, k)[|History(states, cfg, steps, t)|] == TickRefresh(states[t], cfg, steps[t].input)
  {
    if t < k {
      HistoryGrows(states, cfg, steps, t + 1, k);
      TickEvents(states[t], cfg, steps[t].input);
      var here := |History(states, cfg, steps, t)|;
      assert History(states, cfg, steps, t + 1)[here] == TickRefresh(states[t], cfg, steps[t].input);
    }
  }

  /** Every refresh of that history is the one of a tick up to k. */
  lemma RefreshIsOfTick(states: seq<Sys>, cfg: Config, steps: seq<SysStep>, k: nat, p: nat) returns (t: nat)
    requires RunOf(states, cfg, steps) && k < |steps| && steps[k].TickStep?
    requires p < |UpToRefresh(states, cfg, steps, k)| && UpToRefresh(states, cfg, steps, k)[p].Refreshed?
    ensures t <= k && steps[t].TickStep? && p == |History(states, cfg, steps, t)|
  {
    if p < |History(states, cfg, steps, k)| {
      var q;
      t, q := WhichStep(states, cfg, steps, k, p);
      EventKinds(states[t], cfg, steps[t], q);
    } else {
      t := k;
    }
  }

  lemma HeldIsGood(states: seq<Sys>, cfg: Config, steps: seq<SysStep>, m: nat, k: nat, gpu: nat, c: Condition, t: nat)
    requires RunOf(states, cfg, steps) && m <= t <= k < |steps| && steps[t].TickStep? && steps[k].TickStep?
    requires HeldSince(UpToRefresh(states, cfg, steps, k), |History(states, cfg, steps, m)|, (gpu, c))
    ensures ReadsGood(states[t], cfg, steps[t].input, gpu, c)
  {
    RefreshStands(states, cfg, steps, t, k);
    HistoryGrows(states, cfg, steps, m, t);
    EveryStateIsSafe(states, cfg, steps, t);
    CountedIsRead(states[t], cfg, steps[t].input, gpu, c);
  }

  /** At every tick from m to k the readings of the GPU were good. */
  ghost predicate GoodThroughout(states: seq<Sys>, cfg: Config, steps: seq<SysStep>, m: nat, k: nat, gpu: nat, c: Condition)
    requires k < |steps| < |states|
  {
    m <= k && forall t | m <= t <= k && steps[t].TickStep? :: ReadsGood(states[t], cfg, steps[t].input, gpu, c)
  }

  lemma HeldIsGoodThroughout(states: seq<Sys>, cfg: Config, steps: seq<SysStep>, m: nat, k: nat, gpu: nat, c: Condition)
    requires RunOf(states, cfg, steps) && m <= k < |steps| && steps[k].TickStep?
    requires HeldSince(UpToRefresh(states, cfg, steps, k), |History(states, cfg, steps, m)|, (gpu, c))
    ensures GoodThroughout(states, cfg, steps, m, k, gpu, c)
  {
    forall t | m <= t <= k && steps[t].TickStep? ensures ReadsGood(states[t], cfg, steps[t].input, gpu, c) {
      HeldIsGood(states, cfg, steps, m, k, gpu, c, t);
    }
  }

  /** Step r is the end of a task that ran on the GPU. */
  predicate EndsTaskOn(s: Sys, step: SysStep, gpu: nat) {
    step.WatcherStep? && step.id in s.running && s.running[step.id].gpu == gpu
  }

  /** Some step after j and before m ends a task that runs on the GPU. */
  ghost predicate EndsAmong(states: seq<Sys>, steps: seq<SysStep>, j: nat, m: nat, gpu: nat)
    requires m <= |steps| < |states|
  {
    exists u :: j < u < m && EndsTaskOn(states[u], steps[u], gpu)
  }

  /** What the second task waits for: an idle GPU, or room for its budget. */
  function NeededCondition(b: Assignment): Condition {
    if b.job.need.budgetMb.Some? then Budget(b.job.need.budgetMb.value) else Idle
  }

  lemma ReleaseIsAnEnd(states: seq<Sys>, cfg: Config, steps: seq<SysStep>, j: nat, m: nat, k: nat, r: nat, gpu: nat)
      returns (u: nat)
    requires RunOf(states, cfg, steps) && j < k < |steps| && m <= k && steps[j].TickStep?
    requires |History(states, cfg, steps, j)| < r < |History(states, cfg, steps, m)| <= |History(states, cfg, steps, k)|
    requires History(states, cfg, steps, k)[r] == Event.Released(gpu)
    ensures j < u < m && EndsTaskOn(states[u], steps[u], gpu)
  {
    var q;
    u, q := WhichStep(states, cfg, steps, k, r);
    EventKinds(states[u], cfg, steps[u], q);
    if u >= m { HistoryGrows(states, cfg, steps, m, u); }
    if u < j { HistoryGrows(states, cfg, steps, u + 1, j); }
  }

  lemma LaterTick(states: seq<Sys>, cfg: Config, steps: seq<SysStep>, j: nat, m: nat)
    requires RunOf(states, cfg, steps) && j < |steps| && m < |steps|
    requires |History(states, cfg, steps, j)| < |History(states, cfg, steps, m)|
    ensures j < m
  {
    if m <= j { HistoryGrows(states, cfg, steps, m, j); }
  }

  lemma TicksAre(states: seq<Sys>, cfg: Config, steps: seq<SysStep>, m: nat, k: nat)
    requires RunOf(states, cfg, steps) && m <= k < |steps| && steps[k].TickStep?
    ensures |History(states, cfg, steps, m)| <= |UpToRefresh(states, cfg, steps, k)|
    ensures Refreshes(UpToRefresh(states, cfg, steps, k), |History(states, cfg, steps, m)|) == Ticks(steps, m, k + 1)
  {
    HistoryGrows(states, cfg, steps, m, k);
    RefreshesAreTicks(states, cfg, steps, m, k);
    OneRefresh(TickRefresh(states[k], cfg, steps[k].input));
    RefreshesTwo(History(states, cfg, steps, k), [TickRefresh(states[k], cfg, steps[k].input)], |History(states, cfg, steps, m)|);
  }

  /** Between a launch on a GPU and a later planned one that rests on no live reservation, there is a tick m
      from which on every tick read the GPU as good for the second task; and these ticks are `required`
      many, or a task ended on the GPU between the launch and m. */
  lemma LaunchesNeedGoodReadings(states: seq<Sys>, cfg: Config, steps: seq<SysStep>, j: nat, x: nat, k: nat, b: Assignment)
      returns (m: nat)
    requires RunOf(states, cfg, steps) && j < k < |steps| && steps[j].TickStep? && steps[k].TickStep?
    requires LaunchedAt(states[j], cfg, steps[j].input, x, b.gpu.index)
    requires PlannedOnCount(states[k], cfg, steps[k].input, b)
    ensures j < m <= k && GoodThroughout(states, cfg, steps, m, k, b.gpu.index, NeededCondition(b))
    ensures Ticks(steps, m, k + 1) >= states[k].ready.required || EndsAmong(states, steps, j, m, b.gpu.index)
  {
    var history, p, c, i := LaunchesAreKeptApart(states, cfg, steps, j, x, k, b);
    NeededIs(ViewAt(states[k], cfg, steps[k].input), b, c);
    m := GapBehind(states, cfg, steps, j, k, b.gpu.index, c, p, i);
  }

  lemma NeededIs(v: View, b: Assignment, c: Condition)
    requires ConditionFor(v, b.job, b.gpu) == Some(c)
    ensures c == NeededCondition(b)
  {}

  /** The ticks behind a gap in the history. */
  lemma GapBehind(states: seq<Sys>, cfg: Config, steps: seq<SysStep>, j: nat, k: nat, gpu: nat, c: Condition, p: nat, i: nat)
      returns (m: nat)
    requires RunOf(states, cfg, steps) && j < k < |steps| && steps[j].TickStep? && steps[k].TickStep?
    requires |History(states, cfg, steps, j)| < p < i && HeldSince(UpToRefresh(states, cfg, steps, k), i, (gpu, c))
    requires || Refreshes(UpToRefresh(states, cfg, steps, k), i) >= states[k].ready.required
             || ReleasedIn(UpToRefresh(states, cfg, steps, k), p, i, gpu)
    ensures j < m <= k && GoodThroughout(states, cfg, steps, m, k, gpu, c)
    ensures Ticks(steps, m, k + 1) >= states[k].ready.required || EndsAmong(states, steps, j, m, gpu)
  {
    m := RefreshIsOfTick(states, cfg, steps, k, i);
    LaterTick(states, cfg, steps, j, m);
    HeldIsGoodThroughout(states, cfg, steps, m, k, gpu, c);
    TicksAre(states, cfg, steps, m, k);
    if ReleasedIn(UpToRefresh(states, cfg, steps, k), p, i, gpu) {
      ReleaseBehind(states, cfg, steps, j, m, k, p, gpu);
    }
  }

  ghost predicate ReleasedIn(history: seq<Event>, p: nat, i: nat, gpu: nat) {
    i <= |history| && exists r :: p < r < i && history[r] == Event.Released(gpu)
  }

  lemma ReleaseBehind(states: seq<Sys>, cfg: Config, steps: seq<SysStep>, j: nat, m: nat, k: nat, p: nat, gpu: nat)
    requires RunOf(states, cfg, steps) && j < k < |steps| && m <= k && steps[j].TickStep? && steps[k].TickStep?
    requires |History(states, cfg, steps, j)| < p
    requires ReleasedIn(UpToRefresh(states, cfg, steps, k), p, |History(states, cfg, steps, m)|, gpu)
    ensures EndsAmong(states, steps, j, m, gpu)
  {
    var r :| p < r < |History(states, cfg, steps, m)| && UpToRefresh(states, cfg, steps, k)[r] == Event.Released(gpu);
    HistoryGrows(states, cfg, steps, m, k);
    var u := ReleaseIsAnEnd(states, cfg, steps, j, m, k, r, gpu);
  }
}
