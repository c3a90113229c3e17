/** Counts of consecutive good observations per GPU and condition, and what a full count means
    over any history of refreshes, launches, releases and setting changes. */
module Readiness {
  import opened Gpus
  import opened Matching

  type Key = (nat, Condition)

  /** required is max(1, the configured number of checks). */
  datatype Ready = Ready(counts: Counts, released: set<nat>, required: nat)

  // ---------- One refresh ----------

  /** The conditions a payload satisfies, for the budgets that queued tasks ask for. */
  predicate Satisfies(gpus: seq<Gpu>, budgets: set<int>, cooling: set<nat>, k: Key) {
    exists g | g in gpus ::
      && g.index == k.0 && g.index !in cooling && g.enabled
      && match k.1
         case Idle => g.idle
         case Budget(mb) => mb in budgets && HasBudgetCapacity(g, mb, 0)
  }

  /** A flagged GPU seen free of scheduler tasks uses up its flag. */
  predicate SeenFree(gpus: seq<Gpu>, cooling: set<nat>, released: set<nat>, gpu: nat) {
    gpu in released && exists g | g in gpus :: g.index == gpu && gpu !in cooling && !g.occupied
  }

  function Counted(r: Ready, k: Key): nat {
    var n := CountOf(r.counts, k.0, k.1) + 1;
    if k.0 in r.released && n < r.required then r.required else n
  }

  function Refresh(r: Ready, sat: set<Key>, seen: set<nat>): Ready {
    r.(counts := map k | k in sat :: Counted(r, k), released := r.released - seen)
  }

  function ClearGpu(r: Ready, gpu: nat): Ready {
    r.(counts := map k | k in r.counts && k.0 != gpu :: r.counts[k], released := r.released - {gpu})
  }

  class Tracker {
    var counts: Counts
    var released: set<nat>
    var required: nat

    function State(): Ready
      reads this
    {
      Ready(counts, released, required)
    }

    constructor (checks: int)
      ensures State() == Ready(map[], {}, if checks < 1 then 1 else checks)
    {
      counts, released, required := map[], {}, if checks < 1 then 1 else checks;
    }

    method RefreshGpuReadyCounts(gpus: seq<Gpu>, jobs: seq<Job>, cooling: set<nat>)
        returns (ghost sat: set<Key>, ghost seen: set<nat>)
      modifies this
      ensures State() == Refresh(old(State()), sat, seen)
      ensures forall k :: k in sat <==> Satisfies(gpus, BudgetsOf(jobs), cooling, k)
      ensures forall g :: g in seen <==> SeenFree(gpus, cooling, old(released), g)
    {
      var budgets := CollectBudgets(jobs);
      var satisfied, observed := Observe(gpus, budgets, cooling);
      sat, seen := satisfied, observed;
      var refreshed: Counts := map[];
      var rest := satisfied;
      while rest != {}
        invariant rest <= satisfied
        invariant refreshed == map k | k in satisfied - rest :: Counted(old(State()), k)
        decreases rest
      {
        var k :| k in rest;
        var count := CountOf(counts, k.0, k.1) + 1;
        if k.0 in released && count < required {
          count := required;
        }
        refreshed := refreshed[k := count];
        rest := rest - {k};
      }
      counts := refreshed;
      released := released - observed;
    }

    /** The conditions satisfied now, and the flagged GPUs seen free. */
    method Observe(gpus: seq<Gpu>, budgets: set<int>, cooling: set<nat>) returns (satisfied: set<Key>, observed: set<nat>)
      ensures forall k :: k in satisfied <==> Satisfies(gpus, budgets, cooling, k)
      ensures forall g :: g in observed <==> SeenFree(gpus, cooling, released, g)
    {
      satisfied, observed := {}, {};
      for i := 0 to |gpus|
        invariant forall k :: k in satisfied <==> Satisfies(gpus[..i], budgets, cooling, k)
        invariant forall g :: g in observed <==> SeenFree(gpus[..i], cooling, released, g)
      {
        var gpu := gpus[i];
        assert gpus[..i + 1] == gpus[..i] + [gpu];
        assert forall k :: Satisfies(gpus[..i + 1], budgets, cooling, k) <==>
            Satisfies(gpus[..i], budgets, cooling, k) || Satisfies([gpu], budgets, cooling, k);
        assert forall g :: SeenFree(gpus[..i + 1], cooling, released, g) <==>
            SeenFree(gpus[..i], cooling, released, g) || SeenFree([gpu], cooling, released, g);
        if gpu.index in cooling {
          continue;
        }
        if gpu.index in released && !gpu.occupied {
          observed := observed + {gpu.index};
        }
        if !gpu.enabled {
          continue;
        }
        var here := SatisfiedBudgets(gpu, budgets);
        satisfied := satisfied + (if gpu.idle then {(gpu.index, Idle)} else {}) + here;
      }
      assert gpus[..|gpus|] == gpus;
    }

    method ClearGpuReadyCounts(gpu: nat)
      modifies this
      ensures State() == ClearGpu(old(State()), gpu)
    {
      counts := map k | k in counts && k.0 != gpu :: counts[k];
      released := released - {gpu};
    }

    method MarkRecentlyReleased(gpu: nat)
      modifies this
      ensures State() == old(State()).(released := old(released) + {gpu})
    {
      released := released + {gpu};
    }

    /** A settings change. */
    method Configure(checks: int)
      modifies this
      ensures State() == Ready(map[], {}, if checks < 1 then 1 else checks)
    {
      counts, released, required := map[], {}, if checks < 1 then 1 else checks;
    }
  }

  function BudgetsOf(jobs: seq<Job>): set<int> {
    set j | j in jobs && j.need.budgetMb.Some? :: j.need.budgetMb.value
  }

  method CollectBudgets(jobs: seq<Job>) returns (budgets: set<int>)
    ensures budgets == BudgetsOf(jobs)
  {
    budgets := {};
    for i := 0 to |jobs|
      invariant budgets == BudgetsOf(jobs[..i])
    {
      assert jobs[..i + 1] == jobs[..i] + [jobs[i]];
      if jobs[i].need.budgetMb.Some? {
        budgets := budgets + {jobs[i].need.budgetMb.value};
      }
    }
    assert jobs[..|jobs|] == jobs;
  }

  method SatisfiedBudgets(gpu: Gpu, budgets: set<int>) returns (keys: set<Key>)
    ensures forall k :: k in keys <==>
        k.0 == gpu.index && k.1.Budget? && k.1.mb in budgets && HasBudgetCapacity(gpu, k.1.mb, 0)
  {
    keys := set mb | mb in budgets && HasBudgetCapacity(gpu, mb, 0) :: (gpu.index, Budget(mb));
    forall mb | mb in budgets && HasBudgetCapacity(gpu, mb, 0) ensures (gpu.index, Budget(mb)) in keys {}
  }

  // ---------- Histories ----------

  datatype Event =
    | Refreshed(sat: set<Key>, seen: set<nat>)
    | Cleared(gpu: nat)
    | Released(gpu: nat)
    | Configured(required: nat)

  function Next(r: Ready, e: Event): Ready {
    match e
    case Refreshed(sat, seen) => Refresh(r, sat, seen)
    case Cleared(g) => ClearGpu(r, g)
    case Released(g) => r.(released := r.released + {g})
    case Configured(n) => Ready(map[], {}, n)
  }

  /** The tracker after a history that starts from nothing. */
  function After(start: nat, events: seq<Event>): Ready {
    Fold(Ready(map[], {}, start), events)
  }

  function Fold(r: Ready, events: seq<Event>): Ready {
    if events == [] then r else Next(Fold(r, events[..|events| - 1]), events[|events| - 1])
  }

  lemma {:induction false} FoldTwo(r: Ready, a: seq<Event>, b: seq<Event>)
    ensures Fold(r, a + b) == Fold(Fold(r, a), b)
  {
    if b == [] {
      assert a + b == a;
    } else {
      var n := |b| - 1;
      assert (a + b)[..|a + b| - 1] == a + b[..n];
      FoldTwo(r, a, b[..n]);
    }
  }

  lemma FoldMore(r: Ready, events: seq<Event>, e: Event)
    ensures Fold(r, events + [e]) == Next(Fold(r, events), e)
  {
    assert (events + [e])[..|events + [e]| - 1] == events;
  }

  /** Event e ends a run of good observations of k. */
  predicate Breaks(e: Event, k: Key) {
    match e
    case Refreshed(sat, _) => k !in sat
    case Cleared(g) => g == k.0
    case Released(_) => false
    case Configured(_) => true
  }

  predicate Unflags(e: Event, gpu: nat) {
    match e
    case Refreshed(_, seen) => gpu in seen
    case Cleared(g) => g == gpu
    case Released(_) => false
    case Configured(_) => true
  }

  /** From refresh i to the end, every refresh found k satisfied and nothing was cleared. */
  predicate HeldSince(events: seq<Event>, i: nat, k: Key) {
    i < |events| && events[i].Refreshed? && forall j | i <= j < |events| :: !Breaks(events[j], k)
  }

  /** Just before event i, gpu carries the recently-released flag. */
  predicate FlaggedAt(events: seq<Event>, i: nat, gpu: nat)
    requires i <= |events|
  {
    exists r | 0 <= r < i :: events[r] == Released(gpu) && forall j | r < j < i :: !Unflags(events[j], gpu)
  }

  function Refreshes(events: seq<Event>, i: nat): nat
    requires i <= |events|
    decreases |events|
  {
    if i == |events| then 0
    else Refreshes(events[..|events| - 1], i) + if events[|events| - 1].Refreshed? then 1 else 0
  }

  /** The count without boosts, and whether a boost is still in it. */
  function Streak(events: seq<Event>, k: Key): nat {
    if events == [] then 0
    else
      var e, before := events[|events| - 1], Streak(events[..|events| - 1], k);
      if Breaks(e, k) then 0 else if e.Refreshed? then before + 1 else before
  }

  function Boosted(start: nat, events: seq<Event>, k: Key): bool {
    events != [] &&
    var e, before := events[|events| - 1], events[..|events| - 1];
    !Breaks(e, k) && (Boosted(start, before, k) || (e.Refreshed? && k.0 in After(start, before).released))
  }

  lemma {:induction false} FlagMeans(start: nat, events: seq<Event>, gpu: nat)
    ensures gpu in After(start, events).released <==> FlaggedAt(events, |events|, gpu)
  {
    if events != [] {
      var n := |events| - 1;
      FlagMeans(start, events[..n], gpu);
      if FlaggedAt(events[..n], n, gpu) && !Unflags(events[n], gpu) {
        var r :| 0 <= r < n && events[..n][r] == Released(gpu) && forall j | r < j < n :: !Unflags(events[..n][j], gpu);
        assert events[r] == Released(gpu);
      }
      if FlaggedAt(events, |events|, gpu) && events[n] != Released(gpu) {
        var r :| 0 <= r < |events| && events[r] == Released(gpu) && forall j | r < j < |events| :: !Unflags(events[j], gpu);
        assert events[..n][r] == Released(gpu);
      }
    }
  }

  lemma {:induction false} StreakMeans(events: seq<Event>, k: Key, n: nat)
    requires n >= 1
    ensures Streak(events, k) >= n <==> exists i: nat :: HeldSince(events, i, k) && Refreshes(events, i) >= n
  {
    if events != [] {
      var m := |events| - 1;
      var e := events[m];
      if !Breaks(e, k) {
        if e.Refreshed? && n == 1 {
          assert HeldSince(events, m, k) && Refreshes(events, m) == 1;
        } else {
          var n' := if e.Refreshed? then n - 1 else n;
          StreakMeans(events[..m], k, n');
          if i: nat :| HeldSince(events[..m], i, k) && Refreshes(events[..m], i) >= n' {
            assert forall j | i <= j < m :: events[..m][j] == events[j];
            assert HeldSince(events, i, k);
          }
          if i: nat :| HeldSince(events, i, k) && Refreshes(events, i) >= n {
            assert i < m;
            assert HeldSince(events[..m], i, k);
          }
        }
      }
    }
  }

  /** Refresh i boosted the count of k and the run has not been broken since. */
  predicate BoostedBy(events: seq<Event>, i: nat, k: Key) {
    HeldSince(events, i, k) && FlaggedAt(events, i, k.0)
  }

  lemma BoostedByPrefix(events: seq<Event>, i: nat, k: Key)
    requires events != [] && i < |events| - 1
    ensures BoostedBy(events, i, k) <==>
            BoostedBy(events[..|events| - 1], i, k) && !Breaks(events[|events| - 1], k)
  {
    var m := |events| - 1;
    FlagPrefix(events, m, i, k.0);
    assert forall j | i <= j < m :: events[..m][j] == events[j];
    assert events[..m][i] == events[i];
  }

  lemma BoostedByLast(start: nat, events: seq<Event>, k: Key)
    requires events != []
    ensures var m := |events| - 1;
            BoostedBy(events, m, k) <==>
            events[m].Refreshed? && !Breaks(events[m], k) && k.0 in After(start, events[..m]).released
  {
    var m := |events| - 1;
    FlagMeans(start, events[..m], k.0);
    FlagPrefix(events, m, m, k.0);
  }

  lemma {:induction false} BoostMeans(start: nat, events: seq<Event>, k: Key)
    ensures Boosted(start, events, k) <==> exists i: nat :: BoostedBy(events, i, k)
  {
    if events != [] {
      var m := |events| - 1;
      BoostMeans(start, events[..m], k);
      BoostedByLast(start, events, k);
      if i: nat :| BoostedBy(events[..m], i, k) {
        BoostedByPrefix(events, i, k);
      }
      if i: nat :| BoostedBy(events, i, k) {
        if i < m { BoostedByPrefix(events, i, k); }
      }
    }
  }

  lemma FlagPrefix(events: seq<Event>, m: nat, i: nat, gpu: nat)
    requires i <= m <= |events|
    ensures FlaggedAt(events[..m], i, gpu) <==> FlaggedAt(events, i, gpu)
  {
    if r :| 0 <= r < i && events[..m][r] == Released(gpu) && forall j | r < j < i :: !Unflags(events[..m][j], gpu) {
      assert events[r] == Released(gpu);
      assert forall j | r < j < i :: events[..m][j] == events[j];
    }
    if r :| 0 <= r < i && events[r] == Released(gpu) && forall j | r < j < i :: !Unflags(events[j], gpu) {
      assert events[..m][r] == Released(gpu);
      assert forall j | r < j < i :: events[..m][j] == events[j];
    }
  }

  lemma {:induction false} CountIs(start: nat, events: seq<Event>, k: Key)
    ensures var r := After(start, events);
            && (Boosted(start, events, k) ==> CountOf(r.counts, k.0, k.1) >= r.required)
            && (!Boosted(start, events, k) ==> CountOf(r.counts, k.0, k.1) == Streak(events, k))
  {
    if events != [] {
      CountIs(start, events[..|events| - 1], k);
    }
  }

  /** What a full count means: the condition held at each of the last `required` refreshes, or at
      every refresh since one that found the GPU flagged as recently released. */
  lemma FullCountMeans(start: nat, events: seq<Event>, k: Key)
    requires After(start, events).required >= 1
    ensures var r := After(start, events);
            CountOf(r.counts, k.0, k.1) >= r.required <==>
            exists i: nat :: HeldSince(events, i, k) && (Refreshes(events, i) >= r.required || FlaggedAt(events, i, k.0))
  {
    var r := After(start, events);
    CountIs(start, events, k);
    StreakMeans(events, k, r.required);
    BoostMeans(start, events, k);
    if i: nat :| HeldSince(events, i, k) && FlaggedAt(events, i, k.0) {
      assert BoostedBy(events, i, k);
    }
    if i: nat :| HeldSince(events, i, k) && Refreshes(events, i) >= r.required && !Boosted(start, events, k) {
      assert Streak(events, k) >= r.required;
    }
  }

  /** After a launch on a GPU, a full count of a condition there means: since some later refresh every
      refresh found the condition satisfied, and these refreshes are `required` many, or the first of
      them came after some task had ended on the GPU since the launch. */
  lemma LaunchGap(start: nat, events: seq<Event>, launch: nat, k: Key) returns (i: nat)
    requires launch < |events| && events[launch] == Cleared(k.0)
    requires After(start, events).required >= 1
    requires CountOf(After(start, events).counts, k.0, k.1) >= After(start, events).required
    ensures launch < i && HeldSince(events, i, k)
    ensures Refreshes(events, i) >= After(start, events).required
            || exists r :: launch < r < i && events[r] == Released(k.0)
  {
    FullCountMeans(start, events, k);
    var required := After(start, events).required;
    i :| HeldSince(events, i, k) && (Refreshes(events, i) >= required || FlaggedAt(events, i, k.0));
    assert Breaks(events[launch], k) && Unflags(events[launch], k.0);
    if FlaggedAt(events, i, k.0) {
      var r :| 0 <= r < i && events[r] == Released(k.0) && forall j | r < j < i :: !Unflags(events[j], k.0);
      assert launch < r;
    }
  }
}
