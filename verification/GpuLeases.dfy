/** Leases over whole runs: when they leave no trace in the stored settings, and when they do. */
module GpuLeases {
  import opened Gpus
  import opened GpuPolicy
  import opened Options

  predicate IsLeaseStep(s: Step) {
    s.Grant? || s.Release?
  }

  /** The same run as if nobody had ever leased a GPU. */
  function WithoutLeases(run: seq<Step>): seq<Step> {
    if run == [] then []
    else
      var s := run[|run| - 1];
      WithoutLeases(run[..|run| - 1]) + if IsLeaseStep(s) then [] else [s]
  }

  /** The policy once every lease has been taken away. */
  function Ended(p: Policy): Policy {
    p.(leases := map[])
  }

  /** The guard of the failing branch: at an observation, GPUs that are switched off, idle and
      leased, while automatic restoring is on. Their recorded start is dropped. */
  function MaskedGpus(p: Policy, gpus: seq<Gpu>, now: int): set<nat> {
    if p.limit.None? || p.limit.value <= 0 || p.allow.None? then {}
    else (Known(gpus) - p.allow.value) * IdleGpus(gpus) * Leased(p.leases, now)
  }

  predicate Masked(p: Policy, s: Step) {
    Watches(s) && MaskedGpus(p, s.gpus, s.at) != {}
  }

  ghost predicate NoneMasked(p: Policy, run: seq<Step>) {
    forall i | 0 <= i < |run| :: !Masked(After(p, run[..i]), run[i])
  }

  // ---------- Unmasked runs leave no trace ----------

  lemma SameWaiting(p: Policy, gpus: seq<Gpu>, now: int)
    requires MaskedGpus(p, gpus, now) == {}
    ensures Restorable(p, Known(gpus), now) * IdleGpus(gpus) == Restorable(Ended(p), Known(gpus), now) * IdleGpus(gpus)
  {
    forall g | g in Restorable(Ended(p), Known(gpus), now) * IdleGpus(gpus) ensures g in Restorable(p, Known(gpus), now) {
      assert g !in MaskedGpus(p, gpus, now);
    }
  }

  lemma SameSync(p: Policy, gpus: seq<Gpu>, now: int)
    requires MaskedGpus(p, gpus, now) == {}
    ensures Ended(Sync(p, gpus, now)) == Sync(Ended(p), gpus, now)
  {
    SameWaiting(p, gpus, now);
  }

  lemma SameDue(p: Policy, gpus: seq<Gpu>, now: int)
    requires MaskedGpus(p, gpus, now) == {}
    ensures Due(Sync(p, gpus, now), gpus, now) == Due(Sync(Ended(p), gpus, now), gpus, now)
  {
    SameWaiting(p, gpus, now);
    SameSync(p, gpus, now);
    var waiting := Restorable(p, Known(gpus), now) * IdleGpus(gpus);
    assert Sync(p, gpus, now).idleSince.Keys == waiting;
    forall g ensures g in Due(Sync(p, gpus, now), gpus, now) <==> g in Due(Sync(Ended(p), gpus, now), gpus, now) {
      assert g in Restorable(p, Known(gpus), now) && g in IdleGpus(gpus) <==> g in waiting;
    }
  }

  /** One unmasked step, seen with every lease taken away, is the step without leases. */
  lemma UnmaskedStep(p: Policy, s: Step)
    requires !Masked(p, s)
    ensures Ended(Apply(p, s)) == if IsLeaseStep(s) then Ended(p) else Apply(Ended(p), s)
  {
    if s.Observe? {
      SameSync(p, s.gpus, s.at);
    } else if s.Restore? {
      SameSync(p, s.gpus, s.at);
      SameDue(p, s.gpus, s.at);
    }
  }

  lemma {:induction false} UnmaskedRun(p: Policy, run: seq<Step>)
    requires NoneMasked(p, run)
    ensures Ended(After(p, run)) == After(Ended(p), WithoutLeases(run))
  {
    if run != [] {
      var n := |run| - 1;
      NoneMaskedBefore(p, run, n);
      UnmaskedRun(p, run[..n]);
      UnmaskedStep(After(p, run[..n]), run[n]);
      LeaselessThen(Ended(p), run[..n], run[n]);
      assert run[..n] + [run[n]] == run;
    }
  }

  lemma NoneMaskedBefore(p: Policy, run: seq<Step>, k: nat)
    requires NoneMasked(p, run) && k <= |run|
    ensures NoneMasked(p, run[..k])
  {
    forall i | 0 <= i < k ensures !Masked(After(p, run[..k][..i]), run[..k][i]) {
      assert run[..k][..i] == run[..i];
    }
  }

  lemma LeaselessThen(p: Policy, run: seq<Step>, s: Step)
    ensures After(p, WithoutLeases(run + [s])) ==
            if IsLeaseStep(s) then After(p, WithoutLeases(run)) else Apply(After(p, WithoutLeases(run)), s)
  {
    assert (run + [s])[..|run|] == run;
    if IsLeaseStep(s) {
      assert WithoutLeases(run + [s]) == WithoutLeases(run);
    } else {
      RunThen(p, WithoutLeases(run), s);
    }
  }

  // ---------- Masked runs do ----------

  /** The stored settings: everything but the leases and the recorded starts. */
  predicate Agree(p: Policy, q: Policy) {
    p.allow == q.allow && p.schedule == q.schedule && p.limit == q.limit
  }

  /** No later run tells p and q apart by their stored settings. */
  ghost predicate SameFuture(p: Policy, q: Policy) {
    forall later :: Agree(After(p, later), After(q, later))
  }

  /** At every point of the run, ending all leases there leaves a policy that behaves for ever as if
      there had been none. */
  ghost predicate NoTrace(p: Policy, run: seq<Step>) {
    forall k | 0 <= k <= |run| :: SameFuture(Ended(After(p, run[..k])), After(Ended(p), WithoutLeases(run[..k])))
  }

  /** A restore tells a GPU whose start has been recorded from one whose start has been dropped. */
  lemma RestoreTells(p: Policy, q: Policy, gpus: seq<Gpu>, now: int, g: nat)
    requires Agree(p, q) && p.leases == q.leases == map[] && p.limit.Some? && p.limit.value > 0
    requires p.allow.Some? && g in Known(gpus) - p.allow.value && g in IdleGpus(gpus)
    requires g !in p.idleSince && g in q.idleSince && now - q.idleSince[g] >= p.limit.value
    ensures !Agree(Apply(p, Restore(gpus, now)), Apply(q, Restore(gpus, now)))
  {
    RestoredAllow(p, gpus, now);
    RestoredAllow(q, gpus, now);
    assert g in Restorable(p, Known(gpus), now) && g in Restorable(q, Known(gpus), now);
    assert g in Due(Sync(q, gpus, now), gpus, now) && g !in Due(Sync(p, gpus, now), gpus, now);
    assert g in AllowedOf(Apply(q, Restore(gpus, now)).allow, Known(gpus));
    assert g !in AllowedOf(Apply(p, Restore(gpus, now)).allow, Known(gpus));
  }

  /** The instant from which a restore finds g due without the masked observation. */
  function DueTime(p: Policy, s: Step, g: nat): int
    requires Watches(s) && p.limit.Some?
  {
    (if g in p.idleSince && p.idleSince[g] > s.at then p.idleSince[g] else s.at) + p.limit.value
  }

  /** Every masked step leaves a trace: at once, or at a later restore after all leases have ended. */
  lemma MaskedLeavesTrace(p: Policy, s: Step, g: nat)
    requires Watches(s) && g in MaskedGpus(p, s.gpus, s.at)
    ensures var a, b := Ended(Apply(p, s)), Apply(Ended(p), s);
            !Agree(a, b) || !Agree(Apply(a, Restore(s.gpus, DueTime(p, s, g))), Apply(b, Restore(s.gpus, DueTime(p, s, g))))
  {
    var a, b := Ended(Apply(p, s)), Apply(Ended(p), s);
    if Agree(a, b) {
      MaskedDropsStart(p, s, g);
      RestoreTells(a, b, s.gpus, DueTime(p, s, g), g);
    }
  }

  lemma MaskedDropsStart(p: Policy, s: Step, g: nat)
    requires Watches(s) && g in MaskedGpus(p, s.gpus, s.at) && Agree(Apply(p, s), Apply(Ended(p), s))
    ensures var a, b := Apply(p, s), Apply(Ended(p), s);
            && a.allow.Some? && g !in a.allow.value && g !in a.idleSince && g in b.idleSince
            && b.idleSince[g] == if g in p.idleSince then p.idleSince[g] else s.at
  {
    assert g in Leased(p.leases, s.at) && g !in Restorable(p, Known(s.gpus), s.at);
    assert g in Restorable(Ended(p), Known(s.gpus), s.at);
    if s.Restore? {
      RestoredAllow(p, s.gpus, s.at);
      RestoredAllow(Ended(p), s.gpus, s.at);
      assert g !in Due(Sync(p, s.gpus, s.at), s.gpus, s.at);
      assert g !in AllowedOf(Apply(p, s).allow, Known(s.gpus));
    }
  }

  lemma {:induction false} FirstMasked(p: Policy, run: seq<Step>) returns (i: nat)
    requires !NoneMasked(p, run)
    ensures i < |run| && Masked(After(p, run[..i]), run[i]) && NoneMasked(p, run[..i])
  {
    var n := |run| - 1;
    if NoneMasked(p, run[..n]) {
      i := n;
      assert forall k | 0 <= k < n :: run[..n][..k] == run[..k];
    } else {
      i := FirstMasked(p, run[..n]);
      assert run[..n][..i] == run[..i];
    }
  }

  /** Leases leave no trace, at any point of a run and for any later run, if and only if no
      observation ever finds a switched-off idle GPU leased while automatic restoring is on. */
  lemma NoTraceIsExact(p: Policy, run: seq<Step>)
    ensures NoTrace(p, run) <==> NoneMasked(p, run)
  {
    if NoneMasked(p, run) {
      UnmaskedLeavesNoTrace(p, run);
    } else {
      var i := FirstMasked(p, run);
      UnmaskedRun(p, run[..i]);
      TraceAt(p, run, i);
    }
  }

  lemma UnmaskedLeavesNoTrace(p: Policy, run: seq<Step>)
    requires NoneMasked(p, run)
    ensures NoTrace(p, run)
  {
    forall k | 0 <= k <= |run| ensures Ended(After(p, run[..k])) == After(Ended(p), WithoutLeases(run[..k])) {
      NoneMaskedBefore(p, run, k);
      UnmaskedRun(p, run[..k]);
    }
  }

  lemma ToldApart(p: Policy, q: Policy, s: Step)
    requires !Agree(p, q) || !Agree(Apply(p, s), Apply(q, s))
    ensures !SameFuture(p, q)
  {
    RunThen(p, [], s);
    RunThen(q, [], s);
    assert After(p, []) == p && After(q, []) == q;
  }

  lemma OneStepOn(p: Policy, run: seq<Step>, i: nat)
    requires i < |run| && !IsLeaseStep(run[i])
    ensures After(p, run[..i + 1]) == Apply(After(p, run[..i]), run[i])
    ensures After(Ended(p), WithoutLeases(run[..i + 1])) == Apply(After(Ended(p), WithoutLeases(run[..i])), run[i])
  {
    assert run[..i + 1] == run[..i] + [run[i]];
    RunThen(p, run[..i], run[i]);
    LeaselessThen(Ended(p), run[..i], run[i]);
  }

  /** A masked step at which the run and its lease-free counterpart still agree tells them apart. */
  lemma MaskedTellsApart(before: Policy, s: Step)
    requires Masked(before, s)
    ensures !SameFuture(Ended(Apply(before, s)), Apply(Ended(before), s))
  {
    var g :| g in MaskedGpus(before, s.gpus, s.at);
    MaskedLeavesTrace(before, s, g);
    ToldApart(Ended(Apply(before, s)), Apply(Ended(before), s), Restore(s.gpus, DueTime(before, s, g)));
  }

  lemma TraceAt(p: Policy, run: seq<Step>, i: nat)
    requires i < |run| && Masked(After(p, run[..i]), run[i])
    requires Ended(After(p, run[..i])) == After(Ended(p), WithoutLeases(run[..i]))
    ensures !NoTrace(p, run)
  {
    MaskedTellsApart(After(p, run[..i]), run[i]);
    OneStepOn(p, run, i);
    assert !SameFuture(Ended(After(p, run[..i + 1])), After(Ended(p), WithoutLeases(run[..i + 1])));
  }

  /** So after an unmasked run the schedulable set is that of the run without leases, less the GPUs
      leased now; and it is exactly that set once every lease has ended. */
  lemma EndedLeasesGiveBackEverything(p: Policy, run: seq<Step>, known: set<nat>, now: int)
    requires NoneMasked(p, run)
    ensures Schedulable(After(p, run), known, now) ==
            Schedulable(After(Ended(p), WithoutLeases(run)), known, now) - Leased(After(p, run).leases, now)
    ensures (forall id | id in After(p, run).leases :: !Active(After(p, run).leases[id], now)) ==>
              Schedulable(After(p, run), known, now) == Schedulable(After(Ended(p), WithoutLeases(run)), known, now)
  {
    UnmaskedRun(p, run);
    SchedulableIs(After(p, run), known, now);
    SchedulableIs(Ended(After(p, run)), known, now);
    assert Leased(map[], now) == {};
  }

  /** A GPU due for restoring but leased stays switched off, also after every lease has ended. */
  lemma LeaseDelaysRestore(p: Policy, gpus: seq<Gpu>, now: int, gpu: nat, later: int)
    requires gpu in Restored(Ended(p), Restore(gpus, now)) && gpu in Leased(p.leases, now)
    ensures gpu in Schedulable(AutoRestore(Ended(p), gpus, now), Known(gpus), later)
    ensures gpu !in Schedulable(Ended(AutoRestore(p, gpus, now)), Known(gpus), later)
  {
    SchedulableIs(AutoRestore(Ended(p), gpus, now), Known(gpus), later);
    SchedulableIs(Ended(AutoRestore(p, gpus, now)), Known(gpus), later);
    RestoredAllow(Ended(p), gpus, now);
    RestoredAllow(p, gpus, now);
  }

  // ---------- Failing runs ----------

  /** A policy with one switched-off, idle, unleased GPU, and no observation yet. */
  ghost predicate OneWaiting(p: Policy, gpu: Gpu) {
    && p.leases == map[] && p.idleSince == map[] && p.limit.Some? && p.limit.value > 0
    && p.allow.Some? && gpu.index !in p.allow.value && gpu.physicallyIdle
  }

  /** The GPU is seen waiting, leased, seen again, given back, and offered for restoring. */
  function LeaseDuringWait(gpu: Gpu, id: nat, start: int, middle: int, end: int): seq<Step> {
    [Observe([gpu], start)] + [Grant(id, {gpu.index}, None)] + [Observe([gpu], middle)] + [Release(id)]
    + [Restore([gpu], end)]
  }

  lemma OnlyOne(gpu: Gpu)
    requires gpu.physicallyIdle
    ensures Known([gpu]) == IdleGpus([gpu]) == {gpu.index}
  {
    assert gpu in [gpu];
  }

  lemma SyncAlone(p: Policy, gpu: Gpu, now: int)
    requires p.limit.Some? && p.limit.value > 0 && p.allow.Some? && gpu.index !in p.allow.value && gpu.physicallyIdle
    ensures Sync(p, [gpu], now).idleSince ==
            if gpu.index in Leased(p.leases, now) then map[]
            else map[gpu.index := if gpu.index in p.idleSince then p.idleSince[gpu.index] else now]
  {
    OnlyOne(gpu);
  }

  function LeasedOnce(p: Policy, gpu: Gpu, id: nat, released: bool): Policy {
    p.(leases := map[id := Lease({gpu.index}, None, released)])
  }

  function SeenAt(p: Policy, gpu: Gpu, start: int): Policy {
    p.(idleSince := map[gpu.index := start])
  }

  lemma RunParts(gpu: Gpu, id: nat, start: int, middle: int, end: int) returns (run2: seq<Step>)
    ensures run2 == [Observe([gpu], start)] + [Grant(id, {gpu.index}, None)]
    ensures var run := LeaseDuringWait(gpu, id, start, middle, end);
            && run == run2 + [Observe([gpu], middle)] + [Release(id)] + [Restore([gpu], end)]
            && run[..2] == run2 && run[2] == Observe([gpu], middle)
            && run[..4] == run2 + [Observe([gpu], middle)] + [Release(id)]
  {
    run2 := [Observe([gpu], start)] + [Grant(id, {gpu.index}, None)];
  }

  lemma BeforeRelease(p: Policy, gpu: Gpu, id: nat, start: int, middle: int)
    requires OneWaiting(p, gpu)
    ensures var run2 := [Observe([gpu], start)] + [Grant(id, {gpu.index}, None)];
            && After(p, run2) == LeasedOnce(SeenAt(p, gpu, start), gpu, id, false)
            && After(p, WithoutLeases(run2)) == SeenAt(p, gpu, start)
            && Masked(After(p, run2), Observe([gpu], middle))
            && Apply(Apply(After(p, run2), Observe([gpu], middle)), Release(id)) == LeasedOnce(p, gpu, id, true)
            && Apply(SeenAt(p, gpu, start), Observe([gpu], middle)) == SeenAt(p, gpu, start)
  {
    FirstSteps(p, Observe([gpu], start), Grant(id, {gpu.index}, None));
    SyncAlone(p, gpu, start);
    LeasedInBetween(LeasedOnce(SeenAt(p, gpu, start), gpu, id, false), gpu, id, middle);
    SyncAlone(SeenAt(p, gpu, start), gpu, middle);
  }

  lemma WholeRun(p: Policy, gpu: Gpu, id: nat, start: int, middle: int, end: int)
    requires OneWaiting(p, gpu)
    ensures var run := LeaseDuringWait(gpu, id, start, middle, end);
            && After(p, run[..4]) == LeasedOnce(p, gpu, id, true)
            && After(p, run) == Apply(LeasedOnce(p, gpu, id, true), Restore([gpu], end))
            && After(p, WithoutLeases(run)) == Apply(SeenAt(p, gpu, start), Restore([gpu], end))
            && Masked(After(p, run[..2]), run[2])
  {
    var run2 := RunParts(gpu, id, start, middle, end);
    BeforeRelease(p, gpu, id, start, middle);
    LastSteps(p, run2, Observe([gpu], middle), Release(id), Restore([gpu], end));
  }

  /** A lease that comes and goes during the wait. No lease is left when the GPU has been idle for the
      limit, and none is active at the restore; yet it stays switched off, where without the lease it
      would have been switched on. */
  lemma LeaseResetsTheWait(p: Policy, gpu: Gpu, id: nat, start: int, middle: int, end: int)
    requires OneWaiting(p, gpu) && end - start >= p.limit.value
    ensures var run, known := LeaseDuringWait(gpu, id, start, middle, end), {gpu.index};
            && After(p, run[..4]).leases == map[id := Lease({gpu.index}, None, true)]
            && gpu.index !in Schedulable(After(p, run), known, end)
            && gpu.index in Schedulable(After(p, WithoutLeases(run)), known, end)
            && Masked(After(p, run[..2]), run[2])
  {
    WholeRun(p, gpu, id, start, middle, end);
    RestoreAlone(LeasedOnce(p, gpu, id, true), gpu, end);
    RestoreAlone(SeenAt(p, gpu, start), gpu, end);
  }

  lemma LeasedInBetween(leased: Policy, gpu: Gpu, id: nat, now: int)
    requires leased.limit.Some? && leased.limit.value > 0 && leased.allow.Some? && gpu.index !in leased.allow.value
    requires gpu.physicallyIdle && leased.leases == map[id := Lease({gpu.index}, None, false)]
    ensures Masked(leased, Observe([gpu], now)) && Apply(leased, Observe([gpu], now)) == leased.(idleSince := map[])
  {
    OnlyOne(gpu);
    assert id in leased.leases && Active(leased.leases[id], now);
    assert gpu.index in Leased(leased.leases, now);
    assert gpu.index in MaskedGpus(leased, [gpu], now);
    SyncAlone(leased, gpu, now);
  }

  /** One such run in numbers. */
  lemma LeaseExample() returns (p: Policy, gpu: Gpu, run: seq<Step>)
    ensures p == Policy(Some({}), map[], map[], map[], Some(10)) && gpu.index == 0 && gpu.physicallyIdle
    ensures run == [Observe([gpu], 0), Grant(7, {0}, None), Observe([gpu], 5), Release(7), Restore([gpu], 10)]
    ensures 0 !in Schedulable(After(p, run), {0}, 10) && 0 in Schedulable(After(p, WithoutLeases(run)), {0}, 10)
    ensures !NoneMasked(p, run)
  {
    p :| p == Policy(Some({}), map[], map[], map[], Some(10));
    gpu :| gpu == Gpu(0, 1000, 0, 1000, false, false, true, false);
    run := LeaseDuringWait(gpu, 7, 0, 5, 10);
    LeaseResetsTheWait(p, gpu, 7, 0, 5, 10);
  }

  lemma FirstSteps(p: Policy, a: Step, b: Step)
    ensures After(p, [a] + [b]) == Apply(Apply(p, a), b)
    ensures After(p, WithoutLeases([a] + [b])) ==
            var q := if IsLeaseStep(a) then p else Apply(p, a); if IsLeaseStep(b) then q else Apply(q, b)
  {
    assert [] + [a] == [a];
    RunThen(p, [], a);
    RunThen(p, [a], b);
    LeaselessThen(p, [], a);
    LeaselessThen(p, [a], b);
  }

  lemma LastSteps(p: Policy, run: seq<Step>, a: Step, b: Step, c: Step)
    requires !IsLeaseStep(a) && IsLeaseStep(b) && !IsLeaseStep(c)
    ensures After(p, run + [a] + [b]) == Apply(Apply(After(p, run), a), b)
    ensures After(p, run + [a] + [b] + [c]) == Apply(Apply(Apply(After(p, run), a), b), c)
    ensures After(p, WithoutLeases(run + [a] + [b] + [c])) == Apply(Apply(After(p, WithoutLeases(run)), a), c)
  {
    RunThen(p, run, a);
    RunThen(p, run + [a], b);
    RunThen(p, run + [a] + [b], c);
    LeaselessThen(p, run, a);
    LeaselessThen(p, run + [a], b);
    LeaselessThen(p, run + [a] + [b], c);
  }

  /** The GPU is restored when it has been seen waiting for the limit, and not when it is first seen now. */
  lemma RestoreAlone(p: Policy, gpu: Gpu, now: int)
    requires p.limit.Some? && p.limit.value > 0 && p.allow.Some? && gpu.index !in p.allow.value && gpu.physicallyIdle
    requires Leased(p.leases, now) == {}
    requires gpu.index in p.idleSince ==> now - p.idleSince[gpu.index] >= p.limit.value
    ensures gpu.index in Schedulable(Apply(p, Restore([gpu], now)), {gpu.index}, now) <==> gpu.index in p.idleSince
  {
    OnlyOne(gpu);
    SyncAlone(p, gpu, now);
    RestoreGrowsExactly(p, [gpu], now);
    SchedulableIs(p, {gpu.index}, now);
    var s := Sync(p, [gpu], now);
    assert gpu.index in Restorable(s, {gpu.index}, now);
    assert gpu.index in Due(s, [gpu], now) <==> gpu.index in p.idleSince;
  }
}
