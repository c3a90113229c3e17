/** The policy over whole runs: which timed entries are stored and what they do when they come due, and
    exactly when a GPU is restored. */
module GpuEntries {
  import opened GpuPolicy
  import opened Gpus
  import opened Histories

  // ---------- What the other steps do to the schedulable set ----------

  /** Setting the allowlist sets the schedulable set, leases aside; entries, observations and the limit do
      not touch it. */
  lemma ListIsSet(p: Policy, s: Step, known: set<nat>, now: int)
    requires s.SetAllowed? || s.SetEntry? || s.ClearEntry? || s.Observe? || s.SetLimit?
    ensures Schedulable(Apply(p, s), known, now) ==
            if s.SetAllowed? then (if s.allow.None? then known else s.allow.value * known) - Leased(p.leases, now)
            else Schedulable(p, known, now)
  {
    SchedulableIs(p, known, now);
    SchedulableIs(Apply(p, s), known, now);
  }

  // ---------- Timed entries ----------

  predicate Stored(p: Policy, g: nat, e: Entry) {
    g in p.schedule && p.schedule[g] == e
  }

  /** The step replaces or clears the GPU's entry, or finds e due. */
  predicate Retires(s: Step, g: nat, e: Entry) {
    match s
    case SetEntry(x, _) => x == g
    case ClearEntry(x) => x == g
    case RunSchedule(_, at) => e.runAt <= at
    case _ => false
  }

  lemma EntryStep(p: Policy, s: Step, g: nat, e: Entry)
    ensures Stored(Apply(p, s), g, e) <==> s == SetEntry(g, e) || (Stored(p, g, e) && !Retires(s, g, e))
  {}

  /** Step i set the entry, and no later step replaced or cleared it or found it due. */
  ghost predicate SetAt(run: seq<Step>, i: nat, g: nat, e: Entry) {
    i < |run| && run[i] == SetEntry(g, e) && forall j | i < j < |run| :: !Retires(run[j], g, e)
  }

  lemma EntryTrace(p: Policy, run: seq<Step>, g: nat, e: Entry)
      returns (holds: seq<bool>, gives: seq<bool>, drops: seq<bool>)
    requires p.schedule == map[]
    ensures Follows(holds, gives, drops) && |gives| == |run| && (holds[|run|] <==> Stored(After(p, run), g, e))
    ensures forall k | 0 <= k < |run| :: (gives[k] <==> run[k] == SetEntry(g, e)) && (drops[k] <==> Retires(run[k], g, e))
  {
    holds := seq(|run| + 1, k requires 0 <= k <= |run| => Stored(After(p, run[..k]), g, e));
    gives := seq(|run|, k requires 0 <= k < |run| => run[k] == SetEntry(g, e));
    drops := seq(|run|, k requires 0 <= k < |run| => Retires(run[k], g, e));
    forall k | 0 <= k < |run| ensures holds[k + 1] <==> gives[k] || (holds[k] && !drops[k]) {
      assert run[..k + 1][..k] == run[..k];
      EntryStep(After(p, run[..k]), run[k], g, e);
    }
    assert run[..0] == [] && run[..|run|] == run;
  }

  /** Over any run, an entry is stored exactly if some step set it and no later step replaced or cleared it or
      found it due: so it fires once, at the first look at or after its time, and future entries stay. */
  lemma EntriesWaitForTheirTime(p: Policy, run: seq<Step>, g: nat, e: Entry)
    requires p.schedule == map[]
    ensures Stored(After(p, run), g, e) <==> exists i: nat :: SetAt(run, i, g, e)
  {
    var holds, gives, drops := EntryTrace(p, run, g, e);
    HoldsIfStanding(holds, gives, drops, |run|);
    forall i: nat ensures StandsSince(gives, drops, i, |run|) <==> SetAt(run, i, g, e) {}
  }

  /** A look at the entries: a known GPU whose entry is due is allowed exactly if the entry says so; every
      other known GPU stays as it was; leases, limit and idle times are left alone. */
  lemma DueEntriesSwitch(p: Policy, known: set<nat>, at: int, g: nat)
    requires g in known
    ensures var q := Apply(p, RunSchedule(known, at));
            && (g in AllowedOf(q.allow, known) <==>
                  if g in p.schedule && p.schedule[g].runAt <= at then p.schedule[g].enable
                  else g in AllowedOf(p.allow, known))
            && q.leases == p.leases && q.limit == p.limit && q.idleSince == p.idleSince
  {}

  /** A list that would name every known GPU is stored as no list, so that GPUs seen later are allowed too;
      any other list stays one. */
  lemma FullListIsNoList(p: Policy, known: set<nat>, at: int, other: set<nat>)
    requires (p.allow.Some? ==> p.allow.value <= known) && p.schedule.Keys <= known
    requires exists g :: g in p.schedule && p.schedule[g].runAt <= at
    ensures var q := Apply(p, RunSchedule(known, at));
            AllowedOf(q.allow, other) == if AllowedOf(q.allow, known) == known then other else AllowedOf(q.allow, known) * other
  {
    var q := Apply(p, RunSchedule(known, at));
    var enabled := (if p.allow.None? then known else p.allow.value) + DueEnabled(p.schedule, at) - DueDisabled(p.schedule, at);
    assert enabled <= known && q.allow == Normalized(enabled, known);
    assert enabled * known == enabled;
  }

  /** So it is when GPUs are restored. */
  lemma FullRestoreIsNoList(p: Policy, gpus: seq<Gpu>, at: int, other: set<nat>)
    requires Restored(p, Restore(gpus, at)) != {}
    ensures var q, known := Apply(p, Restore(gpus, at)), Known(gpus);
            AllowedOf(q.allow, other) == if AllowedOf(q.allow, known) == known then other else AllowedOf(q.allow, known) * other
  {
    var q, known := Apply(p, Restore(gpus, at)), Known(gpus);
    var s := Sync(p, gpus, at);
    var restored := Due(s, gpus, at);
    assert restored <= known && s.allow.Some?;
    var enabled := s.allow.value * known + restored;
    assert enabled <= known && q.allow == Normalized(enabled, known);
    assert enabled * known == enabled;
  }

  // ---------- Restoring, exactly ----------

  /** The clock of observations never goes backwards. */
  ghost predicate InOrder(run: seq<Step>) {
    forall i, j | 0 <= i < j < |run| && Watches(run[i]) && Watches(run[j]) :: run[i].at <= run[j].at
  }

  lemma WaitingIsTracked(p: Policy, s: Step, gpu: nat)
    requires gpu in p.idleSince && !EndsWait(p, s, gpu)
    ensures gpu in Apply(p, s).idleSince && Apply(p, s).idleSince[gpu] == p.idleSince[gpu]
  {}

  lemma WaitStarts(p: Policy, s: Step, gpu: nat)
    requires Watches(s) && !EndsWait(p, s, gpu)
    ensures gpu in Apply(p, s).idleSince
    ensures Apply(p, s).idleSince[gpu] == if gpu in p.idleSince then p.idleSince[gpu] else s.at
  {}

  /** Nothing recorded is in the future of observation i. */
  ghost predicate RecordedBefore(p: Policy, now: int) {
    forall g | g in p.idleSince :: p.idleSince[g] <= now
  }

  lemma {:induction false} StartsAreObservations(p: Policy, run: seq<Step>, now: int)
    requires p.idleSince == map[] && forall i | 0 <= i < |run| && Watches(run[i]) :: run[i].at <= now
    ensures RecordedBefore(After(p, run), now)
  {
    forall g | g in After(p, run).idleSince ensures After(p, run).idleSince[g] <= now {
      var i := IdleSinceMeans(p, run, g);
    }
  }

  lemma AfterOneMore(p: Policy, run: seq<Step>, k: nat)
    requires k < |run|
    ensures After(p, run[..k + 1]) == Apply(After(p, run[..k]), run[k])
  {
    assert run[..k + 1][..k] == run[..k];
  }

  lemma WaitBegins(p: Policy, run: seq<Step>, i: nat, gpu: nat)
    requires p.idleSince == map[] && InOrder(run) && i < |run| && Watches(run[i])
    requires !EndsWait(After(p, run[..i]), run[i], gpu)
    ensures gpu in After(p, run[..i + 1]).idleSince && After(p, run[..i + 1]).idleSince[gpu] <= run[i].at
  {
    AfterOneMore(p, run, i);
    forall j | 0 <= j < i && Watches(run[..i][j]) ensures run[..i][j].at <= run[i].at {
      assert run[..i][j] == run[j];
    }
    StartsAreObservations(p, run[..i], run[i].at);
    WaitStarts(After(p, run[..i]), run[i], gpu);
  }

  /** An unbroken wait since i is recorded, up to any later point k, as having begun at i at the latest. */
  lemma {:induction false} WaitIsRecordedAt(p: Policy, run: seq<Step>, i: nat, k: nat, gpu: nat)
    requires p.idleSince == map[] && InOrder(run) && WaitingSince(p, run, i, gpu) && i < k <= |run|
    ensures gpu in After(p, run[..k]).idleSince && After(p, run[..k]).idleSince[gpu] <= run[i].at
  {
    var m := k - 1;
    if m == i {
      WaitBegins(p, run, i, gpu);
    } else {
      WaitIsRecordedAt(p, run, i, m, gpu);
      AfterOneMore(p, run, m);
      WaitingIsTracked(After(p, run[..m]), run[m], gpu);
    }
  }

  lemma WaitIsRecorded(p: Policy, run: seq<Step>, i: nat, gpu: nat)
    requires p.idleSince == map[] && InOrder(run) && WaitingSince(p, run, i, gpu)
    ensures gpu in After(p, run).idleSince && After(p, run).idleSince[gpu] <= run[i].at
  {
    WaitIsRecordedAt(p, run, i, |run|, gpu);
    assert run[..|run|] == run;
  }

  /** What such an observation sees, said on the policy and the entry. */
  lemma SeenWaitingMeans(p: Policy, s: Step, gpu: nat)
    requires Watches(s)
    ensures SeenWaiting(p, s, gpu) <==>
            && p.limit.Some? && p.limit.value > 0 && p.allow.Some? && gpu !in p.allow.value
            && (forall id | id in p.leases && Active(p.leases[id], s.at) :: gpu !in p.leases[id].gpus)
            && exists g :: g in s.gpus && g.index == gpu && g.physicallyIdle
  {}

  lemma DueIfRecorded(p: Policy, s: Step, gpu: nat)
    requires s.Restore? && SeenWaiting(p, s, gpu) && gpu in p.idleSince && p.limit.Some?
    requires s.at - p.idleSince[gpu] >= p.limit.value
    ensures gpu in Restored(p, s)
  {}

  /** The GPU has waited since observation i, and for long enough now. */
  ghost predicate WaitedSince(p: Policy, run: seq<Step>, i: nat, gpu: nat, now: int, limit: int) {
    WaitingSince(p, run, i, gpu) && now - run[i].at >= limit
  }

  /** A restore switches a GPU back on if and only if automatic restoring is on, this observation sees the GPU
      switched off, unleased and idle, and so has every observation since one at least the limit earlier. */
  lemma RestoreIsExact(p: Policy, run: seq<Step>, s: Step, gpu: nat)
    requires p.idleSince == map[] && s.Restore? && InOrder(run)
    ensures gpu in Restored(After(p, run), s) <==>
            && SeenWaiting(After(p, run), s, gpu)
            && exists i: nat :: WaitedSince(p, run, i, gpu, s.at, After(p, run).limit.value)
  {
    var q := After(p, run);
    if gpu in Restored(q, s) {
      var i := RestoreNeedsUnbrokenWait(p, run, s, gpu);
      assert WaitedSince(p, run, i, gpu, s.at, q.limit.value);
    } else if SeenWaiting(q, s, gpu) {
      forall i: nat ensures !WaitedSince(p, run, i, gpu, s.at, q.limit.value) {
        if WaitedSince(p, run, i, gpu, s.at, q.limit.value) {
          WaitIsRecorded(p, run, i, gpu);
          DueIfRecorded(q, s, gpu);
          assert false;
        }
      }
    }
  }
}
