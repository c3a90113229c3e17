/** Which GPUs may be scheduled: the stored allowlist, timed entries, agent leases, and automatic
    restoring of GPUs that have been idle long enough. */
module GpuPolicy {
  import opened Gpus
  import opened Options

  datatype Lease = Lease(gpus: set<nat>, expiresAt: Option<int>, released: bool)

  datatype Entry = Entry(enable: bool, runAt: int)

  /** allow is the stored allowlist (None: every GPU); idleSince records since when a disabled GPU
      has been seen idle; limit is the wait before it is restored (None or not positive: never). */
  datatype Policy = Policy(
    allow: Option<set<nat>>, leases: map<nat, Lease>, schedule: map<nat, Entry>,
    idleSince: map<nat, int>, limit: Option<int>)

  // ---------- The schedulable set ----------

  predicate Active(l: Lease, now: int) {
    !l.released && (l.expiresAt.None? || l.expiresAt.value > now)
  }

  function Leased(leases: map<nat, Lease>, now: int): (r: set<nat>)
    ensures forall g :: g in r <==> exists id :: id in leases && Active(leases[id], now) && g in leases[id].gpus
  {
    set id, g | id in leases && Active(leases[id], now) && g in leases[id].gpus :: g
  }

  /** None means that every GPU may be used. */
  function EffectiveAllowedSet(p: Policy, known: set<nat>, now: int): Option<set<nat>> {
    var leased := Leased(p.leases, now) * known;
    if p.allow.None? then
      if leased == {} then None else Some(known - leased)
    else Some((p.allow.value * known) - leased)
  }

  function Schedulable(p: Policy, known: set<nat>, now: int): set<nat> {
    var e := EffectiveAllowedSet(p, known, now);
    if e.None? then known else e.value
  }

  function AllowedOf(allow: Option<set<nat>>, known: set<nat>): set<nat> {
    if allow.None? then known else allow.value * known
  }

  lemma SchedulableIs(p: Policy, known: set<nat>, now: int)
    ensures Schedulable(p, known, now) == AllowedOf(p.allow, known) - Leased(p.leases, now)
  {
    var leased := Leased(p.leases, now);
    forall g ensures g in Schedulable(p, known, now) <==> g in AllowedOf(p.allow, known) && g !in leased {
      assert g in leased * known <==> g in leased && g in known;
    }
  }

  /** A full allowlist is stored as None. */
  function Normalized(enabled: set<nat>, known: set<nat>): Option<set<nat>> {
    if enabled == known then None else Some(enabled)
  }

  // ---------- Steps ----------

  function DueEnabled(schedule: map<nat, Entry>, now: int): set<nat> {
    set g | g in schedule && schedule[g].runAt <= now && schedule[g].enable
  }

  function DueDisabled(schedule: map<nat, Entry>, now: int): set<nat> {
    set g | g in schedule && schedule[g].runAt <= now && !schedule[g].enable
  }

  function ApplySchedule(p: Policy, known: set<nat>, now: int): Policy {
    if forall g | g in p.schedule :: p.schedule[g].runAt > now then p
    else
      var enabled := if p.allow.None? then known else p.allow.value;
      p.(allow := Normalized(enabled + DueEnabled(p.schedule, now) - DueDisabled(p.schedule, now), known),
         schedule := map g | g in p.schedule && p.schedule[g].runAt > now :: p.schedule[g])
  }

  function Known(gpus: seq<Gpu>): set<nat> {
    set g | g in gpus :: g.index
  }

  function IdleGpus(gpus: seq<Gpu>): set<nat> {
    set g | g in gpus && g.physicallyIdle :: g.index
  }

  /** GPUs switched off by the allowlist and not leased, while automatic restoring is on. */
  function Restorable(p: Policy, known: set<nat>, now: int): set<nat> {
    if p.limit.None? || p.limit.value <= 0 || p.allow.None? then {}
    else (known - p.allow.value) - Leased(p.leases, now)
  }

  function Sync(p: Policy, gpus: seq<Gpu>, now: int): Policy {
    var waiting := Restorable(p, Known(gpus), now) * IdleGpus(gpus);
    p.(idleSince := map g | g in waiting :: if g in p.idleSince then p.idleSince[g] else now)
  }

  function Due(p: Policy, gpus: seq<Gpu>, now: int): set<nat> {
    set g | g in Restorable(p, Known(gpus), now) && g in p.idleSince && p.limit.Some? && now - p.idleSince[g] >= p.limit.value
  }

  function AutoRestore(p: Policy, gpus: seq<Gpu>, now: int): Policy {
    var s := Sync(p, gpus, now);
    var restored := Due(s, gpus, now);
    if restored == {} then s
    else
      s.(allow := Normalized((if s.allow.None? then {} else s.allow.value * Known(gpus)) + restored, Known(gpus)),
         idleSince := map g | g in s.idleSince && g !in restored :: s.idleSince[g])
  }

  // ---------- Whole runs ----------

  datatype Step =
    | SetAllowed(allow: Option<set<nat>>)
    | SetEntry(gpu: nat, entry: Entry)
    | ClearEntry(gpu: nat)
    | RunSchedule(known: set<nat>, at: int)
    | Observe(gpus: seq<Gpu>, at: int)
    | Restore(gpus: seq<Gpu>, at: int)
    | SetLimit(limit: Option<int>)
    | Grant(id: nat, granted: set<nat>, expiresAt: Option<int>)
    | Release(id: nat)

  function Apply(p: Policy, s: Step): Policy {
    match s
    case SetAllowed(a) => p.(allow := a)
    case SetEntry(g, e) => p.(schedule := p.schedule[g := e])
    case ClearEntry(g) => p.(schedule := p.schedule - {g})
    case RunSchedule(known, at) => ApplySchedule(p, known, at)
    case Observe(gpus, at) => Sync(p, gpus, at)
    case Restore(gpus, at) => AutoRestore(p, gpus, at)
    case SetLimit(limit) => p.(limit := limit, idleSince := map[])
    case Grant(id, gpus, expiresAt) =>
      if id in p.leases then p else p.(leases := p.leases[id := Lease(gpus, expiresAt, false)])
    case Release(id) => if id in p.leases then p.(leases := p.leases[id := p.leases[id].(released := true)]) else p
  }

  function After(p: Policy, run: seq<Step>): Policy {
    if run == [] then p else Apply(After(p, run[..|run| - 1]), run[|run| - 1])
  }

  class Store {
    var allow: Option<set<nat>>
    var leases: map<nat, Lease>
    var schedule: map<nat, Entry>
    var idleSince: map<nat, int>
    var limit: Option<int>

    function State(): Policy
      reads this
    {
      Policy(allow, leases, schedule, idleSince, limit)
    }

    constructor ()
      ensures State() == Policy(None, map[], map[], map[], None)
    {
      allow, leases, schedule, idleSince, limit := None, map[], map[], map[], None;
    }

    /** A second lease under one id violates the primary key and changes nothing. */
    method CreateLease(id: nat, gpus: set<nat>, expiresAt: Option<int>) returns (ok: bool)
      modifies `leases
      ensures ok == (id !in old(leases))
      ensures State() == Apply(old(State()), Grant(id, gpus, expiresAt))
      ensures ok ==> GivesUp(old(State()), State(), gpus, expiresAt)
      ensures !ok ==> State() == old(State())
    {
      ghost var before := State();
      ok := id !in leases;
      if ok {
        leases := leases[id := Lease(gpus, expiresAt, false)];
        forall known, now { GrantTakes(before, id, gpus, expiresAt, known, now); }
        assert GivesUp(before, State(), gpus, expiresAt);
      }
    }

    method ReleaseLease(id: nat) returns (found: bool)
      modifies `leases
      ensures found == (id in old(leases))
      ensures State() == Apply(old(State()), Release(id))
    {
      found := id in leases;
      if found && !leases[id].released {
        leases := leases[id := leases[id].(released := true)];
      }
    }

    method ApplyDueGpuSchedule(known: set<nat>, now: int)
      modifies this
      ensures State() == ApplySchedule(old(State()), known, now)
    {
      var enabled := if allow.None? then known else allow.value;
      var changed := false;
      var remaining: map<nat, Entry> := map[];
      var rest := schedule.Keys;
      ghost var start := enabled;
      while rest != {}
        invariant rest <= schedule.Keys && State() == old(State())
        invariant Scheduled(schedule, rest, now, start, enabled, remaining, changed)
        decreases rest
      {
        var g :| g in rest;
        ScheduledMore(schedule, rest, now, start, enabled, remaining, changed, g);
        var entry := schedule[g];
        if entry.runAt > now {
          remaining := remaining[g := entry];
        } else {
          enabled := if entry.enable then enabled + {g} else enabled - {g};
          changed := true;
        }
        rest := rest - {g};
      }
      ScheduledAll(schedule, now, start, enabled, remaining, changed);
      if changed {
        allow := Normalized(enabled, known);
        schedule := remaining;
      }
    }

    method SyncAutoRestoreIdleTracking(gpus: seq<Gpu>, now: int) returns (disabled: set<nat>)
      requires UniqueIndices(gpus)
      modifies `idleSince
      ensures State() == Sync(old(State()), gpus, now)
      ensures disabled == Restorable(old(State()), Known(gpus), now)
    {
      disabled := {};
      if limit.Some? && limit.value > 0 && allow.Some? {
        disabled := (Known(gpus) - allow.value) - Leased(leases, now);
      }
      if disabled == {} {
        idleSince := map[];
        return;
      }
      ghost var before := idleSince;
      TrackGpus(gpus, disabled, now);
      SyncedAll(before, idleSince, disabled, gpus, now);
      idleSince := map g | g in idleSince && g in disabled :: idleSince[g];
    }

    method TrackGpus(gpus: seq<Gpu>, disabled: set<nat>, now: int)
      requires UniqueIndices(gpus)
      modifies `idleSince
      ensures PartlySynced(old(idleSince), idleSince, disabled, gpus, now)
    {
      ghost var before := idleSince;
      for i := 0 to |gpus|
        invariant PartlySynced(before, idleSince, disabled, gpus[..i], now)
      {
        var gpu := gpus[i];
        SyncedMore(before, idleSince, disabled, gpus, i, now);
        if gpu.index in disabled {
          if gpu.physicallyIdle {
            if gpu.index !in idleSince {
              idleSince := idleSince[gpu.index := now];
            }
          } else {
            idleSince := idleSince - {gpu.index};
          }
        }
      }
      assert gpus[..|gpus|] == gpus;
    }

    method FindDue(gpus: seq<Gpu>, disabled: set<nat>, now: int) returns (restored: set<nat>)
      requires disabled == Restorable(State(), Known(gpus), now) && disabled != {}
      ensures restored == Due(State(), gpus, now)
    {
      restored := {};
      var leased := Leased(leases, now);
      for i := 0 to |gpus|
        invariant restored == Due(State(), gpus, now) * Known(gpus[..i])
      {
        assert gpus[..i + 1] == gpus[..i] + [gpus[i]];
        var id := gpus[i].index;
        if id in disabled && id !in leased && id in idleSince && now - idleSince[id] >= limit.value {
          restored := restored + {id};
        }
      }
      assert gpus[..|gpus|] == gpus;
    }

    method ApplyAutoRestoreIdleGpus(gpus: seq<Gpu>, now: int) returns (restored: set<nat>)
      requires UniqueIndices(gpus)
      modifies `idleSince, `allow
      ensures State() == AutoRestore(old(State()), gpus, now)
      ensures restored == Due(Sync(old(State()), gpus, now), gpus, now)
    {
      var disabled := SyncAutoRestoreIdleTracking(gpus, now);
      if disabled == {} {
        return {};
      }
      restored := FindDue(gpus, disabled, now);
      if restored == {} {
        return;
      }
      var enabled := (if allow.None? then {} else allow.value * Known(gpus)) + restored;
      allow := Normalized(enabled, Known(gpus));
      idleSince := map g | g in idleSince && g !in restored :: idleSince[g];
    }
  }

  /** The schedule loop while the entries of rest are still to come. */
  ghost predicate Scheduled(schedule: map<nat, Entry>, rest: set<nat>, now: int, start: set<nat>,
                            enabled: set<nat>, remaining: map<nat, Entry>, changed: bool) {
    && (changed <==> exists g :: g in schedule && g !in rest && schedule[g].runAt <= now)
    && remaining == (map g | g in schedule && g !in rest && schedule[g].runAt > now :: schedule[g])
    && (forall g :: g in enabled <==>
          if g in schedule && g !in rest && schedule[g].runAt <= now then schedule[g].enable else g in start)
  }

  lemma ScheduledMore(schedule: map<nat, Entry>, rest: set<nat>, now: int, start: set<nat>,
                      enabled: set<nat>, remaining: map<nat, Entry>, changed: bool, g: nat)
    requires Scheduled(schedule, rest, now, start, enabled, remaining, changed) && g in rest && g in schedule
    ensures var entry := schedule[g];
            if entry.runAt > now then
              Scheduled(schedule, rest - {g}, now, start, enabled, remaining[g := entry], changed)
            else
              Scheduled(schedule, rest - {g}, now, start,
                        if entry.enable then enabled + {g} else enabled - {g}, remaining, true)
  {}

  lemma ScheduledAll(schedule: map<nat, Entry>, now: int, start: set<nat>,
                     enabled: set<nat>, remaining: map<nat, Entry>, changed: bool)
    requires Scheduled(schedule, {}, now, start, enabled, remaining, changed)
    ensures changed <==> !forall g | g in schedule :: schedule[g].runAt > now
    ensures remaining == map g | g in schedule && schedule[g].runAt > now :: schedule[g]
    ensures enabled == start + DueEnabled(schedule, now) - DueDisabled(schedule, now)
  {
    forall g ensures g in enabled <==> g in start + DueEnabled(schedule, now) - DueDisabled(schedule, now) {}
  }

  /** The tracking loop after the GPUs in done. */
  ghost predicate PartlySynced(before: map<nat, int>, now': map<nat, int>, disabled: set<nat>, done: seq<Gpu>, now: int) {
    && (forall g | g in disabled && g in Known(done) :: g in now' <==> g in IdleGpus(done))
    && (forall g | g in disabled && g !in Known(done) :: g in now' <==> g in before)
    && (forall g | g in disabled && g in now' :: now'[g] == if g in before then before[g] else now)
  }

  lemma SyncedAll(before: map<nat, int>, now': map<nat, int>, disabled: set<nat>, gpus: seq<Gpu>, now: int)
    requires PartlySynced(before, now', disabled, gpus, now) && disabled <= Known(gpus)
    ensures (map g | g in now' && g in disabled :: now'[g]) ==
            map g | g in disabled * IdleGpus(gpus) :: if g in before then before[g] else now
  {}

  lemma SyncedMore(before: map<nat, int>, now': map<nat, int>, disabled: set<nat>, gpus: seq<Gpu>, i: nat, now: int)
    requires UniqueIndices(gpus) && i < |gpus| && PartlySynced(before, now', disabled, gpus[..i], now)
    ensures var g := gpus[i];
            PartlySynced(before,
                         if g.index !in disabled then now'
                         else if !g.physicallyIdle then now' - {g.index}
                         else if g.index in now' then now' else now'[g.index := now],
                         disabled, gpus[..i + 1], now)
  {
    var g := gpus[i];
    assert gpus[..i + 1] == gpus[..i] + [g];
    assert forall j | 0 <= j < i :: gpus[j].index != g.index;
    assert g.index !in Known(gpus[..i]);
    assert Known(gpus[..i + 1]) == Known(gpus[..i]) + {g.index};
    assert IdleGpus(gpus[..i + 1]) == IdleGpus(gpus[..i]) + if g.physicallyIdle then {g.index} else {};
  }

  // ---------- What the steps do to the schedulable set ----------

  /** Due entries switch GPUs on and off in the schedulable set and change nothing else in it. */
  lemma ScheduleIsApplied(p: Policy, known: set<nat>, now: int)
    ensures Schedulable(ApplySchedule(p, known, now), known, now) ==
            AllowedOf(p.allow, known) + (DueEnabled(p.schedule, now) * known) - DueDisabled(p.schedule, now)
            - Leased(p.leases, now)
  {
    SchedulableIs(ApplySchedule(p, known, now), known, now);
    if forall g | g in p.schedule :: p.schedule[g].runAt > now {
      assert DueEnabled(p.schedule, now) == {} && DueDisabled(p.schedule, now) == {};
    } else {
      var enabled := if p.allow.None? then known else p.allow.value;
      assert (enabled + DueEnabled(p.schedule, now) - DueDisabled(p.schedule, now)) * known ==
             AllowedOf(p.allow, known) + (DueEnabled(p.schedule, now) * known) - DueDisabled(p.schedule, now);
    }
  }

  /** Restoring adds exactly the restored GPUs, which were not schedulable before, and no others. */
  lemma RestoreGrowsExactly(p: Policy, gpus: seq<Gpu>, now: int)
    ensures var restored, known := Due(Sync(p, gpus, now), gpus, now), Known(gpus);
            && Schedulable(AutoRestore(p, gpus, now), known, now) == Schedulable(p, known, now) + restored
            && Schedulable(p, known, now) * restored == {}
            && AutoRestore(p, gpus, now).leases == p.leases
  {
    var s, known := Sync(p, gpus, now), Known(gpus);
    SchedulableIs(p, known, now);
    SchedulableIs(AutoRestore(p, gpus, now), known, now);
  }

  function Taken(gpus: set<nat>, expiresAt: Option<int>, now: int): set<nat> {
    if expiresAt.None? || expiresAt.value > now then gpus else {}
  }

  lemma RunThen(p: Policy, run: seq<Step>, s: Step)
    ensures After(p, run + [s]) == Apply(After(p, run), s)
  {
    assert (run + [s])[..|run|] == run;
  }

  lemma {:induction false} AfterTwo(p: Policy, a: seq<Step>, b: seq<Step>)
    ensures After(p, a + b) == After(After(p, a), b)
  {
    if b == [] {
      assert a + b == a;
    } else {
      var n := |b| - 1;
      assert (a + b)[..|a + b| - 1] == a + b[..n];
      AfterTwo(p, a, b[..n]);
    }
  }

  lemma AfterOne(p: Policy, s: Step)
    ensures After(p, [s]) == Apply(p, s)
  {
    assert [s][..0] == [];
  }

  /** While the lease is active the schedulable set is smaller by exactly its GPUs; then it is as before. */
  ghost predicate GivesUp(p: Policy, q: Policy, gpus: set<nat>, expiresAt: Option<int>) {
    forall known, now :: Schedulable(q, known, now) == Schedulable(p, known, now) - Taken(gpus, expiresAt, now)
  }

  /** Granting a lease takes exactly its GPUs out of the schedulable set, for as long as it is active. */
  lemma GrantTakes(p: Policy, id: nat, gpus: set<nat>, expiresAt: Option<int>, known: set<nat>, now: int)
    requires id !in p.leases
    ensures Schedulable(Apply(p, Grant(id, gpus, expiresAt)), known, now) ==
            Schedulable(p, known, now) - Taken(gpus, expiresAt, now)
  {
    var q := Apply(p, Grant(id, gpus, expiresAt));
    SchedulableIs(p, known, now);
    SchedulableIs(q, known, now);
    var taken := Taken(gpus, expiresAt, now);
    forall g ensures g in Leased(q.leases, now) <==> g in Leased(p.leases, now) || g in taken {
      if g in Leased(p.leases, now) {
        var other :| other in p.leases && Active(p.leases[other], now) && g in p.leases[other].gpus;
        assert other in q.leases && Active(q.leases[other], now);
      }
      if g in taken {
        assert id in q.leases && Active(q.leases[id], now);
      }
    }
  }

  /** Releasing a lease puts back exactly its GPUs that are allowed and in no other active lease. */
  lemma ReleaseGivesBack(p: Policy, id: nat, known: set<nat>, now: int)
    requires id in p.leases && Active(p.leases[id], now)
    ensures Schedulable(Apply(p, Release(id)), known, now) ==
            Schedulable(p, known, now)
            + (p.leases[id].gpus * AllowedOf(p.allow, known) - Leased(p.leases - {id}, now))
  {
    var q := Apply(p, Release(id));
    SchedulableIs(p, known, now);
    SchedulableIs(q, known, now);
    forall g ensures g in Leased(q.leases, now) <==> g in Leased(p.leases - {id}, now) {
      if g in Leased(q.leases, now) {
        var other :| other in q.leases && Active(q.leases[other], now) && g in q.leases[other].gpus;
        assert other in p.leases - {id};
      }
      if g in Leased(p.leases - {id}, now) {
        var other :| other in p.leases - {id} && Active(p.leases[other], now) && g in p.leases[other].gpus;
        assert other in q.leases && q.leases[other] == p.leases[other];
      }
    }
    forall g ensures g in Leased(p.leases, now) <==> g in Leased(p.leases - {id}, now) || g in p.leases[id].gpus {
      if g in Leased(p.leases, now) {
        var other :| other in p.leases && Active(p.leases[other], now) && g in p.leases[other].gpus;
        assert other == id || other in p.leases - {id};
      }
    }
  }

  /** The GPUs a restore step switches back on. */
  function Restored(p: Policy, s: Step): set<nat>
    requires s.Restore?
  {
    Due(Sync(p, s.gpus, s.at), s.gpus, s.at)
  }

  lemma RestoredAllow(p: Policy, gpus: seq<Gpu>, now: int)
    ensures AllowedOf(AutoRestore(p, gpus, now).allow, Known(gpus)) ==
            AllowedOf(p.allow, Known(gpus)) + Due(Sync(p, gpus, now), gpus, now)
  {}

  // ---------- Restoring needs an unbroken wait ----------

  predicate Watches(s: Step) {
    s.Observe? || s.Restore?
  }

  /** This observation sees the GPU switched off, unleased and physically idle. */
  predicate SeenWaiting(p: Policy, s: Step, gpu: nat)
    requires Watches(s)
  {
    gpu in Restorable(p, Known(s.gpus), s.at) && gpu in IdleGpus(s.gpus)
  }

  /** Step s ends the wait of gpu. */
  predicate EndsWait(p: Policy, s: Step, gpu: nat) {
    || (Watches(s) && !SeenWaiting(p, s, gpu))
    || (s.Restore? && gpu in Restored(p, s))
    || s.SetLimit?
  }

  /** Since observation i, every observation has seen gpu waiting and nothing ended the wait. */
  ghost predicate WaitingSince(p: Policy, run: seq<Step>, i: nat, gpu: nat) {
    i < |run| && Watches(run[i]) && forall j | i <= j < |run| :: !EndsWait(After(p, run[..j]), run[j], gpu)
  }

  lemma WaitingLonger(p: Policy, run: seq<Step>, i: nat, gpu: nat)
    requires run != [] && WaitingSince(p, run[..|run| - 1], i, gpu)
    requires !EndsWait(After(p, run[..|run| - 1]), run[|run| - 1], gpu)
    ensures WaitingSince(p, run, i, gpu)
  {
    var n := |run| - 1;
    forall j | i <= j < |run| ensures !EndsWait(After(p, run[..j]), run[j], gpu) {
      if j < n {
        assert run[..n][..j] == run[..j] && run[..n][j] == run[j];
      }
    }
  }

  lemma TrackedStep(p: Policy, s: Step, gpu: nat)
    requires gpu in Apply(p, s).idleSince
    ensures !EndsWait(p, s, gpu)
    ensures gpu in p.idleSince ==> Apply(p, s).idleSince[gpu] == p.idleSince[gpu]
    ensures gpu !in p.idleSince ==> Watches(s) && Apply(p, s).idleSince[gpu] == s.at
  {}

  /** What a recorded start means, over any run. */
  lemma {:induction false} IdleSinceMeans(p: Policy, run: seq<Step>, gpu: nat) returns (i: nat)
    requires p.idleSince == map[] && gpu in After(p, run).idleSince
    ensures WaitingSince(p, run, i, gpu) && run[i].at == After(p, run).idleSince[gpu]
  {
    var n := |run| - 1;
    var before := After(p, run[..n]);
    TrackedStep(before, run[n], gpu);
    if gpu in before.idleSince {
      i := IdleSinceMeans(p, run[..n], gpu);
      assert run[..n][i] == run[i];
      WaitingLonger(p, run, i, gpu);
    } else {
      i := n;
    }
  }

  /** A GPU is restored only after an unbroken wait: every observation since some step i, at least
      limit earlier, and this one too, saw it switched off, unleased and idle. */
  lemma RestoreNeedsUnbrokenWait(p: Policy, run: seq<Step>, s: Step, gpu: nat) returns (i: nat)
    requires p.idleSince == map[] && s.Restore? && gpu in Restored(After(p, run), s)
    ensures WaitingSince(p, run, i, gpu) && SeenWaiting(After(p, run), s, gpu)
    ensures After(p, run).limit.Some? && s.at - run[i].at >= After(p, run).limit.value > 0
  {
    i := IdleSinceMeans(p, run, gpu);
  }
}
