/** One greedy matching pass of queued tasks to GPUs over planned free memory. */
module Matching {
  import opened Gpus
  import opened Options
  import opened TaskModel

  const HEADROOM_MB := 2048

  datatype Job = Job(id: nat, need: Need)

  datatype Reservation = Reservation(gpu: nat, mb: int, alive: bool)

  /** What a run of good observations is counted for. */
  datatype Condition = Idle | Budget(mb: int)

  type Counts = map<(nat, Condition), nat>

  /** Everything a pass reads and does not change. */
  datatype View = View(counts: Counts, required: nat, reservations: map<nat, Reservation>, cooling: set<nat>)

  /** Everything a pass changes: planned free memory and the GPUs taken whole. */
  datatype Plan = Plan(free: map<nat, int>, exclusive: set<nat>)

  datatype Assignment = Assignment(job: Job, gpu: Gpu)

  datatype Matched = Matched(assignments: seq<Assignment>, plan: Plan)

  // ---------- The rules ----------

  /** The memory a task's own reservation on this GPU would give back to it. */
  function Held(v: View, id: nat, gpu: nat): int {
    if id in v.reservations && v.reservations[id].gpu == gpu then v.reservations[id].mb else 0
  }

  function HasBudgetCapacity(gpu: Gpu, budgetMb: int, held: int): bool {
    var free := if gpu.freeMb != 0 then gpu.freeMb else gpu.totalMb - gpu.usedMb;
    free + held > budgetMb + HEADROOM_MB
  }

  function ConditionFor(v: View, job: Job, gpu: Gpu): Option<Condition> {
    if !gpu.enabled || gpu.index in v.cooling then None
    else if job.need.budgetMb.Some? then
      if HasBudgetCapacity(gpu, job.need.budgetMb.value, Held(v, job.id, gpu.index))
      then Some(Budget(job.need.budgetMb.value)) else None
    else if gpu.idle then Some(Idle) else None
  }

  function PlannedFree(plan: Plan, gpu: Gpu): int {
    if gpu.index in plan.free then plan.free[gpu.index] else gpu.freeMb
  }

  predicate HasPlannedCapacity(v: View, plan: Plan, job: Job, gpu: Gpu) {
    && gpu.index !in plan.exclusive
    && if job.need.budgetMb.Some? then
         PlannedFree(plan, gpu) + Held(v, job.id, gpu.index) > job.need.budgetMb.value + HEADROOM_MB
       else gpu.idle && PlannedFree(plan, gpu) == gpu.freeMb
  }

  predicate HasLiveReservation(v: View, id: nat, gpu: nat) {
    id in v.reservations && v.reservations[id].gpu == gpu && v.reservations[id].alive
  }

  function CountOf(counts: Counts, gpu: nat, c: Condition): nat {
    if (gpu, c) in counts then counts[(gpu, c)] else 0
  }

  predicate CanRun(v: View, plan: Plan, job: Job, gpu: Gpu) {
    var c := ConditionFor(v, job, gpu);
    && c.Some?
    && HasPlannedCapacity(v, plan, job, gpu)
    && (HasLiveReservation(v, job.id, gpu.index) || CountOf(v.counts, gpu.index, c.value) >= v.required)
  }

  predicate MayUse(job: Job, gpu: Gpu) {
    job.need.requestedGpu.None? || gpu.index == job.need.requestedGpu.value
  }

  predicate Accepts(v: View, plan: Plan, job: Job, gpu: Gpu) {
    MayUse(job, gpu) && CanRun(v, plan, job, gpu)
  }

  function Claim(v: View, plan: Plan, job: Job, gpu: Gpu): Plan {
    if job.need.budgetMb.Some? then
      var free := PlannedFree(plan, gpu) + Held(v, job.id, gpu.index) - job.need.budgetMb.value;
      plan.(free := plan.free[gpu.index := if free < 0 then 0 else free])
    else plan.(exclusive := plan.exclusive + {gpu.index})
  }

  // ---------- The pass ----------

  function InitialFree(gpus: seq<Gpu>): map<nat, int> {
    if gpus == [] then map[]
    else InitialFree(gpus[..|gpus| - 1])[gpus[|gpus| - 1].index := gpus[|gpus| - 1].freeMb]
  }

  /** The first GPU, in list order, that accepts the job. */
  function FirstAccepting(v: View, plan: Plan, job: Job, gpus: seq<Gpu>): Option<Gpu> {
    if gpus == [] then None
    else
      var earlier := FirstAccepting(v, plan, job, gpus[..|gpus| - 1]);
      if earlier.Some? then earlier
      else if Accepts(v, plan, job, gpus[|gpus| - 1]) then Some(gpus[|gpus| - 1])
      else None
  }

  function Extend(v: View, m: Matched, job: Job, gpus: seq<Gpu>): Matched {
    var g := FirstAccepting(v, m.plan, job, gpus);
    if g.None? then m
    else Matched(m.assignments + [Assignment(job, g.value)], Claim(v, m.plan, job, g.value))
  }

  function Match(v: View, jobs: seq<Job>, gpus: seq<Gpu>): Matched {
    if jobs == [] then Matched([], Plan(InitialFree(gpus), {}))
    else Extend(v, Match(v, jobs[..|jobs| - 1], gpus), jobs[|jobs| - 1], gpus)
  }

  method MatchTasksToGpus(v: View, jobs: seq<Job>, gpus: seq<Gpu>) returns (assignments: seq<Assignment>)
    ensures assignments == Match(v, jobs, gpus).assignments
  {
    var free: map<nat, int> := map[];
    for i := 0 to |gpus|
      invariant free == InitialFree(gpus[..i])
    {
      assert gpus[..i + 1][..i] == gpus[..i];
      free := free[gpus[i].index := gpus[i].freeMb];
    }
    assert gpus[..|gpus|] == gpus;
    var plan := Plan(free, {});
    assignments := [];
    for i := 0 to |jobs|
      invariant Match(v, jobs[..i], gpus) == Matched(assignments, plan)
    {
      var job := jobs[i];
      assert jobs[..i + 1][..i] == jobs[..i];
      var chosen: Option<Gpu> := None;
      var k := 0;
      while k < |gpus| && chosen.None?
        invariant 0 <= k <= |gpus|
        invariant chosen == FirstAccepting(v, plan, job, gpus[..k])
      {
        assert gpus[..k + 1][..k] == gpus[..k];
        if Accepts(v, plan, job, gpus[k]) {
          chosen := Some(gpus[k]);
        }
        k := k + 1;
      }
      FirstStaysFirst(v, plan, job, gpus, k);
      if chosen.Some? {
        assignments := assignments + [Assignment(job, chosen.value)];
        plan := Claim(v, plan, job, chosen.value);
      }
    }
    assert jobs[..|jobs|] == jobs;
  }

  lemma {:induction false} FirstStaysFirst(v: View, plan: Plan, job: Job, gpus: seq<Gpu>, k: nat)
    requires k <= |gpus|
    ensures FirstAccepting(v, plan, job, gpus[..k]).Some? || k == |gpus| ==>
              FirstAccepting(v, plan, job, gpus) == FirstAccepting(v, plan, job, gpus[..k])
    decreases |gpus|
  {
    if k == |gpus| {
      assert gpus[..k] == gpus;
    } else {
      var n := |gpus| - 1;
      assert gpus[..n][..k] == gpus[..k];
      FirstStaysFirst(v, plan, job, gpus[..n], k);
    }
  }

  lemma {:induction false} FirstAcceptingIs(v: View, plan: Plan, job: Job, gpus: seq<Gpu>)
    ensures var g := FirstAccepting(v, plan, job, gpus);
            && (g.Some? ==> g.value in gpus && Accepts(v, plan, job, g.value))
            && (g.None? ==> forall x | x in gpus :: !Accepts(v, plan, job, x))
  {
    if gpus != [] {
      var n := |gpus| - 1;
      FirstAcceptingIs(v, plan, job, gpus[..n]);
      assert gpus == gpus[..n] + [gpus[n]];
    }
  }

  lemma {:induction false} InitialFreeIs(gpus: seq<Gpu>)
    requires UniqueIndices(gpus)
    ensures forall g | g in gpus :: g.index in InitialFree(gpus) && InitialFree(gpus)[g.index] == g.freeMb
  {
    if gpus != [] {
      var n := |gpus| - 1;
      InitialFreeIs(gpus[..n]);
      assert gpus == gpus[..n] + [gpus[n]];
    }
  }

  ghost predicate DistinctIds(jobs: seq<Job>) {
    forall i, j | 0 <= i < j < |jobs| :: jobs[i].id != jobs[j].id
  }

  /** Each listed task is assigned at most once, to a listed GPU that it may use. */
  lemma {:induction false} AssignmentsAreListed(v: View, jobs: seq<Job>, gpus: seq<Gpu>)
    requires DistinctIds(jobs)
    ensures var as' := Match(v, jobs, gpus).assignments;
            && (forall a | a in as' :: a.job in jobs && a.gpu in gpus && MayUse(a.job, a.gpu))
            && (forall i, j | 0 <= i < j < |as'| :: as'[i].job.id != as'[j].job.id)
  {
    if jobs != [] {
      var n := |jobs| - 1;
      AssignmentsAreListed(v, jobs[..n], gpus);
      var m := Match(v, jobs[..n], gpus);
      FirstAcceptingIs(v, m.plan, jobs[n], gpus);
      assert jobs == jobs[..n] + [jobs[n]];
      forall i | 0 <= i < |m.assignments| ensures m.assignments[i].job.id != jobs[n].id {
        assert m.assignments[i] in m.assignments;
      }
    }
  }

  /** Every assignment rests on a live reservation or on a full count of good observations. */
  lemma {:induction false} AssignedWasReady(v: View, jobs: seq<Job>, gpus: seq<Gpu>, a: Assignment)
    requires a in Match(v, jobs, gpus).assignments
    ensures var c := ConditionFor(v, a.job, a.gpu);
            c.Some? && (HasLiveReservation(v, a.job.id, a.gpu.index)
                        || CountOf(v.counts, a.gpu.index, c.value) >= v.required)
  {
    if jobs != [] {
      var n := |jobs| - 1;
      var m := Match(v, jobs[..n], gpus);
      FirstAcceptingIs(v, m.plan, jobs[n], gpus);
      if a in m.assignments {
        AssignedWasReady(v, jobs[..n], gpus, a);
      }
    }
  }

  // ---------- Queue order ----------

  /** The plan for a prefix of the task list is a prefix of the full plan: a task never affects
      the tasks listed before it. */
  lemma {:induction false} PrefixOfPlan(v: View, jobs: seq<Job>, gpus: seq<Gpu>, k: nat)
    requires k <= |jobs|
    ensures Match(v, jobs[..k], gpus).assignments <= Match(v, jobs, gpus).assignments
    decreases |jobs|
  {
    if k == |jobs| {
      assert jobs[..k] == jobs;
    } else {
      var n := |jobs| - 1;
      assert jobs[..n][..k] == jobs[..k];
      PrefixOfPlan(v, jobs[..n], gpus, k);
    }
  }

  /** Urgent tasks are listed first, so normal tasks never affect them. */
  lemma UrgentUnaffected(v: View, urgent: seq<Job>, normal: seq<Job>, gpus: seq<Gpu>)
    ensures Match(v, urgent, gpus).assignments <= Match(v, urgent + normal, gpus).assignments
  {
    assert (urgent + normal)[..|urgent|] == urgent;
    PrefixOfPlan(v, urgent + normal, gpus, |urgent|);
  }

  // ---------- Conservation ----------

  function NetOf(v: View, a: Assignment, gpu: nat): int {
    if a.gpu.index == gpu && a.job.need.budgetMb.Some?
    then Held(v, a.job.id, gpu) - a.job.need.budgetMb.value else 0
  }

  /** Reservations given back minus budgets taken, over the tasks assigned to one GPU. */
  function NetClaims(v: View, assignments: seq<Assignment>, gpu: nat): int {
    if assignments == [] then 0
    else NetClaims(v, assignments[..|assignments| - 1], gpu) + NetOf(v, assignments[|assignments| - 1], gpu)
  }

  ghost predicate BudgetedOn(assignments: seq<Assignment>, gpu: nat) {
    exists a :: a in assignments && a.gpu.index == gpu && a.job.need.budgetMb.Some?
  }

  ghost predicate WholeOn(assignments: seq<Assignment>, gpu: nat) {
    exists a :: a in assignments && a.gpu.index == gpu && a.job.need.budgetMb.None?
  }

  lemma OneMoreClaim(v: View, assignments: seq<Assignment>, a: Assignment, gpu: nat)
    ensures var grown := assignments + [a];
            && NetClaims(v, grown, gpu) == NetClaims(v, assignments, gpu) + NetOf(v, a, gpu)
            && (BudgetedOn(grown, gpu) <==>
                  BudgetedOn(assignments, gpu) || (a.gpu.index == gpu && a.job.need.budgetMb.Some?))
            && (WholeOn(grown, gpu) <==>
                  WholeOn(assignments, gpu) || (a.gpu.index == gpu && a.job.need.budgetMb.None?))
  {
    var grown := assignments + [a];
    assert grown[..|grown| - 1] == assignments;
    assert forall x :: x in grown <==> x in assignments || x == a;
  }

  /** Planned free memory of one GPU: as reported, plus what the assigned tasks' reservations gave
      back, minus their budgets; above the headroom once a budget is placed. */
  ghost predicate Conserved(v: View, m: Matched, gpu: Gpu) {
    && gpu.index in m.plan.free
    && m.plan.free[gpu.index] == gpu.freeMb + NetClaims(v, m.assignments, gpu.index)
    && (BudgetedOn(m.assignments, gpu.index) ==> m.plan.free[gpu.index] > HEADROOM_MB)
  }

  lemma ClaimConserves(v: View, m: Matched, job: Job, g: Gpu, gpu: Gpu)
    requires Conserved(v, m, gpu) && Accepts(v, m.plan, job, g) && (g.index == gpu.index ==> g == gpu)
    ensures Conserved(v, Matched(m.assignments + [Assignment(job, g)], Claim(v, m.plan, job, g)), gpu)
  {
    OneMoreClaim(v, m.assignments, Assignment(job, g), gpu.index);
  }

  /** Planned memory is conserved over a whole pass, for every GPU. */
  lemma {:induction false} MemoryIsConserved(v: View, jobs: seq<Job>, gpus: seq<Gpu>, gpu: Gpu)
    requires UniqueIndices(gpus) && gpu in gpus
    ensures Conserved(v, Match(v, jobs, gpus), gpu)
  {
    if jobs == [] {
      InitialFreeIs(gpus);
    } else {
      var n := |jobs| - 1;
      var m := Match(v, jobs[..n], gpus);
      MemoryIsConserved(v, jobs[..n], gpus, gpu);
      FirstAcceptingIs(v, m.plan, jobs[n], gpus);
      var g := FirstAccepting(v, m.plan, jobs[n], gpus);
      if g.Some? { ClaimConserves(v, m, jobs[n], g.value, gpu); }
    }
  }

  // ---------- Exclusive use ----------

  /** The environment's side: a GPU that holds some task's reservation process is not idle. */
  ghost predicate ReservationsVisible(v: View, gpus: seq<Gpu>) {
    forall g, id | g in gpus && id in v.reservations && v.reservations[id].gpu == g.index :: !g.idle
  }

  ghost predicate PositiveBudgets(jobs: seq<Job>) {
    forall j | j in jobs && j.need.budgetMb.Some? :: j.need.budgetMb.value > 0
  }

  /** Inside one pass a task without a budget shares its GPU with no other assigned task. */
  ghost predicate WholeAlone(assignments: seq<Assignment>) {
    forall i, j | 0 <= i < |assignments| && 0 <= j < |assignments| && i != j
      && assignments[i].gpu.index == assignments[j].gpu.index :: assignments[i].job.need.budgetMb.Some?
  }

  /** Every assignment is to a listed GPU the task may use, idle if the task wants it whole. */
  ghost predicate Placed(assignments: seq<Assignment>, gpus: seq<Gpu>) {
    forall a | a in assignments :: a.gpu in gpus && MayUse(a.job, a.gpu) && (a.job.need.budgetMb.None? ==> a.gpu.idle)
  }

  /** What the plan remembers of one GPU: that it is taken whole, and, while it is reported idle,
      that budgeted tasks have lowered its planned memory. */
  ghost predicate Remembers(v: View, m: Matched, g: Gpu) {
    && (WholeOn(m.assignments, g.index) ==> g.index in m.plan.exclusive)
    && (g.idle ==> NetClaims(v, m.assignments, g.index) <= 0)
    && (g.idle && BudgetedOn(m.assignments, g.index) ==> NetClaims(v, m.assignments, g.index) < 0)
  }

  /** On a GPU reported idle every budget is larger than the task's own reservation there, so placing
      the task lowers the planned memory. */
  ghost predicate ClaimsShrink(v: View, jobs: seq<Job>, gpus: seq<Gpu>) {
    forall g, j | g in gpus && g.idle && j in jobs && j.need.budgetMb.Some? ::
      Held(v, j.id, g.index) < j.need.budgetMb.value
  }

  lemma {:induction false} ShrinkingIsExclusive(v: View, jobs: seq<Job>, gpus: seq<Gpu>)
    requires UniqueIndices(gpus) && ClaimsShrink(v, jobs, gpus)
    ensures var m := Match(v, jobs, gpus);
            WholeAlone(m.assignments) && Placed(m.assignments, gpus) && forall g | g in gpus :: Remembers(v, m, g)
  {
    if jobs != [] {
      var n := |jobs| - 1;
      assert forall j | j in jobs[..n] :: j in jobs;
      ShrinkingIsExclusive(v, jobs[..n], gpus);
      var m := Match(v, jobs[..n], gpus);
      FirstAcceptingIs(v, m.plan, jobs[n], gpus);
      var g := FirstAccepting(v, m.plan, jobs[n], gpus);
      if g.Some? {
        MemoryIsConserved(v, jobs[..n], gpus, g.value);
        ExtendedAlone(v, m, jobs[n], gpus, g.value);
        forall x | x in gpus ensures Remembers(v, Match(v, jobs, gpus), x) {
          assert jobs[n] in jobs;
          ExtendedRemembers(v, m, jobs[n], gpus, g.value, x);
        }
      }
    }
  }

  /** So when a GPU that holds a reservation is not reported idle, passes are exclusive. */
  lemma PassIsExclusive(v: View, jobs: seq<Job>, gpus: seq<Gpu>)
    requires UniqueIndices(gpus) && ReservationsVisible(v, gpus) && PositiveBudgets(jobs)
    ensures var m := Match(v, jobs, gpus);
            WholeAlone(m.assignments) && Placed(m.assignments, gpus) && forall g | g in gpus :: Remembers(v, m, g)
  {
    ShrinkingIsExclusive(v, jobs, gpus);
  }

  /** The GPU chosen for a task that wants it whole, or already given whole to another, is free of
      other assignments. */
  lemma ExtendedAlone(v: View, m: Matched, job: Job, gpus: seq<Gpu>, g: Gpu)
    requires UniqueIndices(gpus) && g in gpus && Accepts(v, m.plan, job, g)
    requires WholeAlone(m.assignments) && Placed(m.assignments, gpus) && Remembers(v, m, g) && Conserved(v, m, g)
    ensures var as' := m.assignments + [Assignment(job, g)]; WholeAlone(as') && Placed(as', gpus)
  {
    forall i | 0 <= i < |m.assignments| && m.assignments[i].gpu.index == g.index
      ensures m.assignments[i].job.need.budgetMb.Some? && job.need.budgetMb.Some?
    {
      assert m.assignments[i] in m.assignments;
    }
  }

  lemma ExtendedRemembers(v: View, m: Matched, job: Job, gpus: seq<Gpu>, g: Gpu, x: Gpu)
    requires UniqueIndices(gpus) && ClaimsShrink(v, [job], gpus) && g in gpus && x in gpus && Remembers(v, m, x)
    ensures Remembers(v, Matched(m.assignments + [Assignment(job, g)], Claim(v, m.plan, job, g)), x)
  {
    assert job in [job];
    OneMoreClaim(v, m.assignments, Assignment(job, g), x.index);
  }

  /** Without that assumption the pass can put a whole-GPU task beside a budgeted one: on a GPU that
      is reported idle, a live reservation equal to the budget leaves the planned memory as reported. */
  lemma ReservationHidesClaim(v: View, gpu: Gpu, budgeted: Job, whole: Job)
    requires gpu.enabled && gpu.idle && gpu.index !in v.cooling && gpu.freeMb > HEADROOM_MB
    requires HasLiveReservation(v, budgeted.id, gpu.index) && MayUse(budgeted, gpu) && MayUse(whole, gpu)
    requires budgeted.need.budgetMb == Some(v.reservations[budgeted.id].mb) && whole.need.budgetMb.None?
    requires CountOf(v.counts, gpu.index, Idle) >= v.required
    ensures !WholeAlone(Match(v, [budgeted] + [whole], [gpu]).assignments)
  {
    MatchOnOne(v, [], budgeted, gpu);
    MatchOnOne(v, [budgeted], whole, gpu);
    assert [] + [budgeted] == [budgeted];
    var plan := Plan(map[gpu.index := gpu.freeMb], {});
    assert Accepts(v, plan, budgeted, gpu) && Claim(v, plan, budgeted, gpu) == plan;
    var as' := Match(v, [budgeted] + [whole], [gpu]).assignments;
    assert as' == [Assignment(budgeted, gpu), Assignment(whole, gpu)];
    assert as'[1].gpu.index == as'[0].gpu.index && as'[1].job.need.budgetMb.None?;
  }

  /** One such pass in numbers. */
  lemma ReservationCanHideAClaim() returns (v: View, jobs: seq<Job>, gpu: Gpu)
    ensures UniqueIndices([gpu]) && PositiveBudgets(jobs)
    ensures !WholeAlone(Match(v, jobs, [gpu]).assignments)
  {
    gpu :| gpu == Gpu(0, 10000, 0, 10000, false, true, true, true);
    var budgeted: Job :| budgeted == Job(1, Need(None, Some(3000), Some(3000)));
    var whole: Job :| whole == Job(2, Need(None, None, None));
    v :| v == View(map[(0, Idle) := 1], 1, map[1 := Reservation(0, 3000, true)], {});
    jobs := [budgeted] + [whole];
    ReservationHidesClaim(v, gpu, budgeted, whole);
  }

  /** One more task on a machine with one GPU. */
  lemma MatchOnOne(v: View, jobs: seq<Job>, job: Job, gpu: Gpu)
    ensures var m := Match(v, jobs, [gpu]);
            Match(v, jobs + [job], [gpu]) ==
            if Accepts(v, m.plan, job, gpu) then Matched(m.assignments + [Assignment(job, gpu)], Claim(v, m.plan, job, gpu))
            else m
    ensures Match(v, [], [gpu]) == Matched([], Plan(map[gpu.index := gpu.freeMb], {}))
  {
    var all, m := jobs + [job], Match(v, jobs, [gpu]);
    assert all[..|all| - 1] == jobs && all[|all| - 1] == job;
    assert [gpu][..0] == [];
    assert FirstAccepting(v, m.plan, job, []) == None;
    assert InitialFree([]) == map[];
  }

  // ---------- Maximality ----------

  /** No task's reservation exceeds its own budget, so no claim gives memory back. */
  ghost predicate SelfFunded(v: View, jobs: seq<Job>) {
    forall j, g: nat | j in jobs && j.need.budgetMb.Some? :: Held(v, j.id, g) <= j.need.budgetMb.value
  }

  ghost predicate Tighter(p: Plan, q: Plan) {
    && p.exclusive <= q.exclusive
    && p.free.Keys == q.free.Keys
    && forall g | g in p.free :: q.free[g] <= p.free[g]
  }

  ghost predicate WithinReported(p: Plan, gpus: seq<Gpu>) {
    forall g | g in gpus :: g.index in p.free && p.free[g.index] <= g.freeMb
  }

  lemma RefusalPersists(v: View, p: Plan, q: Plan, job: Job, gpu: Gpu)
    requires Tighter(p, q) && gpu.index in p.free && p.free[gpu.index] <= gpu.freeMb
    requires !Accepts(v, p, job, gpu)
    ensures !Accepts(v, q, job, gpu)
  {}

  ghost predicate Refused(v: View, plan: Plan, job: Job, gpus: seq<Gpu>) {
    forall g | g in gpus :: !Accepts(v, plan, job, g)
  }

  ghost predicate Assigned(assignments: seq<Assignment>, job: Job) {
    exists a :: a in assignments && a.job == job
  }

  /** Every task left out is still refused by every GPU it may use under the final plan. */
  lemma {:induction false} MatchIsMaximal(v: View, jobs: seq<Job>, gpus: seq<Gpu>)
    requires UniqueIndices(gpus) && SelfFunded(v, jobs)
    ensures WithinReported(Match(v, jobs, gpus).plan, gpus)
    ensures forall j | j in jobs ::
        Assigned(Match(v, jobs, gpus).assignments, j) || Refused(v, Match(v, jobs, gpus).plan, j, gpus)
  {
    if jobs == [] {
      InitialFreeIs(gpus);
    } else {
      var n := |jobs| - 1;
      var m, m' := Match(v, jobs[..n], gpus), Match(v, jobs, gpus);
      assert jobs == jobs[..n] + [jobs[n]];
      assert SelfFunded(v, jobs[..n]);
      MatchIsMaximal(v, jobs[..n], gpus);
      FirstAcceptingIs(v, m.plan, jobs[n], gpus);
      var g := FirstAccepting(v, m.plan, jobs[n], gpus);
      if g.Some? {
        ClaimTightens(v, m.plan, jobs[n], g.value);
        assert m'.assignments == m.assignments + [Assignment(jobs[n], g.value)];
        assert Assignment(jobs[n], g.value) in m'.assignments;
        forall j | j in jobs[..n]
          ensures Assigned(m'.assignments, j) || Refused(v, m'.plan, j, gpus)
        {
          if Assigned(m.assignments, j) {
            var a :| a in m.assignments && a.job == j;
            assert a in m'.assignments;
          } else {
            forall x | x in gpus ensures !Accepts(v, m'.plan, j, x) {
              RefusalPersists(v, m.plan, m'.plan, j, x);
            }
          }
        }
      }
    }
  }

  lemma ClaimTightens(v: View, p: Plan, job: Job, gpu: Gpu)
    requires Accepts(v, p, job, gpu) && gpu.index in p.free
    requires job.need.budgetMb.Some? ==> Held(v, job.id, gpu.index) <= job.need.budgetMb.value
    ensures Tighter(p, Claim(v, p, job, gpu))
  {}

  predicate FullCount(v: View, gpu: Gpu, job: Job) {
    job.need.budgetMb.Some? && CountOf(v.counts, gpu.index, Budget(job.need.budgetMb.value)) >= v.required
  }

  /** A reservation larger than its budget breaks this: a task refused for memory is left out although
      the plan, after the reservation has been given back, would take it. */
  lemma ReservationBreaksMaximality(v: View, gpu: Gpu, big: Job, left: Job, holder: Job)
    requires gpu.enabled && gpu.index !in v.cooling && gpu.freeMb > 0
    requires MayUse(big, gpu) && MayUse(left, gpu) && MayUse(holder, gpu)
    requires FullCount(v, gpu, big) && FullCount(v, gpu, left) && holder.need.budgetMb.Some?
    requires Held(v, big.id, gpu.index) == Held(v, left.id, gpu.index) == 0
    requires HasLiveReservation(v, holder.id, gpu.index)
    requires big.id != left.id && left.id != holder.id
    requires var rest := gpu.freeMb - big.need.budgetMb.value;
             var back := rest + v.reservations[holder.id].mb - holder.need.budgetMb.value;
             && 0 <= big.need.budgetMb.value && 0 <= left.need.budgetMb.value
             && HEADROOM_MB < rest <= left.need.budgetMb.value + HEADROOM_MB < back
             && left.need.budgetMb.value + HEADROOM_MB < gpu.freeMb
             && holder.need.budgetMb.value + HEADROOM_MB < rest + v.reservations[holder.id].mb
    ensures var m := Match(v, [big] + [left] + [holder], [gpu]);
            !Assigned(m.assignments, left) && !Refused(v, m.plan, left, [gpu])
  {
    MatchOnOne(v, [], big, gpu);
    MatchOnOne(v, [big], left, gpu);
    MatchOnOne(v, [big] + [left], holder, gpu);
    assert [] + [big] == [big];
    var rest := gpu.freeMb - big.need.budgetMb.value;
    TakesBudget(v, gpu, big, gpu.freeMb, rest);
    assert !Accepts(v, Plan(map[gpu.index := rest], {}), left, gpu);
    assert Match(v, [big] + [left], [gpu]) == Matched([Assignment(big, gpu)], Plan(map[gpu.index := rest], {}));
    HolderLetsIn(v, gpu, left, holder, rest);
    assert gpu in [gpu];
  }

  lemma TakesBudget(v: View, gpu: Gpu, job: Job, free: int, rest: int)
    requires gpu.enabled && gpu.index !in v.cooling && gpu.freeMb > 0 && MayUse(job, gpu) && FullCount(v, gpu, job)
    requires Held(v, job.id, gpu.index) == 0 && rest == free - job.need.budgetMb.value > HEADROOM_MB
    requires gpu.freeMb > job.need.budgetMb.value + HEADROOM_MB
    ensures var p := Plan(map[gpu.index := free], {});
            Accepts(v, p, job, gpu) && Claim(v, p, job, gpu) == Plan(map[gpu.index := rest], {})
  {}

  lemma HolderLetsIn(v: View, gpu: Gpu, left: Job, holder: Job, rest: int)
    requires gpu.enabled && gpu.index !in v.cooling && gpu.freeMb > 0 && 0 <= rest <= gpu.freeMb
    requires MayUse(left, gpu) && MayUse(holder, gpu) && FullCount(v, gpu, left) && holder.need.budgetMb.Some?
    requires Held(v, left.id, gpu.index) == 0 && HasLiveReservation(v, holder.id, gpu.index)
    requires 0 <= left.need.budgetMb.value && left.need.budgetMb.value + HEADROOM_MB < gpu.freeMb
    requires holder.need.budgetMb.value + HEADROOM_MB < rest + v.reservations[holder.id].mb
    requires left.need.budgetMb.value + HEADROOM_MB < rest + v.reservations[holder.id].mb - holder.need.budgetMb.value
    ensures var p := Plan(map[gpu.index := rest], {});
            Accepts(v, p, holder, gpu) && Accepts(v, Claim(v, p, holder, gpu), left, gpu)
  {}

  /** One such pass in numbers. */
  lemma ReservationCanBreakMaximality() returns (v: View, jobs: seq<Job>, left: Job, gpu: Gpu)
    ensures UniqueIndices([gpu]) && PositiveBudgets(jobs) && left in jobs
    ensures !Assigned(Match(v, jobs, [gpu]).assignments, left) && !Refused(v, Match(v, jobs, [gpu]).plan, left, [gpu])
  {
    gpu :| gpu == Gpu(0, 20000, 0, 20000, false, true, true, true);
    left :| left == Job(2, Need(None, Some(5000), None));
    var big: Job :| big == Job(1, Need(None, Some(15000), None));
    var holder: Job :| holder == Job(3, Need(None, Some(1000), Some(10000)));
    v :| v == View(map[(0, Budget(15000)) := 1, (0, Budget(5000)) := 1], 1, map[3 := Reservation(0, 10000, true)], {});
    jobs := [big] + [left] + [holder];
    ReservationBreaksMaximality(v, gpu, big, left, holder);
  }
}
