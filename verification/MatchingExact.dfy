/** When passes are exclusive and maximal, exactly: what one live reservation must satisfy for every
    readiness table and every task list. */
module MatchingExact {
  import opened Gpus
  import opened Matching
  import opened Options
  import opened TaskModel

  // ---------- One more task, aimed at one GPU ----------

  /** The task can be placed on no other GPU, whatever the plan. */
  predicate NeverReady(v: View, job: Job, g: Gpu) {
    || !MayUse(job, g)
    || ConditionFor(v, job, g).None?
    || (!HasLiveReservation(v, job.id, g.index) && CountOf(v.counts, g.index, ConditionFor(v, job, g).value) < v.required)
  }

  ghost predicate OnlyAt(v: View, job: Job, gpu: Gpu, gpus: seq<Gpu>) {
    gpu in gpus && forall g | g in gpus && g != gpu :: NeverReady(v, job, g)
  }

  lemma OneMore(v: View, jobs: seq<Job>, job: Job, gpu: Gpu, gpus: seq<Gpu>)
    requires OnlyAt(v, job, gpu, gpus)
    ensures var m := Match(v, jobs, gpus);
            Match(v, jobs + [job], gpus) ==
            if Accepts(v, m.plan, job, gpu)
            then Matched(m.assignments + [Assignment(job, gpu)], Claim(v, m.plan, job, gpu)) else m
  {
    var m := Match(v, jobs, gpus);
    assert (jobs + [job])[..|jobs|] == jobs;
    FirstAcceptingIs(v, m.plan, job, gpus);
  }

  /** The plan has f MB left on gpu and has not given it whole to anybody. */
  predicate Left(plan: Plan, gpu: Gpu, f: int) {
    gpu.index in plan.free && plan.free[gpu.index] == f && gpu.index !in plan.exclusive
  }

  /** A task of mb MB for this GPU alone, without a reservation. */
  function Filler(id: nat, gpu: Gpu, mb: int): Job {
    Job(id, Need(Some(gpu.index), Some(mb), None))
  }

  function Whole(id: nat, gpu: Gpu): Job {
    Job(id, Need(Some(gpu.index), None, None))
  }

  /** A usable GPU with room for at least one task of 1 MB, and a live reservation of holder on it. */
  ghost predicate Setting(v: View, gpus: seq<Gpu>, gpu: Gpu, holder: Job) {
    && UniqueIndices(gpus) && gpu in gpus && gpu.enabled && gpu.index !in v.cooling
    && gpu.freeMb > HEADROOM_MB + 1 && v.required >= 1
    && HasLiveReservation(v, holder.id, gpu.index) && MayUse(holder, gpu)
    && holder.need.budgetMb.Some? && holder.need.budgetMb.value > 0
  }

  /** Good observations on this GPU alone, of each condition in cs. */
  function Seen(v: View, gpu: Gpu, cs: set<Condition>): View {
    v.(counts := map c | c in cs :: (gpu.index, c) := v.required)
  }

  lemma SeenCounts(v: View, gpu: Gpu, cs: set<Condition>, g: nat, c: Condition)
    ensures CountOf(Seen(v, gpu, cs).counts, g, c) == if g == gpu.index && c in cs then v.required else 0
  {
    if g == gpu.index && c in cs {
      assert (g, c) in Seen(v, gpu, cs).counts;
    }
  }

  lemma AimedAt(v: View, gpus: seq<Gpu>, gpu: Gpu, holder: Job, cs: set<Condition>, job: Job)
    requires Setting(v, gpus, gpu, holder) && (job == holder || job.need.requestedGpu == Some(gpu.index))
    ensures OnlyAt(Seen(v, gpu, cs), job, gpu, gpus)
  {
    forall g | g in gpus && g != gpu ensures NeverReady(Seen(v, gpu, cs), job, g) {
      assert g.index != gpu.index;
      var c := ConditionFor(Seen(v, gpu, cs), job, g);
      if c.Some? { SeenCounts(v, gpu, cs, g.index, c.value); }
    }
  }

  /** What the holder's turn does: its reservation comes back and its budget goes. */
  lemma HolderTurn(v: View, gpus: seq<Gpu>, gpu: Gpu, holder: Job, cs: set<Condition>, jobs: seq<Job>, f: int)
    requires Setting(v, gpus, gpu, holder) && f >= 0 && f <= gpu.freeMb
    requires var m := Match(Seen(v, gpu, cs), jobs, gpus); Left(m.plan, gpu, f)
    requires f + v.reservations[holder.id].mb > holder.need.budgetMb.value + HEADROOM_MB
    ensures var m, m' := Match(Seen(v, gpu, cs), jobs, gpus), Match(Seen(v, gpu, cs), jobs + [holder], gpus);
            && m'.assignments == m.assignments + [Assignment(holder, gpu)]
            && Left(m'.plan, gpu, f + v.reservations[holder.id].mb - holder.need.budgetMb.value)
  {
    AimedAt(v, gpus, gpu, holder, cs, holder);
    OneMore(Seen(v, gpu, cs), jobs, holder, gpu, gpus);
  }

  /** A filler is placed while there is room for it above the headroom, and refused otherwise. */
  lemma FillerTurn(v: View, gpus: seq<Gpu>, gpu: Gpu, holder: Job, cs: set<Condition>, jobs: seq<Job>,
                   id: nat, mb: int, f: int)
    requires Setting(v, gpus, gpu, holder) && id !in v.reservations
    requires mb > 0 && Budget(mb) in cs && gpu.freeMb > mb + HEADROOM_MB
    requires Left(Match(Seen(v, gpu, cs), jobs, gpus).plan, gpu, f)
    ensures var m, m' := Match(Seen(v, gpu, cs), jobs, gpus), Match(Seen(v, gpu, cs), jobs + [Filler(id, gpu, mb)], gpus);
            if f > mb + HEADROOM_MB then
              && m'.assignments == m.assignments + [Assignment(Filler(id, gpu, mb), gpu)] && Left(m'.plan, gpu, f - mb)
            else m' == m
    ensures forall plan | Left(plan, gpu, f) && f > mb + HEADROOM_MB ::
        Accepts(Seen(v, gpu, cs), plan, Filler(id, gpu, mb), gpu)
  {
    AimedAt(v, gpus, gpu, holder, cs, Filler(id, gpu, mb));
    OneMore(Seen(v, gpu, cs), jobs, Filler(id, gpu, mb), gpu, gpus);
    SeenCounts(v, gpu, cs, gpu.index, Budget(mb));
  }

  lemma StartsFree(v: View, gpus: seq<Gpu>, gpu: Gpu)
    requires UniqueIndices(gpus) && gpu in gpus
    ensures Match(v, [], gpus).assignments == [] && Left(Match(v, [], gpus).plan, gpu, gpu.freeMb)
  {
    InitialFreeIs(gpus);
  }

  /** An id above all those of the reservations. */
  lemma {:induction false} FreshFrom(ids: set<nat>) returns (n: nat)
    ensures forall x | x in ids :: x < n
  {
    if ids == {} {
      n := 0;
    } else {
      var y :| y in ids;
      n := FreshFrom(ids - {y});
      n := if y < n then n else y + 1;
      assert forall x | x in ids :: x == y || x in ids - {y};
    }
  }

  // ---------- Maximality ----------

  ghost predicate Maximal(v: View, jobs: seq<Job>, gpus: seq<Gpu>) {
    forall j | j in jobs ::
      Assigned(Match(v, jobs, gpus).assignments, j) || Refused(v, Match(v, jobs, gpus).plan, j, gpus)
  }

  /** The tasks of a pass, holder with its own budget if it is among them. */
  ghost predicate Tasks(jobs: seq<Job>, holder: Job) {
    PositiveBudgets(jobs) && DistinctIds(jobs) && forall j | j in jobs && j.id == holder.id :: j == holder
  }

  /** A live reservation larger than its budget, on any usable GPU: some pass leaves out a task that its
      final plan would take. A task of all but 2049 MB comes first; one of 1 MB is then refused; the
      holder gives back more than it takes. */
  lemma OversizedBreaksMaximality(v: View, gpus: seq<Gpu>, gpu: Gpu, holder: Job)
      returns (cs: set<Condition>, jobs: seq<Job>)
    requires Setting(v, gpus, gpu, holder) && v.reservations[holder.id].mb > holder.need.budgetMb.value
    ensures Tasks(jobs, holder) && !Maximal(Seen(v, gpu, cs), jobs, gpus)
  {
    var n := FreshFrom(v.reservations.Keys + {holder.id});
    var big, left := Filler(n, gpu, gpu.freeMb - HEADROOM_MB - 1), Filler(n + 1, gpu, 1);
    cs := {Budget(gpu.freeMb - HEADROOM_MB - 1), Budget(1)};
    jobs := [] + [big] + [left] + [holder];
    StartsFree(Seen(v, gpu, cs), gpus, gpu);
    FillerTurn(v, gpus, gpu, holder, cs, [], n, gpu.freeMb - HEADROOM_MB - 1, gpu.freeMb);
    FillerTurn(v, gpus, gpu, holder, cs, [] + [big], n + 1, 1, HEADROOM_MB + 1);
    HolderTurn(v, gpus, gpu, holder, cs, [] + [big] + [left], HEADROOM_MB + 1);
    LeftOut(v, gpus, gpu, holder, cs, jobs, big, left);
  }

  lemma LeftOut(v: View, gpus: seq<Gpu>, gpu: Gpu, holder: Job, cs: set<Condition>, jobs: seq<Job>, big: Job, left: Job)
    requires Setting(v, gpus, gpu, holder) && left == Filler(left.id, gpu, 1) && left.id !in v.reservations
    requires left in jobs && left != big && left != holder && Budget(1) in cs
    requires var m := Match(Seen(v, gpu, cs), jobs, gpus);
             && m.assignments == [] + [Assignment(big, gpu)] + [Assignment(holder, gpu)]
             && gpu.index in m.plan.free && m.plan.free[gpu.index] > HEADROOM_MB + 1 && gpu.index !in m.plan.exclusive
    ensures !Maximal(Seen(v, gpu, cs), jobs, gpus)
  {
    var m := Match(Seen(v, gpu, cs), jobs, gpus);
    FillerTurn(v, gpus, gpu, holder, cs, jobs, left.id, 1, m.plan.free[gpu.index]);
    assert Accepts(Seen(v, gpu, cs), m.plan, left, gpu);
    assert !Refused(Seen(v, gpu, cs), m.plan, left, gpus);
    assert !Assigned(m.assignments, left);
  }

  /** With one reservation held: passes are maximal for every readiness table and every task list if and
      only if the reservation is no larger than its task's budget. */
  lemma MaximalityIsExact(v: View, gpus: seq<Gpu>, gpu: Gpu, holder: Job)
    requires Setting(v, gpus, gpu, holder) && v.reservations.Keys == {holder.id}
    ensures (forall counts, jobs | Tasks(jobs, holder) :: Maximal(v.(counts := counts), jobs, gpus)) <==>
            v.reservations[holder.id].mb <= holder.need.budgetMb.value
  {
    if v.reservations[holder.id].mb <= holder.need.budgetMb.value {
      forall counts, jobs | Tasks(jobs, holder) ensures Maximal(v.(counts := counts), jobs, gpus) {
        assert SelfFunded(v.(counts := counts), jobs);
        MatchIsMaximal(v.(counts := counts), jobs, gpus);
      }
    } else {
      var cs, jobs := OversizedBreaksMaximality(v, gpus, gpu, holder);
      assert Seen(v, gpu, cs) == v.(counts := Seen(v, gpu, cs).counts);
    }
  }

  // ---------- Exclusive use ----------

  /** Fillers of 1 MB with ids from n on. */
  function Fillers(gpu: Gpu, n: nat, count: nat): seq<Job> {
    if count == 0 then [] else Fillers(gpu, n, count - 1) + [Filler(n + count - 1, gpu, 1)]
  }

  lemma {:induction false} FillersAre(gpu: Gpu, n: nat, count: nat)
    ensures |Fillers(gpu, n, count)| == count
    ensures forall i | 0 <= i < count :: Fillers(gpu, n, count)[i] == Filler(n + i, gpu, 1)
  {
    if count > 0 { FillersAre(gpu, n, count - 1); }
  }

  /** The fillers take back, one MB each, what the reservation gave beyond its budget. */
  lemma {:induction false} FillersTurn(v: View, gpus: seq<Gpu>, gpu: Gpu, holder: Job, cs: set<Condition>,
                                       n: nat, count: nat)
    requires Setting(v, gpus, gpu, holder) && Budget(1) in cs
    requires forall x | x in v.reservations :: x < n
    requires count <= v.reservations[holder.id].mb - holder.need.budgetMb.value
    ensures var m := Match(Seen(v, gpu, cs), [holder] + Fillers(gpu, n, count), gpus);
            && m.assignments != [] && m.assignments[0] == Assignment(holder, gpu)
            && Left(m.plan, gpu, gpu.freeMb + v.reservations[holder.id].mb - holder.need.budgetMb.value - count)
  {
    if count == 0 {
      StartsFree(Seen(v, gpu, cs), gpus, gpu);
      HolderTurn(v, gpus, gpu, holder, cs, [], gpu.freeMb);
      assert [holder] + Fillers(gpu, n, 0) == [] + [holder];
    } else {
      FillersTurn(v, gpus, gpu, holder, cs, n, count - 1);
      FillerTurn(v, gpus, gpu, holder, cs, [holder] + Fillers(gpu, n, count - 1), n + count - 1, 1,
                 gpu.freeMb + v.reservations[holder.id].mb - holder.need.budgetMb.value - (count - 1));
      assert [holder] + Fillers(gpu, n, count) == [holder] + Fillers(gpu, n, count - 1) + [Filler(n + count - 1, gpu, 1)];
    }
  }

  /** A live reservation at least as large as its budget, on a GPU reported idle: some pass plans a task
      that wants the GPU whole beside the holder. */
  lemma LargeHidesClaim(v: View, gpus: seq<Gpu>, gpu: Gpu, holder: Job) returns (cs: set<Condition>, jobs: seq<Job>)
    requires Setting(v, gpus, gpu, holder) && gpu.idle && v.reservations[holder.id].mb >= holder.need.budgetMb.value
    ensures Tasks(jobs, holder) && !WholeAlone(Match(Seen(v, gpu, cs), jobs, gpus).assignments)
  {
    var n := FreshFrom(v.reservations.Keys + {holder.id});
    var count := v.reservations[holder.id].mb - holder.need.budgetMb.value;
    cs := {Idle, Budget(1)};
    var before := [holder] + Fillers(gpu, n, count);
    var whole := Whole(n + count, gpu);
    jobs := before + [whole];
    FillersTurn(v, gpus, gpu, holder, cs, n, count);
    WholeTurn(v, gpus, gpu, holder, cs, before, whole.id);
    ListIsTasks(gpu, holder, n, count);
  }

  lemma WholeTurn(v: View, gpus: seq<Gpu>, gpu: Gpu, holder: Job, cs: set<Condition>, jobs: seq<Job>, id: nat)
    requires Setting(v, gpus, gpu, holder) && gpu.idle && Idle in cs
    requires var m := Match(Seen(v, gpu, cs), jobs, gpus);
             m.assignments != [] && m.assignments[0] == Assignment(holder, gpu) && Left(m.plan, gpu, gpu.freeMb)
    ensures !WholeAlone(Match(Seen(v, gpu, cs), jobs + [Whole(id, gpu)], gpus).assignments)
  {
    var m := Match(Seen(v, gpu, cs), jobs, gpus);
    AimedAt(v, gpus, gpu, holder, cs, Whole(id, gpu));
    OneMore(Seen(v, gpu, cs), jobs, Whole(id, gpu), gpu, gpus);
    SeenCounts(v, gpu, cs, gpu.index, Idle);
    var as' := Match(Seen(v, gpu, cs), jobs + [Whole(id, gpu)], gpus).assignments;
    assert as'[|m.assignments|] == Assignment(Whole(id, gpu), gpu) && as'[0] == Assignment(holder, gpu);
  }

  lemma ListIsTasks(gpu: Gpu, holder: Job, n: nat, count: nat)
    requires holder.id < n && holder.need.budgetMb.Some? && holder.need.budgetMb.value > 0
    ensures Tasks([holder] + Fillers(gpu, n, count) + [Whole(n + count, gpu)], holder)
  {
    FillersAre(gpu, n, count);
    var jobs := [holder] + Fillers(gpu, n, count) + [Whole(n + count, gpu)];
    forall i | 0 <= i < |jobs|
      ensures jobs[i] == if i == 0 then holder else if i <= count then Filler(n + i - 1, gpu, 1) else Whole(n + count, gpu)
    {}
  }

  /** With one reservation held, on a GPU reported idle: passes are exclusive for every readiness table
      and every task list if and only if the reservation is smaller than its task's budget. */
  lemma ExclusivityIsExact(v: View, gpus: seq<Gpu>, gpu: Gpu, holder: Job)
    requires Setting(v, gpus, gpu, holder) && gpu.idle && v.reservations.Keys == {holder.id}
    ensures (forall counts, jobs | Tasks(jobs, holder) ::
              WholeAlone(Match(v.(counts := counts), jobs, gpus).assignments)) <==>
            v.reservations[holder.id].mb < holder.need.budgetMb.value
  {
    if v.reservations[holder.id].mb < holder.need.budgetMb.value {
      forall counts, jobs | Tasks(jobs, holder)
        ensures WholeAlone(Match(v.(counts := counts), jobs, gpus).assignments)
      {
        assert ClaimsShrink(v.(counts := counts), jobs, gpus);
        ShrinkingIsExclusive(v.(counts := counts), jobs, gpus);
      }
    } else {
      var cs, jobs := LargeHidesClaim(v, gpus, gpu, holder);
      assert Seen(v, gpu, cs) == v.(counts := Seen(v, gpu, cs).counts);
    }
  }
}
