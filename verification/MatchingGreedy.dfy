/** The matching pass said without a plan: each task in turn gets the first GPU that has room for it
    beside the tasks placed before. */
module MatchingGreedy {
  import opened Gpus
  import opened Matching
  import opened Options

  /** The GPU may be used by the task and has been good for it for long enough, or the task already holds
      a live reservation there. */
  ghost predicate MayTake(v: View, job: Job, g: Gpu) {
    && g.enabled && g.index !in v.cooling
    && (job.need.requestedGpu.Some? ==> job.need.requestedGpu.value == g.index)
    && (|| (job.id in v.reservations && v.reservations[job.id].gpu == g.index && v.reservations[job.id].alive)
        || CountOf(v.counts, g.index, if job.need.budgetMb.Some? then Budget(job.need.budgetMb.value) else Idle)
             >= v.required)
  }

  /** Nobody placed before has the GPU whole; for a task with a budget, its memory as reported, and as left
      by the tasks placed before, exceeds the budget by more than 2048 MB once the task's own reservation
      is given back; a task without one needs the GPU idle and its memory as reported. */
  ghost predicate HasRoom(v: View, before: seq<Assignment>, job: Job, g: Gpu) {
    && !WholeOn(before, g.index)
    && match job.need.budgetMb
       case Some(mb) =>
         var own := if job.id in v.reservations && v.reservations[job.id].gpu == g.index
         then v.reservations[job.id].mb else 0;
         && g.totalMb - g.usedMb + own > mb + 2048
         && g.freeMb + NetClaims(v, before, g.index) + own > mb + 2048
       case None => g.idle && NetClaims(v, before, g.index) == 0
  }

  ghost predicate Takes(v: View, before: seq<Assignment>, job: Job, g: Gpu) {
    MayTake(v, job, g) && HasRoom(v, before, job, g)
  }

  /** GPU x is the first in the list that takes the task. */
  ghost predicate FirstTaking(v: View, before: seq<Assignment>, job: Job, gpus: seq<Gpu>, x: nat) {
    x < |gpus| && Takes(v, before, job, gpus[x]) && forall y | 0 <= y < x :: !Takes(v, before, job, gpus[y])
  }

  lemma {:induction false} ExclusiveIsWhole(v: View, jobs: seq<Job>, gpus: seq<Gpu>, gpu: nat)
    ensures gpu in Match(v, jobs, gpus).plan.exclusive <==> WholeOn(Match(v, jobs, gpus).assignments, gpu)
  {
    if jobs != [] {
      var n := |jobs| - 1;
      ExclusiveIsWhole(v, jobs[..n], gpus, gpu);
      var m := Match(v, jobs[..n], gpus);
      var g := FirstAccepting(v, m.plan, jobs[n], gpus);
      if g.Some? { OneMoreClaim(v, m.assignments, Assignment(jobs[n], g.value), gpu); }
    }
  }

  lemma AcceptsIsTakes(v: View, jobs: seq<Job>, gpus: seq<Gpu>, job: Job, g: Gpu)
    requires UniqueIndices(gpus) && g in gpus && FreeIsRight(g)
    ensures var m := Match(v, jobs, gpus); Accepts(v, m.plan, job, g) <==> Takes(v, m.assignments, job, g)
  {
    ExclusiveIsWhole(v, jobs, gpus, g.index);
    MemoryIsConserved(v, jobs, gpus, g);
  }

  lemma {:induction false} FirstAcceptingAt(v: View, plan: Plan, job: Job, gpus: seq<Gpu>) returns (x: nat)
    requires FirstAccepting(v, plan, job, gpus).Some?
    ensures x < |gpus| && FirstAccepting(v, plan, job, gpus) == Some(gpus[x]) && Accepts(v, plan, job, gpus[x])
    ensures forall y | 0 <= y < x :: !Accepts(v, plan, job, gpus[y])
  {
    var n := |gpus| - 1;
    FirstAcceptingIs(v, plan, job, gpus[..n]);
    if FirstAccepting(v, plan, job, gpus[..n]).Some? {
      x := FirstAcceptingAt(v, plan, job, gpus[..n]);
      assert forall y | 0 <= y < x :: gpus[..n][y] == gpus[y];
    } else {
      x := n;
      assert forall y | 0 <= y < n :: gpus[y] in gpus[..n];
    }
  }

  /** The whole pass, task by task: the n-th task is placed on the first GPU that takes it beside the tasks
      placed before, and is left out exactly if no GPU does. */
  lemma PassIsGreedy(v: View, jobs: seq<Job>, gpus: seq<Gpu>, n: nat)
    requires UniqueIndices(gpus) && (forall g | g in gpus :: FreeIsRight(g)) && n < |jobs|
    ensures var before := Match(v, jobs[..n], gpus).assignments;
            var after := Match(v, jobs[..n + 1], gpus).assignments;
            || (after == before && forall g | g in gpus :: !Takes(v, before, jobs[n], g))
            || (exists x: nat :: FirstTaking(v, before, jobs[n], gpus, x)
                                 && after == before + [Assignment(jobs[n], gpus[x])])
  {
    var m := Match(v, jobs[..n], gpus);
    assert jobs[..n + 1][..n] == jobs[..n];
    forall g | g in gpus ensures Accepts(v, m.plan, jobs[n], g) <==> Takes(v, m.assignments, jobs[n], g) {
      AcceptsIsTakes(v, jobs[..n], gpus, jobs[n], g);
    }
    FirstAcceptingIs(v, m.plan, jobs[n], gpus);
    if FirstAccepting(v, m.plan, jobs[n], gpus).Some? {
      var x := FirstAcceptingAt(v, m.plan, jobs[n], gpus);
      assert forall y | 0 <= y < x :: gpus[y] in gpus;
      assert FirstTaking(v, m.assignments, jobs[n], gpus, x);
    }
  }
}
