/** Which edges the dependency table holds after a call, and which calls are accepted: said on the edges
    asked for. */
module TaskEdges {
  import opened DependencyGraph
  import opened Histories
  import opened Options
  import opened TaskModel
  import opened TaskRuns

  /** rel is the relation a request asks for: the old edges, those of the task only if they are kept, and
      an edge to each requested dependency. */
  ghost predicate Asked(rel: Graph, deps: Graph, id: TaskId, ds: seq<TaskId>, keep: bool) {
    forall e :: e in rel <==> (e in deps && (keep || e.0 != id)) || (e.0 == id && e.1 in ds)
  }

  ghost predicate AllStored(db: Db, ds: seq<TaskId>) {
    forall d | d in ds :: d in db.tasks
  }

  lemma SelfEdgeIsCycle(rel: Graph, id: TaskId)
    requires (id, id) in rel
    ensures !Acyclic(rel)
  {
    EdgeReaches(rel, id, id);
  }

  lemma AskedIs(rel: Graph, deps: Graph, id: TaskId, ds: seq<TaskId>, keep: bool)
    requires Asked(rel, deps, id, ds, keep)
    ensures rel == (if keep then deps else WithoutSource(deps, id)) + Star(id, ds)
  {}

  /** Adding is accepted exactly if the tasks exist and the relation asked for has no cycle, and that
      relation is then stored; an empty request is always accepted. */
  lemma AddStoresWhatIsAsked(db: Db, id: TaskId, ds: seq<TaskId>, rel: Graph)
    requires GraphOk(db) && Asked(rel, db.deps, id, ds, true)
    ensures AddDependencies(db, id, ds).Ok? <==>
            ds == [] || (id in db.tasks && AllStored(db, ds) && Acyclic(rel))
    ensures AddDependencies(db, id, ds).Ok? ==> AddDependencies(db, id, ds).db == db.(deps := rel)
  {
    AskedIs(rel, db.deps, id, ds, true);
    if id in ds {
      SelfEdgeIsCycle(rel, id);
    } else if id in db.tasks && AllStored(db, ds) {
      CycleCheckIsExact(db, id, ds);
    }
  }

  lemma ReplaceStoresWhatIsAsked(db: Db, id: TaskId, ds: seq<TaskId>, rel: Graph)
    requires GraphOk(db) && Asked(rel, db.deps, id, ds, false)
    ensures ReplaceDependencies(db, id, ds).Ok? <==> id in db.tasks && AllStored(db, ds) && Acyclic(rel)
    ensures ReplaceDependencies(db, id, ds).Ok? ==> ReplaceDependencies(db, id, ds).db == db.(deps := rel)
  {
    AskedIs(rel, db.deps, id, ds, false);
    if id in ds {
      SelfEdgeIsCycle(rel, id);
    } else if id in db.tasks && AllStored(db, ds) {
      CycleCheckIsExact(db, id, ds);
    }
  }

  lemma RemoveDropsWhatIsNamed(db: Db, id: TaskId, ds: Option<seq<TaskId>>, e: (TaskId, TaskId))
    ensures e in RemoveDependencies(db, id, ds).deps <==>
            e in db.deps && !(e.0 == id && (ds.Some? ==> e.1 in ds.value))
    ensures RemoveDependencies(db, id, ds) == db.(deps := RemoveDependencies(db, id, ds).deps)
  {}

  /** A new task is accepted exactly if every requested dependency exists, and has just those edges. */
  lemma CreateStoresWhatIsAsked(db: Db, q: Queue, need: Need, now: int, ds: seq<TaskId>, rel: Graph)
    requires Valid(db) && Asked(rel, db.deps, db.nextId, ds, true)
    ensures CreateTask(db, q, need, now, Some(ds)).Ok? <==> AllStored(db, ds)
    ensures CreateTask(db, q, need, now, Some(ds)).Ok? ==> CreateTask(db, q, need, now, Some(ds)).db.deps == rel
  {
    var id, mid := db.nextId, Inserted(db, NewTask(db, q, need, now));
    assert forall e | e in db.deps :: e.0 != id;
    assert Asked(rel, mid.deps, id, ds, false);
    ReplaceStoresWhatIsAsked(mid, id, ds, rel);
    if id in ds {
      SelfEdgeIsCycle(rel, id);
    } else if AllStored(db, ds) {
      CreateNeverCycles(db, q, need, now, ds);
    }
  }

  lemma UpdateStoresWhatIsAsked(db: Db, id: TaskId, q: Queue, need: Need, ds: seq<TaskId>, rel: Graph)
    requires Valid(db) && Asked(rel, db.deps, id, ds, false)
    ensures UpdateQueuedTask(db, id, q, need, Some(ds)).Ok? <==>
            id in db.tasks && Waiting(db.tasks[id]) && AllStored(db, ds) && Acyclic(rel)
    ensures UpdateQueuedTask(db, id, q, need, Some(ds)).Ok? ==> UpdateQueuedTask(db, id, q, need, Some(ds)).db.deps == rel
  {
    if id in db.tasks && Waiting(db.tasks[id]) {
      var t := db.tasks[id].(status := StatusFor(q), queue := q, rank := RankIn(db.tasks, id, q),
      need := need, nextRetryAt := None);
      ReplaceStoresWhatIsAsked(db.(tasks := db.tasks[id := t]), id, ds, rel);
    }
  }

  /** No other step writes an edge; deleting a task drops its edges in both directions. */
  lemma OtherStepsKeepEdges(db: Db, s: Step, e: (TaskId, TaskId))
    requires !s.AddDeps? && !s.ReplaceDeps? && !s.RemoveDeps?
    requires (s.Create? || s.Update?) ==> s.ds.None?
    ensures e in Apply(db, s).deps <==>
            e in db.deps && !(s.Delete? && s.id in db.tasks && db.tasks[s.id].status != Running && (e.0 == s.id || e.1 == s.id))
  {}

  // ---------- Whole runs ----------

  /** An accepted step asks for edge e. */
  ghost predicate Gives(db: Db, s: Step, e: (TaskId, TaskId)) {
    match s
    case AddDeps(id, ds) => AddDependencies(db, id, ds).Ok? && e.0 == id && e.1 in ds
    case ReplaceDeps(id, ds) => ReplaceDependencies(db, id, ds).Ok? && e.0 == id && e.1 in ds
    case Create(q, need, now, ds) => ds.Some? && CreateTask(db, q, need, now, ds).Ok? && e.0 == db.nextId && e.1 in ds.value
    case Update(id, q, need, ds) => ds.Some? && UpdateQueuedTask(db, id, q, need, ds).Ok? && e.0 == id && e.1 in ds.value
    case _ => false
  }

  /** An accepted step replaces the edges of the task of e, names e for removal, or deletes an end of it. */
  ghost predicate Drops(db: Db, s: Step, e: (TaskId, TaskId)) {
    match s
    case ReplaceDeps(id, ds) => ReplaceDependencies(db, id, ds).Ok? && e.0 == id
    case Update(id, q, need, ds) => ds.Some? && UpdateQueuedTask(db, id, q, need, ds).Ok? && e.0 == id
    case RemoveDeps(id, ds) => e.0 == id && (ds.Some? ==> e.1 in ds.value)
    case Delete(id) => id in db.tasks && db.tasks[id].status != Running && (e.0 == id || e.1 == id)
    case _ => false
  }

  lemma EdgeStep(db: Db, s: Step, e: (TaskId, TaskId))
    requires Valid(db)
    ensures e in Apply(db, s).deps <==> Gives(db, s, e) || (e in db.deps && !Drops(db, s, e))
  {
    match s
    case AddDeps(id, ds) => AddStoresWhatIsAsked(db, id, ds, db.deps + Star(id, ds));
    case ReplaceDeps(id, ds) => ReplaceStoresWhatIsAsked(db, id, ds, WithoutSource(db.deps, id) + Star(id, ds));
    case RemoveDeps(id, ds) => RemoveDropsWhatIsNamed(db, id, ds, e);
    case Create(q, need, now, ds) =>
      if ds.Some? { CreateStoresWhatIsAsked(db, q, need, now, ds.value, db.deps + Star(db.nextId, ds.value)); }
    case Update(id, q, need, ds) =>
      if ds.Some? { UpdateStoresWhatIsAsked(db, id, q, need, ds.value, WithoutSource(db.deps, id) + Star(id, ds.value)); }
    case _ => OtherStepsKeepEdges(db, s, e);
  }

  /** Step i of the run asked for e, and no later step dropped it. */
  ghost predicate GivenAt(run: seq<Step>, i: nat, e: (TaskId, TaskId)) {
    && i < |run| && Gives(After(EMPTY, run[..i]), run[i], e)
    && forall j | i < j < |run| :: !Drops(After(EMPTY, run[..j]), run[j], e)
  }

  lemma ValidUpTo(run: seq<Step>, retryLimit: nat, k: nat)
    requires ScheduledRun(EMPTY, run, retryLimit) && k <= |run|
    ensures Valid(After(EMPTY, run[..k]))
  {
    forall i | 0 <= i < k ensures Scheduled(After(EMPTY, run[..k][..i]), run[..k][i], retryLimit) {
      assert run[..k][..i] == run[..i];
    }
    EmptyIsValid();
    RunKeepsValid(EMPTY, run[..k], retryLimit);
  }

  lemma AfterOneMore(run: seq<Step>, k: nat)
    requires k < |run|
    ensures After(EMPTY, run[..k + 1]) == Apply(After(EMPTY, run[..k]), run[k])
  {
    assert run[..k + 1][..k] == run[..k];
  }

  lemma EdgeFollows(run: seq<Step>, retryLimit: nat, e: (TaskId, TaskId), k: nat)
    requires ScheduledRun(EMPTY, run, retryLimit) && k < |run|
    ensures e in After(EMPTY, run[..k + 1]).deps <==>
            Gives(After(EMPTY, run[..k]), run[k], e)
            || (e in After(EMPTY, run[..k]).deps && !Drops(After(EMPTY, run[..k]), run[k], e))
  {
    ValidUpTo(run, retryLimit, k);
    AfterOneMore(run, k);
    EdgeStep(After(EMPTY, run[..k]), run[k], e);
  }

  /** The run as seen by e. */
  ghost predicate Traces(run: seq<Step>, e: (TaskId, TaskId), holds: seq<bool>, gives: seq<bool>, drops: seq<bool>) {
    && |holds| == |run| + 1 && |gives| == |drops| == |run|
    && (forall k | 0 <= k <= |run| :: holds[k] == (e in After(EMPTY, run[..k]).deps))
    && (forall k | 0 <= k < |run| :: gives[k] == Gives(After(EMPTY, run[..k]), run[k], e))
    && (forall k | 0 <= k < |run| :: drops[k] == Drops(After(EMPTY, run[..k]), run[k], e))
  }

  lemma TraceExists(run: seq<Step>, e: (TaskId, TaskId)) returns (holds: seq<bool>, gives: seq<bool>, drops: seq<bool>)
    ensures Traces(run, e, holds, gives, drops)
  {
    holds := seq(|run| + 1, k requires 0 <= k <= |run| => e in After(EMPTY, run[..k]).deps);
    gives := seq(|run|, k requires 0 <= k < |run| => Gives(After(EMPTY, run[..k]), run[k], e));
    drops := seq(|run|, k requires 0 <= k < |run| => Drops(After(EMPTY, run[..k]), run[k], e));
  }

  lemma TraceFollows(run: seq<Step>, retryLimit: nat, e: (TaskId, TaskId), holds: seq<bool>, gives: seq<bool>, drops: seq<bool>)
    requires ScheduledRun(EMPTY, run, retryLimit) && Traces(run, e, holds, gives, drops)
    ensures Follows(holds, gives, drops) && (holds[|run|] <==> e in After(EMPTY, run).deps)
  {
    forall k | 0 <= k < |run| ensures holds[k + 1] <==> gives[k] || (holds[k] && !drops[k]) {
      EdgeFollows(run, retryLimit, e, k);
    }
    assert run[..0] == [] && run[..|run|] == run;
  }

  lemma SameStanding(run: seq<Step>, e: (TaskId, TaskId), holds: seq<bool>, gives: seq<bool>, drops: seq<bool>)
    requires Traces(run, e, holds, gives, drops)
    ensures (exists i: nat :: StandsSince(gives, drops, i, |run|)) <==> exists i: nat :: GivenAt(run, i, e)
  {
    forall i: nat ensures StandsSince(gives, drops, i, |run|) <==> GivenAt(run, i, e) {}
  }

  /** Over any run, the stored edges are exactly those that an accepted step asked for and no later step
      dropped. */
  lemma EdgesAreThoseAskedFor(run: seq<Step>, retryLimit: nat, e: (TaskId, TaskId))
    requires ScheduledRun(EMPTY, run, retryLimit)
    ensures e in After(EMPTY, run).deps <==> exists i: nat :: GivenAt(run, i, e)
  {
    var holds, gives, drops := TraceExists(run, e);
    TraceFollows(run, retryLimit, e, holds, gives, drops);
    HoldsIfStanding(holds, gives, drops, |run|);
    SameStanding(run, e, holds, gives, drops);
  }
}
