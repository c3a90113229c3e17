/** The database object: every method changes the tables in place exactly as TaskModel says. */
module TaskStore {
  import opened DependencyGraph
  import opened Options
  import opened Ordering
  import opened TaskModel
  import TaskQueues
  import TaskRuns

  lemma GreatestRankIsNext(tasks: Tasks, q: Queue, m: int)
    requires exists id :: id in QueueIds(tasks, q) && RankOf(tasks[id]) == m
    requires forall id | id in QueueIds(tasks, q) :: RankOf(tasks[id]) <= m
    ensures NextRank(tasks, q) == m + 1
  {
    var r, key := Reading(tasks, q), RankKeys(tasks);
    var id :| id in QueueIds(tasks, q) && RankOf(tasks[id]) == m;
    assert id in r;
    var i :| 0 <= i < |r| && r[i] == id;
    assert r[|r| - 1] in QueueIds(tasks, q);
    assert i < |r| - 1 ==> Before(key, r[i], r[|r| - 1]);
  }

  lemma LeastRankIsHead(tasks: Tasks, q: Queue, m: int, n: nat)
    requires exists id :: id in QueueIds(tasks, q) && RankOf(tasks[id]) == m
    requires forall id | id in QueueIds(tasks, q) :: m <= RankOf(tasks[id])
    ensures HeadRank(tasks, q, n) == m - n
  {
    var r, key := Reading(tasks, q), RankKeys(tasks);
    var id :| id in QueueIds(tasks, q) && RankOf(tasks[id]) == m;
    assert id in r;
    var i :| 0 <= i < |r| && r[i] == id;
    assert r[0] in QueueIds(tasks, q);
    assert 0 < i ==> Before(key, r[0], r[i]);
  }

  lemma EmptyReading(tasks: Tasks, q: Queue)
    requires QueueIds(tasks, q) == {}
    ensures Reading(tasks, q) == []
  {
    var r := Reading(tasks, q);
    assert forall i | 0 <= i < |r| :: r[i] in r;
  }

  lemma SameMembersSameStar(id: TaskId, ds: seq<TaskId>, es: seq<TaskId>)
    requires forall x :: x in ds <==> x in es
    ensures Star(id, ds) == Star(id, es)
  {}

  lemma SubsetOfSameSize(a: set<(TaskId, TaskId)>, b: set<(TaskId, TaskId)>)
    requires a <= b && |a| == |b|
    ensures a == b
  {
    assert b == a + (b - a);
  }

  /** Comparing the two counts of the query decides whether every dependency succeeded. */
  lemma CountingDecides(db: Db, id: TaskId, total: Graph, satisfied: Graph)
    requires total == set e | e in db.deps && e.0 == id && e.1 in db.tasks
    requires satisfied == set e | e in total && db.tasks[e.1].status == Succeeded
    ensures |total| == 0 || |total| == |satisfied| <==> DependenciesSatisfied(db, id)
  {
    if |total| == |satisfied| {
      SubsetOfSameSize(satisfied, total);
      assert forall e | e in db.deps && e.0 == id && e.1 in db.tasks :: e in total;
    }
    if DependenciesSatisfied(db, id) {
      assert satisfied == total;
    }
    assert forall e | e in db.deps && e.0 == id && e.1 in db.tasks :: e in total;
  }

  /** The rows of one queue name among rows listed in start order are its block. */
  lemma BlockIs(tasks: Tasks, q: Queue, block: seq<TaskId>)
    requires Listing(block, RunningIds(tasks, q), StartKeys(tasks))
    ensures RunningBlock(tasks, q) == block
  {
    SortedIs(block, RunningIds(tasks, q), StartKeys(tasks));
  }

  function GroupOf(groups: map<Queue, seq<TaskId>>, q: Queue): seq<TaskId> {
    if q in groups then groups[q] else []
  }

  function WithQueue(tasks: Tasks, rows: seq<TaskId>, q: Queue): set<TaskId> {
    set id | id in rows && id in tasks && tasks[id].queue == q
  }

  /** Rows listed so far, each filed under its queue name. */
  ghost predicate Grouped(tasks: Tasks, rows: seq<TaskId>, groups: map<Queue, seq<TaskId>>) {
    && (forall q :: Listing(GroupOf(groups, q), WithQueue(tasks, rows, q), StartKeys(tasks)))
    && (forall x | x in rows && x in tasks :: tasks[x].queue in groups)
  }

  lemma GroupedMore(tasks: Tasks, rows: seq<TaskId>, i: nat, groups: map<Queue, seq<TaskId>>)
    requires Listing(rows, AllRunning(tasks), StartKeys(tasks)) && i < |rows| && rows[i] in tasks
    requires Grouped(tasks, rows[..i], groups)
    ensures var q := tasks[rows[i]].queue;
            Grouped(tasks, rows[..i + 1], groups[q := GroupOf(groups, q) + [rows[i]]])
  {
    var q := tasks[rows[i]].queue;
    assert rows[..i + 1] == rows[..i] + [rows[i]];
    GroupGrows(tasks, rows, AllRunning(tasks), i, GroupOf(groups, q));
    var groups' := groups[q := GroupOf(groups, q) + [rows[i]]];
    forall k ensures Listing(GroupOf(groups', k), WithQueue(tasks, rows[..i + 1], k), StartKeys(tasks)) {
      if k != q {
        assert WithQueue(tasks, rows[..i + 1], k) == WithQueue(tasks, rows[..i], k);
        assert GroupOf(groups', k) == GroupOf(groups, k);
      }
    }
  }

  lemma GroupedAll(tasks: Tasks, rows: seq<TaskId>, groups: map<Queue, seq<TaskId>>)
    requires Listing(rows, AllRunning(tasks), StartKeys(tasks)) && Grouped(tasks, rows, groups)
    ensures forall q :: RunningBlock(tasks, q) == GroupOf(groups, q)
    ensures forall id | id in tasks && tasks[id].status == Running :: tasks[id].queue in groups
  {
    assert forall x :: x in rows <==> x in AllRunning(tasks);
    forall q ensures RunningBlock(tasks, q) == GroupOf(groups, q) {
      assert WithQueue(tasks, rows, q) == RunningIds(tasks, q);
      BlockIs(tasks, q, GroupOf(groups, q));
    }
  }

  lemma GroupGrows(tasks: Tasks, rows: seq<TaskId>, running: set<TaskId>, i: nat, group: seq<TaskId>)
    requires Listing(rows, running, StartKeys(tasks)) && i < |rows| && rows[i] in tasks
    requires Listing(group, WithQueue(tasks, rows[..i], tasks[rows[i]].queue), StartKeys(tasks))
    ensures Listing(group + [rows[i]], WithQueue(tasks, rows[..i + 1], tasks[rows[i]].queue), StartKeys(tasks))
  {
    var key, q := StartKeys(tasks), tasks[rows[i]].queue;
    ListingDistinct(rows, running, key);
    assert rows[..i + 1] == rows[..i] + [rows[i]];
    assert WithQueue(tasks, rows[..i + 1], q) == WithQueue(tasks, rows[..i], q) + {rows[i]};
    forall x | x in group ensures Before(key, x, rows[i]) {
      assert x in WithQueue(tasks, rows[..i], q);
      var j :| 0 <= j < i && rows[j] == x;
    }
    ListingGrows(group, WithQueue(tasks, rows[..i], q), key, rows[i]);
  }

  predicate Closes(tasks: Tasks, block: seq<TaskId>, e: (TaskId, nat)) {
    e.0 in block && e.0 in tasks && e.1 == AttemptNo(tasks[e.0])
  }

  predicate RowAt(before: Tasks, now: Tasks, x: TaskId, rank: int, q: Queue) {
    x in before && x in now && now[x] == Restarted(before[x], rank, q)
  }

  /** The rows of block restarted in order from rank base on; all others as they were. */
  ghost predicate BlockRows(before: Tasks, now: Tasks, block: seq<TaskId>, base: int, q: Queue) {
    && now.Keys == before.Keys
    && (forall i | 0 <= i < |block| :: RowAt(before, now, block[i], base + i, q))
    && (forall x | x in before && x !in block :: now[x] == before[x])
  }

  ghost predicate BlockClosed(tasks: Tasks, before: Attempts, now: Attempts, block: seq<TaskId>) {
    && (forall e :: e in now <==> e in before || Closes(tasks, block, e))
    && (forall e | e in now :: now[e] == if Closes(tasks, block, e) then InterruptedRequeued else before[e])
  }

  lemma BlockRowsMore(before: Tasks, now: Tasks, block: seq<TaskId>, k: nat, base: int, q: Queue)
    requires Distinct(block) && k < |block| && block[k] in before
    requires BlockRows(before, now, block[..k], base, q)
    ensures block[k] !in block[..k] && now[block[k]] == before[block[k]]
    ensures BlockRows(before, now[block[k] := Restarted(before[block[k]], base + k, q)], block[..k + 1], base, q)
  {
    var prefix, x := block[..k + 1], block[k];
    var now' := now[x := Restarted(before[x], base + k, q)];
    assert prefix == block[..k] + [x];
    forall i | 0 <= i < k ensures RowAt(before, now', prefix[i], base + i, q) {
      assert block[..k][i] == prefix[i] && prefix[i] != x;
    }
  }

  lemma BlockClosedMore(tasks: Tasks, before: Attempts, now: Attempts, block: seq<TaskId>, k: nat)
    requires k < |block| && block[k] in tasks && BlockClosed(tasks, before, now, block[..k])
    ensures BlockClosed(tasks, before, now[(block[k], AttemptNo(tasks[block[k]])) := InterruptedRequeued], block[..k + 1])
  {
    assert block[..k + 1] == block[..k] + [block[k]];
    forall e: (TaskId, nat)
      ensures Closes(tasks, block[..k + 1], e) <==>
              Closes(tasks, block[..k], e) || e == (block[k], AttemptNo(tasks[block[k]]))
    {}
  }

  /** The rows of the first n tasks of a request have their new ranks; all others are as they were. */
  ghost predicate RanksAssigned(before: Tasks, now: Tasks, ids: seq<TaskId>, n: nat) {
    && now.Keys == before.Keys && n <= |ids|
    && (forall x | x in before && x in ids[..n] :: now[x] == before[x].(rank := Some(IndexOf(ids, x) + 1)))
    && (forall x | x in before && x !in ids[..n] :: now[x] == before[x])
  }

  lemma RanksAssignedMore(before: Tasks, now: Tasks, ids: seq<TaskId>, n: nat)
    requires Distinct(ids) && n < |ids| && ids[n] in before && RanksAssigned(before, now, ids, n)
    ensures now[ids[n]] == before[ids[n]]
    ensures RanksAssigned(before, now[ids[n] := before[ids[n]].(rank := Some(n + 1))], ids, n + 1)
  {
    TaskQueues.IndexIs(ids, n);
    assert ids[..n + 1] == ids[..n] + [ids[n]] && ids[n] !in ids[..n];
  }

  lemma RanksAssignedAll(before: Tasks, now: Tasks, q: Queue, ids: seq<TaskId>)
    requires RanksAssigned(before, now, ids, |ids|) && forall x | x in ids :: x in before && InQueue(before[x], q)
    ensures now == Ranked(before, q, ids)
  {
    assert ids[..|ids|] == ids;
  }

  function AllRunning(tasks: Tasks): set<TaskId> {
    set id | id in tasks && tasks[id].status == Running
  }

  /** The queue names in rest are still to be handled. */
  predicate Handled(tasks: Tasks, id: TaskId, rest: set<Queue>) {
    id in tasks && tasks[id].status == Running && tasks[id].queue !in rest
  }

  ghost predicate RowsRestarted(before: Tasks, now: Tasks, rest: set<Queue>) {
    && now.Keys == before.Keys
    && forall x | x in before :: now[x] == if Handled(before, x, rest) then RestartedTask(before, x) else before[x]
  }

  predicate AttemptClosed(before: Db, now: Attempts, rest: set<Queue>, e: (TaskId, nat)) {
    var closed := Handled(before.tasks, e.0, rest) && e.1 == AttemptNo(before.tasks[e.0]);
    && (e in now <==> e in before.attempts || closed)
    && (e in now ==> now[e] == if closed then InterruptedRequeued else before.attempts[e])
  }

  ghost predicate AttemptsClosed(before: Db, now: Attempts, rest: set<Queue>) {
    forall e: (TaskId, nat) :: AttemptClosed(before, now, rest, e)
  }

  /** Handling other queues does not move the head of q. */
  lemma HeadUnmoved(before: Tasks, now: Tasks, rest: set<Queue>, q: Queue, n: nat)
    requires RowsRestarted(before, now, rest) && q in rest
    ensures HeadRank(now, q, n) == HeadRank(before, q, n)
  {
    assert QueueIds(now, q) == QueueIds(before, q);
    TaskQueues.ReadingSame(before, now, q);
    var r := Reading(before, q);
    if r != [] {
      assert r[0] in QueueIds(before, q);
    }
  }

  lemma RowsRestartedMore(before: Tasks, mid: Tasks, now: Tasks, rest: set<Queue>, q: Queue)
    requires RowsRestarted(before, mid, rest) && q in rest
    requires var block := RunningBlock(before, q);
             BlockRows(mid, now, block, HeadRank(before, q, |block|), q)
    ensures RowsRestarted(before, now, rest - {q})
  {
    assert forall x :: x in RunningBlock(before, q) <==> x in RunningIds(before, q);
    forall x | x in before
      ensures now[x] == if Handled(before, x, rest - {q}) then RestartedTask(before, x) else before[x]
    {
      if x in RunningBlock(before, q) {
        RowRestarted(before, mid, now, x);
      }
    }
  }

  lemma RowRestarted(before: Tasks, mid: Tasks, now: Tasks, x: TaskId)
    requires x in before && x in mid && mid[x] == before[x] && before[x].status == Running
    requires var q, block := before[x].queue, RunningBlock(before, before[x].queue);
             BlockRows(mid, now, block, HeadRank(before, q, |block|), q)
    ensures now[x] == RestartedTask(before, x)
  {
    var block := RunningBlock(before, before[x].queue);
    assert x in RunningIds(before, before[x].queue);
    assert RowAt(mid, now, block[IndexOf(block, x)],
                 HeadRank(before, before[x].queue, |block|) + IndexOf(block, x), before[x].queue);
  }

  lemma AttemptsClosedMore(before: Db, mid: Tasks, midAttempts: Attempts, now: Attempts, rest: set<Queue>, q: Queue)
    requires RowsRestarted(before.tasks, mid, rest) && AttemptsClosed(before, midAttempts, rest) && q in rest
    requires BlockClosed(mid, midAttempts, now, RunningBlock(before.tasks, q))
    ensures AttemptsClosed(before, now, rest - {q})
  {
    forall e: (TaskId, nat) ensures AttemptClosed(before, now, rest - {q}, e) {
      ClosesIs(before, mid, rest, q, e);
      assert AttemptClosed(before, midAttempts, rest, e);
    }
  }

  lemma ClosesIs(before: Db, mid: Tasks, rest: set<Queue>, q: Queue, e: (TaskId, nat))
    requires RowsRestarted(before.tasks, mid, rest) && q in rest
    ensures Closes(mid, RunningBlock(before.tasks, q), e) <==>
            e.0 in RunningIds(before.tasks, q) && e.1 == AttemptNo(before.tasks[e.0])
  {
    assert e.0 in RunningBlock(before.tasks, q) <==> e.0 in RunningIds(before.tasks, q);
  }

  lemma RowsRestartedAll(before: Db, now: Tasks)
    requires RowsRestarted(before.tasks, now, {})
    ensures now == TaskModel.RequeueRunningTasks(before).tasks
  {}

  lemma AttemptsClosedAll(before: Db, now: Attempts)
    requires AttemptsClosed(before, now, {})
    ensures now == TaskModel.RequeueRunningTasks(before).attempts
  {
    var spec := TaskModel.RequeueRunningTasks(before).attempts;
    forall e: (TaskId, nat)
      ensures e in now <==> e in spec
      ensures e in now ==> now[e] == spec[e]
    {
      assert AttemptClosed(before, now, {}, e);
      if Handled(before.tasks, e.0, {}) && e.1 == AttemptNo(before.tasks[e.0]) {
        assert e == (e.0, AttemptNo(before.tasks[e.0]));
      }
    }
  }

  class Database {
    var tasks: Tasks
    var deps: Graph
    var attempts: Attempts
    var nextId: TaskId

    function State(): Db
      reads this
    {
      Db(tasks, deps, attempts, nextId)
    }

    ghost predicate Valid()
      reads this
    {
      TaskRuns.Valid(State())
    }

    constructor ()
      ensures State() == EMPTY && Valid()
    {
      tasks, deps, attempts, nextId := map[], {}, map[], 1;
      new;
      TaskRuns.EmptyIsValid();
    }

    // ---------- Queries ----------

    method ListQueue(q: Queue) returns (s: seq<TaskId>)
      ensures s == Reading(tasks, q)
    {
      s := SelectOrdered(QueueIds(tasks, q), RankKeys(tasks));
    }

    /** Urgent tasks first, then normal ones. */
    method ListQueuedTasks() returns (s: seq<TaskId>)
      ensures s == Reading(tasks, UrgentQueue) + Reading(tasks, NormalQueue)
    {
      var urgent := ListQueue(UrgentQueue);
      var normal := ListQueue(NormalQueue);
      s := urgent + normal;
    }

    method AreDependenciesSatisfied(id: TaskId) returns (r: bool)
      ensures r <==> DependenciesSatisfied(State(), id)
    {
      var total := set e | e in deps && e.0 == id && e.1 in tasks;
      var satisfied := set e | e in total && tasks[e.1].status == Succeeded;
      r := |total| == 0 || |total| == |satisfied|;
      CountingDecides(State(), id, total, satisfied);
    }

    method NextQueueRank(q: Queue) returns (r: int)
      ensures r == NextRank(tasks, q)
    {
      var rest := QueueIds(tasks, q);
      if rest == {} {
        EmptyReading(tasks, q);
        return 1;
      }
      var first :| first in rest;
      var most := RankOf(tasks[first]);
      while rest != {}
        invariant rest <= QueueIds(tasks, q)
        invariant exists id :: id in QueueIds(tasks, q) && RankOf(tasks[id]) == most
        invariant forall id | id in QueueIds(tasks, q) - rest :: RankOf(tasks[id]) <= most
        decreases rest
      {
        var id :| id in rest;
        if RankOf(tasks[id]) > most {
          most := RankOf(tasks[id]);
        }
        rest := rest - {id};
      }
      GreatestRankIsNext(tasks, q, most);
      return most + 1;
    }

    /** The rank n places before the head of q. */
    method HeadQueueRank(q: Queue, n: nat) returns (r: int)
      ensures r == HeadRank(tasks, q, n)
    {
      var rest := QueueIds(tasks, q);
      if rest == {} {
        EmptyReading(tasks, q);
        return 1;
      }
      var first :| first in rest;
      var least := RankOf(tasks[first]);
      while rest != {}
        invariant rest <= QueueIds(tasks, q)
        invariant exists id :: id in QueueIds(tasks, q) && RankOf(tasks[id]) == least
        invariant forall id | id in QueueIds(tasks, q) - rest :: least <= RankOf(tasks[id])
        decreases rest
      {
        var id :| id in rest;
        if RankOf(tasks[id]) < least {
          least := RankOf(tasks[id]);
        }
        rest := rest - {id};
      }
      LeastRankIsHead(tasks, q, least, n);
      return least - n;
    }

    // ---------- Dependencies ----------

    /** The request without repetitions, unless it names the task itself. */
    method NormalizeDependencyIds(id: TaskId, ds: seq<TaskId>) returns (error: Option<Error>, normalized: seq<TaskId>)
      ensures error == if id in ds then Some(DependsOnSelf) else None
      ensures error.None? ==> Distinct(normalized) && forall x :: x in normalized <==> x in ds
    {
      normalized := [];
      for i := 0 to |ds|
        invariant id !in ds[..i] && Distinct(normalized)
        invariant forall x :: x in normalized <==> x in ds[..i]
      {
        assert ds[..i + 1] == ds[..i] + [ds[i]];
        if ds[i] == id {
          return Some(DependsOnSelf), normalized;
        }
        if ds[i] !in normalized {
          normalized := normalized + [ds[i]];
        }
      }
      assert ds[..|ds|] == ds;
      return None, normalized;
    }

    method CheckDependencies(id: TaskId, ds: seq<TaskId>) returns (error: Option<Error>, normalized: seq<TaskId>)
      ensures error == DependencyError(State(), id, ds)
      ensures error.None? ==> Distinct(normalized) && forall x :: x in normalized <==> x in ds
    {
      error, normalized := NormalizeDependencyIds(id, ds);
      if error.Some? {
        return;
      }
      if id !in tasks {
        return Some(NotFound), normalized;
      }
      for i := 0 to |normalized|
        invariant forall j | 0 <= j < i :: normalized[j] in tasks
      {
        if normalized[i] !in tasks {
          assert normalized[i] in ds;
          return Some(MissingDependency), normalized;
        }
      }
      var cycle := WouldCreateCycle(deps, id, normalized);
      if cycle {
        return Some(WouldCycle), normalized;
      }
    }

    /** A plain INSERT: one row that must not be there yet, as the primary key demands. */
    method InsertEdge(id: TaskId, d: TaskId)
      requires (id, d) !in deps
      modifies `deps
      ensures deps == old(deps) + {(id, d)}
    {
      deps := deps + {(id, d)};
    }

    method InsertNewEdges(id: TaskId, ds: seq<TaskId>)
      requires Distinct(ds) && forall d | d in ds :: (id, d) !in deps
      modifies `deps
      ensures deps == old(deps) + Star(id, ds)
    {
      for i := 0 to |ds|
        invariant deps == old(deps) + Star(id, ds[..i])
      {
        assert ds[..i + 1] == ds[..i] + [ds[i]] && ds[i] !in ds[..i];
        InsertEdge(id, ds[i]);
      }
      assert ds[..|ds|] == ds;
    }

    /** INSERT OR IGNORE. */
    method InsertEdges(id: TaskId, ds: seq<TaskId>)
      modifies `deps
      ensures deps == old(deps) + Star(id, ds)
    {
      for i := 0 to |ds|
        invariant deps == old(deps) + Star(id, ds[..i])
      {
        assert ds[..i + 1] == ds[..i] + [ds[i]];
        deps := deps + {(id, ds[i])};
      }
      assert ds[..|ds|] == ds;
    }

    method AddDependencies(id: TaskId, ds: seq<TaskId>) returns (error: Option<Error>)
      modifies `deps
      ensures var o := TaskModel.AddDependencies(old(State()), id, ds);
              if error.Some? then o == Rejected(error.value) && State() == old(State())
              else o == Ok(State())
      ensures error.None? ==> forall e :: e in deps <==> e in old(deps) || (e.0 == id && e.1 in ds)
    {
      if ds == [] {
        return None;
      }
      var normalized;
      error, normalized := CheckDependencies(id, ds);
      if error.None? {
        InsertEdges(id, normalized);
        SameMembersSameStar(id, ds, normalized);
      }
    }

    method ReplaceDependencies(id: TaskId, ds: seq<TaskId>) returns (error: Option<Error>)
      modifies `deps
      ensures var o := TaskModel.ReplaceDependencies(old(State()), id, ds);
              if error.Some? then o == Rejected(error.value) && State() == old(State())
              else o == Ok(State())
      ensures error.None? ==> forall e :: e in deps <==> (e in old(deps) && e.0 != id) || (e.0 == id && e.1 in ds)
    {
      var normalized;
      error, normalized := CheckDependencies(id, ds);
      if error.None? {
        deps := WithoutSource(deps, id);
        InsertNewEdges(id, normalized);
        SameMembersSameStar(id, ds, normalized);
      }
    }

    method RemoveDependencies(id: TaskId, ds: Option<seq<TaskId>>)
      modifies `deps
      ensures State() == TaskModel.RemoveDependencies(old(State()), id, ds)
      ensures forall e :: e in deps <==> e in old(deps) && !(e.0 == id && (ds.Some? ==> e.1 in ds.value))
    {
      if ds.None? {
        deps := WithoutSource(deps, id);
      } else {
        for i := 0 to |ds.value|
          invariant deps == set e | e in old(deps) && !(e.0 == id && e.1 in ds.value[..i])
        {
          assert ds.value[..i + 1] == ds.value[..i] + [ds.value[i]];
          deps := deps - {(id, ds.value[i])};
        }
        assert ds.value[..|ds.value|] == ds.value;
      }
    }

    // ---------- Waiting tasks ----------

    method InsertTask(q: Queue, need: Need, now: int) returns (id: TaskId)
      modifies `tasks, `nextId
      ensures id == old(nextId)
      ensures State() == Inserted(old(State()), NewTask(old(State()), q, need, now))
    {
      var rank := NextQueueRank(q);
      id := nextId;
      tasks := tasks[id := Task(StatusFor(q), q, Some(rank), None, now, None, 0, None, need)];
      nextId := id + 1;
    }

    method CreateTask(q: Queue, need: Need, now: int, ds: Option<seq<TaskId>>) returns (error: Option<Error>)
      requires Valid()
      modifies this
      ensures Valid()
      ensures var o := TaskModel.CreateTask(old(State()), q, need, now, ds);
              if error.Some? then o == Rejected(error.value) && State() == old(State())
              else o == Ok(State())
      ensures error.None? ==> forall e :: e in deps <==>
                e in old(deps) || (ds.Some? && e.0 == old(nextId) && e.1 in ds.value)
    {
      assert forall e | e in deps :: e.0 in tasks && e.0 != nextId;
      TaskRuns.CreateKeepsValid(State(), q, need, now, ds);
      var saved, savedId := tasks, nextId;
      var id := InsertTask(q, need, now);
      error := None;
      if ds.Some? {
        error := ReplaceDependencies(id, ds.value);
        if error.Some? {
          // The transaction is rolled back.
          tasks, nextId := saved, savedId;
        }
      }
    }

    method UpdateQueuedTask(id: TaskId, q: Queue, need: Need, ds: Option<seq<TaskId>>) returns (error: Option<Error>)
      requires Valid()
      modifies this
      ensures Valid()
      ensures var o := TaskModel.UpdateQueuedTask(old(State()), id, q, need, ds);
              if error.Some? then o == Rejected(error.value) && State() == old(State())
              else o == Ok(State())
      ensures error.None? ==> forall e :: e in deps <==>
                (e in old(deps) && (ds.Some? ==> e.0 != id)) || (ds.Some? && e.0 == id && e.1 in ds.value)
    {
      ghost var before := State();
      if id !in tasks || !Waiting(tasks[id]) {
        return Some(NotWaiting);
      }
      var row, saved := tasks[id], tasks;
      var rank := row.rank;
      if !(row.queue == q && row.status == StatusFor(q) && row.rank.Some?) {
        var next := NextQueueRank(q);
        rank := Some(next);
      }
      tasks := tasks[id := row.(status := StatusFor(q), queue := q, rank := rank, need := need, nextRetryAt := None)];
      error := None;
      if ds.Some? {
        error := ReplaceDependencies(id, ds.value);
        if error.Some? {
          tasks := saved;
        }
      }
      TaskRuns.UpdateKeepsValid(before, id, q, need, ds);
    }

    method MoveTaskToQueue(id: TaskId, q: Queue) returns (error: Option<Error>)
      requires Valid()
      modifies this
      ensures Valid()
      ensures var o := TaskModel.MoveTaskToQueue(old(State()), id, q);
              if error.Some? then o == Rejected(error.value) && State() == old(State())
              else o == Ok(State())
    {
      ghost var before := State();
      if id !in tasks {
        return Some(NotFound);
      }
      var row := tasks[id];
      if !Waiting(row) {
        return Some(NotWaiting);
      }
      var rank := row.rank;
      if !(row.status == StatusFor(q) && row.queue == q && row.rank.Some?) {
        var next := NextQueueRank(q);
        rank := Some(next);
      }
      tasks := tasks[id := row.(status := StatusFor(q), queue := q, rank := rank, assignedGpu := None, nextRetryAt := None)];
      TaskRuns.MoveKeepsValid(before, id, q);
      return None;
    }

    /** The request must list the queue's tasks, all of them and no others. */
    method CheckReorder(ids: seq<TaskId>, q: Queue) returns (ok: bool)
      ensures ok <==> SameMembers(Reading(tasks, q), ids)
    {
      var current := ListQueue(q);
      if current == ids {
        return true;
      }
      var currentIds, requestedIds := set x | x in current, set x | x in ids;
      assert forall x :: x in current <==> x in currentIds;
      assert forall x :: x in ids <==> x in requestedIds;
      ok := currentIds == requestedIds && |current| == |ids|;
    }

    /** Rank i + 1 for the i-th task of the request. */
    method AssignRanks(ids: seq<TaskId>, q: Queue)
      requires Distinct(ids) && forall x | x in ids :: x in tasks && InQueue(tasks[x], q)
      modifies `tasks
      ensures tasks == Ranked(old(tasks), q, ids)
    {
      for idx := 0 to |ids|
        invariant RanksAssigned(old(tasks), tasks, ids, idx)
      {
        var id := ids[idx];
        RanksAssignedMore(old(tasks), tasks, ids, idx);
        if InQueue(tasks[id], q) {
          tasks := tasks[id := tasks[id].(rank := Some(idx + 1))];
        }
      }
      RanksAssignedAll(old(tasks), tasks, q, ids);
    }

    method ReorderQueue(ids: seq<TaskId>, q: Queue) returns (error: Option<Error>)
      requires Valid()
      modifies this
      ensures Valid()
      ensures var o := TaskModel.ReorderQueue(old(State()), ids, q);
              if error.Some? then o == Rejected(error.value) && State() == old(State())
              else o == Ok(State())
    {
      ghost var before := State();
      var ok := CheckReorder(ids, q);
      if !ok {
        return Some(BadPermutation);
      }
      TaskQueues.ReadingMembers(tasks, q);
      TaskQueues.SameMembersIsPermutation(Reading(tasks, q), ids);
      AssignRanks(ids, q);
      TaskRuns.ReorderKeepsValid(before, ids, q);
      return None;
    }

    method DeleteTask(id: TaskId) returns (error: Option<Error>)
      requires Valid()
      modifies this
      ensures Valid()
      ensures var o := TaskModel.DeleteTask(old(State()), id);
              if error.Some? then o == Rejected(error.value) && State() == old(State())
              else o == Ok(State())
    {
      ghost var before := State();
      if id !in tasks {
        return Some(NotFound);
      }
      if tasks[id].status == Running {
        return Some(StillRunning);
      }
      deps := set e | e in deps && e.0 != id && e.1 != id;
      attempts := map e | e in attempts && e.0 != id :: attempts[e];
      tasks := tasks - {id};
      TaskRuns.DeleteKeepsValid(before, id);
      return None;
    }

    method CloneTaskForRequeue(id: TaskId, now: int) returns (error: Option<Error>)
      requires Valid()
      modifies this
      ensures Valid()
      ensures var o := TaskModel.CloneTaskForRequeue(old(State()), id, now);
              if error.Some? then o == Rejected(error.value) && State() == old(State())
              else o == Ok(State())
    {
      if id !in tasks {
        return Some(NotFound);
      }
      if tasks[id].status !in {Failed, Cancelled, Interrupted} {
        return Some(NotTerminal);
      }
      error := CreateTask(tasks[id].queue, tasks[id].need, now, None);
    }

    // ---------- Running and ending: called by the launcher and by watchers ----------

    method UpsertAttempt(id: TaskId, attempt: nat, status: AttemptStatus)
      modifies `attempts
      ensures attempts == old(attempts)[(id, attempt) := status]
    {
      attempts := attempts[(id, attempt) := status];
    }

    method MarkTaskRunning(id: TaskId, gpu: nat, now: int) returns (error: Option<Error>)
      requires Valid()
      modifies this
      ensures old(TaskRuns.IsQueued(State(), id)) ==> Valid()
      ensures var o := TaskModel.MarkTaskRunning(old(State()), id, gpu, now);
              if error.Some? then o == Rejected(error.value) && State() == old(State())
              else o == Ok(State())
    {
      ghost var before := State();
      if id in tasks && tasks[id].status == Queued {
        var row := tasks[id];
        tasks := tasks[id := row.(status := Running, rank := None, assignedGpu := Some(gpu),
        startedAt := Some(now), nextRetryAt := None, attemptCount := row.attemptCount + 1)];
      }
      if id !in tasks {
        return Some(NotFound);
      }
      UpsertAttempt(id, AttemptNo(tasks[id]), AttemptRunning);
      assert tasks == before.tasks[id := tasks[id]];
      if TaskRuns.IsQueued(before, id) {
        TaskRuns.LaunchKeepsValid(before, id, gpu, now);
      }
      return None;
    }

    method FinishTask(id: TaskId, status: Status) returns (error: Option<Error>)
      requires Valid()
      modifies this
      ensures old(TaskRuns.IsRunning(State(), id)) && status in {Succeeded, Failed, Cancelled} ==> Valid()
      ensures var o := TaskModel.FinishTask(old(State()), id, status);
              if error.Some? then o == Rejected(error.value) && State() == old(State())
              else o == Ok(State())
    {
      ghost var before := State();
      if id !in tasks {
        return Some(NotFound);
      }
      tasks := tasks[id := tasks[id].(status := status)];
      UpsertAttempt(id, AttemptNo(tasks[id]), AttemptEnded(status));
      if TaskRuns.IsRunning(before, id) && status in {Succeeded, Failed, Cancelled} {
        TaskRuns.FinishKeepsValid(before, id, status);
      }
      return None;
    }

    method MarkTaskLaunchFailed(id: TaskId, attempt: Option<nat>) returns (found: bool)
      requires Valid()
      modifies this
      ensures found == (id in old(tasks))
      ensures State() == TaskModel.MarkTaskLaunchFailed(old(State()), id, attempt)
      ensures old(TaskRuns.IsQueued(State(), id)) && attempt == Some(old(tasks)[id].attemptCount + 1) ==> Valid()
    {
      ghost var before := State();
      if id in tasks {
        var row := tasks[id];
        var a := if attempt.Some? then attempt.value else 1;
        tasks := tasks[id := row.(status := Failed, rank := None,
        attemptCount := if row.attemptCount < a then a else row.attemptCount)];
      }
      if attempt.Some? {
        UpsertAttempt(id, attempt.value, AttemptEnded(Failed));
      }
      if TaskRuns.IsQueued(before, id) && attempt == Some(before.tasks[id].attemptCount + 1) {
        TaskRuns.FailedLaunchKeepsValid(before, id);
      }
      found := id in tasks;
    }

    method ScheduleTaskRetry(id: TaskId, nextRetryAt: int) returns (error: Option<Error>)
      requires Valid()
      modifies this
      ensures old(TaskRuns.IsRunning(State(), id)) ==> Valid()
      ensures var o := TaskModel.ScheduleTaskRetry(old(State()), id, nextRetryAt);
              if error.Some? then o == Rejected(error.value) && State() == old(State())
              else o == Ok(State())
    {
      ghost var before := State();
      if id !in tasks {
        return Some(NotFound);
      }
      var rank := HeadQueueRank(tasks[id].queue, 1);
      tasks := tasks[id := tasks[id].(status := Queued, rank := Some(rank), assignedGpu := None,
      nextRetryAt := Some(nextRetryAt))];
      UpsertAttempt(id, AttemptNo(tasks[id]), RetryScheduled);
      if TaskRuns.IsRunning(before, id) {
        TaskRuns.RetryKeepsValid(before, id, nextRetryAt);
      }
      return None;
    }

    method PreemptRunningTask(id: TaskId, q: Queue) returns (error: Option<Error>)
      requires Valid()
      modifies this
      ensures q == NormalQueue ==> Valid()
      ensures var o := TaskModel.PreemptRunningTask(old(State()), id, q);
              if error.Some? then o == Rejected(error.value) && State() == old(State())
              else o == Ok(State())
    {
      ghost var before := State();
      var rank := HeadQueueRank(q, 1);
      if id !in tasks || tasks[id].status != Running {
        return Some(NotRunning);
      }
      tasks := tasks[id := tasks[id].(status := Queued, rank := Some(rank), assignedGpu := None,
      startedAt := None, nextRetryAt := None, queue := q)];
      UpsertAttempt(id, AttemptNo(tasks[id]), AttemptPreempted);
      assert State() == TaskModel.PreemptRunningTask(before, id, q).db;
      if q == NormalQueue {
        TaskRuns.PreemptKeepsValid(before, id);
      }
      return None;
    }

    method RequeueRunningTask(id: TaskId, queue: Option<Queue>) returns (error: Option<Error>)
      requires Valid()
      modifies this
      ensures Valid()
      ensures var o := TaskModel.RequeueRunningTask(old(State()), id, queue);
              if error.Some? then o == Rejected(error.value) && State() == old(State())
              else o == Ok(State())
    {
      ghost var before := State();
      if id !in tasks && queue.None? {
        return Some(NotFound);
      }
      var q := if queue.Some? then queue.value else tasks[id].queue;
      var rank := HeadQueueRank(q, 1);
      if id !in tasks || tasks[id].status != Running {
        return Some(NotRunning);
      }
      tasks := tasks[id := tasks[id].(status := StatusFor(q), rank := Some(rank), assignedGpu := None,
      startedAt := None, nextRetryAt := None, queue := q)];
      UpsertAttempt(id, AttemptNo(tasks[id]), InterruptedRequeued);
      assert State() == TaskModel.RequeueRunningTask(before, id, queue).db;
      TaskRuns.InterruptKeepsValid(before, id, queue);
      return None;
    }

    // ---------- Restart ----------

    /** The running rows in start order, grouped by queue name. */
    method GroupRunning() returns (groups: map<Queue, seq<TaskId>>, count: nat)
      ensures count == |AllRunning(tasks)|
      ensures forall q :: RunningBlock(tasks, q) == GroupOf(groups, q)
      ensures forall id | id in tasks && tasks[id].status == Running :: tasks[id].queue in groups
    {
      var running := AllRunning(tasks);
      count := |running|;
      var rows := SelectOrdered(running, StartKeys(tasks));
      groups := map[];
      for i := 0 to |rows|
        invariant Grouped(tasks, rows[..i], groups)
      {
        assert rows[i] in running;
        GroupedMore(tasks, rows, i, groups);
        var q := tasks[rows[i]].queue;
        groups := groups[q := GroupOf(groups, q) + [rows[i]]];
      }
      assert rows[..|rows|] == rows;
      GroupedAll(tasks, rows, groups);
    }

    /** Queue the running tasks of one block, in order, before the head of q. */
    method PrependBlock(q: Queue, block: seq<TaskId>)
      requires Distinct(block) && forall x | x in block :: x in tasks
      modifies `tasks, `attempts
      ensures BlockRows(old(tasks), tasks, block, HeadRank(old(tasks), q, |block|), q)
      ensures BlockClosed(old(tasks), old(attempts), attempts, block)
    {
      ghost var before, beforeAttempts := tasks, attempts;
      var base := HeadQueueRank(q, |block|);
      for offset := 0 to |block|
        invariant BlockRows(before, tasks, block[..offset], base, q)
        invariant BlockClosed(before, beforeAttempts, attempts, block[..offset])
      {
        var id := block[offset];
        assert id in before;
        BlockRowsMore(before, tasks, block, offset, base, q);
        BlockClosedMore(before, beforeAttempts, attempts, block, offset);
        tasks := tasks[id := tasks[id].(status := Queued, rank := Some(base + offset), assignedGpu := None,
        startedAt := None, nextRetryAt := None, queue := q)];
        UpsertAttempt(id, AttemptNo(tasks[id]), InterruptedRequeued);
      }
      assert block[..|block|] == block;
    }

    /** One queue name's share of the restart. */
    method RestartQueue(q: Queue, block: seq<TaskId>, ghost before: Db, ghost rest: set<Queue>)
      requires q in rest && block == RunningBlock(before.tasks, q)
      requires RowsRestarted(before.tasks, tasks, rest) && AttemptsClosed(before, attempts, rest)
      modifies `tasks, `attempts
      ensures RowsRestarted(before.tasks, tasks, rest - {q}) && AttemptsClosed(before, attempts, rest - {q})
    {
      assert forall x | x in block :: x in RunningIds(before.tasks, q);
      ListingDistinct(block, RunningIds(before.tasks, q), StartKeys(before.tasks));
      HeadUnmoved(before.tasks, tasks, rest, q, |block|);
      PrependBlock(q, block);
      RowsRestartedMore(before.tasks, old(tasks), tasks, rest, q);
      AttemptsClosedMore(before, old(tasks), old(attempts), attempts, rest, q);
    }

    /** Startup: every task left running goes back to the head of its queue. */
    method RequeueRunningTasks() returns (count: nat)
      requires Valid()
      modifies this
      ensures Valid()
      ensures count == |AllRunning(old(tasks))|
      ensures State() == TaskModel.RequeueRunningTasks(old(State()))
    {
      ghost var before := State();
      var groups;
      groups, count := GroupRunning();
      var rest := groups.Keys;
      while rest != {}
        invariant rest <= groups.Keys && deps == before.deps && nextId == before.nextId
        invariant RowsRestarted(before.tasks, tasks, rest)
        invariant AttemptsClosed(before, attempts, rest)
        decreases rest
      {
        var q :| q in rest;
        RestartQueue(q, groups[q], before, rest);
        rest := rest - {q};
      }
      RowsRestartedAll(before, tasks);
      AttemptsClosedAll(before, attempts);
      TaskRuns.RestartKeepsValid(before);
    }
  }
}
