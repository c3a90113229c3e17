/** Integer ranks behave like plain sequences: what every operation does to the order of every
    queue, read by (rank, id). */
module TaskQueues {
  import opened DependencyGraph
  import opened Options
  import opened Ordering
  import opened TaskModel

  // ---------- What holds of every reachable table ----------

  ghost predicate TaskOk(t: Task) {
    && (t.rank.Some? <==> Waiting(t))
    && (t.status == Staged <==> t.queue == StagedQueue)
    && (t.status == Running ==> t.attemptCount >= 1 && t.assignedGpu.Some?)
  }

  ghost predicate TasksOk(tasks: Tasks) {
    forall id | id in tasks :: TaskOk(tasks[id])
  }

  ghost predicate RanksDistinct(tasks: Tasks) {
    forall a, b | a in tasks && b in tasks && a != b && Waiting(tasks[a]) && Waiting(tasks[b])
      && tasks[a].queue == tasks[b].queue :: tasks[a].rank != tasks[b].rank
  }

  // ---------- Reading after one row changes ----------

  lemma ReadingIs(tasks: Tasks, q: Queue, s: seq<TaskId>)
    requires Listing(s, QueueIds(tasks, q), RankKeys(tasks))
    ensures Reading(tasks, q) == s
  {
    SortedIs(s, QueueIds(tasks, q), RankKeys(tasks));
  }

  lemma ListingUnderKeys(s: seq<nat>, ids: set<nat>, key: Keys, key': Keys)
    requires Listing(s, ids, key) && ids <= key'.Keys
    requires forall x | x in ids :: key[x] == key'[x]
    ensures Listing(s, ids, key')
  {
    forall i, j | 0 <= i < j < |s| ensures Before(key', s[i], s[j]) {
      assert s[i] in ids && s[j] in ids && Before(key, s[i], s[j]);
    }
  }

  /** A row that leaves queue q, or was never in it, and does not return. */
  lemma ReadingWithout(tasks: Tasks, tasks': Tasks, id: TaskId, q: Queue)
    requires forall x | x != id :: (x in tasks <==> x in tasks') && (x in tasks ==> tasks'[x] == tasks[x])
    requires id !in tasks' || !InQueue(tasks'[id], q)
    ensures Reading(tasks', q) == Without(Reading(tasks, q), id)
  {
    var r := Reading(tasks, q);
    ListingWithout(r, QueueIds(tasks, q), RankKeys(tasks), id);
    assert QueueIds(tasks', q) == QueueIds(tasks, q) - {id};
    ListingUnderKeys(Without(r, id), QueueIds(tasks', q), RankKeys(tasks), RankKeys(tasks'));
    ReadingIs(tasks', q, Without(r, id));
  }

  /** A row written into queue q: the others stay listed in order under the new keys. */
  lemma OthersListed(tasks: Tasks, id: TaskId, t: Task, q: Queue) returns (others: seq<TaskId>)
    requires InQueue(t, q)
    ensures others == Without(Reading(tasks, q), id)
    ensures Listing(others, QueueIds(tasks, q) - {id}, RankKeys(tasks[id := t]))
    ensures QueueIds(tasks[id := t], q) == QueueIds(tasks, q) - {id} + {id}
  {
    others := Without(Reading(tasks, q), id);
    ListingWithout(Reading(tasks, q), QueueIds(tasks, q), RankKeys(tasks), id);
    ListingUnderKeys(others, QueueIds(tasks, q) - {id}, RankKeys(tasks), RankKeys(tasks[id := t]));
  }

  lemma ListingThen(s: seq<nat>, ids: set<nat>, key: Keys, x: nat)
    requires Listing(s, ids, key) && x !in ids && x in key
    requires forall y | y in ids :: key[y] < key[x]
    ensures Listing(s + [x], ids + {x}, key)
  {
    assert forall i | 0 <= i < |s| :: s[i] in ids;
  }

  lemma ListingAfter(s: seq<nat>, ids: set<nat>, key: Keys, x: nat)
    requires Listing(s, ids, key) && x !in ids && x in key
    requires forall y | y in ids :: key[x] < key[y]
    ensures Listing([x] + s, ids + {x}, key)
  {
    assert forall i | 0 <= i < |s| :: s[i] in ids;
  }

  lemma ReadingWithLast(tasks: Tasks, id: TaskId, t: Task, q: Queue)
    requires InQueue(t, q)
    requires forall x | x in QueueIds(tasks, q) && x != id :: RankOf(tasks[x]) < RankOf(t)
    ensures Reading(tasks[id := t], q) == Without(Reading(tasks, q), id) + [id]
  {
    var others := OthersListed(tasks, id, t, q);
    ListingThen(others, QueueIds(tasks, q) - {id}, RankKeys(tasks[id := t]), id);
    ReadingIs(tasks[id := t], q, others + [id]);
  }

  lemma ReadingWithFirst(tasks: Tasks, id: TaskId, t: Task, q: Queue)
    requires InQueue(t, q)
    requires forall x | x in QueueIds(tasks, q) && x != id :: RankOf(t) < RankOf(tasks[x])
    ensures Reading(tasks[id := t], q) == [id] + Without(Reading(tasks, q), id)
  {
    var others := OthersListed(tasks, id, t, q);
    ListingAfter(others, QueueIds(tasks, q) - {id}, RankKeys(tasks[id := t]), id);
    ReadingIs(tasks[id := t], q, [id] + others);
  }

  lemma ReadingSame(tasks: Tasks, tasks': Tasks, q: Queue)
    requires QueueIds(tasks', q) == QueueIds(tasks, q)
    requires forall x | x in QueueIds(tasks, q) :: RankOf(tasks'[x]) == RankOf(tasks[x])
    ensures Reading(tasks', q) == Reading(tasks, q)
  {
    ListingUnderKeys(Reading(tasks, q), QueueIds(tasks, q), RankKeys(tasks), RankKeys(tasks'));
    ReadingIs(tasks', q, Reading(tasks, q));
  }

  lemma NextRankIsAbove(tasks: Tasks, q: Queue)
    ensures forall x | x in QueueIds(tasks, q) :: RankOf(tasks[x]) < NextRank(tasks, q)
  {
    var r, key := Reading(tasks, q), RankKeys(tasks);
    forall x | x in QueueIds(tasks, q) ensures RankOf(tasks[x]) < NextRank(tasks, q) {
      assert x in r;
      var i :| 0 <= i < |r| && r[i] == x;
      assert i < |r| - 1 ==> Before(key, r[i], r[|r| - 1]);
    }
  }

  lemma HeadRankIsBelow(tasks: Tasks, q: Queue, n: nat)
    ensures forall x | x in QueueIds(tasks, q) :: HeadRank(tasks, q, n) + n <= RankOf(tasks[x])
  {
    var r, key := Reading(tasks, q), RankKeys(tasks);
    forall x | x in QueueIds(tasks, q) ensures HeadRank(tasks, q, n) + n <= RankOf(tasks[x]) {
      assert x in r;
      var i :| 0 <= i < |r| && r[i] == x;
      assert 0 < i ==> Before(key, r[0], r[i]);
    }
  }

  lemma ReadingMembers(tasks: Tasks, q: Queue)
    ensures forall x :: x in Reading(tasks, q) <==> x in tasks && InQueue(tasks[x], q)
    ensures Distinct(Reading(tasks, q))
  {
    ListingDistinct(Reading(tasks, q), QueueIds(tasks, q), RankKeys(tasks));
    assert forall x :: x in QueueIds(tasks, q) <==> x in tasks && InQueue(tasks[x], q);
  }

  // ---------- Sending one row to the end or to the head ----------

  ghost function Appended(r: seq<TaskId>, id: TaskId): seq<TaskId> {
    Without(r, id) + [id]
  }

  ghost function Prepended(r: seq<TaskId>, id: TaskId): seq<TaskId> {
    [id] + Without(r, id)
  }

  lemma SendToEnd(tasks: Tasks, id: TaskId, t: Task, q: Queue, k: Queue)
    requires InQueue(t, q) && t.rank == Some(NextRank(tasks, q))
    ensures Reading(tasks[id := t], k) ==
            if k == q then Appended(Reading(tasks, k), id) else Without(Reading(tasks, k), id)
  {
    ReadingMembers(tasks, k);
    if k == q {
      NextRankIsAbove(tasks, q);
      ReadingWithLast(tasks, id, t, q);
    } else {
      ReadingWithout(tasks, tasks[id := t], id, k);
    }
  }

  lemma SendToHead(tasks: Tasks, id: TaskId, t: Task, q: Queue, k: Queue)
    requires InQueue(t, q) && t.rank == Some(HeadRank(tasks, q, 1))
    ensures Reading(tasks[id := t], k) ==
            if k == q then Prepended(Reading(tasks, k), id) else Without(Reading(tasks, k), id)
  {
    ReadingMembers(tasks, k);
    if k == q {
      HeadRankIsBelow(tasks, q, 1);
      ReadingWithFirst(tasks, id, t, q);
    } else {
      ReadingWithout(tasks, tasks[id := t], id, k);
    }
  }

  lemma NoOp(r: seq<TaskId>, id: TaskId)
    requires id !in r
    ensures Without(r, id) == r
  {}

  // ---------- Every operation as an operation on sequences ----------

  lemma CreateAppends(db: Db, q: Queue, need: Need, now: int, ds: Option<seq<TaskId>>, k: Queue)
    requires db.nextId !in db.tasks
    ensures var o := CreateTask(db, q, need, now, ds);
            o.Ok? ==> Reading(o.db.tasks, k) == Reading(db.tasks, k) + if k == q then [db.nextId] else []
  {
    var id := db.nextId;
    SendToEnd(db.tasks, id, NewTask(db, q, need, now), q, k);
    ReadingMembers(db.tasks, k);
    NoOp(Reading(db.tasks, k), id);
  }

  /** Staying in a queue keeps the place; changing queue removes and appends. */
  ghost function Kept(tasks: Tasks, id: TaskId, q: Queue, k: Queue): seq<TaskId> {
    if id in tasks && InQueue(tasks[id], q) then Reading(tasks, k)
    else if k == q then Reading(tasks, k) + [id]
    else Without(Reading(tasks, k), id)
  }

  lemma KeepOrAppend(tasks: Tasks, id: TaskId, t: Task, q: Queue, k: Queue)
    requires TasksOk(tasks) && id in tasks
    requires InQueue(t, q) && t.rank == RankIn(tasks, id, q)
    ensures Reading(tasks[id := t], k) == Kept(tasks, id, q, k)
  {
    assert TaskOk(tasks[id]);
    if InQueue(tasks[id], q) {
      assert QueueIds(tasks[id := t], k) == QueueIds(tasks, k);
      ReadingSame(tasks, tasks[id := t], k);
    } else {
      SendToEnd(tasks, id, t, q, k);
      ReadingMembers(tasks, k);
      if k == q { NoOp(Reading(tasks, k), id); }
    }
  }

  lemma UpdateKeepsOrAppends(db: Db, id: TaskId, q: Queue, need: Need, ds: Option<seq<TaskId>>, k: Queue)
    requires TasksOk(db.tasks)
    ensures var o := UpdateQueuedTask(db, id, q, need, ds);
            o.Ok? ==> id in db.tasks && Reading(o.db.tasks, k) == Kept(db.tasks, id, q, k)
  {
    if id in db.tasks && Waiting(db.tasks[id]) {
      var t := db.tasks[id].(status := StatusFor(q), queue := q, rank := RankIn(db.tasks, id, q),
      need := need, nextRetryAt := None);
      KeepOrAppend(db.tasks, id, t, q, k);
    }
  }

  lemma MoveKeepsOrAppends(db: Db, id: TaskId, q: Queue, k: Queue)
    requires TasksOk(db.tasks)
    ensures var o := MoveTaskToQueue(db, id, q);
            o.Ok? ==> id in db.tasks && Reading(o.db.tasks, k) == Kept(db.tasks, id, q, k)
  {
    if id in db.tasks && Waiting(db.tasks[id]) {
      var t := db.tasks[id].(status := StatusFor(q), queue := q, rank := RankIn(db.tasks, id, q),
      assignedGpu := None, nextRetryAt := None);
      KeepOrAppend(db.tasks, id, t, q, k);
    }
  }

  lemma {:induction false} OccursOnce(s: seq<TaskId>, x: TaskId)
    requires Distinct(s)
    ensures multiset(s)[x] == if x in s then 1 else 0
  {
    if s != [] {
      var n := |s| - 1;
      OccursOnce(s[..n], x);
      assert s == s[..n] + [s[n]];
    }
  }

  lemma DistinctIfOnce(s: seq<TaskId>)
    requires forall x :: multiset(s)[x] <= 1
    ensures Distinct(s)
  {
    forall i, j | 0 <= i < j < |s| ensures s[i] != s[j] {
      assert s == s[..j] + [s[j]] + s[j + 1..];
      assert s[i] in s[..j];
      assert multiset(s)[s[j]] == multiset(s[..j])[s[j]] + 1 + multiset(s[j + 1..])[s[j]];
    }
  }

  lemma SameSizeSubset(a: multiset<TaskId>, b: multiset<TaskId>)
    requires a <= b && |a| == |b|
    ensures a == b
  {
    assert b == a + (b - a);
  }

  /** The length-and-members test of the code is the permutation test. */
  lemma SameMembersIsPermutation(s: seq<TaskId>, t: seq<TaskId>)
    requires Distinct(s)
    ensures SameMembers(s, t) <==> multiset(s) == multiset(t)
    ensures SameMembers(s, t) ==> Distinct(t)
  {
    forall x { OccursOnce(s, x); }
    if SameMembers(s, t) {
      forall x ensures multiset(s)[x] <= multiset(t)[x] {
        assert x in s <==> x in t;
      }
      assert |multiset(s)| == |s| && |multiset(t)| == |t|;
      SameSizeSubset(multiset(s), multiset(t));
      DistinctIfOnce(t);
    } else if multiset(s) == multiset(t) {
      PermutationMembers(s, t);
    }
  }

  lemma PermutationMembers(s: seq<TaskId>, t: seq<TaskId>)
    requires multiset(s) == multiset(t)
    ensures SameMembers(s, t)
  {
    assert |multiset(s)| == |s| && |multiset(t)| == |t|;
    forall x ensures x in s <==> x in t {
      assert x in s <==> x in multiset(s);
      assert x in t <==> x in multiset(t);
    }
  }

  /** A reorder is accepted exactly for a permutation of the queue, and then the queue reads as
      asked; no other queue changes. */
  lemma ReorderIsExact(db: Db, ids: seq<TaskId>, q: Queue, k: Queue)
    ensures ReorderQueue(db, ids, q).Ok? <==> multiset(ids) == multiset(Reading(db.tasks, q))
    ensures var o := ReorderQueue(db, ids, q);
            o.Ok? ==> Reading(o.db.tasks, k) == if k == q then ids else Reading(db.tasks, k)
  {
    ReadingMembers(db.tasks, q);
    SameMembersIsPermutation(Reading(db.tasks, q), ids);
    if SameMembers(Reading(db.tasks, q), ids) {
      RankedReading(db.tasks, q, ids, k);
    }
  }

  lemma RankedReading(tasks: Tasks, q: Queue, ids: seq<TaskId>, k: Queue)
    requires Distinct(ids) && SameMembers(Reading(tasks, q), ids)
    ensures Reading(Ranked(tasks, q, ids), k) == if k == q then ids else Reading(tasks, k)
  {
    var tasks' := Ranked(tasks, q, ids);
    RankedQueueIds(tasks, q, ids, k);
    if k == q {
      RankedListing(tasks, q, ids);
      ReadingIs(tasks', q, ids);
    } else {
      ReadingSame(tasks, tasks', k);
    }
  }

  lemma RankedQueueIds(tasks: Tasks, q: Queue, ids: seq<TaskId>, k: Queue)
    ensures QueueIds(Ranked(tasks, q, ids), k) == QueueIds(tasks, k)
  {}

  lemma RankedListing(tasks: Tasks, q: Queue, ids: seq<TaskId>)
    requires Distinct(ids) && SameMembers(Reading(tasks, q), ids)
    ensures Listing(ids, QueueIds(tasks, q), RankKeys(Ranked(tasks, q, ids)))
  {
    assert forall x :: x in ids <==> x in QueueIds(tasks, q);
    var key := RankKeys(Ranked(tasks, q, ids));
    forall i, j | 0 <= i < j < |ids| ensures Before(key, ids[i], ids[j]) {
      IndexIs(ids, i);
      IndexIs(ids, j);
      assert ids[i] in QueueIds(tasks, q) && ids[j] in QueueIds(tasks, q);
    }
  }

  lemma IndexIs(s: seq<TaskId>, i: nat)
    requires Distinct(s) && i < |s|
    ensures IndexOf(s, s[i]) == i
  {}

  /** Launching, a failed launch and deletion take the task out of its queue. */
  lemma LaunchRemoves(db: Db, id: TaskId, gpu: nat, now: int, k: Queue)
    requires id in db.tasks && db.tasks[id].status == Queued
    ensures Reading(MarkTaskRunning(db, id, gpu, now).db.tasks, k) == Without(Reading(db.tasks, k), id)
  {
    ReadingWithout(db.tasks, MarkTaskRunning(db, id, gpu, now).db.tasks, id, k);
  }

  lemma FailedLaunchRemoves(db: Db, id: TaskId, attempt: Option<nat>, k: Queue)
    ensures Reading(MarkTaskLaunchFailed(db, id, attempt).tasks, k) == Without(Reading(db.tasks, k), id)
  {
    ReadingWithout(db.tasks, MarkTaskLaunchFailed(db, id, attempt).tasks, id, k);
  }

  lemma DeleteRemoves(db: Db, id: TaskId, k: Queue)
    ensures DeleteTask(db, id).Ok? ==>
              Reading(DeleteTask(db, id).db.tasks, k) == Without(Reading(db.tasks, k), id)
  {
    if DeleteTask(db, id).Ok? {
      ReadingWithout(db.tasks, DeleteTask(db, id).db.tasks, id, k);
    }
  }

  /** Ending a running task leaves every queue alone. */
  lemma FinishLeavesQueues(db: Db, id: TaskId, status: Status, k: Queue)
    requires id in db.tasks && db.tasks[id].status == Running
    requires status != Queued && status != Staged
    ensures Reading(FinishTask(db, id, status).db.tasks, k) == Reading(db.tasks, k)
  {
    ReadingWithout(db.tasks, FinishTask(db, id, status).db.tasks, id, k);
    ReadingMembers(db.tasks, k);
    NoOp(Reading(db.tasks, k), id);
  }

  /** Retry, preemption and interruption put a running task at the head of its target queue. */
  lemma RequeuePrepends(tasks: Tasks, id: TaskId, t: Task, q: Queue, k: Queue)
    requires id in tasks && tasks[id].status == Running
    requires InQueue(t, q) && t.rank == Some(HeadRank(tasks, q, 1))
    ensures Reading(tasks[id := t], k) == (if k == q then [id] else []) + Reading(tasks, k)
  {
    SendToHead(tasks, id, t, q, k);
    ReadingMembers(tasks, k);
    NoOp(Reading(tasks, k), id);
  }

  lemma RetryPrepends(db: Db, id: TaskId, nextRetryAt: int, k: Queue)
    requires TasksOk(db.tasks) && id in db.tasks && db.tasks[id].status == Running
    ensures Reading(ScheduleTaskRetry(db, id, nextRetryAt).db.tasks, k) ==
            (if k == db.tasks[id].queue then [id] else []) + Reading(db.tasks, k)
  {
    assert TaskOk(db.tasks[id]);
    RequeuePrepends(db.tasks, id, ScheduleTaskRetry(db, id, nextRetryAt).db.tasks[id], db.tasks[id].queue, k);
  }

  lemma PreemptPrepends(db: Db, id: TaskId, q: Queue, k: Queue)
    requires id in db.tasks && db.tasks[id].status == Running && q != StagedQueue
    ensures Reading(PreemptRunningTask(db, id, q).db.tasks, k) ==
            (if k == q then [id] else []) + Reading(db.tasks, k)
  {
    RequeuePrepends(db.tasks, id, PreemptRunningTask(db, id, q).db.tasks[id], q, k);
  }

  lemma InterruptPrepends(db: Db, id: TaskId, queue: Option<Queue>, k: Queue)
    requires id in db.tasks && db.tasks[id].status == Running
    ensures Reading(RequeueRunningTask(db, id, queue).db.tasks, k) ==
            (if k == (if queue.Some? then queue.value else db.tasks[id].queue) then [id] else [])
            + Reading(db.tasks, k)
  {
    var q := if queue.Some? then queue.value else db.tasks[id].queue;
    RequeuePrepends(db.tasks, id, RequeueRunningTask(db, id, queue).db.tasks[id], q, k);
  }

  // ---------- Restart ----------

  /** Restart puts the running tasks of each queue, as one block in start order, before the tasks
      already waiting there. */
  lemma RestartPrependsBlock(db: Db, k: Queue)
    requires TasksOk(db.tasks)
    ensures Reading(RequeueRunningTasks(db).tasks, k) == RunningBlock(db.tasks, k) + Reading(db.tasks, k)
  {
    var tasks, tasks' := db.tasks, RequeueRunningTasks(db).tasks;
    var block, r := RunningBlock(tasks, k), Reading(tasks, k);
    var key := RankKeys(tasks');
    assert forall x :: x in block <==> x in RunningIds(tasks, k);
    assert forall x :: x in r <==> x in QueueIds(tasks, k);
    RestartQueueIds(db, k);
    forall i | 0 <= i < |block|
      ensures block[i] in key && key[block[i]] == HeadRank(tasks, k, |block|) + i
    {
      assert block[i] in RunningIds(tasks, k);
      ListingDistinct(block, RunningIds(tasks, k), StartKeys(tasks));
      IndexIs(block, i);
    }
    HeadRankIsBelow(tasks, k, |block|);
    ListingUnderKeys(r, QueueIds(tasks, k), RankKeys(tasks), key);
    ListingJoin(block, r, RunningIds(tasks, k), QueueIds(tasks, k), key);
    ReadingIs(tasks', k, block + r);
  }

  lemma RestartQueueIds(db: Db, k: Queue)
    requires TasksOk(db.tasks)
    ensures QueueIds(RequeueRunningTasks(db).tasks, k) == RunningIds(db.tasks, k) + QueueIds(db.tasks, k)
    ensures RunningIds(db.tasks, k) !! QueueIds(db.tasks, k)
  {
    assert forall id | id in db.tasks :: TaskOk(db.tasks[id]);
  }

  lemma ListingJoin(s: seq<nat>, t: seq<nat>, a: set<nat>, b: set<nat>, key: Keys)
    requires (forall x :: x in s <==> x in a) && a <= key.Keys && Listing(t, b, key)
    requires forall i, j | 0 <= i < j < |s| :: Before(key, s[i], s[j])
    requires forall x, y | x in s && y in t :: key[x] < key[y]
    ensures Listing(s + t, a + b, key)
  {}
}
