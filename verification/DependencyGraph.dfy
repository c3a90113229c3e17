/** The task dependency relation and the cycle check that guards it.
    An edge (t, d) says that task t depends on task d. */
module DependencyGraph {

  /** Row ids are natural numbers. */
  type TaskId = nat

  type Graph = set<(TaskId, TaskId)>

  /** A walk along at least one edge. */
  ghost predicate Walk(g: Graph, p: seq<TaskId>) {
    |p| >= 2 && forall i | 0 <= i < |p| - 1 :: (p[i], p[i + 1]) in g
  }

  ghost predicate Joins(g: Graph, p: seq<TaskId>, a: TaskId, b: TaskId) {
    Walk(g, p) && p[0] == a && p[|p| - 1] == b
  }

  ghost predicate Reaches(g: Graph, a: TaskId, b: TaskId) {
    exists p :: Joins(g, p, a, b)
  }

  ghost predicate Acyclic(g: Graph) {
    forall x :: !Reaches(g, x, x)
  }

  ghost predicate Over(g: Graph, ids: set<TaskId>) {
    forall e | e in g :: e.0 in ids && e.1 in ids
  }

  /** Every edge from t to a member of ds. */
  function Star(t: TaskId, ds: seq<TaskId>): (r: Graph)
    ensures forall e :: e in r <==> e.0 == t && e.1 in ds
  {
    var r := set d | d in ds :: (t, d);
    assert forall d | d in ds :: (t, d) in r;
    r
  }

  function WithoutSource(g: Graph, t: TaskId): (r: Graph)
    ensures forall e :: e in r <==> e in g && e.0 != t
  {
    set e | e in g && e.0 != t
  }

  function Successors(g: Graph, a: TaskId): (r: set<TaskId>)
    ensures forall x :: x in r <==> (a, x) in g
  {
    set e | e in g && e.0 == a :: e.1
  }

  // ---------- Walks ----------

  lemma WalkReaches(g: Graph, p: seq<TaskId>)
    requires Walk(g, p)
    ensures Reaches(g, p[0], p[|p| - 1])
  {
    assert Joins(g, p, p[0], p[|p| - 1]);
  }

  lemma EdgeReaches(g: Graph, a: TaskId, b: TaskId)
    requires (a, b) in g
    ensures Reaches(g, a, b)
  {
    assert Joins(g, [a, b], a, b);
  }

  lemma ReachesThen(g: Graph, a: TaskId, b: TaskId, c: TaskId)
    requires Reaches(g, a, b) && (b, c) in g
    ensures Reaches(g, a, c)
  {
    var p :| Joins(g, p, a, b);
    assert Joins(g, p + [c], a, c);
  }

  lemma ReachesMore(g: Graph, h: Graph, a: TaskId, b: TaskId)
    requires g <= h && Reaches(g, a, b)
    ensures Reaches(h, a, b)
  {
    var p :| Joins(g, p, a, b);
    assert Joins(h, p, a, b);
  }

  lemma SubgraphAcyclic(g: Graph, h: Graph)
    requires h <= g && Acyclic(g)
    ensures Acyclic(h)
  {
    forall x ensures !Reaches(h, x, x) {
      if Reaches(h, x, x) { ReachesMore(h, g, x, x); }
    }
  }

  /** A walk that stays in a set closed under edges ends in that set. */
  lemma {:induction false} ClosedUnderWalks(g: Graph, s: set<TaskId>, p: seq<TaskId>)
    requires Walk(g, p) && p[1] in s
    requires forall e | e in g && e.0 in s :: e.1 in s
    ensures p[|p| - 1] in s
  {
    if |p| > 2 {
      assert (p[1], p[2]) in g;
      ClosedUnderWalks(g, s, p[1..]);
    }
  }

  /** Cutting a walk at its first visit to t leaves only edges whose source is not t;
      such edges survive in any graph that differs from g at source t alone. */
  lemma {:induction false} CutAtTarget(g: Graph, h: Graph, p: seq<TaskId>, t: TaskId)
    requires Walk(g, p) && p[|p| - 1] == t && p[0] != t
    requires forall e | e in g && e.0 != t :: e in h
    ensures Reaches(h, p[0], t)
  {
    assert (p[0], p[1]) in h;
    if p[1] == t {
      EdgeReaches(h, p[0], t);
    } else {
      CutAtTarget(g, h, p[1..], t);
      var q :| Joins(h, q, p[1], t);
      assert Joins(h, [p[0]] + q, p[0], t);
    }
  }

  lemma ReachedIsTarget(g: Graph, a: TaskId, b: TaskId)
    requires Reaches(g, a, b)
    ensures exists e :: e in g && e.1 == b
  {
    var p :| Joins(g, p, a, b);
    assert (p[|p| - 2], p[|p| - 1]) in g;
  }

  // ---------- The check is exact ----------

  /** If g is acyclic and h differs from it only in new edges from t to ds, every cycle of h
      runs through one of the new edges, so some d in ds already reached t. */
  lemma CycleNeedsNewEdge(g: Graph, h: Graph, t: TaskId, ds: seq<TaskId>)
    requires Acyclic(g) && t !in ds
    requires forall e | e in h :: e in g || (e.0 == t && e.1 in ds)
    requires !Acyclic(h)
    ensures exists d | d in ds :: Reaches(g, d, t)
  {
    var x :| Reaches(h, x, x);
    var p :| Joins(h, p, x, x);
    if forall i | 0 <= i < |p| - 1 :: (p[i], p[i + 1]) in g {
      WalkReaches(g, p);
      assert false;
    } else {
      var i :| 0 <= i < |p| - 1 && (p[i], p[i + 1]) !in g;
      var d := p[i + 1];
      assert (p[i], p[i + 1]) in h && p[i] == t && d in ds;
      if |p| == 2 { assert false; }
      var q := p[i + 1..] + p[1..i + 1];
      assert Walk(h, q) by {
        forall j | 0 <= j < |q| - 1 ensures (q[j], q[j + 1]) in h {
          if j < |p| - i - 2 {
            assert q[j] == p[i + 1 + j] && q[j + 1] == p[i + 2 + j];
          } else {
            var k := j - (|p| - i - 2);
            assert q[j] == p[k] && q[j + 1] == p[k + 1];
          }
        }
      }
      assert q[|q| - 1] == t;
      CutAtTarget(h, g, q, t);
    }
  }

  lemma AddIsExact(g: Graph, t: TaskId, ds: seq<TaskId>)
    requires Acyclic(g) && t !in ds
    ensures Acyclic(g + Star(t, ds)) <==> !exists d | d in ds :: Reaches(g, d, t)
  {
    var h := g + Star(t, ds);
    if d :| d in ds && Reaches(g, d, t) {
      ReachesMore(g, h, d, t);
      ReachesThen(h, d, t, d);
    } else if !Acyclic(h) {
      CycleNeedsNewEdge(g, h, t, ds);
    }
  }

  /** The check runs on the graph before the old edges of t are deleted, and is still exact. */
  lemma ReplaceIsExact(g: Graph, t: TaskId, ds: seq<TaskId>)
    requires Acyclic(g) && t !in ds
    ensures Acyclic(WithoutSource(g, t) + Star(t, ds)) <==> !exists d | d in ds :: Reaches(g, d, t)
  {
    var h := WithoutSource(g, t) + Star(t, ds);
    if d :| d in ds && Reaches(g, d, t) {
      var p :| Joins(g, p, d, t);
      CutAtTarget(g, h, p, t);
      ReachesThen(h, d, t, d);
    } else if !Acyclic(h) {
      CycleNeedsNewEdge(g, h, t, ds);
    }
  }

  /** In an acyclic relation every non-empty finite set has a member none of whose
      successors is in the set. */
  lemma {:induction false} SomeMemberIsMinimal(g: Graph, s: set<TaskId>) returns (m: TaskId)
    requires Acyclic(g) && s != {}
    ensures m in s && forall e | e in g && e.0 == m :: e.1 !in s
    decreases s
  {
    var x :| x in s;
    var below := set y | y in s && Reaches(g, x, y);
    forall e | e in g && e.0 == x && e.1 in s ensures e.1 in below { EdgeReaches(g, x, e.1); }
    if below == {} {
      m := x;
    } else {
      assert x !in below && x in s;
      m := SomeMemberIsMinimal(g, below);
      forall e | e in g && e.0 == m ensures Reaches(g, x, e.1) { ReachesThen(g, x, m, e.1); }
    }
  }

  // ---------- The recursive query ----------

  /** The ancestor closure of one node, as the recursive query builds it:
      a queue of new rows and the rows found so far. */
  method Ancestors(g: Graph, start: TaskId) returns (found: set<TaskId>)
    ensures forall x :: x in found <==> Reaches(g, start, x)
  {
    var queue := Successors(g, start);
    found := queue;
    ghost var targets := set e | e in g :: e.1;
    forall x | x in found ensures Reaches(g, start, x) { EdgeReaches(g, start, x); }
    while queue != {}
      invariant queue <= found <= targets
      invariant forall x | x in found :: Reaches(g, start, x)
      invariant forall e | e in g && e.0 == start :: e.1 in found
      invariant forall e | e in g && e.0 in found - queue :: e.1 in found
      decreases targets - (found - queue)
    {
      var a :| a in queue;
      var next := Successors(g, a) - found;
      forall x | x in next ensures Reaches(g, start, x) { ReachesThen(g, start, a, x); }
      assert a in targets && a !in found - queue;
      queue, found := queue - {a} + next, found + next;
      assert a in found - queue;
    }
    forall x | Reaches(g, start, x) ensures x in found {
      var p :| Joins(g, p, start, x);
      assert (p[0], p[1]) in g;
      ClosedUnderWalks(g, found, p);
    }
  }

  method WouldCreateCycle(g: Graph, taskId: TaskId, dependsOn: seq<TaskId>) returns (r: bool)
    ensures r <==> exists d | d in dependsOn :: Reaches(g, d, taskId)
  {
    for i := 0 to |dependsOn|
      invariant forall j | 0 <= j < i :: !Reaches(g, dependsOn[j], taskId)
    {
      var found := Ancestors(g, dependsOn[i]);
      if taskId in found {
        return true;
      }
    }
    return false;
  }
}
