/** "ORDER BY key ASC, id ASC" over a finite set of row ids. */
module Ordering {

  type Keys = map<nat, int>

  predicate Before(key: Keys, a: nat, b: nat)
    requires a in key && b in key
  {
    key[a] < key[b] || (key[a] == key[b] && a < b)
  }

  /** s lists exactly ids, in increasing (key, id) order. */
  ghost predicate Listing(s: seq<nat>, ids: set<nat>, key: Keys) {
    && (forall x :: x in s <==> x in ids)
    && ids <= key.Keys
    && (forall i, j | 0 <= i < j < |s| :: Before(key, s[i], s[j]))
  }

  /** There is only one such list. */
  lemma {:induction false} ListingUnique(s: seq<nat>, t: seq<nat>, ids: set<nat>, key: Keys)
    requires Listing(s, ids, key) && Listing(t, ids, key)
    ensures s == t
    decreases |s|
  {
    if s == [] {
      assert forall i | 0 <= i < |t| :: t[i] in s;
    } else {
      assert s[0] in t;
      assert t[0] in s;
      ListingTail(s, ids, key);
      ListingTail(t, ids, key);
      ListingUnique(s[1..], t[1..], ids - {s[0]}, key);
      assert s == [s[0]] + s[1..] && t == [t[0]] + t[1..];
    }
  }

  lemma ListingTail(s: seq<nat>, ids: set<nat>, key: Keys)
    requires Listing(s, ids, key) && s != []
    ensures Listing(s[1..], ids - {s[0]}, key)
  {
    forall x ensures x in s[1..] <==> x in ids - {s[0]} {
      assert x in s <==> x == s[0] || x in s[1..];
      if x in s[1..] {
        var i :| 1 <= i < |s| && s[i] == x;
        assert Before(key, s[0], s[i]);
      }
    }
  }

  predicate IsLeast(m: nat, ids: set<nat>, key: Keys)
    requires ids <= key.Keys
  {
    m in ids && forall x | x in ids :: x == m || Before(key, m, x)
  }

  lemma {:induction false} LeastExists(ids: set<nat>, key: Keys)
    requires ids != {} && ids <= key.Keys
    ensures exists m :: IsLeast(m, ids, key)
  {
    var y :| y in ids;
    var rest := ids - {y};
    if rest == {} {
      assert ids == {y};
      assert IsLeast(y, ids, key);
    } else {
      LeastExists(rest, key);
      var m :| IsLeast(m, rest, key);
      LeastOfMore(m, rest, key, y);
      assert ids == rest + {y};
    }
  }

  lemma LeastOfMore(m: nat, ids: set<nat>, key: Keys, y: nat)
    requires ids <= key.Keys && IsLeast(m, ids, key) && y in key && y !in ids
    ensures IsLeast(if Before(key, m, y) then m else y, ids + {y}, key)
  {}

  ghost function SortIds(ids: set<nat>, key: Keys): (s: seq<nat>)
    requires ids <= key.Keys
    ensures Listing(s, ids, key)
  {
    if ids == {} then []
    else
      LeastExists(ids, key);
      var m :| IsLeast(m, ids, key);
      [m] + SortIds(ids - {m}, key)
  }

  /** The way every claim about an order is proved: exhibit the list. */
  lemma SortedIs(s: seq<nat>, ids: set<nat>, key: Keys)
    requires Listing(s, ids, key)
    ensures SortIds(ids, key) == s
  {
    ListingUnique(s, SortIds(ids, key), ids, key);
  }

  // ---------- Plain sequences of distinct ids ----------

  ghost predicate Distinct(s: seq<nat>) {
    forall i, j | 0 <= i < j < |s| :: s[i] != s[j]
  }

  ghost function IndexOf(s: seq<nat>, x: nat): (i: nat)
    requires x in s
    ensures i < |s| && s[i] == x
  {
    var i :| 0 <= i < |s| && s[i] == x;
    i
  }

  /** s with x taken out. */
  ghost function Without(s: seq<nat>, x: nat): (r: seq<nat>)
    ensures Distinct(s) ==> forall y :: y in r <==> y in s && y != x
    ensures Distinct(s) ==> Distinct(r)
  {
    if x in s then
      var i := IndexOf(s, x);
      assert s == s[..i] + [x] + s[i + 1..];
      s[..i] + s[i + 1..]
    else s
  }

  lemma ListingDistinct(s: seq<nat>, ids: set<nat>, key: Keys)
    requires Listing(s, ids, key)
    ensures Distinct(s)
  {
    forall i, j | 0 <= i < j < |s| ensures s[i] != s[j] {
      assert Before(key, s[i], s[j]);
    }
  }

  /** Position i of s with position k taken out. */
  function Shifted(i: nat, k: nat): nat {
    if i < k then i else i + 1
  }

  lemma WithoutAtMembers(s: seq<nat>, k: nat)
    requires Distinct(s) && k < |s|
    ensures forall x :: x in s[..k] + s[k + 1..] <==> x in s && x != s[k]
  {
    var r := s[..k] + s[k + 1..];
    forall x ensures x in r <==> x in s && x != s[k] {
      if x in r {
        var i :| 0 <= i < |r| && r[i] == x;
        assert x == s[Shifted(i, k)];
      }
      if x in s && x != s[k] {
        var i :| 0 <= i < |s| && s[i] == x;
        assert x == r[if i < k then i else i - 1];
      }
    }
  }

  lemma ListingWithoutAt(s: seq<nat>, ids: set<nat>, key: Keys, k: nat)
    requires Listing(s, ids, key) && k < |s|
    ensures Listing(s[..k] + s[k + 1..], ids - {s[k]}, key)
  {
    var r := s[..k] + s[k + 1..];
    ListingDistinct(s, ids, key);
    WithoutAtMembers(s, k);
    forall i, j | 0 <= i < j < |r| ensures Before(key, r[i], r[j]) {
      assert r[i] == s[Shifted(i, k)] && r[j] == s[Shifted(j, k)];
    }
  }

  lemma ListingWithout(s: seq<nat>, ids: set<nat>, key: Keys, x: nat)
    requires Listing(s, ids, key)
    ensures Listing(Without(s, x), ids - {x}, key)
  {
    if x in s {
      ListingWithoutAt(s, ids, key, IndexOf(s, x));
    } else {
      assert ids - {x} == ids;
    }
  }

  /** SELECT ... ORDER BY key ASC, id ASC. */
  method SelectOrdered(ids: set<nat>, key: Keys) returns (s: seq<nat>)
    requires ids <= key.Keys
    ensures s == SortIds(ids, key)
  {
    s := [];
    var rest := ids;
    while rest != {}
      invariant rest <= ids && Listing(s, ids - rest, key)
      invariant forall x, y | x in s && y in rest :: Before(key, x, y)
      decreases rest
    {
      LeastExists(rest, key);
      var m :| m in rest && IsLeast(m, rest, key);
      assert ids - (rest - {m}) == ids - rest + {m};
      ListingGrows(s, ids - rest, key, m);
      s, rest := s + [m], rest - {m};
    }
    assert ids - rest == ids;
    SortedIs(s, ids, key);
  }

  lemma ListingGrows(s: seq<nat>, ids: set<nat>, key: Keys, m: nat)
    requires Listing(s, ids, key) && m !in ids && m in key
    requires forall x | x in s :: Before(key, x, m)
    ensures Listing(s + [m], ids + {m}, key)
  {
    assert forall i | 0 <= i < |s| :: s[i] in s;
  }
}
