/** Finite directed graphs, paths and cycles.

    The role hierarchy and the foreign-key graph are both read as such graphs;
    "acyclic" means the same thing in both, and is stated with explicit paths so
    that it does not mention any algorithm. */
module Digraph {

  type Graph<T> = map<T, set<T>>

  ghost predicate Edge<T>(g: Graph<T>, a: T, b: T) {
    a in g && b in g[a]
  }

  /** Consecutive nodes of `p` are joined by edges. */
  ghost predicate IsPath<T>(g: Graph<T>, p: seq<T>) {
    |p| > 0 && forall i :: 0 <= i < |p| - 1 ==> Edge(g, p[i], p[i + 1])
  }

  ghost predicate PathBetween<T>(g: Graph<T>, a: T, b: T, p: seq<T>) {
    IsPath(g, p) && p[0] == a && p[|p| - 1] == b
  }

  /** `b` can be reached from `a` in zero or more steps. */
  ghost predicate ReachesStar<T(!new)>(g: Graph<T>, a: T, b: T) {
    exists p :: PathBetween(g, a, b, p)
  }

  /** `b` can be reached from `a` in one or more steps. */
  ghost predicate ReachesPlus<T(!new)>(g: Graph<T>, a: T, b: T) {
    exists p :: PathBetween(g, a, b, p) && |p| >= 2
  }

  ghost predicate Acyclic<T(!new)>(g: Graph<T>) {
    forall a :: !ReachesPlus(g, a, a)
  }

  lemma JoinPaths<T(!new)>(g: Graph<T>, a: T, b: T, c: T, p: seq<T>, q: seq<T>)
    requires PathBetween(g, a, b, p) && PathBetween(g, b, c, q)
    ensures PathBetween(g, a, c, p + q[1..])
  {
    var r := p + q[1..];
    forall i | 0 <= i < |r| - 1
      ensures Edge(g, r[i], r[i + 1])
    {
      if i + 1 < |p| {
        assert r[i] == p[i] && r[i + 1] == p[i + 1];
      } else {
        assert r[i] == q[i + 1 - |p|] && r[i + 1] == q[i + 2 - |p|];
      }
    }
  }

  lemma ReachesSelf<T(!new)>(g: Graph<T>, a: T)
    ensures ReachesStar(g, a, a)
  {
    assert PathBetween(g, a, a, [a]);
  }

  lemma EdgeReaches<T(!new)>(g: Graph<T>, a: T, b: T)
    requires Edge(g, a, b)
    ensures ReachesPlus(g, a, b)
  {
    assert PathBetween(g, a, b, [a, b]);
  }

  lemma PlusIsStar<T(!new)>(g: Graph<T>, a: T, b: T)
    ensures ReachesPlus(g, a, b) ==> ReachesStar(g, a, b)
    ensures ReachesStar(g, a, b) ==> a == b || ReachesPlus(g, a, b)
  {
    if ReachesStar(g, a, b) && a != b {
      var p :| PathBetween(g, a, b, p);
      assert |p| >= 2;
    }
  }

  lemma StarTransitive<T(!new)>(g: Graph<T>, a: T, b: T, c: T)
    requires ReachesStar(g, a, b) && ReachesStar(g, b, c)
    ensures ReachesStar(g, a, c)
  {
    var p :| PathBetween(g, a, b, p);
    var q :| PathBetween(g, b, c, q);
    JoinPaths(g, a, b, c, p, q);
  }

  lemma PlusThenStar<T(!new)>(g: Graph<T>, a: T, b: T, c: T)
    requires ReachesPlus(g, a, b) && ReachesStar(g, b, c)
    ensures ReachesPlus(g, a, c)
  {
    var p :| PathBetween(g, a, b, p) && |p| >= 2;
    var q :| PathBetween(g, b, c, q);
    JoinPaths(g, a, b, c, p, q);
    assert |p + q[1..]| >= 2;
  }

  lemma StarThenEdge<T(!new)>(g: Graph<T>, a: T, b: T, c: T)
    requires ReachesStar(g, a, b) && Edge(g, b, c)
    ensures ReachesPlus(g, a, c)
  {
    var p :| PathBetween(g, a, b, p);
    JoinPaths(g, a, b, c, p, [b, c]);
    assert |p + [b, c][1..]| >= 2;
  }

  /** A path of one or more steps starts with an edge. */
  lemma PlusFirstEdge<T(!new)>(g: Graph<T>, a: T, c: T) returns (b: T)
    requires ReachesPlus(g, a, c)
    ensures Edge(g, a, b) && ReachesStar(g, b, c)
  {
    var p :| PathBetween(g, a, c, p) && |p| >= 2;
    b := p[1];
    assert Edge(g, p[0], p[1]);
    assert PathBetween(g, b, c, p[1..]);
  }

  /** A set closed under edges holds everything reachable from its members. */
  lemma {:induction false} ClosedSetHoldsReachable<T(!new)>(g: Graph<T>, s: set<T>, p: seq<T>)
    requires IsPath(g, p) && p[0] in s
    requires forall a, b :: a in s && Edge(g, a, b) ==> b in s
    ensures p[|p| - 1] in s
    decreases |p|
  {
    if |p| > 1 {
      assert Edge(g, p[0], p[1]);
      ClosedSetHoldsReachable(g, s, p[1..]);
    }
  }

  // ---- An ordering of the nodes rules out cycles -----------------------------

  /** Every successor of a node of `order` comes strictly before it in `order`. */
  ghost predicate SuccessorsFirst<T(!new)>(g: Graph<T>, order: seq<T>) {
    && (forall i, j :: 0 <= i < j < |order| ==> order[i] != order[j])
    && (forall i, b :: 0 <= i < |order| && Edge(g, order[i], b) ==> b in order[..i])
  }

  /** A path that starts at position `k` of such an order ends at or before `k`. */
  lemma {:induction false} PathDescends<T(!new)>(g: Graph<T>, order: seq<T>, p: seq<T>, k: nat)
    requires SuccessorsFirst(g, order) && IsPath(g, p)
    requires k < |order| && order[k] == p[0]
    ensures |p| >= 2 ==> p[|p| - 1] in order[..k]
    decreases |p|
  {
    if |p| >= 2 {
      assert Edge(g, p[0], p[1]);
      var j :| 0 <= j < k && order[j] == p[1];
      PathDescends(g, order, p[1..], j);
      if |p| > 2 {
        assert p[1..][|p[1..]| - 1] == p[|p| - 1];
        var i :| 0 <= i < j && order[i] == p[|p| - 1];
        assert order[..k][i] == p[|p| - 1];
      }
    }
  }

  lemma OrderedIsAcyclic<T(!new)>(g: Graph<T>, order: seq<T>)
    requires SuccessorsFirst(g, order)
    requires forall a :: a in g ==> a in order
    ensures Acyclic(g)
  {
    forall a
      ensures !ReachesPlus(g, a, a)
    {
      if ReachesPlus(g, a, a) {
        var p :| PathBetween(g, a, a, p) && |p| >= 2;
        assert Edge(g, p[0], p[1]);
        var k :| 0 <= k < |order| && order[k] == a;
        PathDescends(g, order, p, k);
        assert false;
      }
    }
  }

  // ---- A set in which every node has a successor contains a cycle ----------

  ghost predicate HasSuccessorIn<T(!new)>(g: Graph<T>, s: set<T>, x: T) {
    exists y :: y in s && Edge(g, x, y)
  }

  /** A walk of any length through `s`. */
  lemma {:induction false} WalkOf<T(!new)>(g: Graph<T>, s: set<T>, a: T, n: nat) returns (p: seq<T>)
    requires a in s
    requires forall x :: x in s ==> HasSuccessorIn(g, s, x)
    ensures |p| == n + 1 && IsPath(g, p) && p[0] == a
    ensures forall x :: x in p ==> x in s
  {
    if n == 0 {
      p := [a];
    } else {
      assert HasSuccessorIn(g, s, a);
      var b :| b in s && Edge(g, a, b);
      var q := WalkOf(g, s, b, n - 1);
      p := [a] + q;
      forall i | 0 <= i < |p| - 1
        ensures Edge(g, p[i], p[i + 1])
      {
        if i > 0 {
          assert p[i] == q[i - 1] && p[i + 1] == q[i];
        }
      }
    }
  }

  /** A sequence longer than the set it draws from repeats an element. */
  lemma {:induction false} PigeonHole<T(!new)>(s: set<T>, p: seq<T>) returns (i: nat, j: nat)
    requires |p| > |s| && forall x :: x in p ==> x in s
    ensures i < j < |p| && p[i] == p[j]
    decreases |p|
  {
    var last := p[|p| - 1];
    var front := p[..|p| - 1];
    if last in front {
      i :| 0 <= i < |front| && front[i] == last;
      j := |p| - 1;
    } else {
      assert forall x :: x in front ==> x in p && x != last;
      i, j := PigeonHole(s - {last}, front);
    }
  }

  lemma NoSinkMeansCycle<T(!new)>(g: Graph<T>, s: set<T>)
    requires s != {}
    requires forall x :: x in s ==> HasSuccessorIn(g, s, x)
    ensures !Acyclic(g)
  {
    var a :| a in s;
    var p := WalkOf(g, s, a, |s|);
    var i, j := PigeonHole(s, p);
    var cycle := p[i..j + 1];
    assert PathBetween(g, p[i], p[i], cycle) && |cycle| >= 2;
    assert ReachesPlus(g, p[i], p[i]);
  }
}
