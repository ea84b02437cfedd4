/** Ordering tables for migration: Kahn's algorithm over the foreign-key graph.

    Tables are numbered by their position in the configuration. Hash maps are
    iterated in an arbitrary order, chosen by the loops below as they go. */
module TopologicalSort {
  import opened Wrappers
  import opened Digraph

  datatype Column = Column(name: string, primaryKey: bool, nullable: bool, default: Option<string>, indexed: bool)

  datatype ForeignKey = ForeignKey(column: string, referencesTable: string)

  datatype Table = Table(name: string, database: string, columns: seq<Column>, foreignKeys: seq<ForeignKey>)

  datatype SortError = CircularDependency(names: seq<string>)

  ghost predicate DistinctNames(tables: seq<Table>) {
    forall i, j :: 0 <= i < j < |tables| ==> tables[i].name != tables[j].name
  }

  ghost predicate DependsOn(tables: seq<Table>, i: nat, j: nat) {
    i < |tables| && j < |tables| && exists f :: f in tables[i].foreignKeys && f.referencesTable == tables[j].name
  }

  ghost function References(tables: seq<Table>, i: nat): set<nat> {
    set j: nat | j < |tables| && DependsOn(tables, i, j)
  }

  /** An edge leads from a table to each configured table it references, itself included. */
  ghost function ForeignKeyGraph(tables: seq<Table>): Graph<nat> {
    map i: nat | i < |tables| :: References(tables, i)
  }

  // ---------------------------------------------------------------------------
  // Orders: topological, greedy, lexicographically least
  // ---------------------------------------------------------------------------

  /** Position to the positions it depends on, with repetitions. */
  type Deps = map<nat, seq<nat>>

  ghost predicate Closed(deps: Deps) {
    forall i, d :: i in deps && d in deps[i] ==> d in deps
  }

  /** `i` may come next after the nodes in `done`. */
  ghost predicate Available(deps: Deps, done: seq<nat>, i: nat) {
    i in deps && i !in done && forall d :: d in deps[i] ==> d in done
  }

  /** Every step takes the least node available at that point. */
  ghost predicate Greedy(deps: Deps, order: seq<nat>) {
    forall k :: 0 <= k < |order| ==>
      Available(deps, order[..k], order[k]) && forall i :: Available(deps, order[..k], i) ==> order[k] <= i
  }

  ghost predicate Exhausted(deps: Deps, order: seq<nat>) {
    forall i :: !Available(deps, order, i)
  }

  /** `order` lists every node once, after the nodes it depends on. */
  ghost predicate IsTopological(deps: Deps, order: seq<nat>) {
    && (forall k :: 0 <= k < |order| ==> Available(deps, order[..k], order[k]))
    && (forall i :: i in deps ==> i in order)
  }

  ghost predicate LexLess(a: seq<nat>, b: seq<nat>) {
    exists k :: 0 <= k < |a| && k < |b| && a[..k] == b[..k] && a[k] < b[k]
  }

  ghost predicate LexLeq(a: seq<nat>, b: seq<nat>) {
    a == b || LexLess(a, b)
  }

  ghost function Members(s: seq<nat>): set<nat> {
    set i | i in s
  }

  lemma TopologicalIsComplete(deps: Deps, order: seq<nat>)
    requires forall k :: 0 <= k < |order| ==> Available(deps, order[..k], order[k])
    ensures forall i, j :: 0 <= i < j < |order| ==> order[i] != order[j]
    ensures forall i :: i in order ==> i in deps
    ensures |order| <= |deps|
    ensures |order| == |deps| <==> forall i :: i in deps ==> i in order
  {
    forall i, j | 0 <= i < j < |order|
      ensures order[i] != order[j]
    {
      assert order[..j][i] == order[i];
    }
    DistinctCardinality(order);
    assert Members(order) <= deps.Keys;
    Subset(Members(order), deps.Keys);
    assert |deps| == |deps.Keys|;
    assert Members(order) == deps.Keys <==> forall i :: i in deps ==> i in order;
  }

  lemma {:induction false} DistinctCardinality(s: seq<nat>)
    requires forall i, j :: 0 <= i < j < |s| ==> s[i] != s[j]
    ensures |Members(s)| == |s|
    decreases |s|
  {
    if s != [] {
      var front, last := s[..|s| - 1], s[|s| - 1];
      DistinctCardinality(front);
      assert last !in front;
      assert s == front + [last];
      assert Members(s) == Members(front) + {last};
    }
  }

  lemma {:induction false} Subset<T>(a: set<T>, b: set<T>)
    requires a <= b
    ensures |a| <= |b|
    ensures |a| == |b| <==> a == b
    decreases |a|
  {
    if a != {} {
      var x :| x in a;
      Subset(a - {x}, b - {x});
      assert a == (a - {x}) + {x} && b == (b - {x}) + {x};
    } else if b != {} {
      var y :| y in b;
      assert |b| == |b - {y}| + 1;
    }
  }

  lemma {:induction false} AgreeUntilFirstDifference(a: seq<nat>, b: seq<nat>) returns (k: nat)
    requires |a| == |b| && a != b
    ensures k < |a| && a[..k] == b[..k] && a[k] != b[k]
    decreases |a|
  {
    var n := |a| - 1;
    if a[..n] == b[..n] {
      assert a == a[..n] + [a[n]] && b == b[..n] + [b[n]];
      k := n;
    } else {
      k := AgreeUntilFirstDifference(a[..n], b[..n]);
      assert a[..n][..k] == a[..k] && b[..n][..k] == b[..k];
    }
  }

  /** A complete greedy order is the least of all topological orders. */
  lemma GreedyIsLeast(deps: Deps, order: seq<nat>, other: seq<nat>)
    requires Greedy(deps, order) && IsTopological(deps, order) && IsTopological(deps, other)
    ensures LexLeq(order, other)
  {
    TopologicalIsComplete(deps, order);
    TopologicalIsComplete(deps, other);
    if order != other {
      var k := AgreeUntilFirstDifference(order, other);
      assert Available(deps, other[..k], other[k]);
      assert order[k] <= other[k];
    }
  }

  ghost function DepsGraph(deps: Deps): Graph<nat> {
    map i | i in deps :: (set d | d in deps[i])
  }

  /** A greedy order that cannot be continued is complete exactly when there is no cycle. */
  lemma ExhaustedCompleteIffAcyclic(deps: Deps, order: seq<nat>)
    requires Closed(deps) && Greedy(deps, order) && Exhausted(deps, order)
    ensures |order| == |deps| <==> Acyclic(DepsGraph(deps))
  {
    var g := DepsGraph(deps);
    TopologicalIsComplete(deps, order);
    if |order| == |deps| {
      OrderedIsAcyclic(g, order);
    } else {
      var stuck := set i | i in deps && i !in order;
      forall x | x in stuck
        ensures HasSuccessorIn(g, stuck, x)
      {
        assert !Available(deps, order, x);
        var d :| d in deps[x] && d !in order;
        assert d in stuck && Edge(g, x, d);
      }
      var w :| w in deps && w !in order;
      assert w in stuck;
      NoSinkMeansCycle(g, stuck);
    }
  }

  // ---------------------------------------------------------------------------
  // Kahn's algorithm
  // ---------------------------------------------------------------------------

  /** Number of dependencies in `ds`, counted with repetitions, that are not in `done`. */
  function Pending(ds: seq<nat>, done: set<nat>): nat {
    if ds == [] then 0
    else Pending(ds[..|ds| - 1], done) + (if ds[|ds| - 1] in done then 0 else 1)
  }

  lemma {:induction false} PendingAfter(ds: seq<nat>, done: set<nat>, x: nat)
    requires x !in done
    ensures Pending(ds, done) == Pending(ds, done + {x}) + multiset(ds)[x]
    decreases |ds|
  {
    if ds != [] {
      PendingAfter(ds[..|ds| - 1], done, x);
      assert ds == ds[..|ds| - 1] + [ds[|ds| - 1]];
    }
  }

  lemma {:induction false} PendingZero(ds: seq<nat>, done: set<nat>)
    ensures Pending(ds, done) == 0 <==> forall d :: d in ds ==> d in done
    decreases |ds|
  {
    if ds != [] {
      PendingZero(ds[..|ds| - 1], done);
      assert ds == ds[..|ds| - 1] + [ds[|ds| - 1]];
    }
  }

  lemma {:induction false} PendingNone(ds: seq<nat>)
    ensures Pending(ds, {}) == |ds|
    decreases |ds|
  {
    if ds != [] {
      PendingNone(ds[..|ds| - 1]);
    }
  }

  /** How often `i` occurs in the reverse list of `d`. */
  ghost function Dependents(reverse: map<nat, seq<nat>>, d: nat): multiset<nat> {
    if d in reverse then multiset(reverse[d]) else multiset{}
  }

  /** The reverse lists hold the edges of the `processed` nodes and, for `idx`, those in `prefix`. */
  ghost predicate PartlyReversed(deps: Deps, reverse: map<nat, seq<nat>>, processed: set<nat>, idx: nat, prefix: seq<nat>) {
    && processed <= deps.Keys
    && forall d, i :: Dependents(reverse, d)[i] == EdgeCount(deps, processed, idx, prefix, d, i)
  }

  ghost function EdgeCount(deps: Deps, processed: set<nat>, idx: nat, prefix: seq<nat>, d: nat, i: nat): nat
    requires processed <= deps.Keys
  {
    if i in processed then multiset(deps[i])[d] else if i == idx then multiset(prefix)[d] else 0
  }

  ghost predicate ReverseMatches(deps: Deps, reverse: map<nat, seq<nat>>) {
    forall d, i :: Dependents(reverse, d)[i] == if i in deps then multiset(deps[i])[d] else 0
  }

  lemma AddDependent(deps: Deps, reverse: map<nat, seq<nat>>, processed: set<nat>, idx: nat, prefix: seq<nat>, dep: nat)
    requires PartlyReversed(deps, reverse, processed, idx, prefix) && idx !in processed
    ensures PartlyReversed(deps, reverse[dep := (if dep in reverse then reverse[dep] else []) + [idx]], processed, idx, prefix + [dep])
  {
    var after := reverse[dep := (if dep in reverse then reverse[dep] else []) + [idx]];
    forall d, i
      ensures Dependents(after, d)[i] == EdgeCount(deps, processed, idx, prefix + [dep], d, i)
    {
      DependentAppended(reverse, dep, idx, d, i);
      EdgeAppended(deps, processed, idx, prefix, dep, d, i);
    }
  }

  lemma EdgeAppended(deps: Deps, processed: set<nat>, idx: nat, prefix: seq<nat>, dep: nat, d: nat, i: nat)
    requires processed <= deps.Keys && idx !in processed
    ensures EdgeCount(deps, processed, idx, prefix + [dep], d, i)
         == EdgeCount(deps, processed, idx, prefix, d, i) + (if d == dep && i == idx then 1 else 0)
  {
  }

  lemma DependentAppended(reverse: map<nat, seq<nat>>, dep: nat, idx: nat, d: nat, i: nat)
    ensures var after := reverse[dep := (if dep in reverse then reverse[dep] else []) + [idx]];
            Dependents(after, d)[i] == Dependents(reverse, d)[i] + (if d == dep && i == idx then 1 else 0)
  {
  }

  /** The reverse lists hold exactly the edges of the `processed` nodes. */
  ghost predicate Reversed(deps: Deps, reverse: map<nat, seq<nat>>, processed: set<nat>) {
    && processed <= deps.Keys
    && forall d, i :: Dependents(reverse, d)[i] == if i in processed then multiset(deps[i])[d] else 0
  }

  lemma StartNode(deps: Deps, reverse: map<nat, seq<nat>>, processed: set<nat>, idx: nat)
    requires Reversed(deps, reverse, processed) && idx !in processed
    ensures PartlyReversed(deps, reverse, processed, idx, [])
  {
  }

  lemma FinishNode(deps: Deps, reverse: map<nat, seq<nat>>, processed: set<nat>, idx: nat)
    requires idx in deps && idx !in processed && PartlyReversed(deps, reverse, processed, idx, deps[idx])
    ensures Reversed(deps, reverse, processed + {idx})
  {
    forall d, i
      ensures Dependents(reverse, d)[i] == if i in processed + {idx} then multiset(deps[i])[d] else 0
    {
      assert Dependents(reverse, d)[i] == EdgeCount(deps, processed, idx, deps[idx], d, i);
    }
  }

  /** The edges of one node: its dependencies are counted and it is listed with each of them. */
  method AddEdges(deps: Deps, ghost processed: set<nat>, idx: nat, before: map<nat, seq<nat>>)
    returns (degree: nat, reverse: map<nat, seq<nat>>)
    requires Reversed(deps, before, processed) && idx in deps && idx !in processed
    ensures degree == |deps[idx]| && Reversed(deps, reverse, processed + {idx})
  {
    var ds := deps[idx];
    degree, reverse := 0, before;
    StartNode(deps, reverse, processed, idx);
    for j := 0 to |ds|
      invariant degree == j && PartlyReversed(deps, reverse, processed, idx, ds[..j])
    {
      AddDependent(deps, reverse, processed, idx, ds[..j], ds[j]);
      assert ds[..j + 1] == ds[..j] + [ds[j]];
      reverse := reverse[ds[j] := (if ds[j] in reverse then reverse[ds[j]] else []) + [idx]];
      degree := degree + 1;
    }
    assert ds[..|ds|] == ds;
    FinishNode(deps, reverse, processed, idx);
  }

  /** The in-degree map and the reverse adjacency map, filled from `deps`. */
  method BuildInDegrees(deps: Deps) returns (inDegree: map<nat, nat>, reverse: map<nat, seq<nat>>)
    ensures inDegree.Keys == deps.Keys
    ensures forall i :: i in deps ==> inDegree[i] == |deps[i]|
    ensures ReverseMatches(deps, reverse)
  {
    inDegree, reverse := map[], map[];
    var remaining := deps.Keys;
    while remaining != {}
      invariant remaining <= deps.Keys && inDegree.Keys == deps.Keys - remaining
      invariant forall i :: i in inDegree ==> inDegree[i] == |deps[i]|
      invariant Reversed(deps, reverse, deps.Keys - remaining)
    {
      var idx :| idx in remaining;
      var degree;
      degree, reverse := AddEdges(deps, deps.Keys - remaining, idx, reverse);
      assert deps.Keys - (remaining - {idx}) == deps.Keys - remaining + {idx};
      remaining := remaining - {idx};
      inDegree := inDegree[idx := degree];
    }
    assert deps.Keys - remaining == deps.Keys;
  }

  ghost predicate StrictlySorted(s: seq<nat>) {
    forall i, j :: 0 <= i < j < |s| ==> s[i] < s[j]
  }

  /** Where `x` belongs in a sorted sequence. */
  function PartitionPoint(s: seq<nat>, x: nat): (pos: nat)
    ensures pos <= |s|
    ensures forall i :: 0 <= i < pos ==> s[i] < x
    ensures StrictlySorted(s) ==> forall i :: pos <= i < |s| ==> x <= s[i]
  {
    if s == [] || x <= s[0] then 0 else 1 + PartitionPoint(s[1..], x)
  }

  function InsertSorted(s: seq<nat>, x: nat): seq<nat> {
    s[..PartitionPoint(s, x)] + [x] + s[PartitionPoint(s, x)..]
  }

  /** The zero-degree nodes in ascending order. */
  method InitialQueue(inDegree: map<nat, nat>) returns (queue: seq<nat>)
    ensures StrictlySorted(queue)
    ensures forall i :: i in queue <==> i in inDegree && inDegree[i] == 0
  {
    queue := [];
    var remaining := inDegree.Keys;
    while remaining != {}
      invariant remaining <= inDegree.Keys && StrictlySorted(queue)
      invariant forall i :: i in queue <==> i in inDegree && i !in remaining && inDegree[i] == 0
    {
      var idx :| idx in remaining;
      remaining := remaining - {idx};
      if inDegree[idx] == 0 {
        InsertMembers(queue, idx);
        InsertKeepsSorted(queue, idx);
        queue := InsertSorted(queue, idx);
      }
    }
  }

  lemma InsertMembers(s: seq<nat>, x: nat)
    ensures forall i :: i in InsertSorted(s, x) <==> i in s || i == x
  {
    var pos := PartitionPoint(s, x);
    assert s == s[..pos] + s[pos..];
    forall i
      ensures i in InsertSorted(s, x) <==> i in s || i == x
    {
      assert i in s <==> i in s[..pos] || i in s[pos..];
    }
  }

  lemma InsertKeepsSorted(s: seq<nat>, x: nat)
    requires StrictlySorted(s) && x !in s
    ensures StrictlySorted(InsertSorted(s, x))
  {
    var pos := PartitionPoint(s, x);
    var r := InsertSorted(s, x);
    assert forall k :: pos <= k < |s| ==> x <= s[k] && s[k] in s;
    assert forall k :: 0 <= k < pos ==> s[k] < x;
    assert forall k :: 0 <= k < |r| ==> r[k] == if k < pos then s[k] else if k == pos then x else s[k - 1];
  }

  /** The in-degrees count the dependencies not yet output. */
  ghost predicate DegreesMatch(deps: Deps, inDegree: map<nat, nat>, done: set<nat>) {
    && inDegree.Keys == deps.Keys
    && forall i :: i in deps ==> inDegree[i] == Pending(deps[i], done)
  }

  /** The nodes waiting are exactly the available ones, in ascending order. */
  ghost predicate WaitingMatches(inDegree: map<nat, nat>, done: seq<nat>, waiting: seq<nat>) {
    && StrictlySorted(waiting)
    && forall i :: i in waiting <==> i in inDegree && inDegree[i] == 0 && i !in done
  }

  method KahnOrder(deps: Deps) returns (order: seq<nat>)
    requires Closed(deps)
    ensures Greedy(deps, order) && Exhausted(deps, order)
  {
    var inDegree, reverse := BuildInDegrees(deps);
    var queue := InitialQueue(inDegree);
    var head := 0;
    order := [];
    StartState(deps, inDegree);
    assert queue[..0] == [] && queue[0..] == queue;
    while head < |queue|
      invariant head <= |queue| && queue[..head] == order
      invariant ReverseMatches(deps, reverse)
      invariant DegreesMatch(deps, inDegree, Members(order))
      invariant WaitingMatches(inDegree, order, queue[head..])
      invariant Greedy(deps, order)
      decreases |deps| - |order|
    {
      var idx := queue[head];
      PopLeast(deps, inDegree, order, queue[head..]);
      ghost var before := order;
      assert queue[head..][1..] == queue[head + 1..];
      head := head + 1;
      order := order + [idx];
      inDegree, queue := Release(deps, reverse, inDegree, before, idx, queue, head);
    }
    EmptyQueueMeansExhausted(deps, inDegree, order, queue[head..]);
  }

  lemma StartState(deps: Deps, inDegree: map<nat, nat>)
    requires inDegree.Keys == deps.Keys && forall i :: i in deps ==> inDegree[i] == |deps[i]|
    ensures DegreesMatch(deps, inDegree, Members([]))
    ensures Greedy(deps, [])
  {
    forall i | i in deps
      ensures inDegree[i] == Pending(deps[i], Members([]))
    {
      assert Members([]) == {};
      PendingNone(deps[i]);
    }
  }

  lemma EmptyQueueMeansExhausted(deps: Deps, inDegree: map<nat, nat>, order: seq<nat>, waiting: seq<nat>)
    requires DegreesMatch(deps, inDegree, Members(order)) && WaitingMatches(inDegree, order, waiting)
    requires waiting == []
    ensures Exhausted(deps, order)
  {
    WaitingAreAvailable(deps, inDegree, order, waiting);
  }

  lemma TailMembers(s: seq<nat>)
    requires StrictlySorted(s) && s != []
    ensures StrictlySorted(s[1..])
    ensures forall i :: i in s[1..] <==> i in s && i != s[0]
  {
    assert s == [s[0]] + s[1..];
    forall i | i in s[1..]
      ensures i != s[0]
    {
      var k :| 0 <= k < |s[1..]| && s[1..][k] == i;
      assert s[0] < s[k + 1];
    }
  }

  /** Dequeuing the head of the waiting nodes extends the greedy order. */
  lemma PopLeast(deps: Deps, inDegree: map<nat, nat>, order: seq<nat>, waiting: seq<nat>)
    requires DegreesMatch(deps, inDegree, Members(order)) && WaitingMatches(inDegree, order, waiting)
    requires Greedy(deps, order) && waiting != []
    ensures Available(deps, order, waiting[0])
    ensures Greedy(deps, order + [waiting[0]])
    ensures WaitingMatches(inDegree, order + [waiting[0]], waiting[1..])
    ensures |order| + 1 <= |deps|
  {
    var idx := waiting[0];
    WaitingAreAvailable(deps, inDegree, order, waiting);
    assert idx in waiting;
    GreedyExtends(deps, order, idx);
    TopologicalIsComplete(deps, order + [idx]);
    TailMembers(waiting);
  }

  lemma WaitingAreAvailable(deps: Deps, inDegree: map<nat, nat>, order: seq<nat>, waiting: seq<nat>)
    requires DegreesMatch(deps, inDegree, Members(order)) && WaitingMatches(inDegree, order, waiting)
    ensures forall i :: i in waiting <==> Available(deps, order, i)
  {
    forall i | i in deps
      ensures i in waiting <==> Available(deps, order, i)
    {
      PendingZero(deps[i], Members(order));
    }
  }

  lemma GreedyExtends(deps: Deps, order: seq<nat>, idx: nat)
    requires Greedy(deps, order) && Available(deps, order, idx)
    requires forall i :: Available(deps, order, i) ==> idx <= i
    ensures Greedy(deps, order + [idx])
  {
    var next := order + [idx];
    forall k | 0 <= k < |next|
      ensures Available(deps, next[..k], next[k]) && forall i :: Available(deps, next[..k], i) ==> next[k] <= i
    {
      if k < |order| {
        assert next[..k] == order[..k];
      } else {
        assert next[..k] == order;
      }
    }
  }

  /** `dependents` lists every node once per edge it has into `idx`. */
  ghost predicate AreDependentsOf(deps: Deps, dependents: seq<nat>, idx: nat) {
    forall i :: multiset(dependents)[i] == if i in deps then multiset(deps[i])[idx] else 0
  }

  lemma CollectDependents(deps: Deps, reverse: map<nat, seq<nat>>, idx: nat)
    requires ReverseMatches(deps, reverse)
    ensures AreDependentsOf(deps, if idx in reverse then reverse[idx] else [], idx)
  {
    var dependents := if idx in reverse then reverse[idx] else [];
    assert Dependents(reverse, idx) == multiset(dependents);
    forall i
      ensures multiset(dependents)[i] == if i in deps then multiset(deps[i])[idx] else 0
    {
      assert Dependents(reverse, idx)[i] == multiset(dependents)[i];
    }
  }

  /** The state half-way through the decrements for the edges into `idx`. */
  ghost predicate PartlyReleased(deps: Deps, inDegree: map<nat, nat>, before: seq<nat>, released: seq<nat>) {
    && inDegree.Keys == deps.Keys
    && forall i :: i in deps ==> inDegree[i] + multiset(released)[i] == Pending(deps[i], Members(before))
  }

  /** Removes `idx` from the graph: one decrement per edge, and every node whose
      degree drops to zero is inserted into the sorted tail of the queue. */
  method Release(deps: Deps, reverse: map<nat, seq<nat>>, inDegree0: map<nat, nat>, ghost before: seq<nat>, idx: nat, queue0: seq<nat>, head: nat)
    returns (inDegree: map<nat, nat>, queue: seq<nat>)
    requires ReverseMatches(deps, reverse) && Greedy(deps, before) && Available(deps, before, idx)
    requires DegreesMatch(deps, inDegree0, Members(before))
    requires head <= |queue0| && queue0[..head] == before + [idx]
    requires WaitingMatches(inDegree0, before + [idx], queue0[head..])
    ensures head <= |queue| && queue[..head] == before + [idx]
    ensures DegreesMatch(deps, inDegree, Members(before + [idx]))
    ensures WaitingMatches(inDegree, before + [idx], queue[head..])
  {
    inDegree, queue := inDegree0, queue0;
    var dependents := if idx in reverse then reverse[idx] else [];
    CollectDependents(deps, reverse, idx);
    for j := 0 to |dependents|
      invariant head <= |queue| && queue[..head] == before + [idx]
      invariant PartlyReleased(deps, inDegree, before, dependents[..j])
      invariant WaitingMatches(inDegree, before + [idx], queue[head..])
    {
      var dependent := dependents[j];
      ReleaseBounds(deps, dependents, j, before, idx);
      Decrement(deps, inDegree, before, idx, dependents, j, queue[head..]);
      var degree := inDegree[dependent] - 1;
      inDegree := inDegree[dependent := degree];
      if degree == 0 {
        var tail := InsertSorted(queue[head..], dependent);
        queue := queue[..head] + tail;
        assert queue[head..] == tail;
      }
    }
    assert dependents[..|dependents|] == dependents;
    AllReleased(deps, inDegree, before, idx, dependents);
  }

  lemma AllReleased(deps: Deps, inDegree: map<nat, nat>, before: seq<nat>, idx: nat, dependents: seq<nat>)
    requires PartlyReleased(deps, inDegree, before, dependents) && idx !in before
    requires AreDependentsOf(deps, dependents, idx)
    ensures DegreesMatch(deps, inDegree, Members(before + [idx]))
  {
    forall i | i in deps
      ensures inDegree[i] == Pending(deps[i], Members(before + [idx]))
    {
      assert Members(before + [idx]) == Members(before) + {idx};
      PendingAfter(deps[i], Members(before), idx);
    }
  }

  lemma Decrement(deps: Deps, inDegree: map<nat, nat>, before: seq<nat>, idx: nat, dependents: seq<nat>, j: nat, waiting: seq<nat>)
    requires Greedy(deps, before) && Available(deps, before, idx)
    requires j < |dependents| && dependents[j] in deps
    requires AreDependentsOf(deps, dependents, idx)
    requires PartlyReleased(deps, inDegree, before, dependents[..j])
    requires WaitingMatches(inDegree, before + [idx], waiting)
    requires inDegree[dependents[j]] >= 1
    ensures var i := dependents[j];
            var after := inDegree[i := inDegree[i] - 1];
            && PartlyReleased(deps, after, before, dependents[..j + 1])
            && WaitingMatches(after, before + [idx], if after[i] == 0 then InsertSorted(waiting, i) else waiting)
  {
    var i := dependents[j];
    assert dependents[..j + 1] == dependents[..j] + [i];
    NotYetOutput(deps, before, idx, dependents, j);
    InsertMembers(waiting, i);
    if inDegree[i] == 1 {
      InsertKeepsSorted(waiting, i);
    }
  }

  /** The decrement never underflows: an edge being removed is still counted. */
  lemma ReleaseBounds(deps: Deps, dependents: seq<nat>, j: nat, before: seq<nat>, idx: nat)
    requires j < |dependents| && idx !in before
    requires AreDependentsOf(deps, dependents, idx)
    ensures var i := dependents[j];
            && i in deps
            && multiset(dependents[..j + 1])[i] == multiset(dependents[..j])[i] + 1
            && multiset(dependents[..j + 1])[i] <= Pending(deps[i], Members(before))
  {
    var i := dependents[j];
    assert dependents[..j + 1] == dependents[..j] + [i];
    assert dependents == dependents[..j + 1] + dependents[j + 1..];
    assert i in multiset(dependents);
    PendingAfter(deps[i], Members(before), idx);
  }

  /** A node that is still waited for has not been output, and is not `idx` itself. */
  lemma NotYetOutput(deps: Deps, before: seq<nat>, idx: nat, dependents: seq<nat>, j: nat)
    requires j < |dependents| && dependents[j] in deps
    requires idx in deps && Available(deps, before, idx)
    requires AreDependentsOf(deps, dependents, idx)
    requires forall k :: 0 <= k < |before| ==> Available(deps, before[..k], before[k])
    ensures dependents[j] !in before && dependents[j] != idx
  {
    var i := dependents[j];
    assert i in multiset(dependents);
    assert idx in multiset(deps[i]);
    assert idx in deps[i];
    if i in before {
      assert false;
    }
  }

  // ---------------------------------------------------------------------------
  // Sorting the configured tables
  // ---------------------------------------------------------------------------

  /** `order` lists every table once, after every configured table it references. */
  ghost predicate IsTableOrder(tables: seq<Table>, order: seq<nat>) {
    && |order| == |tables|
    && (forall i: nat :: i < |tables| ==> i in order)
    && (forall k :: 0 <= k < |order| ==>
          && order[k] < |tables|
          && order[k] !in order[..k]
          && forall j :: j in References(tables, order[k]) ==> j in order[..k])
  }

  ghost predicate IsLeastTableOrder(tables: seq<Table>, order: seq<nat>) {
    IsTableOrder(tables, order) && forall other :: IsTableOrder(tables, other) ==> LexLeq(order, other)
  }

  lemma LexAsymmetric(a: seq<nat>, b: seq<nat>)
    requires LexLess(a, b)
    ensures !LexLess(b, a)
  {
    var k :| 0 <= k < |a| && k < |b| && a[..k] == b[..k] && a[k] < b[k];
    forall l | 0 <= l < |b| && l < |a| && b[..l] == a[..l]
      ensures a[l] <= b[l]
    {
      if l < k {
        assert a[..k][l] == b[..k][l];
      } else if l > k {
        SamePrefix(a, b, l, k);
        assert false;
      }
    }
  }

  lemma SamePrefix(a: seq<nat>, b: seq<nat>, l: nat, k: nat)
    requires k < l <= |a| && l <= |b| && a[..l] == b[..l]
    ensures a[k] == b[k]
  {
    assert a[..l][k] == b[..l][k];
  }

  /** The order does not depend on how hash maps happen to be iterated. */
  lemma LeastOrderIsUnique(tables: seq<Table>, a: seq<nat>, b: seq<nat>)
    requires IsLeastTableOrder(tables, a) && IsLeastTableOrder(tables, b)
    ensures a == b
  {
    if a != b {
      LexAsymmetric(a, b);
    }
  }

  /** Each name maps to the last position that carries it. */
  ghost predicate IsTableMap(tables: seq<Table>, m: map<string, nat>) {
    && (forall name :: name in m ==> m[name] < |tables| && tables[m[name]].name == name)
    && (forall i :: 0 <= i < |tables| ==> tables[i].name in m && i <= m[tables[i].name])
  }

  method BuildTableMap(tables: seq<Table>) returns (m: map<string, nat>)
    ensures IsTableMap(tables, m)
  {
    m := map[];
    for i := 0 to |tables|
      invariant forall name :: name in m ==> m[name] < i && tables[m[name]].name == name
      invariant forall k :: 0 <= k < i ==> tables[k].name in m && k <= m[tables[k].name]
    {
      m := m[tables[i].name := i];
    }
  }

  /** The dependency recorded for one foreign key, if its target is configured. */
  ghost predicate Links(m: map<string, nat>, table: Table, fk: ForeignKey, i: nat, d: nat) {
    table.name in m && m[table.name] == i && fk.referencesTable in m && m[fk.referencesTable] == d
  }

  ghost predicate LinkedBy(m: map<string, nat>, table: Table, fks: seq<ForeignKey>, i: nat, d: nat) {
    exists q :: 0 <= q < |fks| && Links(m, table, fks[q], i, d)
  }

  ghost predicate LinkedUpTo(tables: seq<Table>, m: map<string, nat>, rows: nat, i: nat, d: nat) {
    exists t :: 0 <= t < rows && t < |tables| && LinkedBy(m, tables[t], tables[t].foreignKeys, i, d)
  }

  ghost predicate Recorded(deps: Deps, i: nat, d: nat) {
    i in deps && d in deps[i]
  }

  method BuildDependencies(tables: seq<Table>, m: map<string, nat>) returns (deps: Deps)
    requires IsTableMap(tables, m)
    ensures AreDependencies(tables, m, deps)
  {
    deps := map[];
    for t := 0 to |tables|
      invariant forall i :: i in deps <==> exists u :: 0 <= u < t && m[tables[u].name] == i
      invariant forall i, d :: Recorded(deps, i, d) <==> LinkedUpTo(tables, m, t, i, d)
    {
      ghost var start := deps;
      deps := AddTable(tables[t], m, deps);
      forall i, d
        ensures Recorded(deps, i, d) <==> LinkedUpTo(tables, m, t + 1, i, d)
      {
        assert Recorded(deps, i, d) <==> Recorded(start, i, d) || LinkedBy(m, tables[t], tables[t].foreignKeys, i, d);
      }
    }
  }

  /** The dependencies of one table, appended to the list of its position. */
  method AddTable(table: Table, m: map<string, nat>, start: Deps) returns (deps: Deps)
    requires table.name in m
    ensures deps.Keys == start.Keys + {m[table.name]}
    ensures forall i, d :: Recorded(deps, i, d) <==> Recorded(start, i, d) || LinkedBy(m, table, table.foreignKeys, i, d)
  {
    var idx := m[table.name];
    deps := if idx in start then start else start[idx := []];
    var fks := table.foreignKeys;
    for q := 0 to |fks|
      invariant deps.Keys == start.Keys + {idx}
      invariant forall i, d :: Recorded(deps, i, d) <==> Recorded(start, i, d) || LinkedBy(m, table, fks[..q], i, d)
    {
      var target := fks[q].referencesTable;
      ghost var before := deps;
      if target in m {
        deps := deps[idx := deps[idx] + [m[target]]];
      }
      forall i, d
        ensures Recorded(deps, i, d) <==> Recorded(start, i, d) || LinkedBy(m, table, fks[..q + 1], i, d)
      {
        LinkAppended(m, table, fks, q, i, d);
        assert Recorded(deps, i, d) <==> Recorded(before, i, d) || Links(m, table, fks[q], i, d);
      }
    }
    assert fks[..|fks|] == fks;
  }

  lemma LinkAppended(m: map<string, nat>, table: Table, fks: seq<ForeignKey>, q: nat, i: nat, d: nat)
    requires q < |fks|
    ensures LinkedBy(m, table, fks[..q + 1], i, d) <==> LinkedBy(m, table, fks[..q], i, d) || Links(m, table, fks[q], i, d)
  {
    var longer := fks[..q + 1];
    if LinkedBy(m, table, fks[..q], i, d) {
      var k :| 0 <= k < q && Links(m, table, fks[..q][k], i, d);
      assert longer[k] == fks[k];
    }
    if Links(m, table, fks[q], i, d) {
      assert longer[q] == fks[q];
    }
    if LinkedBy(m, table, longer, i, d) {
      var k :| 0 <= k <= q && Links(m, table, longer[k], i, d);
      if k < q {
        assert fks[..q][k] == fks[k];
      }
    }
  }

  lemma DependenciesClosed(tables: seq<Table>, m: map<string, nat>, deps: Deps)
    requires IsTableMap(tables, m) && AreDependencies(tables, m, deps)
    ensures Closed(deps)
  {
    forall i, d | i in deps && d in deps[i]
      ensures d in deps
    {
      assert Recorded(deps, i, d);
      var t :| 0 <= t < |tables| && LinkedBy(m, tables[t], tables[t].foreignKeys, i, d);
      assert m[tables[d].name] == d;
    }
  }

  /** With distinct names the dependency map is the foreign-key graph. */
  lemma DependenciesOfDistinct(tables: seq<Table>, m: map<string, nat>, deps: Deps)
    requires IsTableMap(tables, m) && AreDependencies(tables, m, deps) && DistinctNames(tables)
    ensures |deps| == |tables| && DepsGraph(deps) == ForeignKeyGraph(tables)
  {
    NodesOfDistinct(tables, m, deps);
    assert deps.Keys == Below(|tables|);
    assert |deps| == |deps.Keys|;
    forall i: nat | i < |tables|
      ensures DepsGraph(deps)[i] == References(tables, i)
    {
      ReferencesRecorded(tables, m, deps, i);
    }
  }

  lemma NodesOfDistinct(tables: seq<Table>, m: map<string, nat>, deps: Deps)
    requires IsTableMap(tables, m) && AreDependencies(tables, m, deps) && DistinctNames(tables)
    ensures forall i :: i in deps <==> 0 <= i < |tables|
    ensures forall i :: 0 <= i < |tables| ==> m[tables[i].name] == i
  {
    forall i | 0 <= i < |tables|
      ensures i in deps && m[tables[i].name] == i
    {
      var last := m[tables[i].name];
      assert last == i;
    }
  }

  /** A repeated name leaves the dependency map with fewer nodes than there are tables. */
  lemma DependenciesOfRepeated(tables: seq<Table>, m: map<string, nat>, deps: Deps)
    requires IsTableMap(tables, m) && AreDependencies(tables, m, deps) && !DistinctNames(tables)
    ensures |deps| < |tables|
  {
    var all := Below(|tables|);
    var i, j :| 0 <= i < j < |tables| && tables[i].name == tables[j].name;
    assert forall t :: 0 <= t < |tables| && m[tables[t].name] == i ==> tables[t].name == tables[i].name;
    assert i !in deps;
    Subset(deps.Keys, all - {i});
    assert |deps| == |deps.Keys|;
  }

  lemma ReferencesRecorded(tables: seq<Table>, m: map<string, nat>, deps: Deps, i: nat)
    requires IsTableMap(tables, m) && DistinctNames(tables) && i < |tables| && i in deps
    requires forall t :: 0 <= t < |tables| ==> m[tables[t].name] == t
    requires AreDependencies(tables, m, deps)
    ensures (set d | d in deps[i]) == References(tables, i)
  {
    forall d: nat
      ensures d in deps[i] <==> d in References(tables, i)
    {
      assert Recorded(deps, i, d) <==> d in deps[i];
      if d in deps[i] {
        var t :| 0 <= t < |tables| && LinkedBy(m, tables[t], tables[t].foreignKeys, i, d);
        var q :| 0 <= q < |tables[t].foreignKeys| && Links(m, tables[t], tables[t].foreignKeys[q], i, d);
        assert t == i;
        assert tables[i].foreignKeys[q] in tables[i].foreignKeys;
        assert DependsOn(tables, i, d);
      }
      if d in References(tables, i) {
        var f :| f in tables[i].foreignKeys && f.referencesTable == tables[d].name;
        var q :| 0 <= q < |tables[i].foreignKeys| && tables[i].foreignKeys[q] == f;
        assert Links(m, tables[i], tables[i].foreignKeys[q], i, d);
        assert LinkedBy(m, tables[i], tables[i].foreignKeys, i, d);
      }
    }
  }

  ghost function Below(n: nat): (r: set<nat>)
    ensures |r| == n && forall i :: i in r <==> 0 <= i < n
  {
    if n == 0 then {} else Below(n - 1) + {n - 1}
  }

  /** The names of the tables that the sort did not reach. */
  method UnplacedNames(tables: seq<Table>, m: map<string, nat>, result: seq<nat>) returns (names: seq<string>)
    requires IsTableMap(tables, m)
    ensures AreUnplaced(tables, m, result, names)
  {
    names := [];
    for i := 0 to |tables|
      invariant AreUnplaced(tables[..i], m, result, names)
    {
      ghost var before := names;
      if m[tables[i].name] !in result {
        names := names + [tables[i].name];
      }
      assert tables[..i + 1] == tables[..i] + [tables[i]];
      forall name
        ensures name in names <==> IsUnplaced(tables[..i + 1], m, result, name)
      {
        assert name in before <==> IsUnplaced(tables[..i], m, result, name);
      }
    }
    assert tables[..|tables|] == tables;
  }

  ghost predicate IsUnplaced(tables: seq<Table>, m: map<string, nat>, result: seq<nat>, name: string) {
    name in m && m[name] !in result && exists t :: t in tables && t.name == name
  }

  ghost predicate AreUnplaced(tables: seq<Table>, m: map<string, nat>, result: seq<nat>, names: seq<string>) {
    forall name :: name in names <==> IsUnplaced(tables, m, result, name)
  }

  ghost predicate Picks(tables: seq<Table>, order: seq<nat>, sorted: seq<Table>) {
    |sorted| == |order| && forall k :: 0 <= k < |order| ==> order[k] < |tables| && sorted[k] == tables[order[k]]
  }

  method PickTables(tables: seq<Table>, order: seq<nat>) returns (sorted: seq<Table>)
    requires forall i :: i in order ==> i < |tables|
    ensures Picks(tables, order, sorted)
  {
    sorted := [];
    for k := 0 to |order|
      invariant |sorted| == k
      invariant forall q :: 0 <= q < k ==> order[q] < |tables| && sorted[q] == tables[order[q]]
    {
      assert order[k] in order;
      sorted := sorted + [tables[order[k]]];
    }
  }

  /** Sorts the tables, or names the ones that could not be placed. */
  method SortTablesTopologically(tables: seq<Table>) returns (r: Result<seq<Table>, SortError>, ghost order: seq<nat>)
    ensures r.Ok? <==> DistinctNames(tables) && Acyclic(ForeignKeyGraph(tables))
    ensures r.Ok? ==> IsLeastTableOrder(tables, order) && Picks(tables, order, r.value)
    ensures r.Err? && DistinctNames(tables) ==> NamesAreStuck(tables, r.error.names)
  {
    var m := BuildTableMap(tables);
    var deps := BuildDependencies(tables, m);
    DependenciesClosed(tables, m, deps);
    var result := KahnOrder(deps);
    order := result;
    SortOutcome(tables, m, deps, result);
    if |result| != |tables| {
      var names := UnplacedNames(tables, m, result);
      if DistinctNames(tables) {
        UnplacedAreStuck(tables, m, deps, result, names);
      }
      return Err(CircularDependency(names)), order;
    }
    var sorted := PickTables(tables, result);
    return Ok(sorted), order;
  }

  ghost predicate AreDependencies(tables: seq<Table>, m: map<string, nat>, deps: Deps)
    requires IsTableMap(tables, m)
  {
    && (forall i :: i in deps <==> exists t :: 0 <= t < |tables| && m[tables[t].name] == i)
    && (forall i, d :: Recorded(deps, i, d) <==> LinkedUpTo(tables, m, |tables|, i, d))
  }

  lemma SortOutcome(tables: seq<Table>, m: map<string, nat>, deps: Deps, order: seq<nat>)
    requires IsTableMap(tables, m) && AreDependencies(tables, m, deps)
    requires Greedy(deps, order) && Exhausted(deps, order)
    ensures |order| == |tables| <==> DistinctNames(tables) && Acyclic(ForeignKeyGraph(tables))
    ensures |order| == |tables| ==> IsLeastTableOrder(tables, order)
    ensures forall i :: i in order ==> i < |tables|
    ensures DistinctNames(tables) ==> |deps| == |tables| && DepsGraph(deps) == ForeignKeyGraph(tables)
  {
    DependenciesClosed(tables, m, deps);
    if DistinctNames(tables) {
      DependenciesOfDistinct(tables, m, deps);
    } else {
      DependenciesOfRepeated(tables, m, deps);
    }
    assert forall i :: i in deps ==> i < |tables|;
    TopologicalIsComplete(deps, order);
    ExhaustedCompleteIffAcyclic(deps, order);
    if |order| == |tables| {
      GreedyTableOrder(tables, deps, order);
    }
  }

  /** Some table is named, and each named table references another named one or itself. */
  ghost predicate NamesAreStuck(tables: seq<Table>, names: seq<string>) {
    && names != []
    && forall name :: name in names ==> ReferencesOneOf(tables, name, names)
  }

  ghost predicate ReferencesOneOf(tables: seq<Table>, name: string, names: seq<string>) {
    exists i, j :: 0 <= i < |tables| && j in References(tables, i) && tables[i].name == name && tables[j].name in names
  }

  lemma UnplacedAreStuck(tables: seq<Table>, m: map<string, nat>, deps: Deps, order: seq<nat>, names: seq<string>)
    requires IsTableMap(tables, m) && DistinctNames(tables)
    requires |deps| == |tables| && DepsGraph(deps) == ForeignKeyGraph(tables)
    requires Greedy(deps, order) && Exhausted(deps, order) && |order| != |tables|
    requires AreUnplaced(tables, m, order, names)
    ensures NamesAreStuck(tables, names)
  {
    SomeUnplaced(tables, m, deps, order, names);
    forall name | name in names
      ensures ReferencesOneOf(tables, name, names)
    {
      StuckName(tables, m, deps, order, names, name);
    }
  }

  lemma SomeUnplaced(tables: seq<Table>, m: map<string, nat>, deps: Deps, order: seq<nat>, names: seq<string>)
    requires IsTableMap(tables, m) && DistinctNames(tables) && AreUnplaced(tables, m, order, names)
    requires |deps| == |tables| && DepsGraph(deps) == ForeignKeyGraph(tables)
    requires Greedy(deps, order) && |order| != |tables|
    ensures names != []
  {
    GraphNodes(tables, deps);
    TopologicalIsComplete(deps, order);
    var w :| w in deps && w !in order;
    UnplacedHere(tables, m, order, names, w);
  }

  lemma StuckName(tables: seq<Table>, m: map<string, nat>, deps: Deps, order: seq<nat>, names: seq<string>, name: string)
    requires IsTableMap(tables, m) && DistinctNames(tables) && DepsGraph(deps) == ForeignKeyGraph(tables)
    requires Exhausted(deps, order) && AreUnplaced(tables, m, order, names) && name in names
    ensures ReferencesOneOf(tables, name, names)
  {
    assert IsUnplaced(tables, m, order, name);
    var i := m[name];
    var j := StuckOn(tables, deps, order, i);
    UnplacedHere(tables, m, order, names, j);
  }

  lemma UnplacedHere(tables: seq<Table>, m: map<string, nat>, order: seq<nat>, names: seq<string>, i: nat)
    requires IsTableMap(tables, m) && DistinctNames(tables) && AreUnplaced(tables, m, order, names)
    requires i < |tables| && i !in order
    ensures tables[i].name in names
  {
    var last := m[tables[i].name];
    assert last == i && tables[i] in tables;
    assert IsUnplaced(tables, m, order, tables[i].name);
  }

  lemma StuckOn(tables: seq<Table>, deps: Deps, order: seq<nat>, i: nat) returns (j: nat)
    requires DepsGraph(deps) == ForeignKeyGraph(tables)
    requires Exhausted(deps, order) && i < |tables| && i !in order
    ensures j in References(tables, i) && j !in order
  {
    GraphNodes(tables, deps);
    assert !Available(deps, order, i);
    j :| j in deps[i] && j !in order;
  }

  lemma GraphNodes(tables: seq<Table>, deps: Deps)
    requires DepsGraph(deps) == ForeignKeyGraph(tables)
    ensures forall i :: i in deps <==> 0 <= i < |tables|
    ensures forall i, d :: i in deps ==> (d in deps[i] <==> d in References(tables, i))
  {
    assert forall i :: i in deps <==> i in DepsGraph(deps);
    assert forall i :: i in ForeignKeyGraph(tables) <==> 0 <= i < |tables|;
    forall i | i in deps
      ensures forall d :: d in deps[i] <==> d in References(tables, i)
    {
      assert DepsGraph(deps)[i] == References(tables, i);
      assert forall d :: d in deps[i] <==> d in DepsGraph(deps)[i];
    }
  }

  lemma GreedyTableOrder(tables: seq<Table>, deps: Deps, order: seq<nat>)
    requires |deps| == |tables| && DepsGraph(deps) == ForeignKeyGraph(tables)
    requires Greedy(deps, order) && |order| == |tables|
    ensures IsLeastTableOrder(tables, order)
  {
    GraphNodes(tables, deps);
    TopologicalIsComplete(deps, order);
    forall other | IsTableOrder(tables, other)
      ensures LexLeq(order, other)
    {
      forall k | 0 <= k < |other|
        ensures Available(deps, other[..k], other[k])
      {
      }
      GreedyIsLeast(deps, order, other);
    }
  }
}
