/** Role hierarchy: validation at load time, the inheritance map kept in the
    application state, and the access decision taken for a request. */
module RoleHierarchy {
  import opened Wrappers
  import opened Digraph

  /** Role name to the list of parent roles it inherits from. */
  type Roles = map<string, seq<string>>

  ghost function GraphOf(roles: Roles): Graph<string> {
    map r | r in roles :: (set p | p in roles[r])
  }

  /** Every role name that occurs, as a key or only as a parent. */
  ghost function Mentioned(roles: Roles): set<string> {
    roles.Keys + (set r, p | r in roles && p in roles[r] :: p)
  }

  // ---------------------------------------------------------------------------
  // Cycle detection
  // ---------------------------------------------------------------------------

  const UNVISITED: nat := 0
  const VISITING: nat := 1
  const VISITED: nat := 2

  datatype HierarchyError = SelfParent(role: string) | CycleFound(path: seq<string>)

  /** Consecutive entries are joined by a parent edge or repeat one role (the
      message of a nested call starts with the parent that was just named). */
  ghost predicate IsReportedWalk(roles: Roles, path: seq<string>) {
    && |path| >= 2
    && forall i :: 0 <= i < |path| - 1 ==> path[i] == path[i + 1] || Edge(GraphOf(roles), path[i], path[i + 1])
  }

  function ColorOf(state: map<string, nat>, r: string): nat {
    if r in state then state[r] else UNVISITED
  }

  ghost function Unvisited(roles: Roles, state: map<string, nat>): set<string> {
    set r | r in Mentioned(roles) && ColorOf(state, r) == UNVISITED
  }

  /** The colour map agrees with the order in which roles were finished, and
      that order lists every role after all of its parents. */
  ghost predicate Consistent(roles: Roles, state: map<string, nat>, finished: seq<string>) {
    && SuccessorsFirst(GraphOf(roles), finished)
    && (forall r :: ColorOf(state, r) == VISITED <==> r in finished)
    && (forall r :: ColorOf(state, r) <= VISITED)
  }

  /** Colours only move away from UNVISITED; everything already marked stays as it was. */
  ghost predicate Progress(roles: Roles, before: map<string, nat>, after: map<string, nat>) {
    forall r :: ColorOf(before, r) != UNVISITED ==> ColorOf(after, r) == ColorOf(before, r)
  }

  /** Every role still marked VISITING is `role` or a (possibly distant) child of it. */
  ghost predicate VisitingReach(roles: Roles, state: map<string, nat>, role: string) {
    forall r :: ColorOf(state, r) == VISITING ==> ReachesStar(GraphOf(roles), r, role)
  }

  /** The depth-first search over the parent graph, with its shared colour map. */
  class CycleSearch {
    const roles: Roles
    var state: map<string, nat>
    /** Roles in the order in which they turned VISITED. */
    ghost var finished: seq<string>

    ghost predicate Valid()
      reads this
    {
      Consistent(roles, state, finished)
    }

    constructor (roles: Roles)
      ensures this.roles == roles && Valid()
      ensures forall r :: ColorOf(state, r) == UNVISITED
    {
      this.roles := roles;
      state := map r | r in roles :: UNVISITED;
      finished := [];
    }

    method DetectCycle(role: string) returns (cycle: Option<seq<string>>)
      requires Valid() && role in Unvisited(roles, state)
      modifies this
      ensures Valid() && Progress(roles, old(state), state)
      ensures Unvisited(roles, state) < Unvisited(roles, old(state))
      ensures ColorOf(state, role) != UNVISITED && (cycle.None? ==> ColorOf(state, role) == VISITED)
      ensures cycle.None? ==> forall r :: ColorOf(state, r) == VISITING ==> ColorOf(old(state), r) == VISITING
      ensures cycle.Some? ==> GenuineReport(roles, old(state), role, cycle.value)
      decreases Unvisited(roles, state), 0
    {
      ghost var entry := state;
      state := state[role := VISITING];
      MarkVisiting(roles, entry, role);
      if role in roles {
        var parents := roles[role];
        for i := 0 to |parents|
          invariant Valid() && Progress(roles, entry, state)
          invariant Unvisited(roles, state) < Unvisited(roles, entry)
          invariant ColorOf(state, role) == VISITING
          invariant forall r :: ColorOf(state, r) == VISITING ==> r == role || ColorOf(entry, r) == VISITING
          invariant forall k :: 0 <= k < i ==> ColorOf(state, parents[k]) == VISITED
        {
          assert Edge(GraphOf(roles), role, parents[i]);
          cycle := VisitParent(role, parents[i], entry);
          if cycle.Some? {
            return;
          }
        }
      }
      AppendFinished(GraphOf(roles), finished, role);
      MarkVisited(roles, state, role);
      state := state[role := VISITED];
      finished := finished + [role];
      return None;
    }

    /** The three-way match on the colour of one parent. */
    method VisitParent(role: string, parent: string, ghost entry: map<string, nat>) returns (cycle: Option<seq<string>>)
      requires Valid() && Edge(GraphOf(roles), role, parent)
      requires ColorOf(state, role) == VISITING && ColorOf(entry, role) == UNVISITED
      requires forall r :: ColorOf(state, r) == VISITING ==> r == role || ColorOf(entry, r) == VISITING
      modifies this
      ensures Valid() && Progress(roles, old(state), state)
      ensures Unvisited(roles, state) <= Unvisited(roles, old(state))
      ensures cycle.None? ==> ColorOf(state, parent) == VISITED
      ensures cycle.None? ==> forall r :: ColorOf(state, r) == VISITING ==> ColorOf(old(state), r) == VISITING
      ensures cycle.Some? ==> GenuineReport(roles, entry, role, cycle.value)
      decreases Unvisited(roles, state), 1
    {
      VisitingReachesParent(roles, entry, state, role, parent);
      if ColorOf(state, parent) == UNVISITED {
        ghost var marked := state;
        var nested := DetectCycle(parent);
        if nested.Some? {
          ReportNested(roles, entry, marked, role, parent, nested.value);
          return Some([role, parent] + nested.value);
        }
      } else if ColorOf(state, parent) == VISITING {
        ClosingEdge(roles, entry, role, parent);
        return Some([role, parent]);
      }
      return None;
    }
  }

  /** What a report tells. The walk follows parent edges from `role` and ends on
      itself, or on a role an earlier report left marked; if no such stale marks
      could mislead the search, the graph has a cycle. */
  ghost predicate GenuineReport(roles: Roles, entry: map<string, nat>, role: string, path: seq<string>) {
    && IsReportedWalk(roles, path) && path[0] == role
    && EndsOnMarked(entry, path)
    && (VisitingReach(roles, entry, role) ==> !Acyclic(GraphOf(roles)))
  }

  /** The reported walk closes on itself, or on a role that an earlier report left marked. */
  ghost predicate EndsOnMarked(entry: map<string, nat>, path: seq<string>) {
    |path| > 0 && (path[|path| - 1] in path[..|path| - 1] || ColorOf(entry, path[|path| - 1]) == VISITING)
  }

  lemma MarkVisiting(roles: Roles, entry: map<string, nat>, role: string)
    requires role in Unvisited(roles, entry)
    ensures Unvisited(roles, entry[role := VISITING]) < Unvisited(roles, entry)
  {
    assert role !in Unvisited(roles, entry[role := VISITING]);
    assert Unvisited(roles, entry[role := VISITING]) <= Unvisited(roles, entry);
  }

  lemma MarkVisited(roles: Roles, state: map<string, nat>, role: string)
    requires ColorOf(state, role) == VISITING
    ensures Unvisited(roles, state[role := VISITED]) == Unvisited(roles, state)
  {
  }

  lemma AppendFinished(g: Graph<string>, finished: seq<string>, role: string)
    requires SuccessorsFirst(g, finished) && role !in finished
    requires forall p :: Edge(g, role, p) ==> p in finished
    ensures SuccessorsFirst(g, finished + [role])
  {
    var order := finished + [role];
    forall i, b | 0 <= i < |order| && Edge(g, order[i], b)
      ensures b in order[..i]
    {
      assert order[..i] == finished[..i];
    }
  }

  lemma VisitingReachesParent(roles: Roles, entry: map<string, nat>, state: map<string, nat>, role: string, parent: string)
    requires Edge(GraphOf(roles), role, parent)
    requires forall r :: ColorOf(state, r) == VISITING ==> r == role || ColorOf(entry, r) == VISITING
    ensures VisitingReach(roles, entry, role) ==> VisitingReach(roles, state, parent)
  {
    if VisitingReach(roles, entry, role) {
      forall r | ColorOf(state, r) == VISITING
        ensures ReachesStar(GraphOf(roles), r, parent)
      {
        ReachesSelf(GraphOf(roles), role);
        StarThenEdge(GraphOf(roles), r, role, parent);
        PlusIsStar(GraphOf(roles), r, parent);
      }
    }
  }

  lemma ClosingEdge(roles: Roles, entry: map<string, nat>, role: string, parent: string)
    requires Edge(GraphOf(roles), role, parent)
    requires parent == role || ColorOf(entry, parent) == VISITING
    ensures GenuineReport(roles, entry, role, [role, parent])
  {
    assert [role, parent][..1] == [role];
    if VisitingReach(roles, entry, role) {
      ReachesSelf(GraphOf(roles), role);
      StarThenEdge(GraphOf(roles), parent, role, parent);
    }
  }

  lemma ReportNested(roles: Roles, entry: map<string, nat>, marked: map<string, nat>, role: string, parent: string, nested: seq<string>)
    requires Edge(GraphOf(roles), role, parent)
    requires forall r :: ColorOf(marked, r) == VISITING ==> r == role || ColorOf(entry, r) == VISITING
    requires VisitingReach(roles, entry, role) ==> VisitingReach(roles, marked, parent)
    requires GenuineReport(roles, marked, parent, nested)
    ensures GenuineReport(roles, entry, role, [role, parent] + nested)
  {
    var path := [role, parent] + nested;
    forall i | 0 <= i < |path| - 1
      ensures path[i] == path[i + 1] || Edge(GraphOf(roles), path[i], path[i + 1])
    {
      if i >= 2 {
        assert path[i] == nested[i - 2] && path[i + 1] == nested[i - 1];
      }
    }
    assert path[..|path| - 1] == [role, parent] + nested[..|nested| - 1];
    assert path[0] == role && path[..|path| - 1][0] == role;
  }

  /** The roles named in an error are joined by parent edges. */
  ghost predicate NamesEdges(roles: Roles, error: HierarchyError) {
    match error
    case SelfParent(role) => Edge(GraphOf(roles), role, role)
    case CycleFound(path) => IsReportedWalk(roles, path)
  }

  /** Appends one error per self-parent and one per search that reports a cycle;
      the keys of the hash map are visited in whatever order it yields them. */
  method ValidateRoleHierarchy(hierarchy: Option<Roles>, before: seq<HierarchyError>)
    returns (errors: seq<HierarchyError>)
    ensures before <= errors
    ensures errors == before <==> hierarchy.None? || Acyclic(GraphOf(hierarchy.value))
    ensures hierarchy.Some? ==> forall k :: |before| <= k < |errors| ==> NamesEdges(hierarchy.value, errors[k])
  {
    errors := before;
    if hierarchy.None? {
      return;
    }
    var roles := hierarchy.value;
    var remaining := roles.Keys;
    while remaining != {}
      invariant before <= errors && remaining <= roles.Keys
      invariant errors != before ==> !Acyclic(GraphOf(roles))
      invariant forall k :: |before| <= k < |errors| ==> NamesEdges(roles, errors[k])
    {
      var role :| role in remaining;
      remaining := remaining - {role};
      if role in roles[role] {
        errors := errors + [SelfParent(role)];
        EdgeReaches(GraphOf(roles), role, role);
      }
    }

    var search := new CycleSearch(roles);
    remaining := roles.Keys;
    while remaining != {}
      invariant before <= errors && remaining <= roles.Keys
      invariant search.roles == roles && search.Valid()
      invariant errors != before ==> !Acyclic(GraphOf(roles))
      invariant forall k :: |before| <= k < |errors| ==> NamesEdges(roles, errors[k])
      invariant errors == before ==> forall r :: ColorOf(search.state, r) != VISITING
      invariant forall r :: r in roles.Keys - remaining ==> ColorOf(search.state, r) != UNVISITED
    {
      var role :| role in remaining;
      remaining := remaining - {role};
      if ColorOf(search.state, role) == UNVISITED {
        var cycle := search.DetectCycle(role);
        if cycle.Some? {
          errors := errors + [CycleFound(cycle.value)];
        }
      }
    }
    if errors == before {
      OrderedIsAcyclic(GraphOf(roles), search.finished);
    }
  }

  // ---------------------------------------------------------------------------
  // Inheritance map
  // ---------------------------------------------------------------------------

  /** `closure` sends each defined role to exactly the roles one or more parent steps away. */
  ghost predicate IsInheritance(roles: Roles, closure: map<string, set<string>>) {
    && closure.Keys == roles.Keys
    && forall r, x :: r in closure ==> (x in closure[r] <==> ReachesPlus(GraphOf(roles), r, x))
  }

  method InheritedRoles(roles: Roles, role: string) returns (inherited: set<string>)
    requires role in roles
    ensures forall x :: x in inherited <==> ReachesPlus(GraphOf(roles), role, x)
  {
    ghost var g := GraphOf(roles);
    inherited := {};
    var stack := roles[role];
    forall x | x in stack
      ensures ReachesPlus(g, role, x)
    {
      EdgeReaches(g, role, x);
    }
    while stack != []
      invariant forall x :: x in inherited || x in stack ==> ReachesPlus(g, role, x)
      invariant forall x :: Edge(g, role, x) ==> x in inherited || x in stack
      invariant forall a, x :: a in inherited && Edge(g, a, x) ==> x in inherited || x in stack
      invariant forall x :: x in inherited || x in stack ==> x in Mentioned(roles)
      decreases Mentioned(roles) - inherited, |stack|
    {
      ghost var before := stack;
      var parent := stack[|stack| - 1];
      stack := stack[..|stack| - 1];
      assert before == stack + [parent];
      if parent !in inherited {
        inherited := inherited + {parent};
        if parent in roles {
          ParentsReachable(roles, role, parent);
          stack := stack + roles[parent];
        }
      }
    }
    forall x | ReachesPlus(g, role, x)
      ensures x in inherited
    {
      var first := PlusFirstEdge(g, role, x);
      var p :| PathBetween(g, first, x, p);
      ClosedSetHoldsReachable(g, inherited, p);
    }
  }

  lemma ParentsReachable(roles: Roles, role: string, parent: string)
    requires parent in roles && ReachesPlus(GraphOf(roles), role, parent)
    ensures forall x :: x in roles[parent] ==> ReachesPlus(GraphOf(roles), role, x)
  {
    var g := GraphOf(roles);
    forall x | x in roles[parent]
      ensures ReachesPlus(g, role, x)
    {
      PlusIsStar(g, role, parent);
      assert Edge(g, parent, x);
      StarThenEdge(g, role, parent, x);
    }
  }

  method ComputeRoleInheritance(hierarchy: Option<Roles>) returns (closure: map<string, set<string>>)
    ensures hierarchy.None? ==> closure == map[]
    ensures hierarchy.Some? ==> IsInheritance(hierarchy.value, closure)
  {
    closure := map[];
    if hierarchy.None? {
      return;
    }
    var roles := hierarchy.value;
    var remaining := roles.Keys;
    while remaining != {}
      invariant remaining <= roles.Keys && closure.Keys == roles.Keys - remaining
      invariant forall r, x :: r in closure ==> (x in closure[r] <==> ReachesPlus(GraphOf(roles), r, x))
    {
      var role :| role in remaining;
      var inherited := InheritedRoles(roles, role);
      closure := closure[role := inherited];
      remaining := remaining - {role};
    }
  }

  // ---------------------------------------------------------------------------
  // Access decision
  // ---------------------------------------------------------------------------

  datatype Forbidden = NoRole | NotAuthorized(role: string)

  function CheckRoles(userRole: Option<string>, required: seq<string>, inheritance: map<string, set<string>>)
    : (r: Result<(), Forbidden>)
  {
    if required == [] then Ok(())
    else if userRole.None? then Err(NoRole)
    else if userRole.value in required then Ok(())
    else if userRole.value in inheritance && exists i :: 0 <= i < |required| && required[i] in inheritance[userRole.value] then Ok(())
    else Err(NotAuthorized(userRole.value))
  }

  /** What access means, without the inheritance map: no role is required, or the
      user's role is, or lies below, one of the required ones. */
  ghost predicate MayAccess(roles: Roles, userRole: Option<string>, required: seq<string>) {
    || required == []
    || (userRole.Some? && exists i :: 0 <= i < |required| && ReachesStar(GraphOf(roles), userRole.value, required[i]))
  }

  lemma CheckRolesIsReachability(roles: Roles, closure: map<string, set<string>>, userRole: Option<string>, required: seq<string>)
    requires IsInheritance(roles, closure)
    ensures CheckRoles(userRole, required, closure).Ok? <==> MayAccess(roles, userRole, required)
  {
    var g := GraphOf(roles);
    if required != [] && userRole.Some? {
      var user := userRole.value;
      forall i | 0 <= i < |required|
        ensures ReachesStar(g, user, required[i]) <==>
                user == required[i] || (user in closure && required[i] in closure[user])
      {
        PlusIsStar(g, user, required[i]);
        ReachesSelf(g, user);
        if ReachesPlus(g, user, required[i]) {
          var first := PlusFirstEdge(g, user, required[i]);
          assert user in roles;
        }
      }
    }
  }

  /** A role that inherits from another may do whatever the other may. */
  lemma AccessMonotone(roles: Roles, closure: map<string, set<string>>, child: string, ancestor: string, required: seq<string>)
    requires IsInheritance(roles, closure)
    requires child in closure && ancestor in closure[child]
    requires CheckRoles(Some(ancestor), required, closure).Ok?
    ensures CheckRoles(Some(child), required, closure).Ok?
  {
    CheckRolesIsReachability(roles, closure, Some(ancestor), required);
    CheckRolesIsReachability(roles, closure, Some(child), required);
    if required != [] {
      var i :| 0 <= i < |required| && ReachesStar(GraphOf(roles), ancestor, required[i]);
      PlusIsStar(GraphOf(roles), child, ancestor);
      StarTransitive(GraphOf(roles), child, ancestor, required[i]);
    }
  }

  ghost predicate Inherits(closure: map<string, set<string>>, a: string, b: string) {
    a in closure && b in closure[a]
  }

  ghost predicate StrictPartialOrder(closure: map<string, set<string>>) {
    && (forall a :: !Inherits(closure, a, a))
    && (forall a, b :: Inherits(closure, a, b) ==> !Inherits(closure, b, a))
    && (forall a, b, c :: Inherits(closure, a, b) && Inherits(closure, b, c) ==> Inherits(closure, a, c))
  }

  /** The inheritance relation is a strict partial order exactly on acyclic hierarchies. */
  lemma InheritanceOrder(roles: Roles, closure: map<string, set<string>>)
    requires IsInheritance(roles, closure)
    ensures StrictPartialOrder(closure) <==> Acyclic(GraphOf(roles))
  {
    var g := GraphOf(roles);
    forall a
      ensures Inherits(closure, a, a) <==> ReachesPlus(g, a, a)
    {
      if ReachesPlus(g, a, a) {
        var first := PlusFirstEdge(g, a, a);
      }
    }
    forall a, b, c | Inherits(closure, a, b) && Inherits(closure, b, c)
      ensures Inherits(closure, a, c)
    {
      PlusIsStar(g, b, c);
      PlusThenStar(g, a, b, c);
    }
  }

  /** Load-time validation, the inheritance map and the request check, composed:
      a validated hierarchy is a strict partial order and grants access exactly
      to the roles at or above a required one. */
  method ValidateThenAuthorize(roles: Roles, userRole: Option<string>, required: seq<string>)
    returns (errors: seq<HierarchyError>, decision: Result<(), Forbidden>)
    ensures errors == [] <==> Acyclic(GraphOf(roles))
    ensures decision.Ok? <==> MayAccess(roles, userRole, required)
    ensures errors == [] ==> exists closure :: IsInheritance(roles, closure) && StrictPartialOrder(closure)
  {
    errors := ValidateRoleHierarchy(Some(roles), []);
    var closure := ComputeRoleInheritance(Some(roles));
    decision := CheckRoles(userRole, required, closure);
    CheckRolesIsReachability(roles, closure, userRole, required);
    InheritanceOrder(roles, closure);
  }
}
