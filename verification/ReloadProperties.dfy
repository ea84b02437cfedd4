/** What every interleaving of reloads guarantees to readers, and about pools and the registry. */
module ReloadProperties {
  import opened Reload

  // ---------------------------------------------------------------------------
  // What readers see
  // ---------------------------------------------------------------------------

  ghost predicate OneGeneration(s: System) {
    s.config == s.pools == s.storeConfigs
  }

  /** Whoever holds one of the three locks for reading finds all three values of one
      generation, the newest; in particular a reader that holds all of them. */
  lemma ReadersSeeOneGeneration(s: System, p: nat, lock: Lock)
    requires Reachable(s) && p in s.procs && lock != RegistryLock && Reads(s.procs[p], lock)
    ensures s.log != [] && OneGeneration(s) && s.config == Current(s)
  {
    ReachableInv(s);
    forall q | q in s.procs
      ensures !s.procs[q].PoolsSwapped? && !s.procs[q].ConfigSet?
    {
      if s.procs[q].PoolsSwapped? || s.procs[q].ConfigSet? {
        assert Writes(s.procs[q], lock);
      }
    }
  }

  /** Outside a swap the three values are those of the newest reload that swapped. */
  lemma TripleIsNewestSwap(s: System)
    requires Reachable(s)
    requires forall p :: p in s.procs ==> !s.procs[p].PoolsSwapped? && !s.procs[p].ConfigSet?
    ensures s.log != [] && OneGeneration(s) && s.config == Current(s)
  {
    ReachableInv(s);
  }

  /** A reload is in the log exactly when it got past the swap, so one that failed
      before it has left nothing behind in any of the shared values. */
  lemma FailureBeforeSwapLeavesNoTrace(s: System, p: nat)
    requires Reachable(s)
    ensures By(p) in s.log <==> p in s.procs && Swapped(s.procs[p])
    ensures By(p) !in s.log ==> s.pools != By(p) && s.registry != By(p)
    ensures By(p) !in s.log && p in s.procs ==> s.config != By(p) && s.storeConfigs != By(p)
  {
    ReachableInv(s);
    if p in s.procs && Swapped(s.procs[p]) {
      var k :| 0 < k < |s.log| && s.log[k] == By(p) && s.log[k - 1] == s.procs[p].replaced;
    }
    ReachableTraces(s);
  }

  ghost predicate Traces(s: System) {
    s.config in s.log && s.storeConfigs in s.log
  }

  lemma ReachableTraces(s: System)
    requires Reachable(s)
    ensures Traces(s)
  {
    var states :| Run(states) && states[|states| - 1] == s;
    RunTraces(states, |states| - 1);
  }

  lemma {:induction false} RunTraces(states: seq<System>, i: nat)
    requires Run(states) && i < |states|
    ensures Traces(states[i])
  {
    if i > 0 {
      RunTraces(states, i - 1);
      RunKeepsInv(states, i - 1);
      var s, s' := states[i - 1], states[i];
      var p :| Step(s, p, s');
      if s.procs[p].PoolsSwapped? || s.procs[p].ConfigSet? {
        assert By(p) == Current(s);
      }
      assert forall g :: g in s.log ==> g in s'.log;
    }
  }

  /** A request that looks up its pool and then its table configuration gets both from
      one generation exactly when no reload swapped in between; the table
      configuration is never the older one. */
  lemma ContextLookup(s: System, p: nat)
    requires Reachable(s) && p in s.procs && s.procs[p].ContextFound?
    ensures s.procs[p].poolAt <= s.procs[p].tableAt
    ensures s.procs[p].pool == s.procs[p].table <==> s.procs[p].poolAt == s.procs[p].tableAt
  {
    ReachableInv(s);
    assert ContextSound(s, s.procs[p]);
  }

  /** A reload replaces the stores in its own copy of the state only: every other handler,
      whenever it started, works with the startup stores. */
  lemma OnlyOwnStoresChange(s: System, p: nat)
    requires Reachable(s) && p in s.procs
    ensures p in s.own && s.own[p] == if Assigned(s.procs[p]) then By(p) else Startup
    ensures s.stores == Startup
  {
    ReachableInv(s);
  }

  /** So the stores that a request works with match the store configurations only before the first swap. */
  lemma StoresStayFromStartup(s: System, p: nat)
    requires Reachable(s) && p in s.procs && !Swapped(s.procs[p])
    requires forall q :: q in s.procs ==> !s.procs[q].PoolsSwapped? && !s.procs[q].ConfigSet?
    ensures p in s.own && (s.own[p] == s.storeConfigs <==> |s.log| == 1)
  {
    ReachableInv(s);
    if |s.log| > 1 {
      assert s.log[0] != s.log[|s.log| - 1];
    }
  }

  /** No reload refreshes role inheritance: access follows the hierarchy of the startup
      configuration, which is the current one only before the first swap. */
  lemma RolesStayFromStartup(s: System)
    requires Reachable(s)
    requires forall q :: q in s.procs ==> !s.procs[q].PoolsSwapped? && !s.procs[q].ConfigSet?
    ensures s.roles == Startup && (s.roles == s.config <==> |s.log| == 1)
  {
    ReachableInv(s);
    if |s.log| > 1 {
      assert s.log[0] != s.log[|s.log| - 1];
    }
  }

  // ---------------------------------------------------------------------------
  // Pools
  // ---------------------------------------------------------------------------

  /** Each generation but the newest was replaced by exactly one reload, which holds its pools. */
  lemma PoolsHandedOverOnce(s: System, k: nat)
    requires Reachable(s) && k + 1 < |s.log|
    ensures s.log[k + 1].By? && s.log[k + 1].reload in s.procs
    ensures forall q :: q in s.procs && Swapped(s.procs[q]) ==>
              (s.procs[q].replaced == s.log[k] <==> q == s.log[k + 1].reload)
  {
    ReachableInv(s);
    assert s.log[k + 1] == By(s.log[k + 1].reload) && s.log[k + 1 - 1] == s.log[k];
    assert InLogAfter(s, s.log[k + 1].reload, s.log[k]);
    forall q | q in s.procs && Swapped(s.procs[q])
      ensures s.procs[q].replaced == s.log[k] <==> q == s.log[k + 1].reload
    {
      if s.procs[q].replaced == s.log[k] {
        FollowsOne(s, s.log[k + 1].reload, q, s.log[k]);
      }
      if q == s.log[k + 1].reload {
        FollowsWhat(s, q, s.procs[q].replaced, k + 1);
      }
    }
  }

  lemma FollowsWhat(s: System, p: nat, g: Generation, k: nat)
    requires DistinctLog(s) && InLogAfter(s, p, g) && 0 < k < |s.log| && s.log[k] == By(p)
    ensures s.log[k - 1] == g
  {
    var m :| 0 < m < |s.log| && s.log[m] == By(p) && s.log[m - 1] == g;
    assert m == k;
  }

  /** Pools are closed at most once, and never while they are the current ones. */
  lemma PoolsClosedAtMostOnce(s: System, g: Generation)
    requires Reachable(s)
    ensures s.closed[g] <= 1
    ensures s.closed[s.pools] == 0
  {
    ReachableInv(s);
    if q :| Closer(s, q, s.pools) {
      if s.procs[q].Reloaded? {
        FollowsOne(s, q, q, s.pools);
      } else {
        FailureBeforeSwapLeavesNoTrace(s, q);
      }
    }
  }

  /** A reload's own pools are closed by itself exactly when a migration failed, and the
      ones it replaced exactly when its registry rebuild succeeded and it finished. */
  lemma PoolsClosedExactly(s: System, p: nat)
    requires Reachable(s) && p in s.procs
    ensures !Swapped(s.procs[p]) ==> (s.closed[By(p)] == 1 <==> s.procs[p].Undone?)
    ensures Swapped(s.procs[p]) ==> (s.closed[s.procs[p].replaced] == 1 <==> s.procs[p].Reloaded?)
  {
    ReachableInv(s);
    if !Swapped(s.procs[p]) {
      if q :| Closer(s, q, By(p)) {
        if s.procs[q].Reloaded? {
          FollowsSwapped(s, q, p);
        }
      }
      assert s.procs[p].Undone? ==> Closer(s, p, By(p));
    } else {
      var g := s.procs[p].replaced;
      if q :| Closer(s, q, g) {
        if s.procs[q].Reloaded? {
          FollowsOne(s, p, q, g);
        } else {
          FollowsSwapped(s, p, q);
        }
      }
      assert s.procs[p].Reloaded? ==> Closer(s, p, g);
    }
  }

  // ---------------------------------------------------------------------------
  // The schema registry
  // ---------------------------------------------------------------------------

  /** Once every reload is over, the registry belongs to the current configuration
      unless the newest reload failed to rebuild it. */
  lemma RegistryFollowsConfig(s: System)
    requires Reachable(s) && forall p :: p in s.procs ==> Finished(s.procs[p])
    ensures s.log != []
    ensures (match Current(s) case Startup => true case By(p) => p in s.procs && !s.procs[p].RegistryFailed?)
            ==> s.registry == s.config == Current(s)
  {
    ReachableInv(s);
    TripleIsNewestSwap(s);
    NewestRegistry(s);
  }

  lemma NewestRegistry(s: System)
    requires LogSound(s) && RegistrySound(s)
    requires forall p :: p in s.procs ==> Finished(s.procs[p])
    ensures (match Current(s) case Startup => true case By(p) => p in s.procs && !s.procs[p].RegistryFailed?)
            ==> s.registry == Current(s)
  {
    match Current(s) {
      case Startup =>
      case By(p) =>
        assert s.log[|s.log| - 1] == By(p);
        assert Swapped(s.procs[p]);
    }
  }
}
