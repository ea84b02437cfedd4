/** Hot reload: any number of reload handlers interleaved with request handlers
    that read the shared state, one atomic step at a time.

    A generation names the reload that produced a value: its configuration, its
    pools, its store configurations, or the schema registry compiled from its
    configuration. Lock ownership is a function of where each process stands. */
module Reload {

  datatype Generation = Startup | By(reload: nat)

  datatype Lock = ConfigLock | PoolsLock | StoreConfigsLock | RegistryLock

  /** Where a process stands. From the swap on, a reload carries the pools it replaced. */
  datatype Pc =
    // a reload handler
    | Loading | ReadingStoreConfigs | CreatingPools | Migrating | AddingMedia | ClosingNew | CreatingStores
    | WantConfig | WantPools | WantStoreConfigs | Swapping
    | PoolsSwapped(replaced: Generation) | ConfigSet(replaced: Generation) | AllSet(replaced: Generation)
    | StoreConfigsReleased(replaced: Generation) | PoolsReleased(replaced: Generation)
    | WantRegistry(replaced: Generation) | WantCompile(replaced: Generation) | Compiling(replaced: Generation)
    | ClosingOld(replaced: Generation)
    | Reloaded(replaced: Generation) | RegistryFailed(replaced: Generation)
    | Rejected | Undone | StoresFailed
    // a reader that takes the three locks together
    | SnapshotConfig | SnapshotPools | SnapshotStoreConfigs | SnapshotHeld | SnapshotDone
    // a request that looks up its pool, then its table configuration, each under its own lock;
    // the numbers are how many generations there had been at each lookup
    | ContextPool | ContextTable(pool: Generation, poolAt: nat)
    | ContextFound(pool: Generation, poolAt: nat, table: Generation, tableAt: nat)
    // a request that validates a body while it holds the registry
    | WantSchema | SchemaHeld | SchemaDone

  /** The shared state; `own` is the reference to the stores in each handler's own copy of it. */
  datatype System = System(config: Generation, pools: Generation, storeConfigs: Generation, registry: Generation,
                           roles: Generation, stores: Generation, own: map<nat, Generation>, closed: multiset<Generation>, log: seq<Generation>, procs: map<nat, Pc>)

  predicate Writes(pc: Pc, lock: Lock) {
    match lock
    case ConfigLock =>
      pc.WantPools? || pc.WantStoreConfigs? || pc.Swapping? || pc.PoolsSwapped? || pc.ConfigSet? || pc.AllSet?
      || pc.StoreConfigsReleased? || pc.PoolsReleased?
    case PoolsLock =>
      pc.WantStoreConfigs? || pc.Swapping? || pc.PoolsSwapped? || pc.ConfigSet? || pc.AllSet? || pc.StoreConfigsReleased?
    case StoreConfigsLock =>
      pc.Swapping? || pc.PoolsSwapped? || pc.ConfigSet? || pc.AllSet?
    case RegistryLock =>
      pc.WantCompile? || pc.Compiling?
  }

  predicate Reads(pc: Pc, lock: Lock) {
    match lock
    case ConfigLock => pc.Compiling? || pc.SnapshotPools? || pc.SnapshotStoreConfigs? || pc.SnapshotHeld?
    case PoolsLock => pc.SnapshotStoreConfigs? || pc.SnapshotHeld?
    case StoreConfigsLock => pc.SnapshotHeld?
    case RegistryLock => pc.SchemaHeld?
  }

  ghost predicate MayRead(s: System, lock: Lock) {
    forall q :: q in s.procs ==> !Writes(s.procs[q], lock)
  }

  ghost predicate MayWrite(s: System, lock: Lock) {
    forall q :: q in s.procs ==> !Writes(s.procs[q], lock) && !Reads(s.procs[q], lock)
  }

  datatype Access = NoLock | ToRead(lock: Lock) | ToWrite(lock: Lock)

  /** The lock that a process needs for its next step. */
  function Needs(pc: Pc): Access {
    match pc
    case ReadingStoreConfigs => ToRead(StoreConfigsLock)
    case WantConfig => ToWrite(ConfigLock)
    case WantPools => ToWrite(PoolsLock)
    case WantStoreConfigs => ToWrite(StoreConfigsLock)
    case WantRegistry(_) => ToWrite(RegistryLock)
    case WantCompile(_) => ToRead(ConfigLock)
    case SnapshotConfig => ToRead(ConfigLock)
    case SnapshotPools => ToRead(PoolsLock)
    case SnapshotStoreConfigs => ToRead(StoreConfigsLock)
    case ContextPool => ToRead(PoolsLock)
    case ContextTable(_, _) => ToRead(ConfigLock)
    case WantSchema => ToRead(RegistryLock)
    case _ => NoLock
  }

  ghost predicate Granted(s: System, access: Access) {
    match access
    case NoLock => true
    case ToRead(lock) => MayRead(s, lock)
    case ToWrite(lock) => MayWrite(s, lock)
  }

  /** Where a process may go next. */
  predicate Follows(s: System, pc: Pc, pc': Pc) {
    match pc
    case Loading => pc' == ReadingStoreConfigs || pc' == Rejected
    case ReadingStoreConfigs => pc' == CreatingPools
    case CreatingPools => pc' == Migrating || pc' == Rejected
    case Migrating => pc' == AddingMedia || pc' == ClosingNew
    case AddingMedia => pc' == CreatingStores || pc' == ClosingNew
    case ClosingNew => pc' == Undone
    case CreatingStores => pc' == WantConfig || pc' == StoresFailed
    case WantConfig => pc' == WantPools
    case WantPools => pc' == WantStoreConfigs
    case WantStoreConfigs => pc' == Swapping
    case Swapping => pc' == PoolsSwapped(s.pools)
    case PoolsSwapped(out) => pc' == ConfigSet(out)
    case ConfigSet(out) => pc' == AllSet(out)
    case AllSet(out) => pc' == StoreConfigsReleased(out)
    case StoreConfigsReleased(out) => pc' == PoolsReleased(out)
    case PoolsReleased(out) => pc' == WantRegistry(out)
    case WantRegistry(out) => pc' == WantCompile(out)
    case WantCompile(out) => pc' == Compiling(out)
    case Compiling(out) => pc' == ClosingOld(out) || pc' == RegistryFailed(out)
    case ClosingOld(out) => pc' == Reloaded(out)
    case SnapshotConfig => pc' == SnapshotPools
    case SnapshotPools => pc' == SnapshotStoreConfigs
    case SnapshotStoreConfigs => pc' == SnapshotHeld
    case SnapshotHeld => pc' == SnapshotDone
    case ContextPool => pc' == ContextTable(s.pools, |s.log|)
    case ContextTable(pool, poolAt) => pc' == ContextFound(pool, poolAt, s.config, |s.log|)
    case WantSchema => pc' == SchemaHeld
    case SchemaHeld => pc' == SchemaDone
    case _ => false
  }

  ghost predicate Goes(s: System, pc: Pc, pc': Pc) {
    Granted(s, Needs(pc)) && Follows(s, pc, pc')
  }

  /** The effect of process `p` moving to `pc'`. */
  ghost function Moved(s: System, p: nat, pc': Pc): System
    requires p in s.procs
  {
    var pc := s.procs[p];
    s.(procs := s.procs[p := pc'],
       pools := if pc.Swapping? then By(p) else s.pools,
       log := if pc.Swapping? then s.log + [By(p)] else s.log,
       config := if pc.PoolsSwapped? then By(p) else s.config,
       storeConfigs := if pc.ConfigSet? then By(p) else s.storeConfigs,
       own := if pc.PoolsReleased? then s.own[p := By(p)] else s.own,
       registry := if pc.Compiling? && pc'.ClosingOld? then s.config else s.registry,
       closed := if pc.ClosingNew? then s.closed + multiset{By(p)}
                 else if pc.ClosingOld? then s.closed + multiset{pc.replaced}
                 else s.closed)
  }

  /** One atomic step of process `p`. */
  ghost predicate Step(s: System, p: nat, s': System) {
    && p in s.procs && p in s'.procs
    && Goes(s, s.procs[p], s'.procs[p])
    && s' == Moved(s, p, s'.procs[p])
  }

  predicate Finished(pc: Pc) {
    pc.Reloaded? || pc.RegistryFailed? || pc.Rejected? || pc.Undone? || pc.StoresFailed?
    || pc.SnapshotDone? || pc.ContextFound? || pc.SchemaDone?
  }

  /** Past the swap: the values of this reload were installed. */
  predicate Swapped(pc: Pc) {
    pc.PoolsSwapped? || pc.ConfigSet? || pc.AllSet? || pc.StoreConfigsReleased? || pc.PoolsReleased?
    || pc.WantRegistry? || pc.WantCompile? || pc.Compiling? || pc.ClosingOld? || pc.Reloaded? || pc.RegistryFailed?
  }

  /** The server as built at startup, with handlers that have not begun. */
  ghost predicate Initial(s: System) {
    && s.config == s.pools == s.storeConfigs == s.registry == s.roles == s.stores == Startup
    && s.own.Keys == s.procs.Keys && (forall p :: p in s.procs ==> s.own[p] == s.stores)
    && s.closed == multiset{}
    && s.log == [Startup]
    && forall p :: p in s.procs ==>
         s.procs[p] in {Loading, SnapshotConfig, ContextPool, WantSchema}
  }

  ghost predicate Run(states: seq<System>) {
    && states != []
    && Initial(states[0])
    && forall i :: 0 < i < |states| ==> Next(states[i - 1], states[i])
  }

  ghost predicate Next(s: System, s': System) {
    exists p :: Step(s, p, s')
  }

  ghost predicate Reachable(s: System) {
    exists states :: Run(states) && states[|states| - 1] == s
  }

  // ---------------------------------------------------------------------------
  // The invariant
  // ---------------------------------------------------------------------------

  /** A writer excludes every other holder of its lock. */
  ghost predicate Exclusion(s: System) {
    forall p, q, lock :: p in s.procs && q in s.procs && p != q && Writes(s.procs[p], lock)
      ==> !Writes(s.procs[q], lock) && !Reads(s.procs[q], lock)
  }

  ghost predicate DistinctLog(s: System) {
    forall i, j :: 0 <= i < j < |s.log| ==> s.log[i] != s.log[j]
  }

  /** The log starts at startup and lists the reloads that swapped, each once. */
  ghost predicate LogSound(s: System) {
    && s.log != [] && s.log[0] == Startup
    && DistinctLog(s)
    && forall i :: 0 < i < |s.log| ==> s.log[i].By? && s.log[i].reload in s.procs && Swapped(s.procs[s.log[i].reload])
  }

  ghost predicate InLogAfter(s: System, p: nat, before: Generation) {
    exists k :: 0 < k < |s.log| && s.log[k] == By(p) && s.log[k - 1] == before
  }

  /** A reload past the swap took over the pools of the generation it followed. */
  ghost predicate HandOver(s: System) {
    forall p :: p in s.procs && Swapped(s.procs[p]) ==> InLogAfter(s, p, s.procs[p].replaced)
  }

  ghost function Current(s: System): Generation
    requires s.log != []
  {
    s.log[|s.log| - 1]
  }

  ghost predicate Values(s: System)
    requires s.log != []
  {
    && s.pools == Current(s)
    && (s.config == Current(s) || exists p :: p in s.procs && s.procs[p].PoolsSwapped?)
    && (s.storeConfigs == Current(s) || exists p :: p in s.procs && (s.procs[p].PoolsSwapped? || s.procs[p].ConfigSet?))
  }

  /** Whoever is inside the swap, holding the configuration lock, made the newest entry. */
  ghost predicate SwapOwner(s: System)
    requires s.log != []
  {
    forall p :: p in s.procs && Writes(s.procs[p], ConfigLock) && Swapped(s.procs[p]) ==> Current(s) == By(p)
  }

  predicate Compiled(pc: Pc) {
    pc.ClosingOld? || pc.Reloaded?
  }

  ghost predicate RegistrySound(s: System)
    requires s.log != []
  {
    && s.registry in s.log
    && match Current(s)
       case Startup => s.registry == Startup
       case By(p) => p in s.procs && (Compiled(s.procs[p]) ==> s.registry == Current(s))
  }

  /** Somebody closed these pools: the reload that replaced them, or the one that made them in vain. */
  ghost predicate Closer(s: System, p: nat, g: Generation) {
    p in s.procs && (s.procs[p] == Reloaded(g) || (s.procs[p] == Undone && g == By(p)))
  }

  ghost predicate ClosedBySomeone(s: System, g: Generation) {
    exists p :: Closer(s, p, g)
  }

  ghost predicate Closes(s: System) {
    forall g :: s.closed[g] == if ClosedBySomeone(s, g) then 1 else 0
  }

  ghost predicate ContextSound(s: System, pc: Pc) {
    && (pc.ContextTable? ==> 0 < pc.poolAt <= |s.log| && pc.pool == s.log[pc.poolAt - 1])
    && (pc.ContextFound? ==> && 0 < pc.poolAt <= pc.tableAt <= |s.log|
                             && pc.pool == s.log[pc.poolAt - 1] && pc.table == s.log[pc.tableAt - 1])
  }

  ghost predicate Contexts(s: System) {
    forall p :: p in s.procs ==> ContextSound(s, s.procs[p])
  }

  /** Past the assignment of the rebuilt stores, which happens after the swap's locks are released. */
  predicate Assigned(pc: Pc) {
    pc.WantRegistry? || pc.WantCompile? || pc.Compiling? || pc.ClosingOld? || pc.Reloaded? || pc.RegistryFailed?
  }

  /** A handler starts with the shared stores, and only a reload replaces them, in its own copy. */
  ghost predicate OwnStores(s: System) {
    && s.stores == s.roles == Startup
    && s.own.Keys == s.procs.Keys
    && forall p :: p in s.procs ==> s.own[p] == if Assigned(s.procs[p]) then By(p) else s.stores
  }

  ghost predicate Inv(s: System) {
    && Exclusion(s) && LogSound(s) && HandOver(s) && SwapOwner(s) && Values(s) && RegistrySound(s)
    && Closes(s) && Contexts(s) && OwnStores(s)
  }

  // ---------------------------------------------------------------------------
  // Every step keeps it
  // ---------------------------------------------------------------------------

  /** Moving in and out of the swap. */
  lemma SwapFrame(s: System, pc: Pc, pc': Pc)
    requires Follows(s, pc, pc')
    ensures Swapped(pc) ==> Swapped(pc') && pc'.replaced == pc.replaced
    ensures !Swapped(pc) ==> (Swapped(pc') <==> pc.Swapping?)
    ensures pc.Swapping? ==> pc' == PoolsSwapped(s.pools)
    ensures Compiled(pc') && !Compiled(pc) ==> pc.Compiling? && pc'.ClosingOld?
  {
    if Swapped(pc) {
      SwappedStays(s, pc, pc');
    } else {
      NotYetSwapped(s, pc, pc');
    }
    if Compiled(pc') && !Compiled(pc) {
      CompiledOnce(s, pc, pc');
    }
  }

  lemma SwappedStays(s: System, pc: Pc, pc': Pc)
    requires Follows(s, pc, pc') && Swapped(pc)
    ensures Swapped(pc') && pc'.replaced == pc.replaced
  {
  }

  lemma NotYetSwapped(s: System, pc: Pc, pc': Pc)
    requires Follows(s, pc, pc') && !Swapped(pc)
    ensures Swapped(pc') <==> pc.Swapping?
    ensures pc.Swapping? ==> pc' == PoolsSwapped(s.pools)
  {
  }

  lemma CompiledOnce(s: System, pc: Pc, pc': Pc)
    requires Follows(s, pc, pc') && Compiled(pc') && !Compiled(pc)
    ensures pc.Compiling? && pc'.ClosingOld?
  {
  }

  lemma StepKeepsExclusion(s: System, p: nat, s': System)
    requires Step(s, p, s') && Exclusion(s)
    ensures Exclusion(s')
  {
    var pc, pc' := s.procs[p], s'.procs[p];
    SwapFrame(s, s.procs[p], s'.procs[p]);
    forall lock: Lock
      ensures Writes(pc', lock) ==> Writes(pc, lock) || MayWrite(s, lock)
      ensures Reads(pc', lock) ==> Reads(pc, lock) || MayRead(s, lock)
    {
      LockSteps(s, pc, pc', lock);
    }
  }

  /** A process comes to hold only the lock it needed. */
  lemma LockSteps(s: System, pc: Pc, pc': Pc, lock: Lock)
    requires Follows(s, pc, pc')
    ensures Writes(pc', lock) ==> Writes(pc, lock) || Needs(pc) == ToWrite(lock)
    ensures Reads(pc', lock) ==> Reads(pc, lock) || Needs(pc) == ToRead(lock)
  {
    WriteLockSteps(s, pc, pc', lock);
    ReadLockSteps(s, pc, pc', lock);
  }

  lemma WriteLockSteps(s: System, pc: Pc, pc': Pc, lock: Lock)
    requires Follows(s, pc, pc')
    ensures Writes(pc', lock) ==> Writes(pc, lock) || Needs(pc) == ToWrite(lock)
  {
  }

  lemma ReadLockSteps(s: System, pc: Pc, pc': Pc, lock: Lock)
    requires Follows(s, pc, pc')
    ensures Reads(pc', lock) ==> Reads(pc, lock) || Needs(pc) == ToRead(lock)
  {
  }

  lemma StepKeepsLog(s: System, p: nat, s': System)
    requires Step(s, p, s') && LogSound(s)
    ensures LogSound(s')
  {
    SwapFrame(s, s.procs[p], s'.procs[p]);
  }

  lemma LogGrows(s: System, s': System, q: nat, g: Generation)
    requires s.log <= s'.log && InLogAfter(s, q, g)
    ensures InLogAfter(s', q, g)
  {
    var k :| 0 < k < |s.log| && s.log[k] == By(q) && s.log[k - 1] == g;
    assert s'.log[k] == By(q) && s'.log[k - 1] == g;
  }

  lemma StepKeepsHandOver(s: System, p: nat, s': System)
    requires Step(s, p, s') && s.log != [] && HandOver(s) && s.pools == Current(s)
    ensures HandOver(s')
  {
    SwapFrame(s, s.procs[p], s'.procs[p]);
    forall q | q in s'.procs && Swapped(s'.procs[q])
      ensures InLogAfter(s', q, s'.procs[q].replaced)
    {
      if q == p && s.procs[p].Swapping? {
        assert s'.log[|s.log|] == By(p) && s'.log[|s.log| - 1] == s.pools;
      } else {
        assert Swapped(s.procs[q]) && s'.procs[q].replaced == s.procs[q].replaced;
        LogGrows(s, s', q, s.procs[q].replaced);
      }
    }
  }

  lemma StepKeepsSwapOwner(s: System, p: nat, s': System)
    requires Step(s, p, s') && s.log != [] && SwapOwner(s) && Exclusion(s) && s'.log != []
    ensures SwapOwner(s')
  {
    SwapFrame(s, s.procs[p], s'.procs[p]);
    LockSteps(s, s.procs[p], s'.procs[p], ConfigLock);
    forall q | q in s'.procs && Writes(s'.procs[q], ConfigLock) && Swapped(s'.procs[q])
      ensures Current(s') == By(q)
    {
      assert s.procs[p].Swapping? ==> Writes(s.procs[p], ConfigLock);
    }
  }

  lemma StepKeepsValues(s: System, p: nat, s': System)
    requires Step(s, p, s') && LogSound(s) && SwapOwner(s) && Values(s) && s'.log != []
    ensures Values(s')
  {
    SwapFrame(s, s.procs[p], s'.procs[p]);
    if q :| q in s.procs && q != p && (s.procs[q].PoolsSwapped? || s.procs[q].ConfigSet?) {
      assert s'.procs[q] == s.procs[q];
    }
    if s.procs[p].Swapping? {
      assert s'.procs[p].PoolsSwapped?;
    }
    assert s.procs[p].PoolsSwapped? || s.procs[p].ConfigSet? ==> Current(s) == By(p);
    assert s.procs[p].PoolsSwapped? ==> s'.procs[p].ConfigSet?;
  }

  lemma StepKeepsRegistry(s: System, p: nat, s': System)
    requires Step(s, p, s') && LogSound(s) && LogSound(s') && Exclusion(s) && Values(s) && RegistrySound(s)
    ensures RegistrySound(s')
  {
    SwapFrame(s, s.procs[p], s'.procs[p]);
    if s.procs[p].Compiling? {
      forall q | q in s.procs
        ensures !s.procs[q].PoolsSwapped?
      {
        if q != p && s.procs[q].PoolsSwapped? {
          assert Writes(s.procs[q], ConfigLock) && Reads(s.procs[p], ConfigLock);
        }
      }
      assert s.config == Current(s);
    }
    if s'.registry == s.registry {
      var i :| 0 <= i < |s.log| && s.log[i] == s.registry;
      assert s'.log[i] == s.registry;
    }
  }

  lemma StepKeepsContexts(s: System, p: nat, s': System)
    requires Step(s, p, s') && LogSound(s) && Values(s) && Contexts(s)
    ensures Contexts(s')
  {
    SwapFrame(s, s.procs[p], s'.procs[p]);
    assert forall i :: 0 <= i < |s.log| ==> s'.log[i] == s.log[i];
    forall q | q in s'.procs
      ensures ContextSound(s', s'.procs[q])
    {
      assert ContextSound(s, s.procs[q]);
      if q == p && s.procs[p].ContextTable? {
        assert forall r :: r in s.procs && s.procs[r].PoolsSwapped? ==> Writes(s.procs[r], ConfigLock);
      }
    }
  }

  /** No two entries of the log follow the same entry, and none follows the last. */
  lemma FollowsOne(s: System, p: nat, q: nat, g: Generation)
    requires LogSound(s) && InLogAfter(s, p, g)
    ensures InLogAfter(s, q, g) ==> p == q
    ensures g != Current(s)
  {
    var k :| 0 < k < |s.log| && s.log[k] == By(p) && s.log[k - 1] == g;
    if InLogAfter(s, q, g) {
      var m :| 0 < m < |s.log| && s.log[m] == By(q) && s.log[m - 1] == g;
      assert k - 1 == m - 1;
    }
  }

  lemma FollowsSwapped(s: System, p: nat, q: nat)
    requires LogSound(s) && InLogAfter(s, p, By(q))
    ensures q in s.procs && Swapped(s.procs[q])
  {
    var k :| 0 < k < |s.log| && s.log[k] == By(p) && s.log[k - 1] == By(q);
    assert k - 1 > 0;
  }

  /** Pools about to be closed have not been closed before. */
  lemma ClosedFirstTime(s: System, p: nat, g: Generation)
    requires LogSound(s) && HandOver(s) && p in s.procs
    requires (s.procs[p].ClosingNew? && g == By(p)) || s.procs[p] == ClosingOld(g)
    ensures !ClosedBySomeone(s, g)
  {
    if q :| Closer(s, q, g) {
      if s.procs[p].ClosingOld? && s.procs[q].Reloaded? {
        FollowsOne(s, p, q, g);
      } else if s.procs[p].ClosingOld? {
        FollowsSwapped(s, p, q);
      } else if s.procs[q].Reloaded? {
        FollowsSwapped(s, q, p);
      }
    }
  }

  /** The step that closes pools makes its process their closer; no other step changes who closed what. */
  lemma CloserSteps(s: System, p: nat, s': System, q: nat, g: Generation)
    requires Step(s, p, s')
    ensures q != p ==> (Closer(s', q, g) <==> Closer(s, q, g))
    ensures Closer(s', p, g) <==> (s.procs[p].ClosingNew? && g == By(p)) || s.procs[p] == ClosingOld(g)
    ensures !Closer(s, p, g)
  {
  }

  lemma StepKeepsCloses(s: System, p: nat, s': System)
    requires Step(s, p, s') && LogSound(s) && HandOver(s) && Closes(s)
    ensures Closes(s')
  {
    forall g
      ensures s'.closed[g] == if ClosedBySomeone(s', g) then 1 else 0
    {
      CloserSteps(s, p, s', p, g);
      if Closer(s', p, g) {
        ClosedFirstTime(s, p, g);
      } else {
        forall q
          ensures Closer(s', q, g) <==> Closer(s, q, g)
        {
          CloserSteps(s, p, s', q, g);
        }
        assert ClosedBySomeone(s', g) <==> ClosedBySomeone(s, g);
      }
    }
  }

  lemma StepKeepsOwnStores(s: System, p: nat, s': System)
    requires Step(s, p, s') && OwnStores(s)
    ensures OwnStores(s')
  {
    AssignedSteps(s, s.procs[p], s'.procs[p]);
  }

  lemma AssignedSteps(s: System, pc: Pc, pc': Pc)
    requires Follows(s, pc, pc')
    ensures Assigned(pc') <==> Assigned(pc) || pc.PoolsReleased?
    ensures pc.PoolsReleased? ==> !Assigned(pc)
  {
  }

  lemma NextKeepsInv(s: System, s': System)
    requires Inv(s) && Next(s, s')
    ensures Inv(s')
  {
    var p :| Step(s, p, s');
    SwapFrame(s, s.procs[p], s'.procs[p]);
    StepKeepsExclusion(s, p, s');
    StepKeepsLog(s, p, s');
    StepKeepsHandOver(s, p, s');
    StepKeepsSwapOwner(s, p, s');
    StepKeepsValues(s, p, s');
    StepKeepsRegistry(s, p, s');
    StepKeepsCloses(s, p, s');
    StepKeepsContexts(s, p, s');
    StepKeepsOwnStores(s, p, s');
  }

  lemma InitialInv(s: System)
    requires Initial(s)
    ensures Inv(s)
  {
    assert s.log[0] == Startup;
    assert forall p :: p in s.procs ==> !Swapped(s.procs[p]);
    assert forall p, lock :: p in s.procs ==> !Writes(s.procs[p], lock);
    assert forall p, g :: !Closer(s, p, g);
  }

  lemma {:induction false} RunKeepsInv(states: seq<System>, i: nat)
    requires Run(states) && i < |states|
    ensures Inv(states[i])
  {
    if i == 0 {
      InitialInv(states[0]);
    } else {
      RunKeepsInv(states, i - 1);
      NextKeepsInv(states[i - 1], states[i]);
    }
  }

  lemma ReachableInv(s: System)
    requires Reachable(s)
    ensures Inv(s)
  {
    var states :| Run(states) && states[|states| - 1] == s;
    RunKeepsInv(states, |states| - 1);
  }
}
