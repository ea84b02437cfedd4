/** Interleaved reloads cannot block each other for good, every run ends, and one run
    with outcomes that the handler's description does not mention. */
module ReloadProgress {
  import opened Reload

  // ---------------------------------------------------------------------------
  // No deadlock, and an end to every run
  // ---------------------------------------------------------------------------

  /** Locks are taken in this order by everyone. */
  function Order(lock: Lock): nat {
    match lock case RegistryLock => 0 case ConfigLock => 1 case PoolsLock => 2 case StoreConfigsLock => 3
  }

  /** How far up the order the lock is that a process waits for; 4 when it waits for none. */
  function Waits(pc: Pc): nat {
    match Needs(pc)
    case NoLock => 4
    case ToRead(lock) => Order(lock)
    case ToWrite(lock) => Order(lock)
  }

  lemma HoldersWaitHigher(pc: Pc, lock: Lock)
    requires Writes(pc, lock) || Reads(pc, lock)
    ensures Waits(pc) > Order(lock) && !Finished(pc)
  {
  }

  ghost predicate CanStep(s: System, p: nat) {
    p in s.procs && exists pc' :: Goes(s, s.procs[p], pc')
  }

  /** A next step: the way of a reload in which only the registry rebuild fails, or of a reader. */
  function Onward(s: System, pc: Pc): Pc {
    match pc
    case Loading => ReadingStoreConfigs
    case ReadingStoreConfigs => CreatingPools
    case CreatingPools => Migrating
    case Migrating => AddingMedia
    case AddingMedia => CreatingStores
    case ClosingNew => Undone
    case CreatingStores => WantConfig
    case WantConfig => WantPools
    case WantPools => WantStoreConfigs
    case WantStoreConfigs => Swapping
    case Swapping => PoolsSwapped(s.pools)
    case PoolsSwapped(out) => ConfigSet(out)
    case ConfigSet(out) => AllSet(out)
    case AllSet(out) => StoreConfigsReleased(out)
    case StoreConfigsReleased(out) => PoolsReleased(out)
    case PoolsReleased(out) => WantRegistry(out)
    case WantRegistry(out) => WantCompile(out)
    case WantCompile(out) => Compiling(out)
    case Compiling(out) => RegistryFailed(out)
    case ClosingOld(out) => Reloaded(out)
    case SnapshotConfig => SnapshotPools
    case SnapshotPools => SnapshotStoreConfigs
    case SnapshotStoreConfigs => SnapshotHeld
    case SnapshotHeld => SnapshotDone
    case ContextPool => ContextTable(s.pools, |s.log|)
    case ContextTable(pool, poolAt) => ContextFound(pool, poolAt, s.config, |s.log|)
    case WantSchema => SchemaHeld
    case SchemaHeld => SchemaDone
    case _ => pc
  }

  lemma OnwardFollows(s: System, pc: Pc)
    requires !Finished(pc)
    ensures Follows(s, pc, Onward(s, pc))
  {
  }

  lemma GrantedCanStep(s: System, p: nat)
    requires p in s.procs && !Finished(s.procs[p]) && Granted(s, Needs(s.procs[p]))
    ensures CanStep(s, p)
  {
    OnwardFollows(s, s.procs[p]);
    assert Goes(s, s.procs[p], Onward(s, s.procs[p]));
  }

  ghost predicate WaitsFor(s: System, p: nat, lock: Lock) {
    p in s.procs && Needs(s.procs[p]) in {ToRead(lock), ToWrite(lock)}
  }

  /** Somebody waits for the lock, and whichever waiter a queue lets go first can take its step. */
  ghost predicate FreeForAnyWaiter(s: System, lock: Lock) {
    && (exists p :: WaitsFor(s, p, lock))
    && forall p :: WaitsFor(s, p, lock) ==> CanStep(s, p)
  }

  ghost predicate NeedsNoLock(s: System, p: nat) {
    p in s.procs && !Finished(s.procs[p]) && Needs(s.procs[p]) == NoLock
  }

  /** As long as some handler has not finished, some handler can take a step: one needs no lock
      for it, or a lock that somebody waits for is free for any of its waiters, readers and writers
      alike. So no order in which waiting handlers are served can block them all. */
  lemma {:induction false} NoDeadlock(s: System, p: nat)
    requires p in s.procs && !Finished(s.procs[p])
    ensures (exists q :: NeedsNoLock(s, q)) || (exists lock :: FreeForAnyWaiter(s, lock))
    ensures exists q :: CanStep(s, q)
    decreases 4 - Waits(s.procs[p]), 1
  {
    match Needs(s.procs[p])
    case NoLock =>
      assert NeedsNoLock(s, p);
      GrantedCanStep(s, p);
    case ToRead(lock) => FreeOrHeld(s, p, lock);
    case ToWrite(lock) => FreeOrHeld(s, p, lock);
  }

  lemma {:induction false} FreeOrHeld(s: System, p: nat, lock: Lock)
    requires p in s.procs && !Finished(s.procs[p]) && Needs(s.procs[p]) in {ToRead(lock), ToWrite(lock)}
    ensures (exists q :: NeedsNoLock(s, q)) || (exists lock :: FreeForAnyWaiter(s, lock))
    ensures exists q :: CanStep(s, q)
    decreases 4 - Waits(s.procs[p]), 0
  {
    if MayWrite(s, lock) {
      WaitersCanStep(s, lock);
      assert WaitsFor(s, p, lock);
      assert FreeForAnyWaiter(s, lock);
    } else {
      var q :| q in s.procs && (Writes(s.procs[q], lock) || Reads(s.procs[q], lock));
      HoldersWaitHigher(s.procs[q], lock);
      NoDeadlock(s, q);
    }
  }

  /** Every waiter of a lock that nobody holds can take its step, reader or writer. */
  lemma WaitersCanStep(s: System, lock: Lock)
    requires MayWrite(s, lock)
    ensures forall p :: WaitsFor(s, p, lock) ==> CanStep(s, p)
  {
    forall p | WaitsFor(s, p, lock)
      ensures CanStep(s, p)
    {
      GrantedCanStep(s, p);
    }
  }

  /** The most steps a process can still take. */
  function Left(pc: Pc): nat {
    match pc
    case Loading => 20
    case ReadingStoreConfigs => 19
    case CreatingPools => 18
    case Migrating => 17
    case AddingMedia => 16
    case CreatingStores => 15
    case WantConfig => 14
    case WantPools => 13
    case WantStoreConfigs => 12
    case Swapping => 11
    case PoolsSwapped(_) => 10
    case ConfigSet(_) => 9
    case AllSet(_) => 8
    case StoreConfigsReleased(_) => 7
    case PoolsReleased(_) => 6
    case WantRegistry(_) => 5
    case WantCompile(_) => 4
    case Compiling(_) => 3
    case ClosingOld(_) => 2
    case ClosingNew => 2
    case SnapshotConfig => 4
    case SnapshotPools => 3
    case SnapshotStoreConfigs => 2
    case SnapshotHeld => 1
    case ContextPool => 2
    case ContextTable(_, _) => 1
    case WantSchema => 2
    case SchemaHeld => 1
    case _ => 0
  }

  function TotalLeft(procs: map<nat, Pc>, bound: nat): nat {
    if bound == 0 then 0
    else TotalLeft(procs, bound - 1) + if bound - 1 in procs then Left(procs[bound - 1]) else 0
  }

  lemma {:induction false} TotalLeftUpdate(procs: map<nat, Pc>, p: nat, pc: Pc, bound: nat)
    requires p in procs
    ensures TotalLeft(procs[p := pc], bound) == TotalLeft(procs, bound) + if p < bound then Left(pc) - Left(procs[p]) else 0
  {
    if bound > 0 {
      TotalLeftUpdate(procs, p, pc, bound - 1);
    }
  }

  lemma StepUsesUp(s: System, pc: Pc, pc': Pc)
    requires Follows(s, pc, pc')
    ensures Left(pc') < Left(pc)
  {
    if Swapped(pc) {
      SwappedUsesUp(s, pc, pc');
    } else if Reading(pc) {
      ReadersUseUp(s, pc, pc');
    } else {
      OthersUseUp(s, pc, pc');
    }
  }

  predicate Reading(pc: Pc) {
    || pc.SnapshotConfig? || pc.SnapshotPools? || pc.SnapshotStoreConfigs? || pc.SnapshotHeld?
    || pc.ContextPool? || pc.ContextTable? || pc.WantSchema? || pc.SchemaHeld?
  }

  lemma ReadersUseUp(s: System, pc: Pc, pc': Pc)
    requires Follows(s, pc, pc') && Reading(pc)
    ensures Left(pc') < Left(pc)
  {
  }

  lemma SwappedUsesUp(s: System, pc: Pc, pc': Pc)
    requires Follows(s, pc, pc') && Swapped(pc)
    ensures Left(pc') < Left(pc)
  {
  }

  lemma OthersUseUp(s: System, pc: Pc, pc': Pc)
    requires Follows(s, pc, pc') && !Swapped(pc) && !Reading(pc)
    ensures Left(pc') < Left(pc)
  {
  }

  /** No run is longer than the steps its handlers had to take at the start. */
  lemma {:induction false} RunsAreBounded(states: seq<System>, bound: nat, i: nat)
    requires Run(states) && i < |states|
    requires forall p :: p in states[0].procs ==> p < bound
    ensures i + TotalLeft(states[i].procs, bound) <= TotalLeft(states[0].procs, bound)
    ensures states[i].procs.Keys == states[0].procs.Keys
  {
    if i > 0 {
      RunsAreBounded(states, bound, i - 1);
      var p :| Step(states[i - 1], p, states[i]);
      var procs, pc' := states[i - 1].procs, states[i].procs[p];
      StepUsesUp(states[i - 1], procs[p], pc');
      TotalLeftUpdate(procs, p, pc', bound);
      assert states[i].procs == procs[p := pc'];
    }
  }

  // ---------------------------------------------------------------------------
  // Two outcomes the handler's description does not mention
  // ---------------------------------------------------------------------------

  lemma Advance(s: System, p: nat, pc': Pc) returns (s': System)
    requires Reachable(s) && p in s.procs && Goes(s, s.procs[p], pc')
    ensures s' == Moved(s, p, pc') && Reachable(s')
  {
    s' := Moved(s, p, pc');
    var states :| Run(states) && states[|states| - 1] == s;
    var longer := states + [s'];
    assert Step(s, p, s');
    assert Run(longer) && longer[|longer| - 1] == s';
  }

  ghost function AtStartup(procs: map<nat, Pc>): System {
    System(Startup, Startup, Startup, Startup, Startup, Startup, map p | p in procs :: Startup, multiset{}, [Startup], procs)
  }

  /** Reload 0 on its way to a failed rebuild, while request 1 stands between its two lookups. */
  ghost function MidLookup(pc: Pc): System {
    System(if Swapped(pc) && !pc.PoolsSwapped? then By(0) else Startup,
           if Swapped(pc) then By(0) else Startup,
           if Swapped(pc) && !pc.PoolsSwapped? && !pc.ConfigSet? then By(0) else Startup,
           Startup, Startup, Startup, map[0 := if Assigned(pc) then By(0) else Startup, 1 := Startup], multiset{},
           if Swapped(pc) then [Startup, By(0)] else [Startup],
           map[0 := pc, 1 := ContextTable(Startup, 1)])
  }

  /** On the way of a first reload to a failed rebuild. */
  predicate OnTheWay(pc: Pc) {
    && !Finished(pc) && !pc.ClosingNew? && !pc.ClosingOld?
    && (pc.Loading? || pc.ReadingStoreConfigs? || pc.CreatingPools? || pc.Migrating? || pc.AddingMedia? || pc.CreatingStores?
        || pc.WantConfig? || pc.WantPools? || pc.WantStoreConfigs? || pc.Swapping? || (Swapped(pc) && pc.replaced == Startup))
  }

  lemma OnwardMoves(pc: Pc)
    requires OnTheWay(pc)
    ensures Goes(MidLookup(pc), pc, Onward(MidLookup(pc), pc))
    ensures MidLookup(Onward(MidLookup(pc), pc)) == Moved(MidLookup(pc), 0, Onward(MidLookup(pc), pc))
  {
    OnwardGoes(pc);
    OnwardIsMove(pc);
  }

  lemma OnwardGoes(pc: Pc)
    requires OnTheWay(pc)
    ensures Goes(MidLookup(pc), pc, Onward(MidLookup(pc), pc))
  {
    NothingInTheWay(pc);
    OnwardFollows(MidLookup(pc), pc);
  }

  lemma OnwardIsMove(pc: Pc)
    requires OnTheWay(pc)
    ensures MidLookup(Onward(MidLookup(pc), pc)) == Moved(MidLookup(pc), 0, Onward(MidLookup(pc), pc))
  {
    var s := MidLookup(pc);
    var pc' := Onward(s, pc);
    assert s.procs[0] == pc && s.procs[1] == ContextTable(Startup, 1);
    assert MidLookup(pc').procs == s.procs[0 := pc'];
    assert [Startup] + [By(0)] == [Startup, By(0)];
  }

  lemma NothingInTheWay(pc: Pc)
    requires OnTheWay(pc)
    ensures Granted(MidLookup(pc), Needs(pc))
  {
    var s := MidLookup(pc);
    forall q, lock | q in s.procs && (Writes(s.procs[q], lock) || Reads(s.procs[q], lock))
      ensures Waits(pc) != Order(lock)
    {
      if q == 0 {
        HoldersWaitHigher(pc, lock);
      }
    }
  }

  lemma StaysOnTheWay(s: System, pc: Pc)
    requires OnTheWay(pc) && s.pools == (if Swapped(pc) then By(0) else Startup)
    ensures OnTheWay(Onward(s, pc)) || Onward(s, pc) == RegistryFailed(Startup)
  {
  }

  lemma {:induction false} FailingReloadRuns(pc: Pc)
    requires Reachable(MidLookup(pc)) && (OnTheWay(pc) || pc == RegistryFailed(Startup))
    ensures Reachable(MidLookup(RegistryFailed(Startup)))
    decreases Left(pc)
  {
    if OnTheWay(pc) {
      var s := MidLookup(pc);
      var pc' := Onward(s, pc);
      OnwardMoves(pc);
      var s' := Advance(s, 0, pc');
      StepUsesUp(s, pc, pc');
      StaysOnTheWay(s, pc);
      FailingReloadRuns(pc');
    }
  }

  lemma StartupReachable(start: System)
    requires Initial(start)
    ensures Reachable(start)
  {
    assert Run([start]);
  }

  lemma BothBegin(start: System)
    requires start == AtStartup(map[0 := Loading, 1 := ContextPool])
    ensures Initial(start)
  {
  }

  lemma FirstLookup(start: System)
    requires start == AtStartup(map[0 := Loading, 1 := ContextPool])
    ensures 1 in start.procs && Goes(start, start.procs[1], ContextTable(Startup, 1))
    ensures Moved(start, 1, ContextTable(Startup, 1)) == MidLookup(Loading)
  {
    assert start.procs[0] == Loading && start.procs[1] == ContextPool;
    assert start.procs[1 := ContextTable(Startup, 1)] == MidLookup(Loading).procs;
    assert start.own == map[0 := Startup, 1 := Startup];
  }

  lemma LookupBegins(start: System)
    requires start == AtStartup(map[0 := Loading, 1 := ContextPool])
    ensures Reachable(MidLookup(Loading))
  {
    BothBegin(start);
    StartupReachable(start);
    FirstLookup(start);
    var s := Advance(start, 1, ContextTable(Startup, 1));
  }

  lemma LookupEnds() returns (s: System)
    requires Reachable(MidLookup(RegistryFailed(Startup)))
    ensures Reachable(s)
    ensures s == MidLookup(RegistryFailed(Startup)).(procs := map[0 := RegistryFailed(Startup), 1 := ContextFound(Startup, 1, By(0), 2)])
  {
    var before := MidLookup(RegistryFailed(Startup));
    assert before.procs[0] == RegistryFailed(Startup) && before.procs[1] == ContextTable(Startup, 1);
    assert before.procs[1 := ContextFound(Startup, 1, By(0), 2)]
        == map[0 := RegistryFailed(Startup), 1 := ContextFound(Startup, 1, By(0), 2)];
    s := Advance(before, 1, ContextFound(Startup, 1, By(0), 2));
  }

  /** A request can be given the pool of one generation and the table configuration of the
      next; and a reload whose registry rebuild fails has swapped, and never closes the old pools. */
  lemma SplitLookupAndFailedRebuild() returns (s: System)
    ensures Reachable(s)
    ensures s.procs == map[0 := RegistryFailed(Startup), 1 := ContextFound(Startup, 1, By(0), 2)]
    ensures s.config == s.pools == s.storeConfigs == By(0)
    ensures s.registry == Startup && s.closed == multiset{}
  {
    LookupBegins(AtStartup(map[0 := Loading, 1 := ContextPool]));
    FailingReloadRuns(Loading);
    s := LookupEnds();
  }
}
