/** Whether the row of a media item says where its bytes are. */
module TrashFlags {
  import opened TrashProtocol

  /** The row, if there is one, is marked trashed exactly when the bytes are at the trash path. */
  ghost predicate FlagAgrees(cfg: Config, items: Items, w: World, id: string)
    requires id in items
  {
    id in w.rows ==> (w.rows[id].trashed <==> TrashHolds(cfg, items, w, id))
  }

  ghost predicate TrashHolds(cfg: Config, items: Items, w: World, id: string)
    requires id in items
  {
    InTrash(cfg, items, id) in w.store.data
  }

  // ---------------------------------------------------------------------------
  // One operation, undisturbed
  // ---------------------------------------------------------------------------

  /** After an operation by the item's subject that runs from its first to its last step
      undisturbed, the row is in agreement exactly when the operation succeeded or the row was
      in agreement before. */
  lemma UndisturbedOperationAgrees(cfg: Config, items: Items, op: Operation, w: World, id: string)
    requires Intact(cfg, items, w, id) && op != Empty
    ensures var after := OutcomeOf(cfg, op, w, id, items[id].owner);
            && (FlagAgrees(cfg, items, after.world, id) <==> after.ok || FlagAgrees(cfg, items, w, id))
            && (!after.ok ==> after.world == w)
  {
    match op
    case Trash =>
      if id in w.rows {
        TrashStages(cfg, items, w, id);
      }
    case Restore =>
      if CanRestore(w, id) {
        RestoreStages(cfg, items, w, id);
      }
    case Purge =>
  }

  /** The same over the steps of a lone handler that has halted. */
  lemma FinishedHandlerAgrees(cfg: Config, items: Items, op: Operation, id: string, worlds: seq<World>, handlers: seq<Handler>, k: nat)
    requires op != Empty && id in items && IsSoloRun(cfg, op, id, items[id].owner, worlds, handlers) && k < |worlds|
    requires Intact(cfg, items, worlds[0], id) && Halted(handlers[k])
    ensures FlagAgrees(cfg, items, worlds[k], id) <==> handlers[k].pc.Done? || FlagAgrees(cfg, items, worlds[0], id)
  {
    CrashThenRetry(cfg, items, op, id, worlds, handlers, k);
    SoloReaches(cfg, items, op, id, worlds, handlers, k);
    UndisturbedOperationAgrees(cfg, items, op, worlds[0], id);
    match op
    case Trash =>
      if id in worlds[0].rows {
        TrashStages(cfg, items, worlds[0], id);
      }
    case Restore =>
      if CanRestore(worlds[0], id) {
        RestoreStages(cfg, items, worlds[0], id);
      }
    case Purge =>
  }

  // ---------------------------------------------------------------------------
  // A trash and a restore of one item, interleaved
  // ---------------------------------------------------------------------------

  /** The handler is past everything it does to the files. */
  predicate FilesDone(pc: Pc) {
    pc.TrashUpdate? || pc.RestoreUpdate? || pc.Done?
  }

  predicate Trashing(pc: Pc) {
    || pc.TrashSelect? || pc.TrashMakeDir? || pc.TrashCheck? || pc.TrashMove? || pc.TrashUpdate?
    || pc.Done? || pc.Failed?
  }

  predicate Restoring(pc: Pc) {
    || pc.RestoreSelect? || pc.RestoreCheck? || pc.RestoreMakeDir? || pc.RestoreMove? || pc.RestoreUpdate?
    || pc.Done? || pc.Failed?
  }

  predicate ActsElsewhere(h: Handler, id: string) {
    h.id != id && !h.pc.EmptySelect? && !h.pc.EmptyDelete?
  }

  /** Handler `t` trashes the item, handler `r` restores it, and nobody else acts on it. */
  ghost predicate IsPair(s: System, id: string, t: nat, r: nat) {
    && t != r && t < |s.handlers| && r < |s.handlers|
    && s.handlers[t].id == id && s.handlers[r].id == id
    && Trashing(s.handlers[t].pc) && Restoring(s.handlers[r].pc)
    && forall k :: 0 <= k < |s.handlers| && k != t && k != r ==> ActsElsewhere(s.handlers[k], id)
  }

  ghost predicate BothThere(run: seq<System>, t: nat, r: nat) {
    forall k :: 0 <= k < |run| ==> t < |run[k].handlers| && r < |run[k].handlers|
  }

  /** A run in which the two begin, and whatever other handlers act on other items. */
  ghost predicate IsOverlap(cfg: Config, items: Items, run: seq<System>, id: string, t: nat, r: nat) {
    && WellPlaced(cfg, items) && id in items
    && IsRun(cfg, items, run) && Inv(cfg, items, run[0]) && id !in run[0].removed
    && BothThere(run, t, r) && (forall n :: 0 <= n < |run| ==> IsPair(run[n], id, t, r))
    && run[0].handlers[t].pc.TrashSelect? && run[0].handlers[r].pc.RestoreSelect?
  }

  /** Within the first `n` steps the trash got past its files, when the restore was already past its own. */
  ghost predicate TrashesFilesLast(run: seq<System>, n: nat, t: nat, r: nat)
    requires n < |run| && BothThere(run, t, r)
  {
    exists k :: 0 <= k < n && EndsFiles(run[k], run[k + 1], t) && FilesDone(run[k].handlers[r].pc)
  }

  ghost predicate EndsFiles(s: System, s': System, t: nat)
    requires t < |s.handlers| && t < |s'.handlers|
  {
    !FilesDone(s.handlers[t].pc) && FilesDone(s'.handlers[t].pc)
  }

  /** Within the first `n` steps the trash wrote its row, when the restore had already written its own. */
  ghost predicate TrashesRowLast(run: seq<System>, n: nat, t: nat, r: nat)
    requires n < |run| && BothThere(run, t, r)
  {
    exists k :: 0 <= k < n && EndsRow(run[k], run[k + 1], t) && run[k].handlers[r].pc.Done?
  }

  ghost predicate EndsRow(s: System, s': System, t: nat)
    requires t < |s.handlers| && t < |s'.handlers|
  {
    !s.handlers[t].pc.Done? && s'.handlers[t].pc.Done?
  }

  /** Where the bytes are, by where the two stand; `last` tells whether the trash got past its files last. */
  ghost predicate BytesFollow(trashed: bool, pt: Pc, pr: Pc, last: bool) {
    && (pt.TrashMove? ==> !trashed)
    && (pr.RestoreMakeDir? || pr.RestoreMove? ==> trashed)
    && (FilesDone(pt) && !FilesDone(pr) ==> trashed)
    && (FilesDone(pr) && !FilesDone(pt) ==> !trashed)
    && (FilesDone(pt) && FilesDone(pr) ==> (trashed <==> last))
    && (last ==> FilesDone(pt) && FilesDone(pr))
  }

  /** What the row says, by where the two stand. */
  ghost predicate RowFollows(rows: map<string, Row>, id: string, pt: Pc, pr: Pc, last: bool) {
    && (pt.Done? ==> id in rows)
    && (pt.Done? && !pr.Done? ==> rows[id].trashed)
    && (pr.Done? && !pt.Done? && id in rows ==> !rows[id].trashed)
    && (pt.Done? && pr.Done? ==> (rows[id].trashed <==> last))
    && (last ==> pt.Done? && pr.Done?)
  }

  /** What is known of the item between steps. */
  ghost predicate Known(cfg: Config, items: Items, w: World, id: string) {
    && WellPlaced(cfg, items) && id in items && RowsMatch(items, w.rows)
    && PathsFree(cfg, items, w.store) && AtOnePlace(cfg, items, w.store, id)
  }

  ghost predicate ActsOnItem(items: Items, h: Handler, id: string) {
    id in items && h.id == id && h.subject == items[id].owner && HandlerMatches(items, h)
  }

  lemma TrashStep(cfg: Config, items: Items, w: World, h: Handler, w': World, h': Handler, id: string)
    requires Known(cfg, items, w, id) && ActsOnItem(items, h, id) && Trashing(h.pc) && Step(cfg, w, h, w', h')
    ensures Trashing(h'.pc)
    ensures !h.pc.TrashMove? ==> (TrashHolds(cfg, items, w', id) <==> TrashHolds(cfg, items, w, id))
    ensures h.pc.TrashMove? && !TrashHolds(cfg, items, w, id) ==> TrashHolds(cfg, items, w', id) && h'.pc.TrashUpdate?
    ensures h.pc.TrashSelect? || h.pc.TrashMakeDir? ==> !h'.pc.TrashMove? && !FilesDone(h'.pc)
    ensures h.pc.TrashCheck? ==> if TrashHolds(cfg, items, w, id) then h'.pc.TrashUpdate? else h'.pc.TrashMove?
  {
    ItemFacts(cfg, items, w, id);
    LiveApartFromTrash(cfg, items, id, items[id].owner, items[id].file);
  }

  lemma TrashRowStep(cfg: Config, items: Items, w: World, h: Handler, w': World, h': Handler, id: string)
    requires Known(cfg, items, w, id) && ActsOnItem(items, h, id) && Trashing(h.pc) && Step(cfg, w, h, w', h')
    ensures !h.pc.TrashUpdate? ==> w'.rows == w.rows && (h'.pc.Done? <==> h.pc.Done?)
    ensures h.pc.TrashUpdate? ==> (h'.pc.Done? <==> id in w.rows)
    ensures h.pc.TrashUpdate? && id in w.rows ==> id in w'.rows && w'.rows[id].trashed
    ensures h.pc.TrashSelect? && !h'.pc.Failed? ==> id in w.rows
  {
    ItemFacts(cfg, items, w, id);
  }

  lemma RestoreStep(cfg: Config, items: Items, w: World, h: Handler, w': World, h': Handler, id: string)
    requires Known(cfg, items, w, id) && ActsOnItem(items, h, id) && Restoring(h.pc) && Step(cfg, w, h, w', h')
    ensures Restoring(h'.pc)
    ensures !h.pc.RestoreMove? ==> (TrashHolds(cfg, items, w', id) <==> TrashHolds(cfg, items, w, id))
    ensures h.pc.RestoreMove? && TrashHolds(cfg, items, w, id) ==> !TrashHolds(cfg, items, w', id) && h'.pc.RestoreUpdate?
    ensures h.pc.RestoreSelect? ==> !h'.pc.RestoreMakeDir? && !h'.pc.RestoreMove? && !FilesDone(h'.pc)
    ensures h.pc.RestoreCheck? ==> if TrashHolds(cfg, items, w, id) then h'.pc.RestoreMakeDir? else h'.pc.RestoreUpdate?
    ensures h.pc.RestoreMakeDir? ==> h'.pc.RestoreMove?
  {
    ItemFacts(cfg, items, w, id);
    LiveApartFromTrash(cfg, items, id, items[id].owner, items[id].file);
  }

  lemma RestoreRowStep(cfg: Config, items: Items, w: World, h: Handler, w': World, h': Handler, id: string)
    requires Known(cfg, items, w, id) && ActsOnItem(items, h, id) && Restoring(h.pc) && Step(cfg, w, h, w', h')
    ensures !h.pc.RestoreUpdate? ==> w'.rows == w.rows && (h'.pc.Done? <==> h.pc.Done?)
    ensures h.pc.RestoreUpdate? ==> h'.pc.Done? && (id in w'.rows <==> id in w.rows)
    ensures h.pc.RestoreUpdate? && id in w'.rows ==> !w'.rows[id].trashed
    ensures h.pc.RestoreSelect? && !h'.pc.Failed? ==> id in w.rows && w.rows[id].trashed
  {
    ItemFacts(cfg, items, w, id);
  }

  /** A handler of another item touches neither the item's row nor its bytes. */
  lemma ElsewhereStep(cfg: Config, items: Items, w: World, h: Handler, w': World, h': Handler, id: string)
    requires Known(cfg, items, w, id) && HandlerMatches(items, h) && ActsElsewhere(h, id) && Step(cfg, w, h, w', h')
    ensures TrashHolds(cfg, items, w', id) <==> TrashHolds(cfg, items, w, id)
    ensures id in w'.rows <==> id in w.rows
    ensures id in w.rows ==> w'.rows[id] == w.rows[id]
  {
    if h.pc.TrashMove? || h.pc.RestoreMove? || h.pc.PurgeRemove? {
      OtherItemApart(cfg, items, h.id, id);
      assert IsItemPath(cfg, items, Live(cfg, items, h.id)) && IsItemPath(cfg, items, InTrash(cfg, items, h.id));
    }
  }

  /** One step of either handler keeps track of the bytes. */
  lemma TrashBytes(cfg: Config, items: Items, w: World, h: Handler, w': World, h': Handler, id: string, pr: Pc, last: bool)
    requires Known(cfg, items, w, id) && ActsOnItem(items, h, id) && Trashing(h.pc) && Restoring(pr) && Step(cfg, w, h, w', h')
    requires RowSeen(w.rows, id, h.pc)
    requires BytesFollow(TrashHolds(cfg, items, w, id), h.pc, pr, last)
    ensures BytesFollow(TrashHolds(cfg, items, w', id), h'.pc, pr,
                        last || (!FilesDone(h.pc) && FilesDone(h'.pc) && FilesDone(pr)))
  {
    TrashStep(cfg, items, w, h, w', h', id);
    TrashRowStep(cfg, items, w, h, w', h', id);
  }

  lemma RestoreBytes(cfg: Config, items: Items, w: World, h: Handler, w': World, h': Handler, id: string, pt: Pc, last: bool)
    requires Known(cfg, items, w, id) && ActsOnItem(items, h, id) && Restoring(h.pc) && Trashing(pt) && Step(cfg, w, h, w', h')
    requires BytesFollow(TrashHolds(cfg, items, w, id), pt, h.pc, last)
    ensures BytesFollow(TrashHolds(cfg, items, w', id), pt, h'.pc, last)
  {
    RestoreStep(cfg, items, w, h, w', h', id);
  }

  /** A trash that has read the row finds it there to the end. */
  ghost predicate RowSeen(rows: map<string, Row>, id: string, pt: Pc) {
    Trashing(pt) && !pt.TrashSelect? && !pt.Failed? ==> id in rows
  }

  /** The item's part of the invariant of all runs. */
  ghost predicate Tracked(cfg: Config, items: Items, s: System, id: string, t: nat, r: nat) {
    && Known(cfg, items, s.world, id) && IsPair(s, id, t, r)
    && ActsOnItem(items, s.handlers[t], id) && ActsOnItem(items, s.handlers[r], id)
    && RowSeen(s.world.rows, id, s.handlers[t].pc)
    && forall k :: 0 <= k < |s.handlers| ==> HandlerMatches(items, s.handlers[k])
  }

  lemma {:induction false} AlwaysTracked(cfg: Config, items: Items, run: seq<System>, id: string, t: nat, r: nat, n: nat)
    requires IsOverlap(cfg, items, run, id, t, r) && n < |run|
    ensures Tracked(cfg, items, run[n], id, t, r) && id !in run[n].removed
    decreases n
  {
    NoBytesLost(cfg, items, run, n);
    if n > 0 {
      AlwaysTracked(cfg, items, run, id, t, r, n - 1);
      NotRemoved(cfg, items, run[n - 1], run[n], id, t, r);
      RowStaysSeen(cfg, items, run[n - 1], run[n], id, t, r);
    }
  }

  lemma NotRemoved(cfg: Config, items: Items, s: System, s': System, id: string, t: nat, r: nat)
    requires IsPair(s, id, t, r) && Next(cfg, items, s, s') && id !in s.removed
    ensures id !in s'.removed
  {
  }

  /** A step of the system is one of the trash, one of the restore, or leaves the item alone. */
  lemma WhoSteps(cfg: Config, items: Items, s: System, s': System, id: string, t: nat, r: nat) returns (i: nat)
    requires Tracked(cfg, items, s, id, t, r) && IsPair(s', id, t, r) && Next(cfg, items, s, s')
    ensures i == t || i == r ==> Step(cfg, s.world, s.handlers[i], s'.world, s'.handlers[i])
    ensures i != t ==> s'.handlers[t] == s.handlers[t]
    ensures i != r ==> s'.handlers[r] == s.handlers[r]
    ensures i != t && i != r ==>
              && (TrashHolds(cfg, items, s'.world, id) <==> TrashHolds(cfg, items, s.world, id))
              && (id in s'.world.rows <==> id in s.world.rows)
              && (id in s.world.rows ==> s'.world.rows[id] == s.world.rows[id])
  {
    if Spawn(items, s, s') {
      i := |s.handlers|;
    } else {
      i :| Tick(cfg, s, s', i);
      if i != t && i != r {
        ElsewhereStep(cfg, items, s.world, s.handlers[i], s'.world, s'.handlers[i], id);
      }
    }
  }

  lemma RowStaysSeen(cfg: Config, items: Items, s: System, s': System, id: string, t: nat, r: nat)
    requires Tracked(cfg, items, s, id, t, r) && IsPair(s', id, t, r) && Next(cfg, items, s, s')
    ensures RowSeen(s'.world.rows, id, s'.handlers[t].pc)
  {
    var i := WhoSteps(cfg, items, s, s', id, t, r);
    if i == t {
      TrashRowStep(cfg, items, s.world, s.handlers[t], s'.world, s'.handlers[t], id);
    } else if i == r {
      RestoreRowStep(cfg, items, s.world, s.handlers[r], s'.world, s'.handlers[r], id);
    }
  }

  lemma BytesStep(cfg: Config, items: Items, s: System, s': System, id: string, t: nat, r: nat, last: bool)
    requires Tracked(cfg, items, s, id, t, r) && IsPair(s', id, t, r) && Next(cfg, items, s, s')
    requires BytesFollow(TrashHolds(cfg, items, s.world, id), s.handlers[t].pc, s.handlers[r].pc, last)
    ensures BytesFollow(TrashHolds(cfg, items, s'.world, id), s'.handlers[t].pc, s'.handlers[r].pc,
                        last || (EndsFiles(s, s', t) && FilesDone(s.handlers[r].pc)))
  {
    var i := WhoSteps(cfg, items, s, s', id, t, r);
    if i == t {
      TrashBytes(cfg, items, s.world, s.handlers[t], s'.world, s'.handlers[t], id, s.handlers[r].pc, last);
    } else if i == r {
      RestoreBytes(cfg, items, s.world, s.handlers[r], s'.world, s'.handlers[r], id, s.handlers[t].pc, last);
    }
  }

  lemma RowStep(cfg: Config, items: Items, s: System, s': System, id: string, t: nat, r: nat, last: bool)
    requires Tracked(cfg, items, s, id, t, r) && IsPair(s', id, t, r) && Next(cfg, items, s, s')
    requires RowFollows(s.world.rows, id, s.handlers[t].pc, s.handlers[r].pc, last)
    ensures RowFollows(s'.world.rows, id, s'.handlers[t].pc, s'.handlers[r].pc,
                       last || (EndsRow(s, s', t) && s.handlers[r].pc.Done?))
  {
    var i := WhoSteps(cfg, items, s, s', id, t, r);
    if i == t {
      TrashRowStep(cfg, items, s.world, s.handlers[t], s'.world, s'.handlers[t], id);
    } else if i == r {
      RestoreRowStep(cfg, items, s.world, s.handlers[r], s'.world, s'.handlers[r], id);
    }
  }

  /** What the last of the first `n` steps adds to the history. */
  lemma OneMoreStep(run: seq<System>, n: nat, t: nat, r: nat)
    requires 0 < n < |run| && BothThere(run, t, r)
    ensures TrashesFilesLast(run, n, t, r)
       <==> TrashesFilesLast(run, n - 1, t, r) || (EndsFiles(run[n - 1], run[n], t) && FilesDone(run[n - 1].handlers[r].pc))
    ensures TrashesRowLast(run, n, t, r)
       <==> TrashesRowLast(run, n - 1, t, r) || (EndsRow(run[n - 1], run[n], t) && run[n - 1].handlers[r].pc.Done?)
  {
  }

  /** A step of an overlap, and what is known before it. */
  lemma OverlapStep(cfg: Config, items: Items, run: seq<System>, id: string, t: nat, r: nat, n: nat)
    requires IsOverlap(cfg, items, run, id, t, r) && n + 1 < |run|
    ensures Tracked(cfg, items, run[n], id, t, r) && IsPair(run[n + 1], id, t, r) && Next(cfg, items, run[n], run[n + 1])
  {
    AlwaysTracked(cfg, items, run, id, t, r, n);
  }

  ghost predicate BytesFollowAt(cfg: Config, items: Items, run: seq<System>, id: string, t: nat, r: nat, n: nat)
    requires id in items && n < |run| && BothThere(run, t, r)
  {
    BytesFollow(TrashHolds(cfg, items, run[n].world, id), run[n].handlers[t].pc, run[n].handlers[r].pc,
                TrashesFilesLast(run, n, t, r))
  }

  ghost predicate RowFollowsAt(run: seq<System>, id: string, t: nat, r: nat, n: nat)
    requires n < |run| && BothThere(run, t, r)
  {
    RowFollows(run[n].world.rows, id, run[n].handlers[t].pc, run[n].handlers[r].pc, TrashesRowLast(run, n, t, r))
  }

  lemma FollowNext(cfg: Config, items: Items, run: seq<System>, id: string, t: nat, r: nat, n: nat)
    requires n + 1 < |run| && BothThere(run, t, r)
    requires Tracked(cfg, items, run[n], id, t, r) && IsPair(run[n + 1], id, t, r) && Next(cfg, items, run[n], run[n + 1])
    ensures BytesFollowAt(cfg, items, run, id, t, r, n) ==> BytesFollowAt(cfg, items, run, id, t, r, n + 1)
    ensures RowFollowsAt(run, id, t, r, n) ==> RowFollowsAt(run, id, t, r, n + 1)
  {
    OneMoreStep(run, n + 1, t, r);
    if BytesFollowAt(cfg, items, run, id, t, r, n) {
      BytesStep(cfg, items, run[n], run[n + 1], id, t, r, TrashesFilesLast(run, n, t, r));
    }
    if RowFollowsAt(run, id, t, r, n) {
      RowStep(cfg, items, run[n], run[n + 1], id, t, r, TrashesRowLast(run, n, t, r));
    }
  }

  lemma {:induction false} BothFollow(cfg: Config, items: Items, run: seq<System>, id: string, t: nat, r: nat, n: nat)
    requires IsOverlap(cfg, items, run, id, t, r) && n < |run|
    ensures BytesFollowAt(cfg, items, run, id, t, r, n) && RowFollowsAt(run, id, t, r, n)
    decreases n
  {
    if n > 0 {
      BothFollow(cfg, items, run, id, t, r, n - 1);
      OverlapStep(cfg, items, run, id, t, r, n - 1);
      FollowNext(cfg, items, run, id, t, r, n - 1);
    }
  }

  /** However the two interleave, once both have finished, the row says where the bytes are
      exactly when the one that got past its files last is also the one that wrote the row last. */
  lemma OverlapAgreesExactly(cfg: Config, items: Items, run: seq<System>, id: string, t: nat, r: nat, n: nat)
    requires IsOverlap(cfg, items, run, id, t, r) && n < |run|
    requires run[n].handlers[t].pc.Done? && run[n].handlers[r].pc.Done?
    ensures FlagAgrees(cfg, items, run[n].world, id)
       <==> (TrashesFilesLast(run, n, t, r) <==> TrashesRowLast(run, n, t, r))
  {
    BothFollow(cfg, items, run, id, t, r, n);
  }

  // ---------------------------------------------------------------------------
  // From bytes in the trash, and from a row that says live
  // ---------------------------------------------------------------------------

  /** Within the first `n` steps the trash looked for the live file, when the restore had already moved it. */
  ghost predicate ChecksAfterMove(run: seq<System>, n: nat, t: nat, r: nat)
    requires n < |run| && BothThere(run, t, r)
  {
    exists k :: 0 <= k < n && Checks(run[k], run[k + 1], t) && FilesDone(run[k].handlers[r].pc)
  }

  ghost predicate Checks(s: System, s': System, t: nat)
    requires t < |s.handlers| && t < |s'.handlers|
  {
    s.handlers[t].pc.TrashCheck? && !s'.handlers[t].pc.TrashCheck?
  }

  lemma OneMoreCheck(run: seq<System>, n: nat, t: nat, r: nat)
    requires 0 < n < |run| && BothThere(run, t, r)
    ensures ChecksAfterMove(run, n, t, r)
       <==> ChecksAfterMove(run, n - 1, t, r) || (Checks(run[n - 1], run[n], t) && FilesDone(run[n - 1].handlers[r].pc))
  {
  }

  /** The bytes stay in the trash until the restore has moved them, so the trash finds something
      to move exactly when it looks after that. */
  ghost predicate CheckFollows(trashed: bool, pt: Pc, pr: Pc, checked: bool, last: bool) {
    && (!FilesDone(pr) ==> trashed)
    && (checked ==> FilesDone(pr) && (pt.TrashMove? || FilesDone(pt) || pt.Failed?))
    && (pt.TrashMove? ==> checked)
    && (FilesDone(pt) ==> (checked <==> last))
  }

  lemma CheckStep(cfg: Config, items: Items, s: System, s': System, id: string, t: nat, r: nat, checked: bool, last: bool)
    requires Tracked(cfg, items, s, id, t, r) && IsPair(s', id, t, r) && Next(cfg, items, s, s')
    requires BytesFollow(TrashHolds(cfg, items, s.world, id), s.handlers[t].pc, s.handlers[r].pc, last)
    requires CheckFollows(TrashHolds(cfg, items, s.world, id), s.handlers[t].pc, s.handlers[r].pc, checked, last)
    ensures CheckFollows(TrashHolds(cfg, items, s'.world, id), s'.handlers[t].pc, s'.handlers[r].pc,
                         checked || (Checks(s, s', t) && FilesDone(s.handlers[r].pc)),
                         last || (EndsFiles(s, s', t) && FilesDone(s.handlers[r].pc)))
  {
    var i := WhoSteps(cfg, items, s, s', id, t, r);
    if i == t {
      TrashStep(cfg, items, s.world, s.handlers[t], s'.world, s'.handlers[t], id);
    } else if i == r {
      RestoreStep(cfg, items, s.world, s.handlers[r], s'.world, s'.handlers[r], id);
    }
  }

  lemma {:induction false} OverlapChecks(cfg: Config, items: Items, run: seq<System>, id: string, t: nat, r: nat, n: nat)
    requires IsOverlap(cfg, items, run, id, t, r) && n < |run| && TrashHolds(cfg, items, run[0].world, id)
    ensures CheckFollows(TrashHolds(cfg, items, run[n].world, id), run[n].handlers[t].pc, run[n].handlers[r].pc,
                         ChecksAfterMove(run, n, t, r), TrashesFilesLast(run, n, t, r))
    decreases n
  {
    if n > 0 {
      OverlapChecks(cfg, items, run, id, t, r, n - 1);
      BothFollow(cfg, items, run, id, t, r, n - 1);
      OverlapStep(cfg, items, run, id, t, r, n - 1);
      CheckStep(cfg, items, run[n - 1], run[n], id, t, r, ChecksAfterMove(run, n - 1, t, r), TrashesFilesLast(run, n - 1, t, r));
      OneMoreCheck(run, n, t, r);
      OneMoreStep(run, n, t, r);
    }
  }

  /** From bytes in the trash: exactly when the trash looked for the file after the restore's
      move if and only if it wrote the row after the restore did. */
  lemma OverlapFromTrash(cfg: Config, items: Items, run: seq<System>, id: string, t: nat, r: nat, n: nat)
    requires IsOverlap(cfg, items, run, id, t, r) && n < |run| && TrashHolds(cfg, items, run[0].world, id)
    requires run[n].handlers[t].pc.Done? && run[n].handlers[r].pc.Done?
    ensures FlagAgrees(cfg, items, run[n].world, id)
       <==> (ChecksAfterMove(run, n, t, r) <==> TrashesRowLast(run, n, t, r))
  {
    OverlapAgreesExactly(cfg, items, run, id, t, r, n);
    OverlapChecks(cfg, items, run, id, t, r, n);
  }

  /** A restore gets past its first step only once the trash is done. */
  ghost predicate Waiting(s: System, id: string, t: nat, r: nat)
    requires t < |s.handlers| && r < |s.handlers|
  {
    var pt, pr := s.handlers[t].pc, s.handlers[r].pc;
    && (pr.RestoreSelect? || pr.Failed? || pt.Done?)
    && (!pt.Done? && id in s.world.rows ==> !s.world.rows[id].trashed)
  }

  lemma WaitingStep(cfg: Config, items: Items, s: System, s': System, id: string, t: nat, r: nat)
    requires Tracked(cfg, items, s, id, t, r) && IsPair(s', id, t, r) && Next(cfg, items, s, s') && Waiting(s, id, t, r)
    ensures Waiting(s', id, t, r)
    ensures EndsFiles(s, s', t) ==> !FilesDone(s.handlers[r].pc)
    ensures EndsRow(s, s', t) ==> !s.handlers[r].pc.Done?
  {
    var i := WhoSteps(cfg, items, s, s', id, t, r);
    if i == t {
      TrashRowStep(cfg, items, s.world, s.handlers[t], s'.world, s'.handlers[t], id);
    } else if i == r {
      RestoreRowStep(cfg, items, s.world, s.handlers[r], s'.world, s'.handlers[r], id);
    }
  }

  ghost predicate StartsLive(s: System, id: string) {
    id in s.world.rows ==> !s.world.rows[id].trashed
  }

  /** The restore waits, and so far nothing of the trash came last. */
  ghost predicate WaitingAt(run: seq<System>, id: string, t: nat, r: nat, n: nat)
    requires n < |run| && BothThere(run, t, r)
  {
    Waiting(run[n], id, t, r) && !TrashesFilesLast(run, n, t, r) && !TrashesRowLast(run, n, t, r)
  }

  lemma WaitsOn(cfg: Config, items: Items, run: seq<System>, id: string, t: nat, r: nat, n: nat)
    requires n + 1 < |run| && BothThere(run, t, r) && WaitingAt(run, id, t, r, n)
    requires Tracked(cfg, items, run[n], id, t, r) && IsPair(run[n + 1], id, t, r) && Next(cfg, items, run[n], run[n + 1])
    ensures WaitingAt(run, id, t, r, n + 1)
  {
    WaitingStep(cfg, items, run[n], run[n + 1], id, t, r);
    OneMoreStep(run, n + 1, t, r);
  }

  lemma {:induction false} RestoreWaits(cfg: Config, items: Items, run: seq<System>, id: string, t: nat, r: nat, n: nat)
    requires IsOverlap(cfg, items, run, id, t, r) && n < |run| && StartsLive(run[0], id)
    ensures WaitingAt(run, id, t, r, n)
    decreases n
  {
    if n > 0 {
      RestoreWaits(cfg, items, run, id, t, r, n - 1);
      OverlapStep(cfg, items, run, id, t, r, n - 1);
      WaitsOn(cfg, items, run, id, t, r, n - 1);
    }
  }

  /** When the row said live to begin with, every overlap that both finish leaves them in agreement. */
  lemma OverlapFromLiveRow(cfg: Config, items: Items, run: seq<System>, id: string, t: nat, r: nat, n: nat)
    requires IsOverlap(cfg, items, run, id, t, r) && n < |run| && StartsLive(run[0], id)
    requires run[n].handlers[t].pc.Done? && run[n].handlers[r].pc.Done?
    ensures FlagAgrees(cfg, items, run[n].world, id)
  {
    RestoreWaits(cfg, items, run, id, t, r, n);
    OverlapAgreesExactly(cfg, items, run, id, t, r, n);
  }

  // ---------------------------------------------------------------------------
  // The two schedules that leave them apart
  // ---------------------------------------------------------------------------

  /** Handler 0 restores the item and handler 1 trashes it. */
  ghost function Both(items: Items, id: string, w: World, restore: Pc, trash: Pc): System
    requires id in items
  {
    System(w, [Handler(id, items[id].owner, restore), Handler(id, items[id].owner, trash)], {})
  }

  lemma RestoreTicks(cfg: Config, items: Items, id: string, w: World, w': World, restore: Pc, restore': Pc, trash: Pc)
    requires id in items
    requires Step(cfg, w, Handler(id, items[id].owner, restore), w', Handler(id, items[id].owner, restore')) && Restoring(restore)
    ensures Next(cfg, items, Both(items, id, w, restore, trash), Both(items, id, w', restore', trash))
  {
    var s, s' := Both(items, id, w, restore, trash), Both(items, id, w', restore', trash);
    assert s'.handlers == s.handlers[0 := s'.handlers[0]];
    assert Tick(cfg, s, s', 0);
  }

  lemma TrashTicks(cfg: Config, items: Items, id: string, w: World, w': World, trash: Pc, trash': Pc, restore: Pc)
    requires id in items
    requires Step(cfg, w, Handler(id, items[id].owner, trash), w', Handler(id, items[id].owner, trash')) && Trashing(trash)
    ensures Next(cfg, items, Both(items, id, w, restore, trash), Both(items, id, w', restore, trash'))
  {
    var s, s' := Both(items, id, w, restore, trash), Both(items, id, w', restore, trash');
    assert s'.handlers == s.handlers[1 := s'.handlers[1]];
    assert Tick(cfg, s, s', 1);
  }

  /** Some run leads from one state to the other. */
  ghost predicate Leads(cfg: Config, items: Items, s: System, s': System) {
    exists run :: IsRun(cfg, items, run) && run[0] == s && run[|run| - 1] == s'
  }

  lemma LeadsNowhere(cfg: Config, items: Items, s: System)
    ensures Leads(cfg, items, s, s)
  {
    assert IsRun(cfg, items, [s]);
  }

  lemma LeadsOn(cfg: Config, items: Items, s: System, m: System, s': System)
    requires Leads(cfg, items, s, m) && Next(cfg, items, m, s')
    ensures Leads(cfg, items, s, s')
  {
    var run :| IsRun(cfg, items, run) && run[0] == s && run[|run| - 1] == m;
    var longer := run + [s'];
    assert IsRun(cfg, items, longer);
    assert longer[0] == s && longer[|longer| - 1] == s';
  }

  /** One more step of the restore, and one more of the trash. */
  lemma RestoreGoesOn(cfg: Config, items: Items, id: string, start: System, w: World, w': World, restore: Pc, restore': Pc, trash: Pc)
    requires id in items && Leads(cfg, items, start, Both(items, id, w, restore, trash))
    requires Step(cfg, w, Handler(id, items[id].owner, restore), w', Handler(id, items[id].owner, restore')) && Restoring(restore)
    ensures Leads(cfg, items, start, Both(items, id, w', restore', trash))
  {
    RestoreTicks(cfg, items, id, w, w', restore, restore', trash);
    LeadsOn(cfg, items, start, Both(items, id, w, restore, trash), Both(items, id, w', restore', trash));
  }

  lemma TrashGoesOn(cfg: Config, items: Items, id: string, start: System, w: World, w': World, trash: Pc, trash': Pc, restore: Pc)
    requires id in items && Leads(cfg, items, start, Both(items, id, w, restore, trash))
    requires Step(cfg, w, Handler(id, items[id].owner, trash), w', Handler(id, items[id].owner, trash')) && Trashing(trash)
    ensures Leads(cfg, items, start, Both(items, id, w', restore, trash'))
  {
    TrashTicks(cfg, items, id, w, w', trash, trash', restore);
    LeadsOn(cfg, items, start, Both(items, id, w, restore, trash), Both(items, id, w', restore, trash'));
  }

  ghost function At(items: Items, id: string, pc: Pc): Handler
    requires id in items
  {
    Handler(id, items[id].owner, pc)
  }

  lemma RestoreSteps(cfg: Config, items: Items, w: World, id: string)
    requires Intact(cfg, items, w, id) && CanRestore(w, id) && TrashHolds(cfg, items, w, id)
    ensures var file, made := items[id].file, AfterMakeDir(w, Live(cfg, items, id));
            && Step(cfg, w, At(items, id, RestoreSelect), w, At(items, id, RestoreCheck(file)))
            && Step(cfg, w, At(items, id, RestoreCheck(file)), w, At(items, id, RestoreMakeDir(file)))
            && Step(cfg, w, At(items, id, RestoreMakeDir(file)), made, At(items, id, RestoreMove(file)))
            && Step(cfg, made, At(items, id, RestoreMove(file)), RestoreMoved(cfg, items, w, id), At(items, id, RestoreUpdate))
  {
    ItemFacts(cfg, items, w, id);
    var made := AfterMakeDir(w, Live(cfg, items, id));
    IntactMove(cfg, items, made, id, InTrash(cfg, items, id), Live(cfg, items, id));
  }

  /** A restore that finds the bytes in the trash reaches its row, while the trash stands still. */
  lemma RestoreReachesRow(cfg: Config, items: Items, w: World, id: string, trash: Pc, start: System)
    requires Intact(cfg, items, w, id) && CanRestore(w, id) && TrashHolds(cfg, items, w, id)
    requires Leads(cfg, items, start, Both(items, id, w, RestoreSelect, trash))
    ensures Leads(cfg, items, start, Both(items, id, RestoreMoved(cfg, items, w, id), RestoreUpdate, trash))
  {
    var file, made, moved := items[id].file, AfterMakeDir(w, Live(cfg, items, id)), RestoreMoved(cfg, items, w, id);
    RestoreSteps(cfg, items, w, id);
    RestoreGoesOn(cfg, items, id, start, w, w, RestoreSelect, RestoreCheck(file), trash);
    RestoreGoesOn(cfg, items, id, start, w, w, RestoreCheck(file), RestoreMakeDir(file), trash);
    RestoreGoesOn(cfg, items, id, start, w, made, RestoreMakeDir(file), RestoreMove(file), trash);
    RestoreGoesOn(cfg, items, id, start, made, moved, RestoreMove(file), RestoreUpdate, trash);
  }

  lemma TrashSteps(cfg: Config, items: Items, w: World, id: string)
    requires Intact(cfg, items, w, id) && id in w.rows
    ensures var file, made, moved := items[id].file, AfterMakeDir(w, InTrash(cfg, items, id)), TrashMoved(cfg, items, w, id);
            && Step(cfg, w, At(items, id, TrashSelect), w, At(items, id, TrashMakeDir(file)))
            && Step(cfg, w, At(items, id, TrashMakeDir(file)), made, At(items, id, TrashCheck(file)))
            && if TrashHolds(cfg, items, w, id)
               then moved == made && Step(cfg, made, At(items, id, TrashCheck(file)), moved, At(items, id, TrashUpdate))
               else && Step(cfg, made, At(items, id, TrashCheck(file)), made, At(items, id, TrashMove(file)))
                    && Step(cfg, made, At(items, id, TrashMove(file)), moved, At(items, id, TrashUpdate))
  {
    var made := AfterMakeDir(w, InTrash(cfg, items, id));
    ItemFacts(cfg, items, w, id);
    ItemFacts(cfg, items, made, id);
    if Live(cfg, items, id) in made.store.data {
      IntactMove(cfg, items, made, id, Live(cfg, items, id), InTrash(cfg, items, id));
    }
  }

  /** A trash reaches its row, while the restore stands still. */
  lemma TrashReachesRow(cfg: Config, items: Items, w: World, id: string, restore: Pc, start: System)
    requires Intact(cfg, items, w, id) && id in w.rows
    requires Leads(cfg, items, start, Both(items, id, w, restore, TrashSelect))
    ensures Leads(cfg, items, start, Both(items, id, TrashMoved(cfg, items, w, id), restore, TrashUpdate))
  {
    var file, made, moved := items[id].file, AfterMakeDir(w, InTrash(cfg, items, id)), TrashMoved(cfg, items, w, id);
    TrashSteps(cfg, items, w, id);
    TrashGoesOn(cfg, items, id, start, w, w, TrashSelect, TrashMakeDir(file), restore);
    TrashGoesOn(cfg, items, id, start, w, made, TrashMakeDir(file), TrashCheck(file), restore);
    if TrashHolds(cfg, items, w, id) {
      TrashGoesOn(cfg, items, id, start, made, moved, TrashCheck(file), TrashUpdate, restore);
    } else {
      TrashGoesOn(cfg, items, id, start, made, made, TrashCheck(file), TrashMove(file), restore);
      TrashGoesOn(cfg, items, id, start, made, moved, TrashMove(file), TrashUpdate, restore);
    }
  }

  lemma RestoreEnds(cfg: Config, items: Items, id: string, start: System, w: World, trash: Pc)
    requires id in items && Leads(cfg, items, start, Both(items, id, w, RestoreUpdate, trash))
    ensures Leads(cfg, items, start, Both(items, id, SetTrashed(w, id, false), Done, trash))
  {
    RestoreGoesOn(cfg, items, id, start, w, SetTrashed(w, id, false), RestoreUpdate, Done, trash);
  }

  lemma TrashEnds(cfg: Config, items: Items, id: string, start: System, w: World, restore: Pc)
    requires id in items && id in w.rows && Leads(cfg, items, start, Both(items, id, w, restore, TrashUpdate))
    ensures Leads(cfg, items, start, Both(items, id, SetTrashed(w, id, true), restore, Done))
  {
    TrashGoesOn(cfg, items, id, start, w, SetTrashed(w, id, true), TrashUpdate, Done, restore);
  }

  /** A whole trash between a restore's move and its row: some run ends with both done, the row
      saying live, and the bytes in the trash. */
  lemma TrashInsideRestore(cfg: Config, items: Items, w: World, id: string) returns (end: World)
    requires Intact(cfg, items, w, id) && CanRestore(w, id) && TrashHolds(cfg, items, w, id)
    ensures Leads(cfg, items, Both(items, id, w, RestoreSelect, TrashSelect), Both(items, id, end, Done, Done))
    ensures id in end.rows && !end.rows[id].trashed && TrashHolds(cfg, items, end, id) && !FlagAgrees(cfg, items, end, id)
  {
    var start := Both(items, id, w, RestoreSelect, TrashSelect);
    var mid := RestoreMoved(cfg, items, w, id);
    var moved := TrashMoved(cfg, items, mid, id);
    RestoreStages(cfg, items, w, id);
    TrashStages(cfg, items, mid, id);
    LeadsNowhere(cfg, items, start);
    RestoreReachesRow(cfg, items, w, id, TrashSelect, start);
    TrashReachesRow(cfg, items, mid, id, RestoreUpdate, start);
    TrashEnds(cfg, items, id, start, moved, RestoreUpdate);
    RestoreEnds(cfg, items, id, start, SetTrashed(moved, id, true), Done);
    end := SetTrashed(SetTrashed(moved, id, true), id, false);
  }

  /** A whole restore between a trash's check, which finds nothing to move, and its row: some run
      ends with both done, the row saying trashed, and the bytes live. */
  lemma RestoreInsideTrash(cfg: Config, items: Items, w: World, id: string) returns (end: World)
    requires Intact(cfg, items, w, id) && CanRestore(w, id) && TrashHolds(cfg, items, w, id)
    ensures Leads(cfg, items, Both(items, id, w, RestoreSelect, TrashSelect), Both(items, id, end, Done, Done))
    ensures id in end.rows && end.rows[id].trashed && !TrashHolds(cfg, items, end, id) && !FlagAgrees(cfg, items, end, id)
  {
    var start := Both(items, id, w, RestoreSelect, TrashSelect);
    var mid := TrashMoved(cfg, items, w, id);
    var moved := RestoreMoved(cfg, items, mid, id);
    TrashStages(cfg, items, w, id);
    RestoreStages(cfg, items, mid, id);
    LeadsNowhere(cfg, items, start);
    TrashReachesRow(cfg, items, w, id, RestoreSelect, start);
    RestoreReachesRow(cfg, items, mid, id, TrashUpdate, start);
    RestoreEnds(cfg, items, id, start, moved, TrashUpdate);
    TrashEnds(cfg, items, id, start, SetTrashed(moved, id, false), Done);
    end := SetTrashed(SetTrashed(moved, id, false), id, true);
  }
}
