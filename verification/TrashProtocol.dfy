/** The media trash: soft delete, restore, permanent delete and emptying, as
    handlers whose storage and database effects are separate atomic steps.

    A world is the file storage and the table rows. A crash is a handler that is
    never scheduled again, so every statement about all schedules covers it. */
module TrashProtocol {
  import opened Wrappers
  import opened MemoryStorage

  /** How the database hands out the id of a row: as text, or as a number. */
  datatype IdKind = TextId | NumberId

  datatype Row = Row(filePath: Path, trashed: bool, idKind: IdKind)

  datatype World = World(store: Store, rows: map<string, Row>)

  datatype Config = Config(root: Path, prefix: Path)
  {
    function LivePath(file: Path): Path {
      root + file
    }

    function TrashPath(subject: string, file: Path): Path {
      root + prefix + [subject] + file
    }
  }

  function ParentOf(path: Path): Path {
    if path == [] then [] else path[..|path| - 1]
  }

  // ---------------------------------------------------------------------------
  // The handlers
  // ---------------------------------------------------------------------------

  datatype Operation = Trash | Restore | Purge | Empty

  /** Where a handler stands; `file` is the path it read from the row. */
  datatype Pc =
    | TrashSelect | TrashMakeDir(file: Path) | TrashCheck(file: Path) | TrashMove(file: Path) | TrashUpdate
    | RestoreSelect | RestoreCheck(file: Path) | RestoreMakeDir(file: Path) | RestoreMove(file: Path) | RestoreUpdate
    | PurgeSelect | PurgeCheck(file: Path) | PurgeRemove(file: Path) | PurgeDeleteRow
    | EmptySelect | EmptyDelete(ids: seq<string>)
    | Done | Failed

  datatype Handler = Handler(id: string, subject: string, pc: Pc)

  function Begin(op: Operation, id: string, subject: string): Handler {
    Handler(id, subject,
            match op case Trash => TrashSelect case Restore => RestoreSelect case Purge => PurgeSelect case Empty => EmptySelect)
  }

  ghost predicate Halted(h: Handler) {
    h.pc.Done? || h.pc.Failed?
  }

  function SetTrashed(w: World, id: string, trashed: bool): World {
    if id in w.rows then w.(rows := w.rows[id := w.rows[id].(trashed := trashed)]) else w
  }

  /** Emptying goes through the trashed rows whose id is handed out as text; it skips the others. */
  predicate IsEmptied(row: Row) {
    row.trashed && row.idKind == TextId
  }

  /** The ids of those rows, in some order. */
  ghost predicate ListsTrashed(rows: map<string, Row>, ids: seq<string>) {
    forall id :: id in ids <==> id in rows && IsEmptied(rows[id])
  }

  /** One atomic step of a handler. */
  ghost predicate Step(cfg: Config, w: World, h: Handler, w': World, h': Handler) {
    h'.id == h.id && h'.subject == h.subject &&
    match h.pc
    case TrashSelect =>
      w' == w && h'.pc == if h.id in w.rows then TrashMakeDir(w.rows[h.id].filePath) else Failed
    case TrashMakeDir(file) =>
      w' == w.(store := WithDirs(w.store, ParentOf(cfg.TrashPath(h.subject, file)))) && h'.pc == TrashCheck(file)
    case TrashCheck(file) =>
      w' == w && h'.pc == if Exists(w.store, cfg.LivePath(file)) then TrashMove(file) else TrashUpdate
    case TrashMove(file) =>
      Moves(w, cfg.LivePath(file), cfg.TrashPath(h.subject, file), w', h'.pc, TrashUpdate)
    case TrashUpdate =>
      w' == SetTrashed(w, h.id, true) && h'.pc == if h.id in w.rows then Done else Failed
    case RestoreSelect =>
      w' == w && h'.pc == if h.id in w.rows && w.rows[h.id].trashed then RestoreCheck(w.rows[h.id].filePath) else Failed
    case RestoreCheck(file) =>
      w' == w && h'.pc == if Exists(w.store, cfg.TrashPath(h.subject, file)) then RestoreMakeDir(file) else RestoreUpdate
    case RestoreMakeDir(file) =>
      w' == w.(store := WithDirs(w.store, ParentOf(cfg.LivePath(file)))) && h'.pc == RestoreMove(file)
    case RestoreMove(file) =>
      Moves(w, cfg.TrashPath(h.subject, file), cfg.LivePath(file), w', h'.pc, RestoreUpdate)
    case RestoreUpdate =>
      w' == SetTrashed(w, h.id, false) && h'.pc == Done
    case PurgeSelect =>
      w' == w && h'.pc ==
        if h.id in w.rows && w.rows[h.id].trashed
        then (if w.rows[h.id].filePath == [] then PurgeDeleteRow else PurgeCheck(w.rows[h.id].filePath))
        else Failed
    case PurgeCheck(file) =>
      w' == w && h'.pc == if Exists(w.store, cfg.TrashPath(h.subject, file)) then PurgeRemove(file) else PurgeDeleteRow
    case PurgeRemove(file) =>
      var after := Deleted(w.store, cfg.TrashPath(h.subject, file));
      w' == w.(store := if after.Ok? then after.value else w.store) && h'.pc == PurgeDeleteRow
    case PurgeDeleteRow =>
      w' == w.(rows := w.rows - {h.id}) && h'.pc == if h.id in w.rows then Done else Failed
    case EmptySelect =>
      w' == w && h'.pc.EmptyDelete? && ListsTrashed(w.rows, h'.pc.ids)
    case EmptyDelete(ids) =>
      if ids == [] then w' == w && h'.pc == Done
      else (w' == w.(rows := w.rows - {ids[0]}) || w' == w) && h'.pc == EmptyDelete(ids[1..])
    case Done => w' == w && h'.pc == Done
    case Failed => w' == w && h'.pc == Failed
  }

  ghost predicate Moves(w: World, from: Path, to: Path, w': World, pc': Pc, next: Pc) {
    var after := Renamed(w.store, from, to);
    w' == w.(store := if after.Ok? then after.value else w.store) && pc' == if after.Ok? then next else Failed
  }

  // ---------------------------------------------------------------------------
  // Items and where their bytes may be
  // ---------------------------------------------------------------------------

  /** A media item: its relative path, its contents, and the one subject that acts on it. */
  datatype Item = Item(file: Path, owner: string, contents: Bytes)

  type Items = map<string, Item>

  ghost predicate Nested(p: Path, q: Path) {
    p <= q || q <= p
  }

  /** Relative paths are not nested in each other nor with the trash prefix. */
  ghost predicate WellPlaced(cfg: Config, items: Items) {
    && cfg.prefix != []
    && (forall i :: i in items ==> items[i].file != [] && !Nested(items[i].file, cfg.prefix))
    && (forall i, j :: i in items && j in items && i != j ==> !Nested(items[i].file, items[j].file))
  }

  ghost function Live(cfg: Config, items: Items, i: string): Path
    requires i in items
  {
    cfg.LivePath(items[i].file)
  }

  ghost function InTrash(cfg: Config, items: Items, i: string): Path
    requires i in items
  {
    cfg.TrashPath(items[i].owner, items[i].file)
  }

  ghost predicate IsItemPath(cfg: Config, items: Items, p: Path) {
    exists i :: i in items && (p == Live(cfg, items, i) || p == InTrash(cfg, items, i))
  }

  /** The contents are at the live path or at the trash path, and not at the other. */
  ghost predicate AtOnePlace(cfg: Config, items: Items, store: Store, i: string)
    requires i in items
  {
    var live, trash := Live(cfg, items, i), InTrash(cfg, items, i);
    || (live in store.data && store.data[live] == items[i].contents && trash !in store.data)
    || (trash in store.data && store.data[trash] == items[i].contents && live !in store.data)
  }

  /** Nothing else in storage is nested with an item's paths, and no directory sits on them. */
  ghost predicate PathsFree(cfg: Config, items: Items, store: Store) {
    && (forall k, p :: k in store.data && IsItemPath(cfg, items, p) && k != p ==> !Nested(k, p))
    && (forall p :: IsItemPath(cfg, items, p) ==> p !in store.dirs)
  }

  lemma CancelRoot(root: Path, a: Path, b: Path)
    ensures Nested(root + a, root + b) <==> Nested(a, b)
  {
    PrefixCancel(root, a, b);
    PrefixCancel(root, b, a);
  }

  lemma PrefixCancel(root: Path, a: Path, b: Path)
    ensures root + a <= root + b <==> a <= b
  {
    if root + a <= root + b {
      forall k | 0 <= k < |a|
        ensures a[k] == b[k]
      {
        assert (root + a)[|root| + k] == (root + b)[|root| + k];
      }
    }
  }

  /** A path nested with something below the prefix is nested with the prefix. */
  lemma NestedBelowPrefix(file: Path, prefix: Path, rest: Path)
    requires Nested(file, prefix + rest)
    ensures Nested(file, prefix)
  {
    if file <= prefix + rest && |file| <= |prefix| {
      assert forall k :: 0 <= k < |file| ==> file[k] == (prefix + rest)[k] == prefix[k];
    } else {
      assert forall k :: 0 <= k < |prefix| ==> prefix[k] == (prefix + rest)[k] == file[k];
    }
  }

  lemma TrashPathParts(cfg: Config, subject: string, file: Path)
    ensures cfg.TrashPath(subject, file) == cfg.root + (cfg.prefix + ([subject] + file))
  {
  }

  lemma LiveApartFromTrash(cfg: Config, items: Items, i: string, subject: string, file: Path)
    requires WellPlaced(cfg, items) && i in items
    ensures !Nested(Live(cfg, items, i), cfg.TrashPath(subject, file))
  {
    TrashPathParts(cfg, subject, file);
    CancelRoot(cfg.root, items[i].file, cfg.prefix + ([subject] + file));
    if Nested(items[i].file, cfg.prefix + ([subject] + file)) {
      NestedBelowPrefix(items[i].file, cfg.prefix, [subject] + file);
      assert false;
    }
  }

  lemma LiveApart(cfg: Config, items: Items, i: string, j: string)
    requires WellPlaced(cfg, items) && i in items && j in items && i != j
    ensures !Nested(Live(cfg, items, i), Live(cfg, items, j))
  {
    CancelRoot(cfg.root, items[i].file, items[j].file);
  }

  lemma TrashApart(cfg: Config, items: Items, i: string, j: string)
    requires WellPlaced(cfg, items) && i in items && j in items && i != j
    ensures !Nested(InTrash(cfg, items, i), InTrash(cfg, items, j))
  {
    var a, b := [items[i].owner] + items[i].file, [items[j].owner] + items[j].file;
    TrashPathParts(cfg, items[i].owner, items[i].file);
    TrashPathParts(cfg, items[j].owner, items[j].file);
    CancelRoot(cfg.root, cfg.prefix + a, cfg.prefix + b);
    CancelRoot(cfg.prefix, a, b);
    if Nested(a, b) {
      assert a[0] == b[0];
      CancelRoot([items[i].owner], items[i].file, items[j].file);
    }
  }

  /** Distinct item paths are never nested. */
  lemma ItemPathsApart(cfg: Config, items: Items, p: Path, q: Path)
    requires WellPlaced(cfg, items) && IsItemPath(cfg, items, p) && IsItemPath(cfg, items, q) && p != q
    ensures !Nested(p, q)
  {
    var i :| i in items && (p == Live(cfg, items, i) || p == InTrash(cfg, items, i));
    var j :| j in items && (q == Live(cfg, items, j) || q == InTrash(cfg, items, j));
    LiveApartFromTrash(cfg, items, i, items[j].owner, items[j].file);
    LiveApartFromTrash(cfg, items, j, items[i].owner, items[i].file);
    if i != j {
      LiveApart(cfg, items, i, j);
      TrashApart(cfg, items, i, j);
    }
  }

  lemma ExistsIsFile(cfg: Config, items: Items, store: Store, p: Path)
    requires PathsFree(cfg, items, store) && IsItemPath(cfg, items, p)
    ensures Exists(store, p) <==> p in store.data
  {
  }

  // ---------------------------------------------------------------------------
  // Any number of handlers, in any order
  // ---------------------------------------------------------------------------

  /** `removed` collects the items whose permanent delete has reached the storage step. */
  datatype System = System(world: World, handlers: seq<Handler>, removed: set<string>)

  ghost predicate Spawn(items: Items, s: System, s': System) {
    exists op, id, subject ::
      && (id in items ==> subject == items[id].owner)
      && s' == s.(handlers := s.handlers + [Begin(op, id, subject)])
  }

  ghost predicate Tick(cfg: Config, s: System, s': System, i: nat) {
    && i < |s.handlers| && |s'.handlers| == |s.handlers|
    && s'.handlers == s.handlers[i := s'.handlers[i]]
    && Step(cfg, s.world, s.handlers[i], s'.world, s'.handlers[i])
    && s'.removed == if s.handlers[i].pc.PurgeRemove? then s.removed + {s.handlers[i].id} else s.removed
  }

  ghost predicate Next(cfg: Config, items: Items, s: System, s': System) {
    Spawn(items, s, s') || exists i: nat :: Tick(cfg, s, s', i)
  }

  ghost predicate IsRun(cfg: Config, items: Items, run: seq<System>) {
    |run| > 0 && forall k :: 0 <= k < |run| - 1 ==> Next(cfg, items, run[k], run[k + 1])
  }

  ghost predicate RowsMatch(items: Items, rows: map<string, Row>) {
    forall id :: id in rows ==> id in items && rows[id].filePath == items[id].file
  }

  /** A handler that has read a row carries that item's path and acts as its owner. */
  ghost predicate HandlerMatches(items: Items, h: Handler) {
    && (h.id in items ==> h.subject == items[h.id].owner)
    && match h.pc
       case TrashMakeDir(file) => h.id in items && file == items[h.id].file
       case TrashCheck(file) => h.id in items && file == items[h.id].file
       case TrashMove(file) => h.id in items && file == items[h.id].file
       case RestoreCheck(file) => h.id in items && file == items[h.id].file
       case RestoreMakeDir(file) => h.id in items && file == items[h.id].file
       case RestoreMove(file) => h.id in items && file == items[h.id].file
       case PurgeCheck(file) => h.id in items && file == items[h.id].file
       case PurgeRemove(file) => h.id in items && file == items[h.id].file
       case _ => true
  }

  ghost predicate Preserved(cfg: Config, items: Items, store: Store, removed: set<string>) {
    && PathsFree(cfg, items, store)
    && forall i :: i in items && i !in removed ==> AtOnePlace(cfg, items, store, i)
  }

  ghost predicate Inv(cfg: Config, items: Items, s: System) {
    && RowsMatch(items, s.world.rows)
    && (forall k :: 0 <= k < |s.handlers| ==> HandlerMatches(items, s.handlers[k]))
    && Preserved(cfg, items, s.world.store, s.removed)
  }

  lemma NoItemAbove(cfg: Config, items: Items, target: Path, p: Path)
    requires WellPlaced(cfg, items) && IsItemPath(cfg, items, target) && IsItemPath(cfg, items, p)
    ensures p !in Ancestors(ParentOf(target))
  {
    if p in Ancestors(ParentOf(target)) {
      AncestorIsPrefix(target, p);
      ItemPathsApart(cfg, items, p, target);
      assert false;
    }
  }

  lemma AncestorIsPrefix(path: Path, p: Path)
    requires p in Ancestors(ParentOf(path))
    ensures p != path && Nested(p, path)
  {
    var i :| 1 <= i <= |ParentOf(path)| && p == ParentOf(path)[..i];
    assert p == path[..i];
  }

  /** Creating the ancestors of an item path's parent puts no directory on an item path. */
  lemma MakeDirKeeps(cfg: Config, items: Items, store: Store, removed: set<string>, target: Path)
    requires WellPlaced(cfg, items) && Preserved(cfg, items, store, removed) && IsItemPath(cfg, items, target)
    ensures Preserved(cfg, items, WithDirs(store, ParentOf(target)), removed)
  {
    forall p | IsItemPath(cfg, items, p)
      ensures p !in Ancestors(ParentOf(target))
    {
      NoItemAbove(cfg, items, target, p);
    }
  }

  /** Moving an item between its two paths. */
  lemma MoveKeeps(cfg: Config, items: Items, store: Store, removed: set<string>, i: string, from: Path, to: Path)
    requires WellPlaced(cfg, items) && Preserved(cfg, items, store, removed) && i in items
    requires (from == Live(cfg, items, i) && to == InTrash(cfg, items, i)) || (from == InTrash(cfg, items, i) && to == Live(cfg, items, i))
    ensures Renamed(store, from, to).Ok? <==> from in store.data
    ensures Renamed(store, from, to).Ok? ==> Preserved(cfg, items, Renamed(store, from, to).value, removed)
  {
    assert IsItemPath(cfg, items, from) && IsItemPath(cfg, items, to);
    LiveApartFromTrash(cfg, items, i, items[i].owner, items[i].file);
    if from in store.data {
      var after := Renamed(store, from, to).value;
      forall k, p | k in after.data && IsItemPath(cfg, items, p) && k != p
        ensures !Nested(k, p)
      {
        if k == to {
          ItemPathsApart(cfg, items, k, p);
        }
      }
      forall j | j in items && j !in removed
        ensures AtOnePlace(cfg, items, after, j)
      {
        if j != i {
          OtherItemApart(cfg, items, i, j);
        }
      }
    }
  }

  lemma OtherItemApart(cfg: Config, items: Items, i: string, j: string)
    requires WellPlaced(cfg, items) && i in items && j in items && i != j
    ensures Live(cfg, items, i) != Live(cfg, items, j) && Live(cfg, items, i) != InTrash(cfg, items, j)
    ensures InTrash(cfg, items, i) != Live(cfg, items, j) && InTrash(cfg, items, i) != InTrash(cfg, items, j)
  {
    LiveApart(cfg, items, i, j);
    TrashApart(cfg, items, i, j);
    LiveApartFromTrash(cfg, items, i, items[j].owner, items[j].file);
    LiveApartFromTrash(cfg, items, j, items[i].owner, items[i].file);
  }

  lemma RemoveKeeps(cfg: Config, items: Items, store: Store, removed: set<string>, i: string)
    requires WellPlaced(cfg, items) && Preserved(cfg, items, store, removed) && i in items
    ensures var after := Deleted(store, InTrash(cfg, items, i));
            && (after.Ok? <==> InTrash(cfg, items, i) in store.data)
            && (after.Ok? ==> Preserved(cfg, items, after.value, removed + {i}))
  {
    assert IsItemPath(cfg, items, InTrash(cfg, items, i));
    var after := Deleted(store, InTrash(cfg, items, i));
    if after.Ok? {
      forall j | j in items && j !in removed + {i}
        ensures AtOnePlace(cfg, items, after.value, j)
      {
        OtherItemApart(cfg, items, i, j);
      }
    }
  }

  /** One step of one handler keeps every item that has not been removed. */
  lemma StepKeeps(cfg: Config, items: Items, w: World, removed: set<string>, h: Handler, w': World, h': Handler)
    requires WellPlaced(cfg, items) && RowsMatch(items, w.rows) && HandlerMatches(items, h)
    requires Preserved(cfg, items, w.store, removed)
    requires Step(cfg, w, h, w', h')
    ensures RowsMatch(items, w'.rows) && HandlerMatches(items, h')
    ensures Preserved(cfg, items, w'.store, if h.pc.PurgeRemove? then removed + {h.id} else removed)
  {
    match h.pc
    case TrashMakeDir(file) =>
      assert IsItemPath(cfg, items, InTrash(cfg, items, h.id));
      MakeDirKeeps(cfg, items, w.store, removed, InTrash(cfg, items, h.id));
    case TrashMove(file) =>
      MoveKeeps(cfg, items, w.store, removed, h.id, Live(cfg, items, h.id), InTrash(cfg, items, h.id));
    case RestoreMakeDir(file) =>
      assert IsItemPath(cfg, items, Live(cfg, items, h.id));
      MakeDirKeeps(cfg, items, w.store, removed, Live(cfg, items, h.id));
    case RestoreMove(file) =>
      MoveKeeps(cfg, items, w.store, removed, h.id, InTrash(cfg, items, h.id), Live(cfg, items, h.id));
    case PurgeRemove(file) =>
      RemoveKeeps(cfg, items, w.store, removed, h.id);
    case _ =>
  }

  lemma NextKeepsInv(cfg: Config, items: Items, s: System, s': System)
    requires WellPlaced(cfg, items) && Inv(cfg, items, s) && Next(cfg, items, s, s')
    ensures Inv(cfg, items, s')
  {
    if Spawn(items, s, s') {
      var op, id, subject :| (id in items ==> subject == items[id].owner) && s' == s.(handlers := s.handlers + [Begin(op, id, subject)]);
      assert HandlerMatches(items, Begin(op, id, subject));
    } else {
      var i: nat :| Tick(cfg, s, s', i);
      StepKeeps(cfg, items, s.world, s.removed, s.handlers[i], s'.world, s'.handlers[i]);
    }
  }

  /** No bytes are lost: in every state of every run, however the steps of however
      many handlers interleave and wherever they stop, each item not permanently
      deleted has its original contents at exactly one of its two paths. */
  lemma {:induction false} NoBytesLost(cfg: Config, items: Items, run: seq<System>, k: nat)
    requires WellPlaced(cfg, items) && IsRun(cfg, items, run) && Inv(cfg, items, run[0]) && k < |run|
    ensures Inv(cfg, items, run[k])
    ensures forall i :: i in items && i !in run[k].removed ==> AtOnePlace(cfg, items, run[k].world.store, i)
    decreases k
  {
    if k > 0 {
      NoBytesLost(cfg, items, run, k - 1);
      NextKeepsInv(cfg, items, run[k - 1], run[k]);
    }
  }

  // ---------------------------------------------------------------------------
  // One operation on its own
  // ---------------------------------------------------------------------------

  datatype Outcome = Outcome(world: World, ok: bool)

  ghost function AfterMakeDir(w: World, path: Path): World {
    w.(store := WithDirs(w.store, ParentOf(path)))
  }

  /** Move a file if its source exists, then update the row. */
  ghost function MoveThenSet(w: World, from: Path, to: Path, id: string, trashed: bool): Outcome {
    if !Exists(w.store, from) then Outcome(SetTrashed(w, id, trashed), true)
    else
      var moved := Renamed(w.store, from, to);
      if moved.Err? then Outcome(w, false) else Outcome(SetTrashed(w.(store := moved.value), id, trashed), true)
  }

  ghost function TrashOutcome(cfg: Config, w: World, id: string, subject: string): Outcome {
    if id !in w.rows then Outcome(w, false)
    else
      var file := w.rows[id].filePath;
      var trash := cfg.TrashPath(subject, file);
      MoveThenSet(AfterMakeDir(w, trash), cfg.LivePath(file), trash, id, true)
  }

  ghost function RestoreOutcome(cfg: Config, w: World, id: string, subject: string): Outcome {
    if id !in w.rows || !w.rows[id].trashed then Outcome(w, false)
    else
      var file := w.rows[id].filePath;
      var trash, live := cfg.TrashPath(subject, file), cfg.LivePath(file);
      MoveThenSet(if Exists(w.store, trash) then AfterMakeDir(w, live) else w, trash, live, id, false)
  }

  ghost function PurgeOutcome(cfg: Config, w: World, id: string, subject: string): Outcome {
    if id !in w.rows || !w.rows[id].trashed then Outcome(w, false)
    else
      var file := w.rows[id].filePath;
      var after := Deleted(w.store, cfg.TrashPath(subject, file));
      var store := if file != [] && after.Ok? && Exists(w.store, cfg.TrashPath(subject, file)) then after.value else w.store;
      Outcome(World(store, w.rows - {id}), true)
  }

  ghost function OutcomeOf(cfg: Config, op: Operation, w: World, id: string, subject: string): Outcome {
    match op
    case Trash => TrashOutcome(cfg, w, id, subject)
    case Restore => RestoreOutcome(cfg, w, id, subject)
    case Purge => PurgeOutcome(cfg, w, id, subject)
    case Empty => Outcome(w.(rows := Emptied(w.rows, {})), true)
  }

  ghost function Listed(rows: map<string, Row>): set<string> {
    set id | id in rows && IsEmptied(rows[id])
  }

  /** The rows that emptying leaves, when the database refuses to delete these. */
  ghost function Emptied(rows: map<string, Row>, refused: set<string>): map<string, Row> {
    rows - (Listed(rows) - refused)
  }

  datatype TrashError = NotFound | FileOperation

  /** The handlers over the in-memory backend and the table rows. */
  class MediaTrash {
    const cfg: Config
    const storage: Memory
    var rows: map<string, Row>

    constructor (cfg: Config, storage: Memory, rows: map<string, Row>)
      ensures this.cfg == cfg && this.storage == storage && this.rows == rows
    {
      this.cfg, this.storage, this.rows := cfg, storage, rows;
    }

    function View(): World
      reads this, storage
    {
      World(storage.View(), rows)
    }

    method HandleDelete(id: string, subject: string) returns (r: Result<(), TrashError>)
      modifies this, storage
      ensures Outcome(View(), r.Ok?) == TrashOutcome(cfg, old(View()), id, subject)
    {
      if id !in rows {
        return Err(TrashError.NotFound);
      }
      var file := rows[id].filePath;
      var dest := cfg.TrashPath(subject, file);
      storage.CreateDirAll(ParentOf(dest));
      var source := cfg.LivePath(file);
      var found := storage.FileExists(source);
      if found {
        var moved := storage.Rename(source, dest);
        if moved.Err? {
          return Err(FileOperation);
        }
      }
      rows := rows[id := rows[id].(trashed := true)];
      return Ok(());
    }

    method HandleRestore(id: string, subject: string) returns (r: Result<(), TrashError>)
      modifies this, storage
      ensures Outcome(View(), r.Ok?) == RestoreOutcome(cfg, old(View()), id, subject)
    {
      if id !in rows || !rows[id].trashed {
        return Err(TrashError.NotFound);
      }
      var file := rows[id].filePath;
      var trash, live := cfg.TrashPath(subject, file), cfg.LivePath(file);
      var found := storage.FileExists(trash);
      if found {
        storage.CreateDirAll(ParentOf(live));
        StillExists(old(storage.View()), trash, ParentOf(live));
        var moved := storage.Rename(trash, live);
        if moved.Err? {
          return Err(FileOperation);
        }
      }
      rows := rows[id := rows[id].(trashed := false)];
      return Ok(());
    }

    static lemma StillExists(store: Store, path: Path, dir: Path)
      requires Exists(store, path)
      ensures Exists(WithDirs(store, dir), path)
    {
    }

    method HandlePermanentDelete(id: string, subject: string) returns (r: Result<(), TrashError>)
      modifies this, storage
      ensures Outcome(View(), r.Ok?) == PurgeOutcome(cfg, old(View()), id, subject)
    {
      if id !in rows || !rows[id].trashed {
        return Err(TrashError.NotFound);
      }
      var file := rows[id].filePath;
      if file != [] {
        var trash := cfg.TrashPath(subject, file);
        var found := storage.FileExists(trash);
        if found {
          var ignored := storage.Delete(trash);
        }
      }
      rows := rows - {id};
      return Ok(());
    }

    /** Emptying the trash tries to delete the trashed rows whose id is text, counts every
        attempt, and leaves every file where it is. */
    method HandleEmpty(refused: set<string>) returns (deleted: nat)
      modifies this
      ensures rows == Emptied(old(rows), refused) && deleted == |Listed(old(rows))|
      ensures storage.View() == old(storage.View())
    {
      var ids := set i | i in rows && IsEmptied(rows[i]);
      ghost var listed, gone := ids, {};
      deleted := 0;
      while ids != {}
        invariant ids <= listed && gone == listed - ids - refused
        invariant rows == old(rows) - gone
        invariant deleted == |listed| - |ids|
      {
        var id :| id in ids;
        ids := ids - {id};
        if id !in refused {
          rows := rows - {id};
          gone := gone + {id};
        }
        deleted := deleted + 1;
      }
    }
  }

  /** Emptying leaves no trashed row exactly when every one has a text id and none is refused. */
  lemma EmptiesExactly(rows: map<string, Row>, refused: set<string>)
    ensures (forall id :: id in Emptied(rows, refused) ==> !rows[id].trashed)
       <==> forall id :: id in rows && rows[id].trashed ==> rows[id].idKind == TextId && id !in refused
  {
    forall id | id in rows && rows[id].trashed
      ensures id in Emptied(rows, refused) <==> !(rows[id].idKind == TextId && id !in refused)
    {
    }
  }

  /** What is counted is what is gone exactly when nothing listed is refused. */
  lemma CountsExactly(rows: map<string, Row>, refused: set<string>)
    ensures |Listed(rows)| == |rows| - |Emptied(rows, refused)| <==> Listed(rows) !! refused
  {
    var gone, left := Listed(rows) - refused, Emptied(rows, refused);
    assert left.Keys == rows.Keys - gone && gone <= rows.Keys;
    assert |rows.Keys| == |rows| && |left.Keys| == |left|;
    assert gone + Listed(rows) * refused == Listed(rows);
    assert |Listed(rows)| == |gone| + |Listed(rows) * refused|;
    if Listed(rows) !! refused {
      assert Listed(rows) * refused == {};
    }
  }

  /** Numbers for ids, as of a serial key: emptying deletes nothing and counts nothing. */
  lemma NumberedRowsStay(rows: map<string, Row>, refused: set<string>)
    requires forall id :: id in rows ==> rows[id].idKind == NumberId
    ensures Emptied(rows, refused) == rows && Listed(rows) == {}
  {
    assert rows - {} == rows;
  }

  // ---------------------------------------------------------------------------
  // Crashes and retries
  // ---------------------------------------------------------------------------

  /** A world in which item `id` is intact and the rows describe the items. */
  ghost predicate Intact(cfg: Config, items: Items, w: World, id: string) {
    && WellPlaced(cfg, items) && id in items
    && RowsMatch(items, w.rows)
    && PathsFree(cfg, items, w.store)
    && AtOnePlace(cfg, items, w.store, id)
  }

  lemma IntactDirs(cfg: Config, items: Items, w: World, id: string, target: Path)
    requires Intact(cfg, items, w, id) && IsItemPath(cfg, items, target)
    ensures Intact(cfg, items, AfterMakeDir(w, target), id)
    ensures AfterMakeDir(AfterMakeDir(w, target), target) == AfterMakeDir(w, target)
  {
    MakeDirKeeps(cfg, items, w.store, items.Keys - {id}, target);
  }

  lemma IntactMove(cfg: Config, items: Items, w: World, id: string, from: Path, to: Path)
    requires Intact(cfg, items, w, id) && from in w.store.data
    requires (from == Live(cfg, items, id) && to == InTrash(cfg, items, id)) || (from == InTrash(cfg, items, id) && to == Live(cfg, items, id))
    ensures Renamed(w.store, from, to).Ok?
    ensures Intact(cfg, items, w.(store := Renamed(w.store, from, to).value), id)
    ensures from !in Renamed(w.store, from, to).value.data
  {
    LiveApartFromTrash(cfg, items, id, items[id].owner, items[id].file);
    MoveKeeps(cfg, items, w.store, items.Keys - {id}, id, from, to);
  }

  /** The worlds a lone trash operation passes through. */
  ghost function TrashMoved(cfg: Config, items: Items, w: World, id: string): World
    requires id in items
  {
    var made := AfterMakeDir(w, InTrash(cfg, items, id));
    var moved := Renamed(made.store, Live(cfg, items, id), InTrash(cfg, items, id));
    if Live(cfg, items, id) in made.store.data && moved.Ok? then made.(store := moved.value) else made
  }

  ghost function RestoreMoved(cfg: Config, items: Items, w: World, id: string): World
    requires id in items
  {
    var made := AfterMakeDir(w, Live(cfg, items, id));
    var moved := Renamed(made.store, InTrash(cfg, items, id), Live(cfg, items, id));
    if InTrash(cfg, items, id) in made.store.data && moved.Ok? then made.(store := moved.value) else w
  }

  lemma TrashStages(cfg: Config, items: Items, w: World, id: string)
    requires Intact(cfg, items, w, id) && id in w.rows
    ensures var owner := items[id].owner;
            var made, moved := AfterMakeDir(w, InTrash(cfg, items, id)), TrashMoved(cfg, items, w, id);
            && Intact(cfg, items, made, id) && Intact(cfg, items, moved, id)
            && Live(cfg, items, id) !in moved.store.data
            && TrashOutcome(cfg, w, id, owner) == Outcome(SetTrashed(moved, id, true), true)
            && TrashMoved(cfg, items, made, id) == moved && TrashMoved(cfg, items, moved, id) == moved
  {
    var live, trash := Live(cfg, items, id), InTrash(cfg, items, id);
    assert IsItemPath(cfg, items, live) && IsItemPath(cfg, items, trash);
    IntactDirs(cfg, items, w, id, trash);
    var made := AfterMakeDir(w, trash);
    if live in made.store.data {
      IntactMove(cfg, items, made, id, live, trash);
    }
    var moved := TrashMoved(cfg, items, w, id);
    IntactDirs(cfg, items, moved, id, trash);
    ExistsIsFile(cfg, items, made.store, live);
    assert moved.store.dirs == made.store.dirs;
    assert AfterMakeDir(moved, trash) == moved;
  }

  lemma RestoreStages(cfg: Config, items: Items, w: World, id: string)
    requires Intact(cfg, items, w, id) && id in w.rows && w.rows[id].trashed
    ensures var owner := items[id].owner;
            var made, moved := AfterMakeDir(w, Live(cfg, items, id)), RestoreMoved(cfg, items, w, id);
            && Intact(cfg, items, made, id) && Intact(cfg, items, moved, id)
            && InTrash(cfg, items, id) !in moved.store.data
            && RestoreOutcome(cfg, w, id, owner) == Outcome(SetTrashed(moved, id, false), true)
            && (InTrash(cfg, items, id) in w.store.data ==> RestoreMoved(cfg, items, made, id) == moved)
            && RestoreMoved(cfg, items, moved, id) == moved
  {
    var live, trash := Live(cfg, items, id), InTrash(cfg, items, id);
    assert IsItemPath(cfg, items, live) && IsItemPath(cfg, items, trash);
    IntactDirs(cfg, items, w, id, live);
    var made := AfterMakeDir(w, live);
    ExistsIsFile(cfg, items, w.store, trash);
    ExistsIsFile(cfg, items, made.store, trash);
    if trash in w.store.data {
      IntactMove(cfg, items, made, id, trash, live);
    }
  }

  /** A handler on its own, from its first step. */
  ghost predicate IsSoloRun(cfg: Config, op: Operation, id: string, subject: string, worlds: seq<World>, handlers: seq<Handler>) {
    && |worlds| == |handlers| > 0
    && handlers[0] == Begin(op, id, subject)
    && forall k :: 0 <= k < |worlds| - 1 ==> Step(cfg, worlds[k], handlers[k], worlds[k + 1], handlers[k + 1])
  }

  /** The world a lone handler has reached, by the place where it stands. */
  ghost predicate SoloAt(cfg: Config, items: Items, op: Operation, start: World, id: string, w: World, pc: Pc)
    requires id in items
  {
    match op
    case Trash =>
      (match pc
       case TrashSelect => w == start
       case TrashMakeDir(file) => w == start && id in start.rows && file == items[id].file
       case TrashCheck(file) => w == AfterMakeDir(start, InTrash(cfg, items, id)) && id in start.rows && file == items[id].file
       case TrashMove(file) => w == AfterMakeDir(start, InTrash(cfg, items, id)) && id in start.rows && file == items[id].file && Live(cfg, items, id) in w.store.data
       case TrashUpdate => w == TrashMoved(cfg, items, start, id) && id in start.rows
       case Done => w == SetTrashed(TrashMoved(cfg, items, start, id), id, true) && id in start.rows
       case Failed => w == start && id !in start.rows
       case _ => false)
    case Restore =>
      (match pc
       case RestoreSelect => w == start
       case RestoreCheck(file) => w == start && CanRestore(start, id) && file == items[id].file
       case RestoreMakeDir(file) => w == start && CanRestore(start, id) && file == items[id].file && InTrash(cfg, items, id) in w.store.data
       case RestoreMove(file) => w == AfterMakeDir(start, Live(cfg, items, id)) && CanRestore(start, id) && file == items[id].file && InTrash(cfg, items, id) in w.store.data
       case RestoreUpdate => w == RestoreMoved(cfg, items, start, id) && CanRestore(start, id)
       case Done => w == SetTrashed(RestoreMoved(cfg, items, start, id), id, false) && CanRestore(start, id)
       case Failed => w == start && !CanRestore(start, id)
       case _ => false)
    case Purge =>
      (match pc
       case PurgeSelect => w == start
       case PurgeCheck(file) => w == start && CanRestore(start, id) && file == items[id].file
       case PurgeRemove(file) => w == start && CanRestore(start, id) && file == items[id].file && InTrash(cfg, items, id) in w.store.data
       case PurgeDeleteRow => w == start.(store := Purged(cfg, items, start, id)) && CanRestore(start, id)
       case Done => w == World(Purged(cfg, items, start, id), start.rows - {id}) && CanRestore(start, id)
       case Failed => w == start && !CanRestore(start, id)
       case _ => false)
    case Empty => true
  }

  ghost predicate CanRestore(w: World, id: string) {
    id in w.rows && w.rows[id].trashed
  }

  ghost function Purged(cfg: Config, items: Items, w: World, id: string): Store
    requires id in items
  {
    w.store.(data := w.store.data - {InTrash(cfg, items, id)})
  }

  lemma ItemFacts(cfg: Config, items: Items, w: World, id: string)
    requires Intact(cfg, items, w, id)
    ensures Exists(w.store, Live(cfg, items, id)) <==> Live(cfg, items, id) in w.store.data
    ensures Exists(w.store, InTrash(cfg, items, id)) <==> InTrash(cfg, items, id) in w.store.data
    ensures Intact(cfg, items, AfterMakeDir(w, Live(cfg, items, id)), id)
    ensures Intact(cfg, items, AfterMakeDir(w, InTrash(cfg, items, id)), id)
    ensures id in w.rows ==> w.rows[id].filePath == items[id].file
    ensures items[id].file != []
  {
    var live, trash := Live(cfg, items, id), InTrash(cfg, items, id);
    assert IsItemPath(cfg, items, live) && IsItemPath(cfg, items, trash);
    ExistsIsFile(cfg, items, w.store, live);
    ExistsIsFile(cfg, items, w.store, trash);
    IntactDirs(cfg, items, w, id, trash);
    IntactDirs(cfg, items, w, id, live);
  }

  lemma TrashSoloStep(cfg: Config, items: Items, start: World, id: string, w: World, h: Handler, w': World, h': Handler)
    requires Intact(cfg, items, start, id) && h.id == id && h.subject == items[id].owner
    requires SoloAt(cfg, items, Trash, start, id, w, h.pc) && Step(cfg, w, h, w', h')
    ensures SoloAt(cfg, items, Trash, start, id, w', h'.pc)
  {
    ItemFacts(cfg, items, start, id);
    ItemFacts(cfg, items, AfterMakeDir(start, InTrash(cfg, items, id)), id);
  }

  lemma RestoreSoloStep(cfg: Config, items: Items, start: World, id: string, w: World, h: Handler, w': World, h': Handler)
    requires Intact(cfg, items, start, id) && h.id == id && h.subject == items[id].owner
    requires SoloAt(cfg, items, Restore, start, id, w, h.pc) && Step(cfg, w, h, w', h')
    ensures SoloAt(cfg, items, Restore, start, id, w', h'.pc)
  {
    ItemFacts(cfg, items, start, id);
    ItemFacts(cfg, items, AfterMakeDir(start, Live(cfg, items, id)), id);
  }

  lemma PurgeSoloStep(cfg: Config, items: Items, start: World, id: string, w: World, h: Handler, w': World, h': Handler)
    requires Intact(cfg, items, start, id) && h.id == id && h.subject == items[id].owner
    requires SoloAt(cfg, items, Purge, start, id, w, h.pc) && Step(cfg, w, h, w', h')
    ensures SoloAt(cfg, items, Purge, start, id, w', h'.pc)
  {
    ItemFacts(cfg, items, start, id);
    var trash := InTrash(cfg, items, id);
    assert trash !in start.store.data ==> start.store.data - {trash} == start.store.data;
  }

  lemma SoloStep(cfg: Config, items: Items, op: Operation, start: World, id: string, w: World, h: Handler, w': World, h': Handler)
    requires Intact(cfg, items, start, id) && op != Empty
    requires h.id == id && h.subject == items[id].owner
    requires SoloAt(cfg, items, op, start, id, w, h.pc) && Step(cfg, w, h, w', h')
    ensures SoloAt(cfg, items, op, start, id, w', h'.pc)
  {
    match op
    case Trash => TrashSoloStep(cfg, items, start, id, w, h, w', h');
    case Restore => RestoreSoloStep(cfg, items, start, id, w, h, w', h');
    case Purge => PurgeSoloStep(cfg, items, start, id, w, h, w', h');
  }

  lemma {:induction false} SoloReaches(cfg: Config, items: Items, op: Operation, id: string, worlds: seq<World>, handlers: seq<Handler>, k: nat)
    requires op != Empty && id in items && IsSoloRun(cfg, op, id, items[id].owner, worlds, handlers) && k < |worlds|
    requires Intact(cfg, items, worlds[0], id)
    ensures SoloAt(cfg, items, op, worlds[0], id, worlds[k], handlers[k].pc)
    ensures handlers[k].id == id && handlers[k].subject == items[id].owner
    decreases k
  {
    if k > 0 {
      SoloReaches(cfg, items, op, id, worlds, handlers, k - 1);
      SoloStep(cfg, items, op, worlds[0], id, worlds[k - 1], handlers[k - 1], worlds[k], handlers[k]);
    }
  }

  /** Wherever an operation stops, running it again from the start reaches the
      world of an uninterrupted run. */
  lemma RetryRecovers(cfg: Config, items: Items, op: Operation, start: World, id: string, w: World, pc: Pc)
    requires Intact(cfg, items, start, id) && op != Empty
    requires SoloAt(cfg, items, op, start, id, w, pc)
    ensures OutcomeOf(cfg, op, w, id, items[id].owner).world == OutcomeOf(cfg, op, start, id, items[id].owner).world
  {
    match op
    case Trash =>
      if id in start.rows {
        TrashRetry(cfg, items, start, id);
      }
    case Restore =>
      if CanRestore(start, id) {
        RestoreRetry(cfg, items, start, id);
      }
    case Purge =>
      if CanRestore(start, id) {
        PurgeRetry(cfg, items, start, id);
      }
  }

  lemma MarkedStaysIntact(cfg: Config, items: Items, w: World, id: string, trashed: bool)
    requires Intact(cfg, items, w, id) && id in w.rows
    ensures Intact(cfg, items, SetTrashed(w, id, trashed), id)
    ensures TrashMoved(cfg, items, SetTrashed(w, id, trashed), id) == SetTrashed(TrashMoved(cfg, items, w, id), id, trashed)
    ensures SetTrashed(SetTrashed(w, id, trashed), id, trashed) == SetTrashed(w, id, trashed)
  {
    var once := SetTrashed(w, id, trashed);
    assert SetTrashed(once, id, trashed).rows == once.rows;
  }

  lemma TrashRetry(cfg: Config, items: Items, start: World, id: string)
    requires Intact(cfg, items, start, id) && id in start.rows
    ensures var owner := items[id].owner;
            var final := SetTrashed(TrashMoved(cfg, items, start, id), id, true);
            && TrashOutcome(cfg, start, id, owner).world == final
            && TrashOutcome(cfg, AfterMakeDir(start, InTrash(cfg, items, id)), id, owner).world == final
            && TrashOutcome(cfg, TrashMoved(cfg, items, start, id), id, owner).world == final
            && TrashOutcome(cfg, final, id, owner).world == final
  {
    TrashStages(cfg, items, start, id);
    var made, moved := AfterMakeDir(start, InTrash(cfg, items, id)), TrashMoved(cfg, items, start, id);
    TrashStages(cfg, items, made, id);
    TrashStages(cfg, items, moved, id);
    MarkedStaysIntact(cfg, items, moved, id, true);
    TrashStages(cfg, items, SetTrashed(moved, id, true), id);
  }

  lemma RestoreRetry(cfg: Config, items: Items, start: World, id: string)
    requires Intact(cfg, items, start, id) && CanRestore(start, id)
    ensures var owner := items[id].owner;
            var final := SetTrashed(RestoreMoved(cfg, items, start, id), id, false);
            && RestoreOutcome(cfg, start, id, owner).world == final
            && (InTrash(cfg, items, id) in start.store.data ==>
                  RestoreOutcome(cfg, AfterMakeDir(start, Live(cfg, items, id)), id, owner).world == final)
            && RestoreOutcome(cfg, RestoreMoved(cfg, items, start, id), id, owner).world == final
            && RestoreOutcome(cfg, final, id, owner).world == final
  {
    RestoreStages(cfg, items, start, id);
    RestoreStages(cfg, items, AfterMakeDir(start, Live(cfg, items, id)), id);
    RestoreStages(cfg, items, RestoreMoved(cfg, items, start, id), id);
  }

  lemma PurgeRetry(cfg: Config, items: Items, start: World, id: string)
    requires Intact(cfg, items, start, id) && CanRestore(start, id)
    ensures var owner := items[id].owner;
            var final := World(Purged(cfg, items, start, id), start.rows - {id});
            && PurgeOutcome(cfg, start, id, owner).world == final
            && PurgeOutcome(cfg, start.(store := Purged(cfg, items, start, id)), id, owner).world == final
            && PurgeOutcome(cfg, final, id, owner).world == final
  {
    var trash := InTrash(cfg, items, id);
    assert IsItemPath(cfg, items, trash);
    ExistsIsFile(cfg, items, start.store, trash);
    assert trash !in start.store.data ==> start.store.data - {trash} == start.store.data;
    var purged := Purged(cfg, items, start, id);
    assert PathsFree(cfg, items, purged);
    ExistsIsFile(cfg, items, purged, trash);
  }

  /** Crash and retry, over runs: from the world left after any number of steps of
      a lone handler, a second attempt ends where the first would have. */
  lemma CrashThenRetry(cfg: Config, items: Items, op: Operation, id: string, worlds: seq<World>, handlers: seq<Handler>, k: nat)
    requires op != Empty && id in items && IsSoloRun(cfg, op, id, items[id].owner, worlds, handlers) && k < |worlds|
    requires Intact(cfg, items, worlds[0], id)
    ensures OutcomeOf(cfg, op, worlds[k], id, items[id].owner).world == OutcomeOf(cfg, op, worlds[0], id, items[id].owner).world
    ensures Halted(handlers[k]) ==> worlds[k] == OutcomeOf(cfg, op, worlds[0], id, items[id].owner).world
  {
    SoloReaches(cfg, items, op, id, worlds, handlers, k);
    RetryRecovers(cfg, items, op, worlds[0], id, worlds[k], handlers[k].pc);
    var start := worlds[0];
    match op
    case Trash =>
      if id in start.rows {
        TrashRetry(cfg, items, start, id);
      }
    case Restore =>
      if CanRestore(start, id) {
        RestoreRetry(cfg, items, start, id);
      }
    case Purge =>
      if CanRestore(start, id) {
        PurgeRetry(cfg, items, start, id);
      }
  }

  // ---------------------------------------------------------------------------
  // Round trip
  // ---------------------------------------------------------------------------

  /** A live, untrashed item that its owner trashes and `subject` restores: the row
      always reads as before, and the files are as before exactly when the two
      subjects are the same. Otherwise the row says live and the bytes stay in the trash. */
  lemma TrashThenRestore(cfg: Config, items: Items, w: World, id: string, subject: string)
    requires Intact(cfg, items, w, id) && id in w.rows && !w.rows[id].trashed
    requires Live(cfg, items, id) in w.store.data
    requires subject != items[id].owner ==> !Exists(w.store, cfg.TrashPath(subject, items[id].file))
    ensures var trashed := TrashOutcome(cfg, w, id, items[id].owner);
            var restored := RestoreOutcome(cfg, trashed.world, id, subject);
            && trashed.ok && restored.ok
            && restored.world.rows == w.rows
            && (restored.world.store.data == w.store.data <==> subject == items[id].owner)
            && (subject != items[id].owner ==> restored.world.store == trashed.world.store)
  {
    var owner := items[id].owner;
    TrashEffect(cfg, items, w, id);
    TwiceSet(w, id);
    if subject == owner {
      RestoreEffect(cfg, items, w, id);
    } else {
      OtherRestoreEffect(cfg, items, w, id, subject);
    }
  }

  lemma TwiceSet(w: World, id: string)
    requires id in w.rows && !w.rows[id].trashed
    ensures SetTrashed(SetTrashed(w, id, true), id, false).rows == w.rows
  {
  }

  lemma OtherRestoreEffect(cfg: Config, items: Items, w: World, id: string, subject: string)
    requires Intact(cfg, items, w, id) && id in w.rows && Live(cfg, items, id) in w.store.data
    requires subject != items[id].owner && !Exists(w.store, cfg.TrashPath(subject, items[id].file))
    ensures var mid := TrashOutcome(cfg, w, id, items[id].owner).world;
            var restored := RestoreOutcome(cfg, mid, id, subject);
            && restored.ok && restored.world.store == mid.store && restored.world.store.data != w.store.data
            && restored.world.rows == SetTrashed(SetTrashed(w, id, true), id, false).rows
  {
    TrashEffect(cfg, items, w, id);
    OtherSubjectSeesNothing(cfg, items, w, id, subject);
    ItemFacts(cfg, items, w, id);
    assert Live(cfg, items, id) in w.store.data;
  }

  lemma TrashEffect(cfg: Config, items: Items, w: World, id: string)
    requires Intact(cfg, items, w, id) && id in w.rows && Live(cfg, items, id) in w.store.data
    ensures var trashed := TrashOutcome(cfg, w, id, items[id].owner);
            && trashed.ok && Intact(cfg, items, trashed.world, id)
            && trashed.world.rows == SetTrashed(w, id, true).rows
            && trashed.world.store.data == (w.store.data - {Live(cfg, items, id)})[InTrash(cfg, items, id) := w.store.data[Live(cfg, items, id)]]
            && Live(cfg, items, id) !in trashed.world.store.data
  {
    TrashStages(cfg, items, w, id);
    MarkedStaysIntact(cfg, items, TrashMoved(cfg, items, w, id), id, true);
  }

  lemma RestoreEffect(cfg: Config, items: Items, w: World, id: string)
    requires Intact(cfg, items, w, id) && id in w.rows && Live(cfg, items, id) in w.store.data
    ensures var restored := RestoreOutcome(cfg, TrashOutcome(cfg, w, id, items[id].owner).world, id, items[id].owner);
            && restored.ok && restored.world.store.data == w.store.data
            && restored.world.rows == SetTrashed(SetTrashed(w, id, true), id, false).rows
  {
    TrashEffect(cfg, items, w, id);
    var live, trash := Live(cfg, items, id), InTrash(cfg, items, id);
    LiveApartFromTrash(cfg, items, id, items[id].owner, items[id].file);
    var mid := TrashOutcome(cfg, w, id, items[id].owner).world;
    RestoreStages(cfg, items, mid, id);
    assert (mid.store.data - {trash})[live := mid.store.data[trash]] == w.store.data;
  }

  lemma OtherSubjectSeesNothing(cfg: Config, items: Items, w: World, id: string, subject: string)
    requires Intact(cfg, items, w, id) && id in w.rows && Live(cfg, items, id) in w.store.data
    requires subject != items[id].owner && !Exists(w.store, cfg.TrashPath(subject, items[id].file))
    ensures !Exists(TrashOutcome(cfg, w, id, items[id].owner).world.store, cfg.TrashPath(subject, items[id].file))
  {
    var file := items[id].file;
    var theirs, trash := cfg.TrashPath(subject, file), InTrash(cfg, items, id);
    TrashStages(cfg, items, w, id);
    var n := |cfg.root + cfg.prefix|;
    assert theirs[n] == subject && trash[n] == items[id].owner;
    assert !(theirs <= trash);
    forall p | p in Ancestors(ParentOf(trash))
      ensures p != theirs
    {
      var i :| 1 <= i <= |ParentOf(trash)| && p == ParentOf(trash)[..i];
      assert p <= trash;
    }
  }
}
