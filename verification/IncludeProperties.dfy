/** What include expansion guarantees: it is the plain recursive expansion,
    restricted to loads that open no file twice, and leaves no directive behind. */
module IncludeProperties {
  import opened Wrappers
  import opened IncludeExpansion
  import opened IncludeLoader

  // ---------------------------------------------------------------------------
  // More fuel never changes a finished expansion
  // ---------------------------------------------------------------------------

  /** `longer` is the same finished expansion, or carries on where fuel ran out. */
  ghost predicate Extends<T>(shorter: Trace<T>, longer: Trace<T>) {
    shorter == longer || (shorter.outcome.OutOfFuel? && shorter.trail <= longer.trail)
  }

  lemma MoreFuelFile(fs: FileSystem, fuel: nat, path: Path)
    ensures Extends(PlainFile(fs, fuel, path), PlainFile(fs, fuel + 1, path))
    decreases fuel, 0
  {
    if fuel > 0 && path in fs.files {
      MoreFuelTree(fs, fuel - 1, fs.files[path], Parent(path));
    }
  }

  lemma MoreFuelTree(fs: FileSystem, fuel: nat, tree: Yaml, dir: Path)
    ensures Extends(PlainTree(fs, fuel, tree, dir), PlainTree(fs, fuel + 1, tree, dir))
    decreases fuel, 2, tree, 0
  {
    match tree
    case Mapping(entries) => MoreFuelMapping(fs, fuel, entries, dir);
    case Sequence(items) => MoreFuelItems(fs, fuel, items, dir);
    case _ =>
  }

  lemma MoreFuelMapping(fs: FileSystem, fuel: nat, entries: seq<Entry>, dir: Path)
    ensures Extends(PlainMapping(fs, fuel, entries, dir), PlainMapping(fs, fuel + 1, entries, dir))
    decreases fuel, 2, entries, 1
  {
    var directive := Find(entries, INCLUDE);
    if directive.None? {
      MoreFuelEntries(fs, fuel, entries, dir);
    } else {
      var targets := Targets(fs, directive.value, |entries|, dir);
      if targets.Ok? {
        if |targets.value| == 1 {
          MoreFuelFile(fs, fuel, targets.value[0]);
        } else {
          MoreFuelFiles(fs, fuel, targets.value);
        }
      }
    }
  }

  lemma MoreFuelEntries(fs: FileSystem, fuel: nat, entries: seq<Entry>, dir: Path)
    ensures Extends(PlainEntries(fs, fuel, entries, dir), PlainEntries(fs, fuel + 1, entries, dir))
    decreases fuel, 2, entries, 0
  {
    if entries != [] {
      var last := entries[|entries| - 1];
      assert last.value < last && last in entries;
      MoreFuelEntries(fs, fuel, entries[..|entries| - 1], dir);
      MoreFuelTree(fs, fuel, last.value, dir);
    }
  }

  lemma MoreFuelItems(fs: FileSystem, fuel: nat, items: seq<Yaml>, dir: Path)
    ensures Extends(PlainItems(fs, fuel, items, dir), PlainItems(fs, fuel + 1, items, dir))
    decreases fuel, 2, items, 0
  {
    if items != [] {
      MoreFuelItems(fs, fuel, items[..|items| - 1], dir);
      MoreFuelItem(fs, fuel, items[|items| - 1], dir);
    }
  }

  lemma MoreFuelItem(fs: FileSystem, fuel: nat, item: Yaml, dir: Path)
    ensures Extends(PlainItem(fs, fuel, item, dir), PlainItem(fs, fuel + 1, item, dir))
    decreases fuel, 2, item, 1
  {
    var directive := IncludeOf(item);
    if directive.None? {
      MoreFuelTree(fs, fuel, item, dir);
    } else {
      var targets := Targets(fs, directive.value, |item.entries|, dir);
      if targets.Ok? {
        MoreFuelFiles(fs, fuel, targets.value);
      }
    }
  }

  lemma MoreFuelFiles(fs: FileSystem, fuel: nat, files: seq<Path>)
    ensures Extends(PlainFiles(fs, fuel, files), PlainFiles(fs, fuel + 1, files))
    ensures Extends(PlainMerged(fs, fuel, files), PlainMerged(fs, fuel + 1, files))
    decreases fuel, 1, |files|
  {
    if files != [] {
      MoreFuelFiles(fs, fuel, files[..|files| - 1]);
      MoreFuelFile(fs, fuel, files[|files| - 1]);
    }
  }

  lemma {:induction false} MuchMoreFuel(fs: FileSystem, fuel: nat, more: nat, path: Path)
    requires fuel <= more
    ensures Extends(PlainFile(fs, fuel, path), PlainFile(fs, more, path))
    decreases more - fuel
  {
    if fuel < more {
      MoreFuelFile(fs, fuel, path);
      MuchMoreFuel(fs, fuel + 1, more, path);
    }
  }

  // ---------------------------------------------------------------------------
  // Without repeats, the number of files is fuel enough
  // ---------------------------------------------------------------------------

  /** If no file is opened twice, the expansion finishes. */
  ghost predicate Finishes<T>(visited: set<Path>, t: Trace<T>) {
    CleanPrefix(visited, t.trail) == |t.trail| ==> !t.outcome.OutOfFuel?
  }

  lemma FinishesJoin<S, T>(visited: set<Path>, before: Trace<S>, next: Trace<T>, whole: Trace<T>)
    requires Finishes(visited + PathSet(before.trail), next)
    requires whole == Trace(before.trail + next.trail, next.outcome)
    ensures Finishes(visited, whole)
    ensures CleanPrefix(visited, whole.trail) == |whole.trail| ==> CleanPrefix(visited, before.trail) == |before.trail|
  {
    PrefixJoin(visited, before.trail, next.trail);
  }

  lemma EnoughFile(fs: FileSystem, fuel: nat, path: Path, visited: set<Path>)
    requires fuel > |fs.files.Keys - visited|
    ensures Finishes(visited, PlainFile(fs, fuel, path))
    decreases fuel, 0
  {
    if path in visited {
      assert PlainFile(fs, fuel, path).trail[..0] == [];
      StopUnique(visited, PlainFile(fs, fuel, path).trail, 0);
    } else if path in fs.files {
      assert fs.files.Keys - (visited + {path}) == (fs.files.Keys - visited) - {path};
      var next := PlainTree(fs, fuel - 1, fs.files[path], Parent(path));
      EnoughTree(fs, fuel - 1, fs.files[path], Parent(path), visited + {path});
      assert PathSet([path]) == {path};
      FinishesJoin(visited, Trace([path], Value(Scalar(""))), next, PlainFile(fs, fuel, path));
    }
  }

  lemma EnoughTree(fs: FileSystem, fuel: nat, tree: Yaml, dir: Path, visited: set<Path>)
    requires fuel > |fs.files.Keys - visited|
    ensures Finishes(visited, PlainTree(fs, fuel, tree, dir))
    decreases fuel, 2, tree, 0
  {
    match tree
    case Mapping(entries) => EnoughMapping(fs, fuel, entries, dir, visited);
    case Sequence(items) => EnoughItems(fs, fuel, items, dir, visited);
    case _ =>
  }

  lemma EnoughMapping(fs: FileSystem, fuel: nat, entries: seq<Entry>, dir: Path, visited: set<Path>)
    requires fuel > |fs.files.Keys - visited|
    ensures Finishes(visited, PlainMapping(fs, fuel, entries, dir))
    decreases fuel, 2, entries, 1
  {
    var directive := Find(entries, INCLUDE);
    if directive.None? {
      EnoughEntries(fs, fuel, entries, dir, visited);
    } else {
      var targets := Targets(fs, directive.value, |entries|, dir);
      if targets.Ok? {
        if |targets.value| == 1 {
          EnoughFile(fs, fuel, targets.value[0], visited);
        } else {
          EnoughMerged(fs, fuel, targets.value, visited);
        }
      }
    }
  }

  lemma EnoughEntries(fs: FileSystem, fuel: nat, entries: seq<Entry>, dir: Path, visited: set<Path>)
    requires fuel > |fs.files.Keys - visited|
    ensures Finishes(visited, PlainEntries(fs, fuel, entries, dir))
    decreases fuel, 2, entries, 0
  {
    if entries != [] {
      var last := entries[|entries| - 1];
      assert last.value < last && last in entries;
      EnoughEntries(fs, fuel, entries[..|entries| - 1], dir, visited);
      var before := PlainEntries(fs, fuel, entries[..|entries| - 1], dir);
      if before.outcome.Value? {
        var inner := PlainTree(fs, fuel, last.value, dir);
        Loader.FewerLeft(fs.files.Keys, visited, visited + PathSet(before.trail));
        EnoughTree(fs, fuel, last.value, dir, visited + PathSet(before.trail));
        FinishesJoin(visited, before, EntryTrace(before.outcome.value, last.key, inner), PlainEntries(fs, fuel, entries, dir));
      }
    }
  }

  lemma EnoughItems(fs: FileSystem, fuel: nat, items: seq<Yaml>, dir: Path, visited: set<Path>)
    requires fuel > |fs.files.Keys - visited|
    ensures Finishes(visited, PlainItems(fs, fuel, items, dir))
    decreases fuel, 2, items, 0
  {
    if items != [] {
      EnoughItems(fs, fuel, items[..|items| - 1], dir, visited);
      var before := PlainItems(fs, fuel, items[..|items| - 1], dir);
      if before.outcome.Value? {
        var inner := PlainItem(fs, fuel, items[|items| - 1], dir);
        Loader.FewerLeft(fs.files.Keys, visited, visited + PathSet(before.trail));
        EnoughItem(fs, fuel, items[|items| - 1], dir, visited + PathSet(before.trail));
        FinishesJoin(visited, before, ItemTrace(before.outcome.value, inner), PlainItems(fs, fuel, items, dir));
      }
    }
  }

  lemma EnoughItem(fs: FileSystem, fuel: nat, item: Yaml, dir: Path, visited: set<Path>)
    requires fuel > |fs.files.Keys - visited|
    ensures Finishes(visited, PlainItem(fs, fuel, item, dir))
    decreases fuel, 2, item, 1
  {
    var directive := IncludeOf(item);
    if directive.None? {
      EnoughTree(fs, fuel, item, dir, visited);
    } else {
      var targets := Targets(fs, directive.value, |item.entries|, dir);
      if targets.Ok? {
        EnoughFiles(fs, fuel, targets.value, visited);
      }
    }
  }

  lemma EnoughFiles(fs: FileSystem, fuel: nat, files: seq<Path>, visited: set<Path>)
    requires fuel > |fs.files.Keys - visited|
    ensures Finishes(visited, PlainFiles(fs, fuel, files))
    decreases fuel, 1, |files|
  {
    if files != [] {
      EnoughFiles(fs, fuel, files[..|files| - 1], visited);
      var before := PlainFiles(fs, fuel, files[..|files| - 1]);
      if before.outcome.Value? {
        var inner := Single(PlainFile(fs, fuel, files[|files| - 1]));
        Loader.FewerLeft(fs.files.Keys, visited, visited + PathSet(before.trail));
        EnoughFile(fs, fuel, files[|files| - 1], visited + PathSet(before.trail));
        FinishesJoin(visited, before, ItemTrace(before.outcome.value, inner), PlainFiles(fs, fuel, files));
      }
    }
  }

  lemma EnoughMerged(fs: FileSystem, fuel: nat, files: seq<Path>, visited: set<Path>)
    requires fuel > |fs.files.Keys - visited|
    ensures Finishes(visited, PlainMerged(fs, fuel, files))
    decreases fuel, 1, |files|
  {
    if files != [] {
      EnoughMerged(fs, fuel, files[..|files| - 1], visited);
      var before := PlainMerged(fs, fuel, files[..|files| - 1]);
      if before.outcome.Value? {
        var path := files[|files| - 1];
        Loader.FewerLeft(fs.files.Keys, visited, visited + PathSet(before.trail));
        EnoughFile(fs, fuel, path, visited + PathSet(before.trail));
        FinishesJoin(visited, before, MergeTrace(before.outcome.value, path, PlainFile(fs, fuel, path)), PlainMerged(fs, fuel, files));
      }
    }
  }

  // ---------------------------------------------------------------------------
  // No directive is left
  // ---------------------------------------------------------------------------

  /** No mapping reached through sequences and mapping values holds a `$include` key. */
  ghost predicate IncludeFree(tree: Yaml) {
    match tree
    case Mapping(entries) => Find(entries, INCLUDE).None? && forall i :: 0 <= i < |entries| ==> IncludeFree(entries[i].value)
    case Sequence(items) => forall i :: 0 <= i < |items| ==> IncludeFree(items[i])
    case _ => true
  }

  ghost predicate EntriesFree(entries: seq<Entry>) {
    Find(entries, INCLUDE).None? && forall i :: 0 <= i < |entries| ==> IncludeFree(entries[i].value)
  }

  ghost predicate ItemsFree(items: seq<Yaml>) {
    forall i :: 0 <= i < |items| ==> IncludeFree(items[i])
  }

  lemma {:induction false} InsertFree(entries: seq<Entry>, e: Entry)
    requires EntriesFree(entries) && e.key != INCLUDE && IncludeFree(e.value)
    ensures EntriesFree(Insert(entries, e))
    decreases |entries|
  {
    if entries != [] {
      assert forall i :: 0 <= i < |entries[1..]| ==> entries[1..][i] == entries[i + 1];
      InsertFree(entries[1..], e);
      var r := Insert(entries, e);
      if entries[0].key == e.key {
        assert r[1..] == entries[1..];
      } else {
        assert r[1..] == Insert(entries[1..], e);
      }
      forall i | 0 <= i < |r|
        ensures IncludeFree(r[i].value)
      {
        if i > 0 {
          assert r[i] == r[1..][i - 1];
        }
      }
    }
  }

  lemma {:induction false} NoIncludeKey(entries: seq<Entry>, i: nat)
    requires Find(entries, INCLUDE).None? && i < |entries|
    ensures entries[i].key != INCLUDE
    decreases |entries|
  {
    if i > 0 {
      assert entries[1..][i - 1] == entries[i];
      NoIncludeKey(entries[1..], i - 1);
    }
  }

  lemma {:induction false} NoIncludeFront(entries: seq<Entry>, i: nat)
    requires Find(entries, INCLUDE).None? && i <= |entries|
    ensures Find(entries[..i], INCLUDE).None?
    decreases |entries|
  {
    if i > 0 {
      assert entries[..i][1..] == entries[1..][..i - 1];
      NoIncludeFront(entries[1..], i - 1);
    }
  }

  lemma {:induction false} MergeFree(into: seq<Entry>, from: seq<Entry>)
    requires EntriesFree(into) && EntriesFree(from)
    ensures EntriesFree(Merge(into, from))
    decreases |from|
  {
    if from != [] {
      var n := |from| - 1;
      NoIncludeFront(from, n);
      NoIncludeKey(from, n);
      MergeFree(into, from[..n]);
      InsertFree(Merge(into, from[..n]), from[n]);
    }
  }

  lemma FreeFile(fs: FileSystem, fuel: nat, path: Path)
    ensures var t := PlainFile(fs, fuel, path); t.outcome.Value? ==> IncludeFree(t.outcome.value)
    decreases fuel, 0
  {
    if fuel > 0 && path in fs.files {
      FreeTree(fs, fuel - 1, fs.files[path], Parent(path));
    }
  }

  lemma FreeTree(fs: FileSystem, fuel: nat, tree: Yaml, dir: Path)
    ensures var t := PlainTree(fs, fuel, tree, dir); t.outcome.Value? ==> IncludeFree(t.outcome.value)
    decreases fuel, 2, tree, 0
  {
    match tree
    case Mapping(entries) => FreeMapping(fs, fuel, entries, dir);
    case Sequence(items) => FreeItems(fs, fuel, items, dir);
    case _ =>
  }

  lemma FreeMapping(fs: FileSystem, fuel: nat, entries: seq<Entry>, dir: Path)
    ensures var t := PlainMapping(fs, fuel, entries, dir); t.outcome.Value? ==> IncludeFree(t.outcome.value)
    decreases fuel, 2, entries, 1
  {
    var directive := Find(entries, INCLUDE);
    if directive.None? {
      FreeEntries(fs, fuel, entries, dir);
    } else {
      var targets := Targets(fs, directive.value, |entries|, dir);
      if targets.Ok? {
        if |targets.value| == 1 {
          FreeFile(fs, fuel, targets.value[0]);
        } else {
          FreeMerged(fs, fuel, targets.value);
        }
      }
    }
  }

  lemma FreeEntries(fs: FileSystem, fuel: nat, entries: seq<Entry>, dir: Path)
    requires Find(entries, INCLUDE).None?
    ensures var t := PlainEntries(fs, fuel, entries, dir); t.outcome.Value? ==> EntriesFree(t.outcome.value)
    decreases fuel, 2, entries, 0
  {
    if entries != [] {
      var n := |entries| - 1;
      var last := entries[n];
      assert last.value < last && last in entries;
      NoIncludeFront(entries, n);
      NoIncludeKey(entries, n);
      FreeEntries(fs, fuel, entries[..n], dir);
      FreeTree(fs, fuel, last.value, dir);
      var before, inner := PlainEntries(fs, fuel, entries[..n], dir), PlainTree(fs, fuel, last.value, dir);
      if before.outcome.Value? && inner.outcome.Value? {
        InsertFree(before.outcome.value, Entry(last.key, inner.outcome.value));
      }
    }
  }

  lemma FreeItems(fs: FileSystem, fuel: nat, items: seq<Yaml>, dir: Path)
    ensures var t := PlainItems(fs, fuel, items, dir); t.outcome.Value? ==> ItemsFree(t.outcome.value)
    decreases fuel, 2, items, 0
  {
    if items != [] {
      FreeItems(fs, fuel, items[..|items| - 1], dir);
      FreeItem(fs, fuel, items[|items| - 1], dir);
    }
  }

  lemma FreeItem(fs: FileSystem, fuel: nat, item: Yaml, dir: Path)
    ensures var t := PlainItem(fs, fuel, item, dir); t.outcome.Value? ==> ItemsFree(t.outcome.value)
    decreases fuel, 2, item, 1
  {
    var directive := IncludeOf(item);
    if directive.None? {
      FreeTree(fs, fuel, item, dir);
    } else {
      var targets := Targets(fs, directive.value, |item.entries|, dir);
      if targets.Ok? {
        FreeFiles(fs, fuel, targets.value);
      }
    }
  }

  lemma FreeFiles(fs: FileSystem, fuel: nat, files: seq<Path>)
    ensures var t := PlainFiles(fs, fuel, files); t.outcome.Value? ==> ItemsFree(t.outcome.value)
    decreases fuel, 1, |files|
  {
    if files != [] {
      FreeFiles(fs, fuel, files[..|files| - 1]);
      FreeFile(fs, fuel, files[|files| - 1]);
    }
  }

  lemma FreeMerged(fs: FileSystem, fuel: nat, files: seq<Path>)
    ensures var t := PlainMerged(fs, fuel, files); t.outcome.Value? ==> EntriesFree(t.outcome.value)
    decreases fuel, 1, |files|
  {
    if files != [] {
      var path := files[|files| - 1];
      FreeMerged(fs, fuel, files[..|files| - 1]);
      FreeFile(fs, fuel, path);
      var before, inner := PlainMerged(fs, fuel, files[..|files| - 1]), PlainFile(fs, fuel, path);
      if before.outcome.Value? && inner.outcome.Value? && inner.outcome.value.Mapping? {
        MergeFree(before.outcome.value, inner.outcome.value.entries);
      }
    }
  }

  // ---------------------------------------------------------------------------
  // Loading a configuration
  // ---------------------------------------------------------------------------

  /** The plain expansion of `path` ends with `outcome`, having opened `trail`. */
  ghost predicate Expands(fs: FileSystem, path: Path, trail: seq<Path>, outcome: Outcome<Yaml>) {
    !outcome.OutOfFuel? && exists fuel: nat :: PlainFile(fs, fuel, path) == Trace(trail, outcome)
  }

  ghost predicate NoRepeats(trail: seq<Path>) {
    forall i, j :: 0 <= i < j < |trail| ==> trail[i] != trail[j]
  }

  /** However deep the plain expansion is followed, it opens `path` a second time. */
  ghost predicate ReachedTwice(fs: FileSystem, root: Path, path: Path) {
    forall fuel: nat :: fuel > |fs.files| ==> OpensTwice(PlainFile(fs, fuel, root).trail, path)
  }

  ghost predicate OpensTwice(trail: seq<Path>, path: Path) {
    exists i, j :: 0 <= i < j < |trail| && trail[i] == path && trail[j] == path
  }

  lemma NoRepeatsIsClean(trail: seq<Path>)
    ensures NoRepeats(trail) <==> CleanPrefix({}, trail) == |trail|
  {
    CleanIsWhole({}, trail);
    if Clean({}, trail) {
      forall i, j | 0 <= i < j < |trail|
        ensures trail[i] != trail[j]
      {
        assert trail[..j][i] == trail[i];
      }
    }
  }

  lemma PrefixIsClean(a: seq<Path>, b: seq<Path>)
    requires a <= b && NoRepeats(b)
    ensures CleanPrefix({}, a) == |a|
  {
    NoRepeatsIsClean(a);
  }

  /** A finished expansion without repeats is already finished with fuel for every file. */
  lemma FinishedEarly(fs: FileSystem, path: Path, trail: seq<Path>, outcome: Outcome<Yaml>, fuel: nat)
    requires Expands(fs, path, trail, outcome) && fuel > |fs.files|
    requires NoRepeats(trail)
    ensures PlainFile(fs, fuel, path) == Trace(trail, outcome)
  {
    var f: nat :| PlainFile(fs, f, path) == Trace(trail, outcome);
    if f <= fuel {
      MuchMoreFuel(fs, f, fuel, path);
    } else {
      MuchMoreFuel(fs, fuel, f, path);
      var t := PlainFile(fs, fuel, path);
      if t.outcome.OutOfFuel? {
        assert fs.files.Keys - {} == fs.files.Keys;
        assert |fs.files| == |fs.files.Keys|;
        EnoughFile(fs, fuel, path, {});
        PrefixIsClean(t.trail, trail);
        assert false;
      }
    }
  }

  lemma FirstRepeatStays(fs: FileSystem, path: Path, fuel: nat, more: nat)
    requires fuel <= more
    requires var t := PlainFile(fs, fuel, path).trail; CleanPrefix({}, t) < |t|
    ensures var t := PlainFile(fs, fuel, path).trail;
            OpensTwice(PlainFile(fs, more, path).trail, t[CleanPrefix({}, t)])
  {
    var t, u := PlainFile(fs, fuel, path).trail, PlainFile(fs, more, path).trail;
    MuchMoreFuel(fs, fuel, more, path);
    CleanPrefixStops({}, t);
    var k := CleanPrefix({}, t);
    var i :| 0 <= i < k && t[..k][i] == t[k];
    assert u[i] == t[k] && u[k] == t[k];
  }

  /** Loads a file with its includes, starting with an empty visited set. */
  method LoadConfigValue(fs: FileSystem, path: Path) returns (r: Result<Yaml, Rejection>, ghost trail: seq<Path>)
    ensures NoRepeats(trail)
    ensures forall v :: r == Ok(v) <==> exists t :: Expands(fs, path, t, Value(v)) && NoRepeats(t)
    ensures forall e :: r == Err(Failed(e)) <==> exists t :: Expands(fs, path, t, Fails(e)) && NoRepeats(t)
    ensures r.Err? && r.error.Circular? ==> ReachedTwice(fs, path, r.error.path)
    ensures r.Ok? ==> IncludeFree(r.value) && Expands(fs, path, trail, Value(r.value))
    ensures FilesKeyed(fs) && r.Ok? ==> exists fuel: nat :: FileStandsFor(fs, fuel, path, r.value)
  {
    var loader := new Loader(fs);
    ghost var fuel := |fs.files| + 1;
    assert fs.files.Keys - {} == fs.files.Keys;
    assert |fs.files| == |fs.files.Keys|;
    r := loader.LoadFile(path, fuel);
    trail := loader.trail;
    LoadMeaning(fs, path, loader.visited, trail, r);
  }

  lemma LoadMeaning(fs: FileSystem, path: Path, visited: set<Path>, trail: seq<Path>, r: Result<Yaml, Rejection>)
    requires Follows({}, [], PlainFile(fs, |fs.files| + 1, path), visited, trail, r)
    ensures NoRepeats(trail)
    ensures forall v :: r == Ok(v) <==> exists t :: Expands(fs, path, t, Value(v)) && NoRepeats(t)
    ensures forall e :: r == Err(Failed(e)) <==> exists t :: Expands(fs, path, t, Fails(e)) && NoRepeats(t)
    ensures r.Err? && r.error.Circular? ==> ReachedTwice(fs, path, r.error.path)
    ensures r.Ok? ==> IncludeFree(r.value) && Expands(fs, path, trail, Value(r.value))
  {
    var t := PlainFile(fs, |fs.files| + 1, path);
    var k := CleanPrefix({}, t.trail);
    assert trail == t.trail[..k];
    TrailHasNoRepeats(t.trail);
    NoRepeatsIsClean(t.trail);
    CleanExpansionIsUnique(fs, path);
    if k < |t.trail| {
      RepeatIsReachedTwice(fs, path);
    } else {
      assert t == Trace(trail, t.outcome);
      assert Expands(fs, path, trail, t.outcome);
      FreeFile(fs, |fs.files| + 1, path);
    }
  }

  /** Only one expansion can finish without a repeat, and fuel for every file is enough for it. */
  lemma CleanExpansionIsUnique(fs: FileSystem, path: Path)
    ensures forall o, u :: Expands(fs, path, u, o) && NoRepeats(u) ==> PlainFile(fs, |fs.files| + 1, path) == Trace(u, o)
  {
    forall o, u | Expands(fs, path, u, o) && NoRepeats(u)
      ensures PlainFile(fs, |fs.files| + 1, path) == Trace(u, o)
    {
      FinishedEarly(fs, path, u, o, |fs.files| + 1);
    }
  }

  lemma RepeatIsReachedTwice(fs: FileSystem, path: Path)
    requires var t := PlainFile(fs, |fs.files| + 1, path).trail; CleanPrefix({}, t) < |t|
    ensures var t := PlainFile(fs, |fs.files| + 1, path).trail;
            ReachedTwice(fs, path, t[CleanPrefix({}, t)])
  {
    var t := PlainFile(fs, |fs.files| + 1, path).trail;
    forall more: nat | more > |fs.files|
      ensures OpensTwice(PlainFile(fs, more, path).trail, t[CleanPrefix({}, t)])
    {
      FirstRepeatStays(fs, path, |fs.files| + 1, more);
    }
  }

  lemma TrailHasNoRepeats(trail: seq<Path>)
    ensures NoRepeats(trail[..CleanPrefix({}, trail)])
  {
    CleanPrefixStops({}, trail);
    var k := CleanPrefix({}, trail);
    forall i, j | 0 <= i < j < k
      ensures trail[i] != trail[j]
    {
      assert trail[..j][i] == trail[i];
    }
  }

  // ---- A tree without directives ----------------------------------------------

  /** It expands to itself and opens no file. */
  lemma {:induction false} ExpandsToItself(fs: FileSystem, fuel: nat, tree: Yaml, dir: Path)
    requires IncludeFree(tree) && Keyed(tree)
    ensures PlainTree(fs, fuel, tree, dir) == Trace([], Value(tree))
    decreases tree, 0
  {
    match tree
    case Mapping(entries) => EntriesExpandToThemselves(fs, fuel, entries, dir);
    case Sequence(items) => ItemsExpandToThemselves(fs, fuel, items, dir);
    case _ =>
  }

  lemma {:induction false} EntriesExpandToThemselves(fs: FileSystem, fuel: nat, entries: seq<Entry>, dir: Path)
    requires Keyed(Mapping(entries)) && forall i :: 0 <= i < |entries| ==> IncludeFree(entries[i].value)
    ensures PlainEntries(fs, fuel, entries, dir) == Trace([], Value(entries))
    decreases entries, 0
  {
    if entries != [] {
      var front, last := entries[..|entries| - 1], entries[|entries| - 1];
      assert last.value < last && last in entries;
      FrontDistinct(entries);
      EntriesExpandToThemselves(fs, fuel, front, dir);
      ExpandsToItself(fs, fuel, last.value, dir);
      InsertNew(front, last);
      assert front + [last] == entries;
    }
  }

  lemma {:induction false} ItemsExpandToThemselves(fs: FileSystem, fuel: nat, items: seq<Yaml>, dir: Path)
    requires Keyed(Sequence(items)) && ItemsFree(items)
    ensures PlainItems(fs, fuel, items, dir) == Trace([], Value(items))
    decreases items, 0
  {
    if items != [] {
      var front, last := items[..|items| - 1], items[|items| - 1];
      ItemsExpandToThemselves(fs, fuel, front, dir);
      ExpandsToItself(fs, fuel, last, dir);
      assert front + [last] == items;
    }
  }

  // ---- The visited set also rejects files that are merely shared -------------

  function Directive(pattern: string): Yaml {
    Mapping([Entry(INCLUDE, Text(pattern))])
  }

  function SharedFiles(): FileSystem {
    FileSystem(map[["main"] := Sequence([Directive("part"), Directive("part")]), ["part"] := Scalar("1")],
               map[([], "part") := [["part"]]])
  }

  lemma SharedExpansion()
    ensures PlainFile(SharedFiles(), 2, ["main"]) == Trace([["main"], ["part"], ["part"]], Value(Sequence([Scalar("1"), Scalar("1")])))
  {
    var fs := SharedFiles();
    assert PlainFile(fs, 1, ["part"]) == Trace([["part"]], Value(Scalar("1")));
    var files := fs.matches[([], "part")];
    assert files == [["part"]] && files[..0] == [] && files[0] == ["part"];
    assert PlainFiles(fs, 1, files[..0]) == Trace([], Value([]));
    assert Single(PlainFile(fs, 1, ["part"])) == Trace([["part"]], Value([Scalar("1")]));
    var empty: seq<Yaml> := [];
    assert files[|files| - 1] == ["part"] && files[..|files| - 1] == files[..0];
    assert PlainFiles(fs, 1, files) == Follow(Trace([], Value(empty)), ItemTrace(empty, Single(PlainFile(fs, 1, ["part"]))));
    assert empty + [Scalar("1")] == [Scalar("1")];
    assert PlainFiles(fs, 1, files) == Trace([["part"]], Value([Scalar("1")]));
    assert PlainItem(fs, 1, Directive("part"), []) == PlainFiles(fs, 1, files);
    var items := [Directive("part"), Directive("part")];
    assert items[..1] == [Directive("part")] && items[..1][..0] == [];
    assert PlainItems(fs, 1, items[..1], []) == Trace([["part"]], Value([Scalar("1")]));
    var one := [Scalar("1")];
    assert items[|items| - 1] == Directive("part") && items[..|items| - 1] == items[..1];
    assert PlainItems(fs, 1, items, []) == Follow(Trace([["part"]], Value(one)), ItemTrace(one, Trace([["part"]], Value(one))));
    assert one + one == [Scalar("1"), Scalar("1")];
    assert PlainItems(fs, 1, items, []) == Trace([["part"], ["part"]], Value([Scalar("1"), Scalar("1")]));
  }

  /** A file included twice, with no cycle anywhere, has a plain expansion, but loading fails. */
  lemma SharedFileRejected(r: Result<Yaml, Rejection>)
    requires forall v :: r == Ok(v) <==> exists t :: Expands(SharedFiles(), ["main"], t, Value(v)) && NoRepeats(t)
    ensures exists t, v :: Expands(SharedFiles(), ["main"], t, Value(v))
    ensures r.Err?
  {
    SharedExpansion();
    var fs := SharedFiles();
    var whole := PlainFile(fs, 2, ["main"]);
    assert Expands(fs, ["main"], whole.trail, whole.outcome);
    assert whole.trail[1] == whole.trail[2];
    if r.Ok? {
      var t :| Expands(fs, ["main"], t, Value(r.value)) && NoRepeats(t);
      FinishedEarly(fs, ["main"], t, Value(r.value), 3);
      MuchMoreFuel(fs, 2, 3, ["main"]);
      assert false;
    }
  }
}
