/** The loader: include expansion with a visited set, against the plain expansion. */
module IncludeLoader {
  import opened Wrappers
  import opened IncludeExpansion

  datatype Rejection = Circular(path: Path) | Failed(error: LoadError)

  // ---------------------------------------------------------------------------
  // What the visited set adds: stop at the first file reached twice
  // ---------------------------------------------------------------------------

  function PathSet(paths: seq<Path>): set<Path> {
    set p | p in paths
  }

  /** How many of `trail` can be opened before one repeats, or was in `visited`. */
  function CleanPrefix(visited: set<Path>, trail: seq<Path>): (k: nat)
    ensures k <= |trail|
  {
    if trail == [] then 0
    else
      var front, last := trail[..|trail| - 1], trail[|trail| - 1];
      var k := CleanPrefix(visited, front);
      if k < |front| || last in visited || last in front then k else k + 1
  }

  ghost predicate StopsAt(visited: set<Path>, trail: seq<Path>, k: nat) {
    && k <= |trail|
    && (k < |trail| ==> trail[k] in visited || trail[k] in trail[..k])
    && forall i :: 0 <= i < k ==> trail[i] !in visited && trail[i] !in trail[..i]
  }

  lemma {:induction false} CleanPrefixStops(visited: set<Path>, trail: seq<Path>)
    ensures StopsAt(visited, trail, CleanPrefix(visited, trail))
    decreases |trail|
  {
    if trail != [] {
      var front := trail[..|trail| - 1];
      CleanPrefixStops(visited, front);
      assert forall i :: 0 <= i <= |front| ==> front[..i] == trail[..i];
    }
  }

  lemma StopUnique(visited: set<Path>, trail: seq<Path>, k: nat)
    requires StopsAt(visited, trail, k)
    ensures CleanPrefix(visited, trail) == k
  {
    CleanPrefixStops(visited, trail);
  }

  /** No file is opened twice, nor one that was visited before. */
  ghost predicate Clean(visited: set<Path>, trail: seq<Path>) {
    forall i :: 0 <= i < |trail| ==> trail[i] !in visited && trail[i] !in trail[..i]
  }

  lemma CleanIsWhole(visited: set<Path>, trail: seq<Path>)
    ensures Clean(visited, trail) <==> CleanPrefix(visited, trail) == |trail|
  {
    CleanPrefixStops(visited, trail);
  }

  /** The loader and the plain expansion, compared: `r`, `visited1` and `trail1` are
      what is left when `t` is followed until a file would be opened twice. */
  ghost predicate Follows<T>(visited0: set<Path>, trail0: seq<Path>, t: Trace<T>, visited1: set<Path>, trail1: seq<Path>, r: Result<T, Rejection>) {
    var k := CleanPrefix(visited0, t.trail);
    && visited1 == visited0 + PathSet(t.trail[..k])
    && trail1 == trail0 + t.trail[..k]
    && EndsWith(t, k, r)
  }

  /** The result when the expansion is followed for `k` files. */
  ghost predicate EndsWith<T>(t: Trace<T>, k: nat, r: Result<T, Rejection>) {
    if k < |t.trail| then r == Err(Circular(t.trail[k]))
    else match t.outcome
         case Value(v) => r == Ok(v)
         case Fails(e) => r == Err(Failed(e))
         case OutOfFuel => false
  }

  lemma {:induction false} PrefixJoin(visited: set<Path>, a: seq<Path>, b: seq<Path>)
    ensures CleanPrefix(visited, a + b)
         == if CleanPrefix(visited, a) < |a| then CleanPrefix(visited, a) else |a| + CleanPrefix(visited + PathSet(a), b)
    decreases |b|
  {
    if b == [] {
      assert a + b == a;
    } else {
      var front, last := b[..|b| - 1], b[|b| - 1];
      assert (a + b)[..|a + b| - 1] == a + front;
      PrefixJoin(visited, a, front);
      assert last in a + front <==> last in PathSet(a) || last in front;
    }
  }

  /** Two parts of an expansion, one after the other. */
  lemma FollowsJoin<S, T>(visited0: set<Path>, trail0: seq<Path>, before: Trace<S>, visited1: set<Path>, trail1: seq<Path>, done: S,
                          next: Trace<T>, visited2: set<Path>, trail2: seq<Path>, r: Result<T, Rejection>)
    requires Follows(visited0, trail0, before, visited1, trail1, Ok(done))
    requires Follows(visited1, trail1, next, visited2, trail2, r)
    ensures Follows(visited0, trail0, Trace(before.trail + next.trail, next.outcome), visited2, trail2, r)
  {
    var a, b := before.trail, next.trail;
    var k := CleanPrefix(visited1, b);
    WholeBefore(visited0, trail0, before, visited1, trail1, done);
    PrefixJoin(visited0, a, b);
    JoinState(visited0, trail0, a, b, k);
    EndsJoin(a, next, k, r);
  }

  lemma JoinState(visited0: set<Path>, trail0: seq<Path>, a: seq<Path>, b: seq<Path>, k: nat)
    requires k <= |b|
    ensures (visited0 + PathSet(a)) + PathSet(b[..k]) == visited0 + PathSet((a + b)[..|a| + k])
    ensures (trail0 + a) + b[..k] == trail0 + (a + b)[..|a| + k]
  {
    TakeJoin(a, b, k);
  }

  lemma WholeBefore<S>(visited0: set<Path>, trail0: seq<Path>, before: Trace<S>, visited1: set<Path>, trail1: seq<Path>, done: S)
    requires Follows(visited0, trail0, before, visited1, trail1, Ok(done))
    ensures CleanPrefix(visited0, before.trail) == |before.trail|
    ensures visited1 == visited0 + PathSet(before.trail) && trail1 == trail0 + before.trail
  {
    WholePrefix(visited0, before.trail);
  }

  lemma EndsJoin<T>(a: seq<Path>, next: Trace<T>, k: nat, r: Result<T, Rejection>)
    requires k <= |next.trail| && EndsWith(next, k, r)
    ensures EndsWith(Trace(a + next.trail, next.outcome), |a| + k, r)
  {
  }

  lemma WholePrefix(visited: set<Path>, a: seq<Path>)
    ensures CleanPrefix(visited, a) == |a| ==> a[..CleanPrefix(visited, a)] == a
  {
  }

  lemma TakeJoin(a: seq<Path>, b: seq<Path>, k: nat)
    requires k <= |b|
    ensures (a + b)[..|a| + k] == a + b[..k]
    ensures PathSet((a + b)[..|a| + k]) == PathSet(a) + PathSet(b[..k])
  {
    assert (a + b)[..|a| + k] == a + b[..k];
    PathSetJoin(a, b[..k]);
  }

  lemma PathSetJoin(a: seq<Path>, b: seq<Path>)
    ensures PathSet(a + b) == PathSet(a) + PathSet(b)
  {
    forall p
      ensures p in PathSet(a + b) <==> p in PathSet(a) || p in PathSet(b)
    {
      assert p in a + b <==> p in a || p in b;
    }
  }

  /** `longer` carries on from `shorter`, or is the same if that has already ended. */
  ghost predicate Continues<T>(shorter: Trace<T>, longer: Trace<T>) {
    shorter.trail <= longer.trail && (shorter.outcome.Value? || shorter == longer)
  }

  /** Once part of an expansion has been rejected, so is the whole. */
  lemma RejectionStands<T>(visited0: set<Path>, trail0: seq<Path>, shorter: Trace<T>, longer: Trace<T>, visited1: set<Path>, trail1: seq<Path>, e: Rejection)
    requires Follows(visited0, trail0, shorter, visited1, trail1, Err(e))
    requires Continues(shorter, longer)
    ensures Follows(visited0, trail0, longer, visited1, trail1, Err(e))
  {
    if shorter != longer {
      var k := CleanPrefix(visited0, shorter.trail);
      assert longer.trail == shorter.trail + longer.trail[|shorter.trail|..];
      PrefixJoin(visited0, shorter.trail, longer.trail[|shorter.trail|..]);
      assert longer.trail[..k] == shorter.trail[..k];
    }
  }

  lemma {:induction false} EntriesContinue(fs: FileSystem, fuel: nat, entries: seq<Entry>, dir: Path, i: nat)
    requires i <= |entries|
    ensures Continues(PlainEntries(fs, fuel, entries[..i], dir), PlainEntries(fs, fuel, entries, dir))
    decreases |entries|
  {
    if i == |entries| {
      assert entries[..i] == entries;
    } else {
      assert entries[..|entries| - 1][..i] == entries[..i];
      EntriesContinue(fs, fuel, entries[..|entries| - 1], dir, i);
    }
  }

  lemma {:induction false} ItemsContinue(fs: FileSystem, fuel: nat, items: seq<Yaml>, dir: Path, i: nat)
    requires i <= |items|
    ensures Continues(PlainItems(fs, fuel, items[..i], dir), PlainItems(fs, fuel, items, dir))
    decreases |items|
  {
    if i == |items| {
      assert items[..i] == items;
    } else {
      assert items[..|items| - 1][..i] == items[..i];
      ItemsContinue(fs, fuel, items[..|items| - 1], dir, i);
    }
  }

  lemma {:induction false} FilesContinue(fs: FileSystem, fuel: nat, files: seq<Path>, i: nat)
    requires i <= |files|
    ensures Continues(PlainFiles(fs, fuel, files[..i]), PlainFiles(fs, fuel, files))
    ensures Continues(PlainMerged(fs, fuel, files[..i]), PlainMerged(fs, fuel, files))
    decreases |files|
  {
    if i == |files| {
      assert files[..i] == files;
    } else {
      assert files[..|files| - 1][..i] == files[..i];
      FilesContinue(fs, fuel, files[..|files| - 1], i);
    }
  }

  // ---- One turn of each loop of the loader ------------------------------------

  lemma EntriesStep(fs: FileSystem, fuel: nat, entries: seq<Entry>, dir: Path, i: nat, visited0: set<Path>, trail0: seq<Path>,
                    visited1: set<Path>, trail1: seq<Path>, done: seq<Entry>, visited2: set<Path>, trail2: seq<Path>, value: Result<Yaml, Rejection>)
    requires i < |entries|
    requires Follows(visited0, trail0, PlainEntries(fs, fuel, entries[..i], dir), visited1, trail1, Ok(done))
    requires Follows(visited1, trail1, PlainTree(fs, fuel, entries[i].value, dir), visited2, trail2, value)
    ensures value.Ok? ==> Follows(visited0, trail0, PlainEntries(fs, fuel, entries[..i + 1], dir), visited2, trail2, Ok(Insert(done, Entry(entries[i].key, value.value))))
    ensures value.Err? ==> Follows(visited0, trail0, PlainEntries(fs, fuel, entries, dir), visited2, trail2, Err(value.error))
  {
    assert entries[..i + 1][..i] == entries[..i];
    var before, next := PlainEntries(fs, fuel, entries[..i], dir), EntryTrace(done, entries[i].key, PlainTree(fs, fuel, entries[i].value, dir));
    var r := if value.Ok? then Ok(Insert(done, Entry(entries[i].key, value.value))) else Err(value.error);
    FollowsJoin(visited0, trail0, before, visited1, trail1, done, next, visited2, trail2, r);
    if value.Err? {
      EntriesContinue(fs, fuel, entries, dir, i + 1);
      RejectionStands(visited0, trail0, PlainEntries(fs, fuel, entries[..i + 1], dir), PlainEntries(fs, fuel, entries, dir), visited2, trail2, value.error);
    }
  }

  lemma ItemsStep(fs: FileSystem, fuel: nat, items: seq<Yaml>, dir: Path, i: nat, visited0: set<Path>, trail0: seq<Path>,
                  visited1: set<Path>, trail1: seq<Path>, done: seq<Yaml>, visited2: set<Path>, trail2: seq<Path>, values: Result<seq<Yaml>, Rejection>)
    requires i < |items|
    requires Follows(visited0, trail0, PlainItems(fs, fuel, items[..i], dir), visited1, trail1, Ok(done))
    requires Follows(visited1, trail1, PlainItem(fs, fuel, items[i], dir), visited2, trail2, values)
    ensures values.Ok? ==> Follows(visited0, trail0, PlainItems(fs, fuel, items[..i + 1], dir), visited2, trail2, Ok(done + values.value))
    ensures values.Err? ==> Follows(visited0, trail0, PlainItems(fs, fuel, items, dir), visited2, trail2, Err(values.error))
  {
    assert items[..i + 1][..i] == items[..i];
    var before, next := PlainItems(fs, fuel, items[..i], dir), ItemTrace(done, PlainItem(fs, fuel, items[i], dir));
    var r := if values.Ok? then Ok(done + values.value) else Err(values.error);
    FollowsJoin(visited0, trail0, before, visited1, trail1, done, next, visited2, trail2, r);
    if values.Err? {
      ItemsContinue(fs, fuel, items, dir, i + 1);
      RejectionStands(visited0, trail0, PlainItems(fs, fuel, items[..i + 1], dir), PlainItems(fs, fuel, items, dir), visited2, trail2, values.error);
    }
  }

  lemma FilesStep(fs: FileSystem, fuel: nat, files: seq<Path>, i: nat, visited0: set<Path>, trail0: seq<Path>,
                  visited1: set<Path>, trail1: seq<Path>, done: seq<Yaml>, visited2: set<Path>, trail2: seq<Path>, value: Result<Yaml, Rejection>)
    requires i < |files|
    requires Follows(visited0, trail0, PlainFiles(fs, fuel, files[..i]), visited1, trail1, Ok(done))
    requires Follows(visited1, trail1, PlainFile(fs, fuel, files[i]), visited2, trail2, value)
    ensures value.Ok? ==> Follows(visited0, trail0, PlainFiles(fs, fuel, files[..i + 1]), visited2, trail2, Ok(done + [value.value]))
    ensures value.Err? ==> Follows(visited0, trail0, PlainFiles(fs, fuel, files), visited2, trail2, Err(value.error))
  {
    assert files[..i + 1][..i] == files[..i];
    var before, next := PlainFiles(fs, fuel, files[..i]), ItemTrace(done, Single(PlainFile(fs, fuel, files[i])));
    var r := if value.Ok? then Ok(done + [value.value]) else Err(value.error);
    FollowsJoin(visited0, trail0, before, visited1, trail1, done, next, visited2, trail2, r);
    if value.Err? {
      FilesContinue(fs, fuel, files, i + 1);
      RejectionStands(visited0, trail0, PlainFiles(fs, fuel, files[..i + 1]), PlainFiles(fs, fuel, files), visited2, trail2, value.error);
    }
  }

  lemma MergedStep(fs: FileSystem, fuel: nat, files: seq<Path>, i: nat, visited0: set<Path>, trail0: seq<Path>,
                   visited1: set<Path>, trail1: seq<Path>, done: seq<Entry>, visited2: set<Path>, trail2: seq<Path>, value: Result<Yaml, Rejection>)
    requires i < |files|
    requires Follows(visited0, trail0, PlainMerged(fs, fuel, files[..i]), visited1, trail1, Ok(done))
    requires Follows(visited1, trail1, PlainFile(fs, fuel, files[i]), visited2, trail2, value)
    ensures value.Ok? && value.value.Mapping? ==>
              Follows(visited0, trail0, PlainMerged(fs, fuel, files[..i + 1]), visited2, trail2, Ok(Merge(done, value.value.entries)))
    ensures value.Ok? && !value.value.Mapping? ==>
              Follows(visited0, trail0, PlainMerged(fs, fuel, files), visited2, trail2, Err(Failed(NotAMapping(files[i]))))
    ensures value.Err? ==> Follows(visited0, trail0, PlainMerged(fs, fuel, files), visited2, trail2, Err(value.error))
  {
    assert files[..i + 1][..i] == files[..i];
    var before, next := PlainMerged(fs, fuel, files[..i]), MergeTrace(done, files[i], PlainFile(fs, fuel, files[i]));
    var r := if value.Err? then Err(value.error)
             else if value.value.Mapping? then Ok(Merge(done, value.value.entries)) else Err(Failed(NotAMapping(files[i])));
    FollowsJoin(visited0, trail0, before, visited1, trail1, done, next, visited2, trail2, r);
    if r.Err? {
      FilesContinue(fs, fuel, files, i + 1);
      RejectionStands(visited0, trail0, PlainMerged(fs, fuel, files[..i + 1]), PlainMerged(fs, fuel, files), visited2, trail2, r.error);
    }
  }

  // ---------------------------------------------------------------------------
  // The loader
  // ---------------------------------------------------------------------------

  class Loader {
    const fs: FileSystem
    var visited: set<Path>
    /** The files read, in order. */
    ghost var trail: seq<Path>

    constructor (fs: FileSystem)
      ensures this.fs == fs && visited == {} && trail == []
    {
      this.fs := fs;
      visited := {};
      trail := [];
    }

    /** `fuel` exceeds the number of files not yet visited: this is why the recursion ends. */
    ghost predicate Enough(fuel: nat)
      reads this
    {
      fuel > |fs.files.Keys - visited|
    }

    method LoadFile(path: Path, ghost fuel: nat) returns (r: Result<Yaml, Rejection>)
      requires Enough(fuel)
      modifies this
      ensures Follows(old(visited), old(trail), PlainFile(fs, fuel, path), visited, trail, r)
      ensures FilesKeyed(fs) && r.Ok? ==> FileStandsFor(fs, fuel, path, r.value)
      decreases fuel, 0
    {
      if FilesKeyed(fs) {
        FileMeaning(fs, fuel, path);
      }
      ghost var start, log := visited, trail;
      if path in visited {
        AlreadyVisited(start, log, path, PlainFile(fs, fuel, path));
        return Err(Circular(path));
      }
      visited := visited + {path};
      trail := trail + [path];
      JustOpened(start, log, path);
      if path !in fs.files {
        assert Follows(visited, trail, Nothing(path), visited, trail, Err(Failed(Unreadable(path))));
        FollowsJoin(start, log, Trace([path], Value(Scalar(""))), visited, trail, Scalar(""),
                    Nothing(path), visited, trail, Err(Failed(Unreadable(path))));
        assert [path] + [] == [path];
        return Err(Failed(Unreadable(path)));
      }
      assert fs.files.Keys - visited == (fs.files.Keys - start) - {path};
      ghost var visited1, trail1 := visited, trail;
      r := ResolveTree(fs.files[path], Parent(path), fuel - 1);
      FollowsJoin(start, log, Trace([path], Value(Scalar(""))), visited1, trail1, Scalar(""),
                  PlainTree(fs, fuel - 1, fs.files[path], Parent(path)), visited, trail, r);
    }

    static lemma AlreadyVisited(visited: set<Path>, log: seq<Path>, path: Path, t: Trace<Yaml>)
      requires path in visited && t.trail != [] && t.trail[0] == path
      ensures Follows(visited, log, t, visited, log, Err(Circular(path)))
    {
      assert t.trail[..0] == [];
      StopUnique(visited, t.trail, 0);
    }

    static lemma JustOpened(visited: set<Path>, log: seq<Path>, path: Path)
      requires path !in visited
      ensures Follows(visited, log, Trace([path], Value(Scalar(""))), visited + {path}, log + [path], Ok(Scalar("")))
    {
      assert [path][..0] == [] && [path][..1] == [path];
      StopUnique(visited, [path], 1);
    }

    method ResolveTree(tree: Yaml, dir: Path, ghost fuel: nat) returns (r: Result<Yaml, Rejection>)
      requires Enough(fuel)
      modifies this
      ensures Follows(old(visited), old(trail), PlainTree(fs, fuel, tree, dir), visited, trail, r)
      ensures old(visited) <= visited
      decreases fuel, 2, tree, 0
    {
      match tree
      case Mapping(entries) =>
        r := ResolveMapping(entries, dir, fuel);
      case Sequence(items) =>
        r := ResolveSequence(items, dir, fuel);
      case _ =>
        r := Ok(tree);
    }

    method ResolveMapping(entries: seq<Entry>, dir: Path, ghost fuel: nat) returns (r: Result<Yaml, Rejection>)
      requires Enough(fuel)
      modifies this
      ensures Follows(old(visited), old(trail), PlainMapping(fs, fuel, entries, dir), visited, trail, r)
      ensures old(visited) <= visited
      ensures FilesKeyed(fs) && Keyed(Mapping(entries)) && r.Ok? ==> StandsFor(fs, fuel, Mapping(entries), dir, r.value)
      decreases fuel, 2, entries, 1
    {
      if FilesKeyed(fs) && Keyed(Mapping(entries)) {
        MappingMeaning(fs, fuel, entries, dir);
      }
      var directive := Find(entries, INCLUDE);
      if directive.Some? {
        var targets := Targets(fs, directive.value, |entries|, dir);
        if targets.Err? {
          return Err(Failed(targets.error));
        }
        if |targets.value| == 1 {
          r := LoadFile(targets.value[0], fuel);
        } else {
          r := LoadMerged(targets.value, fuel);
        }
      } else {
        r := ResolveEntries(entries, dir, fuel);
      }
    }

    method ResolveEntries(entries: seq<Entry>, dir: Path, ghost fuel: nat) returns (r: Result<Yaml, Rejection>)
      requires Enough(fuel)
      modifies this
      ensures Follows(old(visited), old(trail), AsMapping(PlainEntries(fs, fuel, entries, dir)), visited, trail, r)
      ensures old(visited) <= visited
      decreases fuel, 2, entries, 0
    {
      ghost var start, log := visited, trail;
      var result: seq<Entry> := [];
      for i := 0 to |entries|
        invariant start <= visited && Enough(fuel)
        invariant Follows(start, log, PlainEntries(fs, fuel, entries[..i], dir), visited, trail, Ok(result))
      {
        ghost var visited1, trail1 := visited, trail;
        assert entries[i].value < entries[i] && entries[i] in entries;
        var value := ResolveTree(entries[i].value, dir, fuel);
        FewerLeft(fs.files.Keys, visited1, visited);
        EntriesStep(fs, fuel, entries, dir, i, start, log, visited1, trail1, result, visited, trail, value);
        if value.Err? {
          return Err(value.error);
        }
        result := Insert(result, Entry(entries[i].key, value.value));
      }
      assert entries[..|entries|] == entries;
      return Ok(Mapping(result));
    }

    static lemma FewerLeft(all: set<Path>, before: set<Path>, after: set<Path>)
      requires before <= after
      ensures |all - after| <= |all - before|
    {
      SubsetSize(all - after, all - before);
    }

    static lemma {:induction false} SubsetSize(a: set<Path>, b: set<Path>)
      requires a <= b
      ensures |a| <= |b|
      decreases |a|
    {
      if a != {} {
        var x :| x in a;
        SubsetSize(a - {x}, b - {x});
      }
    }

    method ResolveSequence(items: seq<Yaml>, dir: Path, ghost fuel: nat) returns (r: Result<Yaml, Rejection>)
      requires Enough(fuel)
      modifies this
      ensures Follows(old(visited), old(trail), AsSequence(PlainItems(fs, fuel, items, dir)), visited, trail, r)
      ensures old(visited) <= visited
      ensures FilesKeyed(fs) && Keyed(Sequence(items)) && r.Ok? ==> StandsFor(fs, fuel, Sequence(items), dir, r.value)
      decreases fuel, 2, items, 0
    {
      if FilesKeyed(fs) && Keyed(Sequence(items)) {
        TreeMeaning(fs, fuel, Sequence(items), dir);
      }
      ghost var start, log := visited, trail;
      var result: seq<Yaml> := [];
      for i := 0 to |items|
        invariant start <= visited && Enough(fuel)
        invariant Follows(start, log, PlainItems(fs, fuel, items[..i], dir), visited, trail, Ok(result))
      {
        ghost var visited1, trail1 := visited, trail;
        var values := ResolveItem(items[i], dir, fuel);
        FewerLeft(fs.files.Keys, visited1, visited);
        ItemsStep(fs, fuel, items, dir, i, start, log, visited1, trail1, result, visited, trail, values);
        if values.Err? {
          return Err(values.error);
        }
        result := result + values.value;
      }
      assert items[..|items|] == items;
      return Ok(Sequence(result));
    }

    method ResolveItem(item: Yaml, dir: Path, ghost fuel: nat) returns (r: Result<seq<Yaml>, Rejection>)
      requires Enough(fuel)
      modifies this
      ensures Follows(old(visited), old(trail), PlainItem(fs, fuel, item, dir), visited, trail, r)
      ensures old(visited) <= visited
      decreases fuel, 2, item, 1
    {
      var directive := IncludeOf(item);
      if directive.Some? {
        var targets := Targets(fs, directive.value, |item.entries|, dir);
        if targets.Err? {
          return Err(Failed(targets.error));
        }
        r := LoadEach(targets.value, fuel);
      } else {
        var value := ResolveTree(item, dir, fuel);
        r := if value.Ok? then Ok([value.value]) else Err(value.error);
      }
    }

    method LoadEach(files: seq<Path>, ghost fuel: nat) returns (r: Result<seq<Yaml>, Rejection>)
      requires Enough(fuel)
      modifies this
      ensures Follows(old(visited), old(trail), PlainFiles(fs, fuel, files), visited, trail, r)
      ensures old(visited) <= visited
      decreases fuel, 1
    {
      ghost var start, log := visited, trail;
      var result: seq<Yaml> := [];
      for i := 0 to |files|
        invariant start <= visited && Enough(fuel)
        invariant Follows(start, log, PlainFiles(fs, fuel, files[..i]), visited, trail, Ok(result))
      {
        ghost var visited1, trail1 := visited, trail;
        var value := LoadFile(files[i], fuel);
        FewerLeft(fs.files.Keys, visited1, visited);
        FilesStep(fs, fuel, files, i, start, log, visited1, trail1, result, visited, trail, value);
        if value.Err? {
          return Err(value.error);
        }
        result := result + [value.value];
      }
      assert files[..|files|] == files;
      return Ok(result);
    }

    method LoadMerged(files: seq<Path>, ghost fuel: nat) returns (r: Result<Yaml, Rejection>)
      requires Enough(fuel)
      modifies this
      ensures Follows(old(visited), old(trail), AsMapping(PlainMerged(fs, fuel, files)), visited, trail, r)
      ensures old(visited) <= visited
      decreases fuel, 1
    {
      ghost var start, log := visited, trail;
      var merged: seq<Entry> := [];
      for i := 0 to |files|
        invariant start <= visited && Enough(fuel)
        invariant Follows(start, log, PlainMerged(fs, fuel, files[..i]), visited, trail, Ok(merged))
      {
        ghost var visited1, trail1 := visited, trail;
        var value := LoadFile(files[i], fuel);
        FewerLeft(fs.files.Keys, visited1, visited);
        MergedStep(fs, fuel, files, i, start, log, visited1, trail1, merged, visited, trail, value);
        if value.Err? {
          return Err(value.error);
        }
        if !value.value.Mapping? {
          return Err(Failed(NotAMapping(files[i])));
        }
        merged := MergeInto(merged, value.value.entries);
      }
      assert files[..|files|] == files;
      return Ok(Mapping(merged));
    }

    static method MergeInto(into: seq<Entry>, from: seq<Entry>) returns (merged: seq<Entry>)
      ensures merged == Merge(into, from)
    {
      merged := into;
      for i := 0 to |from|
        invariant merged == Merge(into, from[..i])
      {
        assert from[..i + 1][..i] == from[..i];
        merged := Insert(merged, from[i]);
      }
      assert from[..|from|] == from;
    }
  }
}
