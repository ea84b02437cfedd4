/** Recursive `$include` expansion over parsed YAML trees, and what a tree stands for.

    Files are a finite map from canonical paths to parsed trees; a path outside
    the map is one that cannot be read or parsed. Globbing is a table from
    (directory, pattern) to the sorted matches. */
module IncludeExpansion {
  import opened Wrappers

  type Path = seq<string>

  datatype Yaml =
    | Scalar(literal: string)
    | Text(text: string)
    | Sequence(items: seq<Yaml>)
    | Mapping(entries: seq<Entry>)
    | Tagged(tag: string, inner: Yaml)

  datatype Entry = Entry(key: Yaml, value: Yaml)

  datatype FileSystem = FileSystem(files: map<Path, Yaml>, matches: map<(Path, string), seq<Path>>)

  datatype LoadError =
    | Unreadable(path: Path)
    | NotAString
    | NotTheOnlyKey
    | BadPattern(pattern: string)
    | NoMatch(pattern: string)
    | NotAMapping(path: Path)

  const INCLUDE: Yaml := Text("$include")

  function Parent(path: Path): Path {
    if path == [] then [] else path[..|path| - 1]
  }

  function Find(entries: seq<Entry>, key: Yaml): Option<Yaml> {
    if entries == [] then None
    else if entries[0].key == key then Some(entries[0].value)
    else Find(entries[1..], key)
  }

  /** `Mapping::insert`: replaces the value in place, or appends. */
  function Insert(entries: seq<Entry>, e: Entry): seq<Entry> {
    if entries == [] then [e]
    else if entries[0].key == e.key then [e] + entries[1..]
    else [entries[0]] + Insert(entries[1..], e)
  }

  function Merge(into: seq<Entry>, from: seq<Entry>): seq<Entry> {
    if from == [] then into else Insert(Merge(into, from[..|from| - 1]), from[|from| - 1])
  }

  /** The files an include names, given its value and the size of its mapping. */
  function Targets(fs: FileSystem, value: Yaml, size: nat, dir: Path): Result<seq<Path>, LoadError> {
    if !value.Text? then Err(NotAString)
    else if size > 1 then Err(NotTheOnlyKey)
    else if (dir, value.text) !in fs.matches then Err(BadPattern(value.text))
    else if fs.matches[(dir, value.text)] == [] then Err(NoMatch(value.text))
    else Ok(fs.matches[(dir, value.text)])
  }

  function IncludeOf(tree: Yaml): Option<Yaml> {
    if tree.Mapping? then Find(tree.entries, INCLUDE) else None
  }

  // ---------------------------------------------------------------------------
  // The plain expansion: no visited set, cut off after `fuel` nested files
  // ---------------------------------------------------------------------------

  datatype Outcome<+T> = Value(value: T) | Fails(error: LoadError) | OutOfFuel

  /** The files opened, in order, and how the expansion ended. */
  datatype Trace<+T> = Trace(trail: seq<Path>, outcome: Outcome<T>)

  /** `next` after `before` has produced a value. */
  function Follow<T>(before: Trace<T>, next: Trace<T>): Trace<T> {
    Trace(before.trail + next.trail, next.outcome)
  }

  function PlainFile(fs: FileSystem, fuel: nat, path: Path): Trace<Yaml>
    decreases fuel, 0
  {
    if fuel == 0 then Trace([path], OutOfFuel)
    else if path !in fs.files then Trace([path], Fails(Unreadable(path)))
    else Follow(Trace([path], Value(Scalar(""))), PlainTree(fs, fuel - 1, fs.files[path], Parent(path)))
  }

  function PlainTree(fs: FileSystem, fuel: nat, tree: Yaml, dir: Path): Trace<Yaml>
    decreases fuel, 2, tree, 0
  {
    match tree
    case Mapping(entries) => PlainMapping(fs, fuel, entries, dir)
    case Sequence(items) => AsSequence(PlainItems(fs, fuel, items, dir))
    case _ => Trace([], Value(tree))
  }

  function AsSequence(t: Trace<seq<Yaml>>): Trace<Yaml> {
    Trace(t.trail, match t.outcome case Value(v) => Value(Sequence(v)) case Fails(e) => Fails(e) case OutOfFuel => OutOfFuel)
  }

  function AsMapping(t: Trace<seq<Entry>>): Trace<Yaml> {
    Trace(t.trail, match t.outcome case Value(v) => Value(Mapping(v)) case Fails(e) => Fails(e) case OutOfFuel => OutOfFuel)
  }

  function PlainMapping(fs: FileSystem, fuel: nat, entries: seq<Entry>, dir: Path): Trace<Yaml>
    decreases fuel, 2, entries, 1
  {
    match Find(entries, INCLUDE)
    case None => AsMapping(PlainEntries(fs, fuel, entries, dir))
    case Some(value) =>
      match Targets(fs, value, |entries|, dir)
      case Err(e) => Trace([], Fails(e))
      case Ok(files) =>
        if |files| == 1 then PlainFile(fs, fuel, files[0]) else AsMapping(PlainMerged(fs, fuel, files))
  }

  function PlainEntries(fs: FileSystem, fuel: nat, entries: seq<Entry>, dir: Path): Trace<seq<Entry>>
    decreases fuel, 2, entries, 0
  {
    if entries == [] then Trace([], Value([]))
    else
      var before := PlainEntries(fs, fuel, entries[..|entries| - 1], dir);
      if !before.outcome.Value? then before
      else
        var last := entries[|entries| - 1];
        assert last.value < last && last in entries;
        Follow(before, EntryTrace(before.outcome.value, last.key, PlainTree(fs, fuel, last.value, dir)))
  }

  function EntryTrace(done: seq<Entry>, key: Yaml, t: Trace<Yaml>): Trace<seq<Entry>> {
    Trace(t.trail, match t.outcome case Value(v) => Value(Insert(done, Entry(key, v))) case Fails(e) => Fails(e) case OutOfFuel => OutOfFuel)
  }

  function PlainItems(fs: FileSystem, fuel: nat, items: seq<Yaml>, dir: Path): Trace<seq<Yaml>>
    decreases fuel, 2, items, 0
  {
    if items == [] then Trace([], Value([]))
    else
      var before := PlainItems(fs, fuel, items[..|items| - 1], dir);
      if !before.outcome.Value? then before
      else Follow(before, ItemTrace(before.outcome.value, PlainItem(fs, fuel, items[|items| - 1], dir)))
  }

  function ItemTrace(done: seq<Yaml>, t: Trace<seq<Yaml>>): Trace<seq<Yaml>> {
    Trace(t.trail, match t.outcome case Value(v) => Value(done + v) case Fails(e) => Fails(e) case OutOfFuel => OutOfFuel)
  }

  /** The values one item of a sequence stands for. */
  function PlainItem(fs: FileSystem, fuel: nat, item: Yaml, dir: Path): Trace<seq<Yaml>>
    decreases fuel, 2, item, 1
  {
    match IncludeOf(item)
    case None => Single(PlainTree(fs, fuel, item, dir))
    case Some(value) =>
      match Targets(fs, value, |item.entries|, dir)
      case Err(e) => Trace([], Fails(e))
      case Ok(files) => PlainFiles(fs, fuel, files)
  }

  function Single(t: Trace<Yaml>): Trace<seq<Yaml>> {
    Trace(t.trail, match t.outcome case Value(v) => Value([v]) case Fails(e) => Fails(e) case OutOfFuel => OutOfFuel)
  }

  function PlainFiles(fs: FileSystem, fuel: nat, files: seq<Path>): Trace<seq<Yaml>>
    decreases fuel, 1, |files|
  {
    if files == [] then Trace([], Value([]))
    else
      var before := PlainFiles(fs, fuel, files[..|files| - 1]);
      if !before.outcome.Value? then before
      else Follow(before, ItemTrace(before.outcome.value, Single(PlainFile(fs, fuel, files[|files| - 1]))))
  }

  function PlainMerged(fs: FileSystem, fuel: nat, files: seq<Path>): Trace<seq<Entry>>
    decreases fuel, 1, |files|
  {
    if files == [] then Trace([], Value([]))
    else
      var before := PlainMerged(fs, fuel, files[..|files| - 1]);
      if !before.outcome.Value? then before
      else
        var path := files[|files| - 1];
        Follow(before, MergeTrace(before.outcome.value, path, PlainFile(fs, fuel, path)))
  }

  function MergeTrace(done: seq<Entry>, path: Path, t: Trace<Yaml>): Trace<seq<Entry>> {
    Trace(t.trail,
          match t.outcome
          case Value(v) => if v.Mapping? then Value(Merge(done, v.entries)) else Fails(NotAMapping(path))
          case Fails(e) => Fails(e)
          case OutOfFuel => OutOfFuel)
  }

  /** The end of an expansion that cannot read `path`. */
  function Nothing(path: Path): Trace<Yaml> {
    Trace([], Fails(Unreadable(path)))
  }

  // ---------------------------------------------------------------------------
  // What a tree stands for
  // ---------------------------------------------------------------------------

  function Keys(entries: seq<Entry>): seq<Yaml> {
    seq(|entries|, i requires 0 <= i < |entries| => entries[i].key)
  }

  ghost predicate DistinctKeys(entries: seq<Entry>) {
    forall i, j :: 0 <= i < j < |entries| ==> entries[i].key != entries[j].key
  }

  /** No mapping has a key twice, as a YAML parser guarantees. */
  ghost predicate Keyed(tree: Yaml) {
    match tree
    case Mapping(entries) => DistinctKeys(entries) && forall i :: 0 <= i < |entries| ==> Keyed(entries[i].value)
    case Sequence(items) => forall i :: 0 <= i < |items| ==> Keyed(items[i])
    case _ => true
  }

  ghost predicate FilesKeyed(fs: FileSystem) {
    forall path :: path in fs.files ==> Keyed(fs.files[path])
  }

  /** The elements of `keys` that are not in `seen`, in order. */
  function Unseen(keys: seq<Yaml>, seen: seq<Yaml>): seq<Yaml> {
    if keys == [] then []
    else Unseen(keys[..|keys| - 1], seen) + (if keys[|keys| - 1] in seen then [] else [keys[|keys| - 1]])
  }

  /** The keys of the mappings, each at its first appearance. */
  function Appearing(parts: seq<Yaml>): seq<Yaml>
    requires forall i :: 0 <= i < |parts| ==> parts[i].Mapping?
  {
    if parts == [] then []
    else
      var before := Appearing(parts[..|parts| - 1]);
      before + Unseen(Keys(parts[|parts| - 1].entries), before)
  }

  /** The last of the mappings that holds the key. */
  ghost predicate LastHolder(parts: seq<Yaml>, key: Yaml, i: nat)
    requires forall i :: 0 <= i < |parts| ==> parts[i].Mapping?
  {
    && i < |parts| && Find(parts[i].entries, key).Some?
    && forall j :: i < j < |parts| ==> Find(parts[j].entries, key).None?
  }

  /** Several mappings merged: every key once, where it first appears, with the value of the last mapping that holds it. */
  ghost predicate MergedFrom(merged: seq<Entry>, parts: seq<Yaml>) {
    && (forall i :: 0 <= i < |parts| ==> parts[i].Mapping?)
    && DistinctKeys(merged) && Keys(merged) == Appearing(parts)
    && (forall key, i: nat :: LastHolder(parts, key, i) ==> Find(merged, key) == Find(parts[i].entries, key))
    && (forall key :: Find(merged, key).Some? ==> exists i: nat :: LastHolder(parts, key, i))
  }

  /** `value` is what `tree` stands for in a file of the directory `dir`, with includes nested no deeper than `fuel`. */
  ghost predicate StandsFor(fs: FileSystem, fuel: nat, tree: Yaml, dir: Path, value: Yaml)
    decreases fuel, 2, tree, 0
  {
    match tree
    case Mapping(entries) =>
      if Find(entries, Text("$include")).Some? then
        exists pattern :: OnlyInclude(fs, entries, dir, pattern) && IncludedAs(fs, fuel, fs.matches[(dir, pattern)], value)
      else
        value.Mapping? && EntriesStandFor(fs, fuel, entries, dir, value.entries)
    case Sequence(items) => value.Sequence? && ItemsStandFor(fs, fuel, items, dir, value.items)
    case _ => value == tree
  }

  /** The same keys in the same order, each with what its value stands for. */
  ghost predicate EntriesStandFor(fs: FileSystem, fuel: nat, entries: seq<Entry>, dir: Path, values: seq<Entry>)
    decreases fuel, 2, entries, 0
  {
    && |values| == |entries|
    && forall i :: 0 <= i < |entries| ==>
         assert entries[i].value < entries[i] && entries[i] in entries;
         values[i].key == entries[i].key && StandsFor(fs, fuel, entries[i].value, dir, values[i].value)
  }

  /** The directive is alone in its mapping, and its pattern matches a file. */
  ghost predicate OnlyInclude(fs: FileSystem, entries: seq<Entry>, dir: Path, pattern: string) {
    && entries == [Entry(Text("$include"), Text(pattern))]
    && (dir, pattern) in fs.matches && fs.matches[(dir, pattern)] != []
  }

  /** One file stands for itself, several for their mappings merged. */
  ghost predicate IncludedAs(fs: FileSystem, fuel: nat, files: seq<Path>, value: Yaml)
    decreases fuel, 1
  {
    if |files| == 1 then FileStandsFor(fs, fuel, files[0], value)
    else value.Mapping? && exists parts :: FilesStandFor(fs, fuel, files, parts) && MergedFrom(value.entries, parts)
  }

  ghost predicate FilesStandFor(fs: FileSystem, fuel: nat, files: seq<Path>, values: seq<Yaml>)
    decreases fuel, 0, 1
  {
    |values| == |files| && forall i :: 0 <= i < |files| ==> FileStandsFor(fs, fuel, files[i], values[i])
  }

  ghost predicate FileStandsFor(fs: FileSystem, fuel: nat, path: Path, value: Yaml)
    decreases fuel, 0, 0
  {
    && fuel > 0 && path in fs.files
    && exists dir :: Within(path, dir) && StandsFor(fs, fuel - 1, fs.files[path], dir, value)
  }

  /** `dir` is the directory of the file; the root is its own. */
  ghost predicate Within(path: Path, dir: Path) {
    (exists name :: path == dir + [name]) || path == dir == []
  }

  /** Item by item, an include giving as many items as it matches files. */
  ghost predicate ItemsStandFor(fs: FileSystem, fuel: nat, items: seq<Yaml>, dir: Path, values: seq<Yaml>)
    decreases fuel, 2, items, 1
  {
    if items == [] then values == []
    else exists k: nat :: ItemsCut(fs, fuel, items, dir, values, k)
  }

  ghost predicate ItemsCut(fs: FileSystem, fuel: nat, items: seq<Yaml>, dir: Path, values: seq<Yaml>, k: nat)
    requires items != []
    decreases fuel, 2, items, 0
  {
    && k <= |values|
    && ItemsStandFor(fs, fuel, items[..|items| - 1], dir, values[..k])
    && ItemStandsFor(fs, fuel, items[|items| - 1], dir, values[k..])
  }

  ghost predicate ItemStandsFor(fs: FileSystem, fuel: nat, item: Yaml, dir: Path, values: seq<Yaml>)
    decreases fuel, 2, item, 1
  {
    if item.Mapping? && Find(item.entries, Text("$include")).Some? then
      exists pattern :: OnlyInclude(fs, item.entries, dir, pattern) && FilesStandFor(fs, fuel, fs.matches[(dir, pattern)], values)
    else |values| == 1 && StandsFor(fs, fuel, item, dir, values[0])
  }

  // ---- Finding, inserting and merging -----------------------------------------

  lemma {:induction false} FindExactly(entries: seq<Entry>, key: Yaml)
    requires DistinctKeys(entries)
    ensures Find(entries, key).None? <==> key !in Keys(entries)
    ensures forall i :: 0 <= i < |entries| && entries[i].key == key ==> Find(entries, key) == Some(entries[i].value)
  {
    if entries != [] {
      assert forall i :: 0 < i < |entries| ==> entries[1..][i - 1] == entries[i];
      assert Keys(entries) == [entries[0].key] + Keys(entries[1..]);
      FindExactly(entries[1..], key);
    }
  }

  lemma {:induction false} FindSnoc(entries: seq<Entry>, e: Entry, key: Yaml)
    ensures Find(entries + [e], key) == if Find(entries, key).Some? then Find(entries, key) else if key == e.key then Some(e.value) else None
  {
    if entries != [] {
      assert (entries + [e])[1..] == entries[1..] + [e];
      FindSnoc(entries[1..], e, key);
    }
  }

  /** Only the inserted key finds something else afterwards. */
  lemma {:induction false} InsertFinds(entries: seq<Entry>, e: Entry, key: Yaml)
    ensures Find(Insert(entries, e), key) == if key == e.key then Some(e.value) else Find(entries, key)
  {
    if entries != [] {
      InsertFinds(entries[1..], e, key);
      assert ([e] + entries[1..])[1..] == entries[1..];
      assert ([entries[0]] + Insert(entries[1..], e))[1..] == Insert(entries[1..], e);
    }
  }

  /** A key stays where it is, and a new one comes last. */
  lemma {:induction false} InsertKeys(entries: seq<Entry>, e: Entry)
    ensures Keys(Insert(entries, e)) == if e.key in Keys(entries) then Keys(entries) else Keys(entries) + [e.key]
  {
    if entries != [] {
      InsertKeys(entries[1..], e);
      assert Keys(entries) == [entries[0].key] + Keys(entries[1..]);
      if entries[0].key == e.key {
        assert Keys([e] + entries[1..]) == [e.key] + Keys(entries[1..]);
      } else {
        assert Keys([entries[0]] + Insert(entries[1..], e)) == [entries[0].key] + Keys(Insert(entries[1..], e));
      }
    }
  }

  lemma DistinctByKeys(entries: seq<Entry>)
    ensures DistinctKeys(entries) <==> forall i, j :: 0 <= i < j < |Keys(entries)| ==> Keys(entries)[i] != Keys(entries)[j]
  {
    if forall i, j :: 0 <= i < j < |Keys(entries)| ==> Keys(entries)[i] != Keys(entries)[j] {
      forall i, j | 0 <= i < j < |entries|
        ensures entries[i].key != entries[j].key
      {
        assert Keys(entries)[i] != Keys(entries)[j];
      }
    }
  }

  lemma InsertDistinct(entries: seq<Entry>, e: Entry)
    requires DistinctKeys(entries)
    ensures DistinctKeys(Insert(entries, e))
  {
    InsertKeys(entries, e);
    DistinctByKeys(entries);
    DistinctByKeys(Insert(entries, e));
  }

  /** A key that is not there yet is appended. */
  lemma {:induction false} InsertNew(entries: seq<Entry>, e: Entry)
    requires e.key !in Keys(entries)
    ensures Insert(entries, e) == entries + [e]
  {
    if entries != [] {
      assert Keys(entries)[0] == entries[0].key;
      assert Keys(entries) == [entries[0].key] + Keys(entries[1..]);
      InsertNew(entries[1..], e);
      assert entries + [e] == [entries[0]] + (entries[1..] + [e]);
    }
  }

  lemma FrontDistinct(entries: seq<Entry>)
    requires entries != [] && DistinctKeys(entries)
    ensures DistinctKeys(entries[..|entries| - 1])
    ensures Keys(entries) == Keys(entries[..|entries| - 1]) + [entries[|entries| - 1].key]
    ensures entries[|entries| - 1].key !in Keys(entries[..|entries| - 1])
  {
  }

  /** Merging in another mapping: its values win. */
  lemma {:induction false} MergeFinds(into: seq<Entry>, from: seq<Entry>, key: Yaml)
    requires DistinctKeys(from)
    ensures Find(Merge(into, from), key) == if Find(from, key).Some? then Find(from, key) else Find(into, key)
    decreases |from|
  {
    if from != [] {
      var front, last := from[..|from| - 1], from[|from| - 1];
      FrontDistinct(from);
      MergeFinds(into, front, key);
      InsertFinds(Merge(into, front), last, key);
      assert from == front + [last];
      FindSnoc(front, last, key);
      FindExactly(front, last.key);
    }
  }

  /** Merging in another mapping: its new keys come last. */
  lemma {:induction false} MergeKeys(into: seq<Entry>, from: seq<Entry>)
    requires DistinctKeys(into) && DistinctKeys(from)
    ensures DistinctKeys(Merge(into, from)) && Keys(Merge(into, from)) == Keys(into) + Unseen(Keys(from), Keys(into))
    decreases |from|
  {
    if from == [] {
      assert Keys(into) + [] == Keys(into);
    } else {
      var front, last := from[..|from| - 1], from[|from| - 1];
      FrontDistinct(from);
      MergeKeys(into, front);
      InsertKeys(Merge(into, front), last);
      InsertDistinct(Merge(into, front), last);
      assert Keys(from)[..|from| - 1] == Keys(front);
      UnseenOnly(Keys(front), Keys(into), last.key);
    }
  }

  lemma {:induction false} UnseenOnly(keys: seq<Yaml>, seen: seq<Yaml>, key: Yaml)
    ensures key in Unseen(keys, seen) <==> key in keys && key !in seen
    decreases |keys|
  {
    if keys != [] {
      UnseenOnly(keys[..|keys| - 1], seen, key);
      assert keys == keys[..|keys| - 1] + [keys[|keys| - 1]];
    }
  }

  /** One more mapping merged in. */
  lemma MergedSnoc(merged: seq<Entry>, parts: seq<Yaml>, last: Yaml)
    requires MergedFrom(merged, parts) && last.Mapping? && DistinctKeys(last.entries)
    ensures MergedFrom(Merge(merged, last.entries), parts + [last])
  {
    var more, all := Merge(merged, last.entries), parts + [last];
    assert all[..|parts|] == parts;
    MergeKeys(merged, last.entries);
    forall key
      ensures Find(more, key) == if Find(last.entries, key).Some? then Find(last.entries, key) else Find(merged, key)
    {
      MergeFinds(merged, last.entries, key);
    }
    forall key, i: nat | LastHolder(all, key, i)
      ensures Find(more, key) == Find(all[i].entries, key)
    {
      if i < |parts| {
        LastHolderFront(parts, last, key, i);
        assert Find(all[|parts|].entries, key).None?;
      }
    }
    forall key | Find(more, key).Some?
      ensures exists i: nat :: LastHolder(all, key, i)
    {
      if Find(last.entries, key).Some? {
        assert LastHolder(all, key, |parts|);
      } else {
        var i: nat :| LastHolder(parts, key, i);
        LastHolderFront(parts, last, key, i);
      }
    }
  }

  lemma LastHolderFront(parts: seq<Yaml>, last: Yaml, key: Yaml, i: nat)
    requires (forall i :: 0 <= i < |parts| ==> parts[i].Mapping?) && last.Mapping? && i < |parts|
    ensures LastHolder(parts + [last], key, i) <==> LastHolder(parts, key, i) && Find(last.entries, key).None?
  {
    var all := parts + [last];
    assert all[|parts|] == last;
    if LastHolder(all, key, i) {
      forall j | i < j < |parts|
        ensures Find(parts[j].entries, key).None?
      {
        assert all[j] == parts[j];
      }
    }
  }

  lemma {:induction false} MergedIsUnique(a: seq<Entry>, b: seq<Entry>, parts: seq<Yaml>)
    requires MergedFrom(a, parts) && MergedFrom(b, parts)
    ensures a == b
  {
    assert |Keys(a)| == |a| && |Keys(b)| == |b|;
    forall i | 0 <= i < |a|
      ensures a[i] == b[i]
    {
      assert Keys(a)[i] == a[i].key && Keys(b)[i] == b[i].key;
      FindExactly(a, a[i].key);
      FindExactly(b, b[i].key);
      var h: nat :| LastHolder(parts, a[i].key, h);
    }
  }

  // ---- The plain expansion computes what a tree stands for ---------------------

  ghost predicate TopDistinct(outcome: Outcome<Yaml>) {
    outcome.Value? && outcome.value.Mapping? ==> DistinctKeys(outcome.value.entries)
  }

  lemma FileMeaning(fs: FileSystem, fuel: nat, path: Path)
    requires FilesKeyed(fs)
    ensures forall v :: PlainFile(fs, fuel, path).outcome == Value(v) <==> FileStandsFor(fs, fuel, path, v)
    ensures TopDistinct(PlainFile(fs, fuel, path).outcome)
    decreases fuel, 0
  {
    if fuel > 0 && path in fs.files {
      TreeMeaning(fs, fuel - 1, fs.files[path], Parent(path));
      forall v
        ensures FileStandsFor(fs, fuel, path, v) <==> StandsFor(fs, fuel - 1, fs.files[path], Parent(path), v)
      {
        ParentWithin(path);
        assert Within(path, Parent(path));
      }
    }
  }

  lemma ParentWithin(path: Path)
    ensures forall dir :: Within(path, dir) <==> dir == Parent(path)
  {
    if path != [] {
      assert path == Parent(path) + [path[|path| - 1]];
    }
  }

  lemma TreeMeaning(fs: FileSystem, fuel: nat, tree: Yaml, dir: Path)
    requires FilesKeyed(fs) && Keyed(tree)
    ensures forall v :: PlainTree(fs, fuel, tree, dir).outcome == Value(v) <==> StandsFor(fs, fuel, tree, dir, v)
    ensures TopDistinct(PlainTree(fs, fuel, tree, dir).outcome)
    decreases fuel, 2, tree, 0
  {
    match tree
    case Mapping(entries) => MappingMeaning(fs, fuel, entries, dir);
    case Sequence(items) => ItemsMeaning(fs, fuel, items, dir);
    case _ =>
  }

  lemma MappingMeaning(fs: FileSystem, fuel: nat, entries: seq<Entry>, dir: Path)
    requires FilesKeyed(fs) && Keyed(Mapping(entries))
    ensures forall v :: PlainMapping(fs, fuel, entries, dir).outcome == Value(v) <==> StandsFor(fs, fuel, Mapping(entries), dir, v)
    ensures TopDistinct(PlainMapping(fs, fuel, entries, dir).outcome)
    decreases fuel, 2, entries, 2
  {
    if Find(entries, INCLUDE).None? {
      EntriesMeaning(fs, fuel, entries, dir);
    } else {
      DirectiveTargets(fs, entries, dir);
      var targets := Targets(fs, Find(entries, INCLUDE).value, |entries|, dir);
      if targets.Ok? {
        forall v
          ensures StandsFor(fs, fuel, Mapping(entries), dir, v) <==> IncludedAs(fs, fuel, targets.value, v)
        {
        }
        if |targets.value| == 1 {
          FileMeaning(fs, fuel, targets.value[0]);
        } else {
          MergedMeaning(fs, fuel, targets.value);
          forall v
            ensures PlainMapping(fs, fuel, entries, dir).outcome == Value(v) <==>
                      v.Mapping? && PlainMerged(fs, fuel, targets.value).outcome == Value(v.entries)
          {
          }
        }
      }
    }
  }

  /** Exactly a lone directive with a pattern that matches has targets. */
  lemma DirectiveTargets(fs: FileSystem, entries: seq<Entry>, dir: Path)
    requires Find(entries, INCLUDE).Some?
    ensures var targets := Targets(fs, Find(entries, INCLUDE).value, |entries|, dir);
            && (forall pattern :: OnlyInclude(fs, entries, dir, pattern) ==> targets == Ok(fs.matches[(dir, pattern)]))
            && (targets.Ok? ==> targets.value != [] && exists pattern :: OnlyInclude(fs, entries, dir, pattern))
  {
    var value := Find(entries, INCLUDE).value;
    if Targets(fs, value, |entries|, dir).Ok? {
      assert entries == [entries[0]] && entries[1..] == [];
      assert entries == [Entry(Text("$include"), Text(value.text))];
      assert OnlyInclude(fs, entries, dir, value.text);
    }
  }

  lemma EntriesMeaning(fs: FileSystem, fuel: nat, entries: seq<Entry>, dir: Path)
    requires FilesKeyed(fs) && Keyed(Mapping(entries))
    ensures forall v :: PlainEntries(fs, fuel, entries, dir).outcome == Value(v) <==> EntriesStandFor(fs, fuel, entries, dir, v)
    ensures forall v :: EntriesStandFor(fs, fuel, entries, dir, v) ==> DistinctKeys(v)
    decreases fuel, 2, entries, 1
  {
    if PlainEntries(fs, fuel, entries, dir).outcome.Value? {
      EntriesSound(fs, fuel, entries, dir);
    }
    forall v | EntriesStandFor(fs, fuel, entries, dir, v)
      ensures PlainEntries(fs, fuel, entries, dir).outcome == Value(v)
    {
      EntriesComplete(fs, fuel, entries, dir, v);
    }
  }

  lemma EntriesSound(fs: FileSystem, fuel: nat, entries: seq<Entry>, dir: Path)
    requires FilesKeyed(fs) && Keyed(Mapping(entries))
    requires PlainEntries(fs, fuel, entries, dir).outcome.Value?
    ensures EntriesStandFor(fs, fuel, entries, dir, PlainEntries(fs, fuel, entries, dir).outcome.value)
    decreases fuel, 2, entries, 0
  {
    if entries != [] {
      var front, last := entries[..|entries| - 1], entries[|entries| - 1];
      assert last.value < last && last in entries;
      FrontDistinct(entries);
      EntriesSound(fs, fuel, front, dir);
      TreeMeaning(fs, fuel, last.value, dir);
      var before, inner := PlainEntries(fs, fuel, front, dir).outcome, PlainTree(fs, fuel, last.value, dir).outcome;
      assert StandsFor(fs, fuel, last.value, dir, inner.value);
      EntriesGrow(fs, fuel, front, last, dir, before.value, inner.value);
      assert front + [last] == entries;
    }
  }

  lemma EntriesComplete(fs: FileSystem, fuel: nat, entries: seq<Entry>, dir: Path, values: seq<Entry>)
    requires FilesKeyed(fs) && Keyed(Mapping(entries)) && EntriesStandFor(fs, fuel, entries, dir, values)
    ensures PlainEntries(fs, fuel, entries, dir).outcome == Value(values)
    decreases fuel, 2, entries, 0
  {
    if entries != [] {
      var front, last := entries[..|entries| - 1], entries[|entries| - 1];
      var head, tail := values[..|values| - 1], values[|values| - 1];
      assert last.value < last && last in entries;
      FrontDistinct(entries);
      EntriesComplete(fs, fuel, front, dir, head);
      TreeMeaning(fs, fuel, last.value, dir);
      assert PlainTree(fs, fuel, last.value, dir).outcome == Value(tail.value);
      EntriesGrow(fs, fuel, front, last, dir, head, tail.value);
      assert values == head + [tail];
    }
  }

  lemma EntriesGrow(fs: FileSystem, fuel: nat, front: seq<Entry>, last: Entry, dir: Path, done: seq<Entry>, value: Yaml)
    requires EntriesStandFor(fs, fuel, front, dir, done) && StandsFor(fs, fuel, last.value, dir, value)
    requires last.key !in Keys(front)
    ensures Insert(done, Entry(last.key, value)) == done + [Entry(last.key, value)]
    ensures EntriesStandFor(fs, fuel, front + [last], dir, done + [Entry(last.key, value)])
  {
    assert Keys(done) == Keys(front);
    InsertNew(done, Entry(last.key, value));
  }

  lemma ItemsMeaning(fs: FileSystem, fuel: nat, items: seq<Yaml>, dir: Path)
    requires FilesKeyed(fs) && Keyed(Sequence(items))
    ensures forall v :: PlainItems(fs, fuel, items, dir).outcome == Value(v) <==> ItemsStandFor(fs, fuel, items, dir, v)
    decreases fuel, 2, items, 0
  {
    if items != [] {
      var front, last := items[..|items| - 1], items[|items| - 1];
      ItemsMeaning(fs, fuel, front, dir);
      ItemMeaning(fs, fuel, last, dir);
      var before, inner := PlainItems(fs, fuel, front, dir).outcome, PlainItem(fs, fuel, last, dir).outcome;
      if before.Value? && inner.Value? {
        var whole := before.value + inner.value;
        assert whole[..|before.value|] == before.value && whole[|before.value|..] == inner.value;
        assert ItemsCut(fs, fuel, items, dir, whole, |before.value|);
      }
      forall v | ItemsStandFor(fs, fuel, items, dir, v)
        ensures PlainItems(fs, fuel, items, dir).outcome == Value(v)
      {
        var k := CutOf(fs, fuel, items, dir, v);
        assert before == Value(v[..k]) && inner == Value(v[k..]);
        assert v == v[..k] + v[k..];
      }
    }
  }

  lemma CutOf(fs: FileSystem, fuel: nat, items: seq<Yaml>, dir: Path, values: seq<Yaml>) returns (k: nat)
    requires items != [] && ItemsStandFor(fs, fuel, items, dir, values)
    ensures ItemsCut(fs, fuel, items, dir, values, k)
  {
    k :| ItemsCut(fs, fuel, items, dir, values, k);
  }

  lemma ItemMeaning(fs: FileSystem, fuel: nat, item: Yaml, dir: Path)
    requires FilesKeyed(fs) && Keyed(item)
    ensures forall v :: PlainItem(fs, fuel, item, dir).outcome == Value(v) <==> ItemStandsFor(fs, fuel, item, dir, v)
    decreases fuel, 2, item, 1
  {
    if IncludeOf(item).None? {
      TreeMeaning(fs, fuel, item, dir);
      forall v | ItemStandsFor(fs, fuel, item, dir, v)
        ensures PlainItem(fs, fuel, item, dir).outcome == Value(v)
      {
        assert PlainTree(fs, fuel, item, dir).outcome == Value(v[0]);
        assert PlainItem(fs, fuel, item, dir).outcome == Value([v[0]]);
        assert v == [v[0]];
      }
    } else {
      DirectiveTargets(fs, item.entries, dir);
      var targets := Targets(fs, IncludeOf(item).value, |item.entries|, dir);
      if targets.Ok? {
        FilesMeaning(fs, fuel, targets.value);
      }
    }
  }

  lemma FilesMeaning(fs: FileSystem, fuel: nat, files: seq<Path>)
    requires FilesKeyed(fs)
    ensures forall v :: PlainFiles(fs, fuel, files).outcome == Value(v) <==> FilesStandFor(fs, fuel, files, v)
    decreases fuel, 1, |files|
  {
    if files != [] {
      var front, last := files[..|files| - 1], files[|files| - 1];
      FilesMeaning(fs, fuel, front);
      FileMeaning(fs, fuel, last);
      forall v | FilesStandFor(fs, fuel, files, v)
        ensures PlainFiles(fs, fuel, files).outcome == Value(v)
      {
        assert FilesStandFor(fs, fuel, front, v[..|v| - 1]);
        assert PlainFiles(fs, fuel, front).outcome == Value(v[..|v| - 1]);
        assert FileStandsFor(fs, fuel, last, v[|v| - 1]);
        assert PlainFile(fs, fuel, last).outcome == Value(v[|v| - 1]);
        assert PlainFiles(fs, fuel, files).outcome == Value(v[..|v| - 1] + [v[|v| - 1]]);
        assert v == v[..|v| - 1] + [v[|v| - 1]];
      }
    }
  }

  ghost predicate KeyedMappings(parts: seq<Yaml>) {
    forall i :: 0 <= i < |parts| ==> parts[i].Mapping? && DistinctKeys(parts[i].entries)
  }

  function Merging(parts: seq<Yaml>): seq<Entry>
    requires forall i :: 0 <= i < |parts| ==> parts[i].Mapping?
  {
    if parts == [] then [] else Merge(Merging(parts[..|parts| - 1]), parts[|parts| - 1].entries)
  }

  lemma {:induction false} MergingMerges(parts: seq<Yaml>)
    requires KeyedMappings(parts)
    ensures MergedFrom(Merging(parts), parts)
    decreases |parts|
  {
    if parts != [] {
      var front, last := parts[..|parts| - 1], parts[|parts| - 1];
      MergingMerges(front);
      MergedSnoc(Merging(front), front, last);
      assert parts == front + [last];
    }
  }

  lemma MergedMeaning(fs: FileSystem, fuel: nat, files: seq<Path>)
    requires FilesKeyed(fs)
    ensures forall v :: PlainMerged(fs, fuel, files).outcome == Value(v) <==>
                          exists parts :: FilesStandFor(fs, fuel, files, parts) && MergedFrom(v, parts)
    ensures PlainMerged(fs, fuel, files).outcome.Value? ==> DistinctKeys(PlainMerged(fs, fuel, files).outcome.value)
    decreases fuel, 1, |files|, 1
  {
    var t := PlainMerged(fs, fuel, files).outcome;
    if t.Value? {
      var parts := MergedSound(fs, fuel, files);
      MergingMerges(parts);
    }
    forall v, parts | FilesStandFor(fs, fuel, files, parts) && MergedFrom(v, parts)
      ensures t == Value(v)
    {
      MergedComplete(fs, fuel, files, parts);
      MergingMerges(parts);
      MergedIsUnique(v, Merging(parts), parts);
    }
  }

  /** What several files merge to comes from what each of them stands for. */
  lemma MergedSound(fs: FileSystem, fuel: nat, files: seq<Path>) returns (parts: seq<Yaml>)
    requires FilesKeyed(fs) && PlainMerged(fs, fuel, files).outcome.Value?
    ensures FilesStandFor(fs, fuel, files, parts) && KeyedMappings(parts)
    ensures PlainMerged(fs, fuel, files).outcome.value == Merging(parts)
    decreases fuel, 1, |files|, 0
  {
    if files == [] {
      parts := [];
    } else {
      var front, last := files[..|files| - 1], files[|files| - 1];
      var some := MergedSound(fs, fuel, front);
      FileMeaning(fs, fuel, last);
      var value := PlainFile(fs, fuel, last).outcome.value;
      assert FileStandsFor(fs, fuel, last, value);
      FilesGrow(fs, fuel, front, some, last, value);
      MergingGrows(some, value);
      assert files == front + [last];
      parts := some + [value];
    }
  }

  /** Whatever the files stand for, they merge to it. */
  lemma MergedComplete(fs: FileSystem, fuel: nat, files: seq<Path>, parts: seq<Yaml>)
    requires FilesKeyed(fs) && FilesStandFor(fs, fuel, files, parts)
    requires forall i :: 0 <= i < |parts| ==> parts[i].Mapping?
    ensures KeyedMappings(parts) && PlainMerged(fs, fuel, files).outcome == Value(Merging(parts))
    decreases fuel, 1, |files|, 0
  {
    if files != [] {
      var front, last := files[..|files| - 1], files[|files| - 1];
      var some, value := parts[..|parts| - 1], parts[|parts| - 1];
      FilesShrink(fs, fuel, files, parts);
      MergedComplete(fs, fuel, front, some);
      FileMeaning(fs, fuel, last);
      assert PlainFile(fs, fuel, last).outcome == Value(value);
      MergingGrows(some, value);
      assert parts == some + [value];
    }
  }

  lemma FilesGrow(fs: FileSystem, fuel: nat, front: seq<Path>, parts: seq<Yaml>, last: Path, value: Yaml)
    requires FilesStandFor(fs, fuel, front, parts) && FileStandsFor(fs, fuel, last, value)
    ensures FilesStandFor(fs, fuel, front + [last], parts + [value])
  {
  }

  lemma FilesShrink(fs: FileSystem, fuel: nat, files: seq<Path>, parts: seq<Yaml>)
    requires files != [] && FilesStandFor(fs, fuel, files, parts)
    ensures FilesStandFor(fs, fuel, files[..|files| - 1], parts[..|parts| - 1])
    ensures FileStandsFor(fs, fuel, files[|files| - 1], parts[|parts| - 1])
  {
  }

  lemma MergingGrows(parts: seq<Yaml>, last: Yaml)
    requires KeyedMappings(parts) && last.Mapping? && DistinctKeys(last.entries)
    ensures KeyedMappings(parts + [last]) && Merging(parts + [last]) == Merge(Merging(parts), last.entries)
  {
    assert (parts + [last])[..|parts|] == parts;
  }

  /** How a mapping with a directive fails before any file is opened, as a value and as an item of a sequence. */
  lemma DirectiveErrors(fs: FileSystem, fuel: nat, entries: seq<Entry>, dir: Path, e: LoadError)
    requires Find(entries, Text("$include")).Some?
    requires var value := Find(entries, Text("$include")).value;
             match e
             case NotAString => !value.Text?
             case NotTheOnlyKey => value.Text? && |entries| > 1
             case BadPattern(pattern) => |entries| == 1 && value == Text(pattern) && (dir, pattern) !in fs.matches
             case NoMatch(pattern) => |entries| == 1 && value == Text(pattern) && (dir, pattern) in fs.matches && fs.matches[(dir, pattern)] == []
             case Unreadable(_) => false
             case NotAMapping(_) => false
    ensures PlainMapping(fs, fuel, entries, dir) == Trace([], Fails(e))
    ensures PlainItem(fs, fuel, Mapping(entries), dir) == Trace([], Fails(e))
  {
    assert INCLUDE == Text("$include");
  }
}
