/** The in-memory storage backend: file contents by path, and a set of
    directories. A path is the sequence of its components. */
module MemoryStorage {
  import opened Wrappers

  type Path = seq<string>

  type Bytes = seq<bv8>

  datatype Store = Store(data: map<Path, Bytes>, dirs: set<Path>)

  datatype StorageError = NotFound(path: Path)

  /** `Path::starts_with` compares whole components. */
  predicate StartsWith(path: Path, prefix: Path) {
    prefix <= path
  }

  // ---------------------------------------------------------------------------
  // What each operation does to a store
  // ---------------------------------------------------------------------------

  ghost predicate Exists(s: Store, path: Path) {
    path in s.data || path in s.dirs || exists k :: k in s.data && StartsWith(k, path)
  }

  /** Moves a file if there is one, else a directory entry if there is one. */
  function Renamed(s: Store, from: Path, to: Path): Result<Store, StorageError> {
    if from in s.data then Ok(s.(data := (s.data - {from})[to := s.data[from]]))
    else if from in s.dirs then Ok(s.(dirs := (s.dirs - {from}) + {to}))
    else Err(NotFound(from))
  }

  /** Removes a file, or else a directory with everything below it. */
  function Deleted(s: Store, path: Path): Result<Store, StorageError> {
    if path in s.data then Ok(s.(data := s.data - {path}))
    else if path in s.dirs then
      Ok(Store(map k | k in s.data && !StartsWith(k, path) :: s.data[k], set d | d in s.dirs && !StartsWith(d, path)))
    else Err(NotFound(path))
  }

  /** The path and all of its ancestors. */
  function Ancestors(path: Path): set<Path> {
    set i | 1 <= i <= |path| :: path[..i]
  }

  function WithDirs(s: Store, path: Path): Store {
    s.(dirs := s.dirs + Ancestors(path))
  }

  /** The bytes from `offset` on; nothing at or past the end. */
  function ReadFrom(s: Store, path: Path, offset: nat): Result<Bytes, StorageError> {
    if path !in s.data then Err(NotFound(path))
    else if offset >= |s.data[path]| then Ok([])
    else Ok(s.data[path][offset..])
  }

  // ---------------------------------------------------------------------------
  // The backend
  // ---------------------------------------------------------------------------

  class Memory {
    var data: map<Path, Bytes>
    var dirs: set<Path>

    constructor ()
      ensures View() == Store(map[], {})
    {
      data, dirs := map[], {};
    }

    function View(): Store
      reads this
    {
      Store(data, dirs)
    }

    method FileExists(path: Path) returns (found: bool)
      ensures found <==> Exists(View(), path)
    {
      found := path in data || path in dirs;
      var keys := data.Keys;
      while keys != {} && !found
        invariant keys <= data.Keys
        invariant found ==> Exists(View(), path)
        invariant !found ==> path !in data && path !in dirs && forall k :: k in data && StartsWith(k, path) ==> k in keys
        decreases keys
      {
        var k :| k in keys;
        keys := keys - {k};
        if StartsWith(k, path) && k != path {
          found := true;
        }
      }
    }

    method SeekRead(path: Path, offset: nat) returns (r: Result<Bytes, StorageError>)
      ensures r == ReadFrom(View(), path, offset)
    {
      if path !in data {
        return Err(NotFound(path));
      }
      var contents := data[path];
      if offset >= |contents| {
        return Ok([]);
      }
      return Ok(contents[offset..]);
    }

    method Delete(path: Path) returns (r: Result<(), StorageError>)
      modifies this
      ensures var after := Deleted(old(View()), path);
              && (r.Ok? <==> after.Ok?)
              && View() == if after.Ok? then after.value else old(View())
    {
      if path in data {
        data := data - {path};
        return Ok(());
      }
      if path in dirs {
        dirs := dirs - {path};
        dirs := set d | d in dirs && !StartsWith(d, path);
        data := map k | k in data && !StartsWith(k, path) :: data[k];
        return Ok(());
      }
      return Err(NotFound(path));
    }

    method CreateDirAll(path: Path)
      modifies this
      ensures View() == WithDirs(old(View()), path)
    {
      var current: Path := [];
      for i := 0 to |path|
        invariant current == path[..i]
        invariant data == old(data)
        invariant dirs == old(dirs) + Ancestors(path[..i])
      {
        current := current + [path[i]];
        AncestorsStep(path, i);
        if current !in dirs {
          dirs := dirs + {current};
        }
      }
      assert path[..|path|] == path;
    }

    static lemma AncestorsStep(path: Path, i: nat)
      requires i < |path|
      ensures path[..i + 1] == path[..i] + [path[i]]
      ensures Ancestors(path[..i + 1]) == Ancestors(path[..i]) + {path[..i + 1]}
    {
      var longer, shorter := path[..i + 1], path[..i];
      forall k | 1 <= k <= i
        ensures longer[..k] == shorter[..k]
      {
      }
      assert longer[..i + 1] == longer;
      forall p | p in Ancestors(longer)
        ensures p in Ancestors(shorter) + {longer}
      {
        var k :| 1 <= k <= |longer| && p == longer[..k];
        if k <= i {
          assert p == shorter[..k];
        }
      }
      forall p | p in Ancestors(shorter)
        ensures p in Ancestors(longer)
      {
        var k :| 1 <= k <= |shorter| && p == shorter[..k];
        assert p == longer[..k];
      }
    }

    method Rename(from: Path, to: Path) returns (r: Result<(), StorageError>)
      modifies this
      ensures var after := Renamed(old(View()), from, to);
              && (r.Ok? <==> after.Ok?)
              && View() == if after.Ok? then after.value else old(View())
    {
      if from in data {
        var contents := data[from];
        data := data - {from};
        data := data[to := contents];
        return Ok(());
      }
      if from in dirs {
        dirs := dirs - {from};
        dirs := dirs + {to};
        return Ok(());
      }
      return Err(NotFound(from));
    }
  }

  /** Renaming a file to a free path and back restores the store. */
  lemma RenameThereAndBack(s: Store, from: Path, to: Path)
    requires from in s.data && to !in s.data && from != to
    ensures Renamed(s, from, to).Ok?
    ensures Renamed(Renamed(s, from, to).value, to, from) == Ok(s)
  {
    var there := Renamed(s, from, to).value;
    var back := Renamed(there, to, from).value;
    assert back.data.Keys == s.data.Keys;
    assert back.data == s.data;
  }

  /** Deleting a path leaves every path that is not below it, and nothing below a removed directory. */
  lemma DeletedExactly(s: Store, path: Path, k: Path)
    requires Deleted(s, path).Ok?
    ensures var after := Deleted(s, path).value;
            && (!StartsWith(k, path) ==> (k in after.data <==> k in s.data) && (k in s.data ==> after.data[k] == s.data[k]))
            && (path !in s.data ==> !Exists(after, path))
            && path !in after.data
  {
  }
}
