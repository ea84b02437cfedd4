/** Named storage backends across a configuration reload: which stores are kept,
    which are recreated, and the map of live instances that is built from that. */
module StoreChanges {
  import opened Wrappers

  datatype Backend = Native | S3 | Azure | Gcs | Memory

  datatype S3Config = S3Config(region: string, bucket: string, accessKey: string, secretKey: string,
                               endpoint: Option<string>, forcePathStyle: bool)

  datatype AzureConfig = AzureConfig(accountName: string, accountKey: string, container: string)

  datatype GcsConfig = GcsConfig(projectId: string, credentials: string, bucket: string)

  datatype StoreConfig = StoreConfig(backend: Backend, root: Option<string>, s3: Option<S3Config>,
                                     azure: Option<AzureConfig>, gcs: Option<GcsConfig>)

  type Configs = map<string, StoreConfig>

  // ---------------------------------------------------------------------------
  // Comparing two configurations of one store
  // ---------------------------------------------------------------------------

  predicate StoreConfigEq(a: StoreConfig, b: StoreConfig) {
    if a.backend != b.backend then false
    else if a.root != b.root then false
    else match a.backend
      case Native | Memory => true
      case S3 =>
        if a.s3.Some? && b.s3.Some? then a.s3.value.bucket == b.s3.value.bucket
        else a.s3.None? && b.s3.None?
      case Azure =>
        if a.azure.Some? && b.azure.Some? then a.azure.value.container == b.azure.value.container
        else a.azure.None? && b.azure.None?
      case Gcs =>
        if a.gcs.Some? && b.gcs.Some? then a.gcs.value.bucket == b.gcs.value.bucket
        else a.gcs.None? && b.gcs.None?
  }

  /** What of a configuration decides whether its store is kept. */
  datatype Identity = Identity(backend: Backend, root: Option<string>, place: Option<string>)

  ghost function IdentityOf(c: StoreConfig): Identity {
    Identity(c.backend, c.root,
             match c.backend
             case Native => None
             case Memory => None
             case S3 => if c.s3.Some? then Some(c.s3.value.bucket) else None
             case Azure => if c.azure.Some? then Some(c.azure.value.container) else None
             case Gcs => if c.gcs.Some? then Some(c.gcs.value.bucket) else None)
  }

  /** Comparison is equality of an identity, and therefore an equivalence relation. */
  lemma ComparisonIsIdentity(a: StoreConfig, b: StoreConfig)
    ensures StoreConfigEq(a, b) <==> IdentityOf(a) == IdentityOf(b)
  {
    match a.backend {
      case Native =>
      case S3 =>
      case Azure =>
      case Gcs =>
      case Memory =>
    }
  }

  lemma ComparisonIsEquivalence(a: StoreConfig, b: StoreConfig, c: StoreConfig)
    ensures StoreConfigEq(a, a)
    ensures StoreConfigEq(a, b) ==> StoreConfigEq(b, a)
    ensures StoreConfigEq(a, b) && StoreConfigEq(b, c) ==> StoreConfigEq(a, c)
  {
    ComparisonIsIdentity(a, b);
    ComparisonIsIdentity(b, c);
    ComparisonIsIdentity(a, c);
  }

  /** Equality of every field that the comparison is documented to check. */
  ghost predicate DocumentedEq(a: StoreConfig, b: StoreConfig) {
    && a.backend == b.backend && a.root == b.root
    && match a.backend
       case Native => true
       case Memory => true
       case S3 =>
         && (a.s3.Some? <==> b.s3.Some?)
         && (a.s3.Some? && b.s3.Some? ==> a.s3.value.bucket == b.s3.value.bucket)
       case Azure =>
         && (a.azure.Some? <==> b.azure.Some?)
         && (a.azure.Some? && b.azure.Some? ==>
               a.azure.value.accountName == b.azure.value.accountName && a.azure.value.container == b.azure.value.container)
       case Gcs =>
         && (a.gcs.Some? <==> b.gcs.Some?)
         && (a.gcs.Some? && b.gcs.Some? ==>
               a.gcs.value.projectId == b.gcs.value.projectId && a.gcs.value.bucket == b.gcs.value.bucket)
  }

  /** The bucket or container of the backend in use differs, or only one of the two has any. */
  ghost predicate PlaceDiffers(a: StoreConfig, b: StoreConfig) {
    match a.backend
    case Native => false
    case Memory => false
    case S3 => (a.s3.Some? <==> b.s3.None?) || (a.s3.Some? && b.s3.Some? && a.s3.value.bucket != b.s3.value.bucket)
    case Azure =>
      (a.azure.Some? <==> b.azure.None?) || (a.azure.Some? && b.azure.Some? && a.azure.value.container != b.azure.value.container)
    case Gcs => (a.gcs.Some? <==> b.gcs.None?) || (a.gcs.Some? && b.gcs.Some? && a.gcs.value.bucket != b.gcs.value.bucket)
  }

  /** Both accounts, or both projects, are the same; other backends have neither. */
  ghost predicate OwnersAgree(a: StoreConfig, b: StoreConfig) {
    match a.backend
    case Native => true
    case Memory => true
    case S3 => true
    case Azure => a.azure.Some? && b.azure.Some? ==> a.azure.value.accountName == b.azure.value.accountName
    case Gcs => a.gcs.Some? && b.gcs.Some? ==> a.gcs.value.projectId == b.gcs.value.projectId
  }

  /** The code agrees with its documentation exactly when backend, root or place differ anyway,
      or the account names or project ids are equal. */
  lemma ComparisonVersusDocumentation(a: StoreConfig, b: StoreConfig)
    ensures (StoreConfigEq(a, b) <==> DocumentedEq(a, b))
       <==> a.backend != b.backend || a.root != b.root || PlaceDiffers(a, b) || OwnersAgree(a, b)
  {
    match a.backend {
      case Native =>
      case S3 =>
      case Azure =>
      case Gcs =>
      case Memory =>
    }
  }

  lemma AccountChangeGoesUnnoticed()
    ensures exists a, b :: StoreConfigEq(a, b) && !DocumentedEq(a, b)
  {
    var a := StoreConfig(Azure, None, None, Some(AzureConfig("one", "k", "media")), None);
    var b := StoreConfig(Azure, None, None, Some(AzureConfig("two", "k", "media")), None);
    assert a.azure.value.accountName == "one" && b.azure.value.accountName == "two";
    assert "one"[0] != "two"[0];
    assert StoreConfigEq(a, b) && !DocumentedEq(a, b);
  }

  // ---------------------------------------------------------------------------
  // Sorted name lists
  // ---------------------------------------------------------------------------

  predicate LexLeq(a: string, b: string) {
    a == [] || (b != [] && (a[0] < b[0] || (a[0] == b[0] && LexLeq(a[1..], b[1..]))))
  }

  lemma {:induction false} LexLeqTotal(a: string, b: string)
    ensures LexLeq(a, b) || LexLeq(b, a)
    ensures LexLeq(a, a)
    decreases |a|
  {
    if a != [] {
      LexLeqTotal(a[1..], if b == [] then [] else b[1..]);
    }
  }

  lemma {:induction false} LexLeqAntisymmetric(a: string, b: string)
    requires LexLeq(a, b) && LexLeq(b, a)
    ensures a == b
  {
    if a != [] {
      LexLeqAntisymmetric(a[1..], b[1..]);
      assert a == [a[0]] + a[1..] && b == [b[0]] + b[1..];
    }
  }

  lemma {:induction false} LexLeqTransitive(a: string, b: string, c: string)
    requires LexLeq(a, b) && LexLeq(b, c)
    ensures LexLeq(a, c)
  {
    if a != [] && a[0] == b[0] == c[0] {
      LexLeqTransitive(a[1..], b[1..], c[1..]);
    }
  }

  ghost predicate Ascending(s: seq<string>) {
    forall i, j :: 0 <= i < j < |s| ==> LexLeq(s[i], s[j])
  }

  ghost predicate NoDuplicates(s: seq<string>) {
    forall i, j :: 0 <= i < j < |s| ==> s[i] != s[j]
  }

  ghost function Names(s: seq<string>): set<string> {
    set x | x in s
  }

  lemma NamesAppend(s: seq<string>, x: string)
    ensures Names(s + [x]) == Names(s) + {x}
  {
  }

  function Insert(x: string, s: seq<string>): seq<string> {
    if s == [] || LexLeq(x, s[0]) then [x] + s else [s[0]] + Insert(x, s[1..])
  }

  function Sort(s: seq<string>): seq<string> {
    if s == [] then [] else Insert(s[0], Sort(s[1..]))
  }

  /** Removes consecutive repetitions. */
  function Dedup(s: seq<string>): seq<string> {
    if |s| <= 1 then s
    else if s[0] == s[1] then Dedup(s[1..])
    else [s[0]] + Dedup(s[1..])
  }

  lemma {:induction false} InsertKeepsOrder(x: string, s: seq<string>)
    requires Ascending(s)
    ensures Ascending(Insert(x, s))
    ensures Names(Insert(x, s)) == Names(s) + {x}
    ensures forall y :: y in Insert(x, s) <==> y == x || y in s
  {
    var r := Insert(x, s);
    if s == [] {
    } else if LexLeq(x, s[0]) {
      forall i | 0 <= i < |s|
        ensures LexLeq(x, s[i])
      {
        if i > 0 {
          LexLeqTransitive(x, s[0], s[i]);
        }
      }
    } else {
      var tail := Insert(x, s[1..]);
      InsertKeepsOrder(x, s[1..]);
      LexLeqTotal(x, s[0]);
      forall j | 0 <= j < |tail|
        ensures LexLeq(s[0], tail[j])
      {
        assert tail[j] in tail;
        if tail[j] != x {
          var k :| 1 <= k < |s| && s[k] == tail[j];
        }
      }
      assert r == [s[0]] + tail;
      assert s == [s[0]] + s[1..];
    }
  }

  lemma {:induction false} SortSorts(s: seq<string>)
    ensures Ascending(Sort(s)) && Names(Sort(s)) == Names(s)
  {
    if s != [] {
      SortSorts(s[1..]);
      InsertKeepsOrder(s[0], Sort(s[1..]));
      assert s == [s[0]] + s[1..];
    }
  }

  lemma {:induction false} DedupDistinguishes(s: seq<string>)
    requires Ascending(s)
    ensures Ascending(Dedup(s)) && NoDuplicates(Dedup(s))
    ensures forall x :: x in Dedup(s) <==> x in s
    ensures s != [] ==> Dedup(s) != [] && Dedup(s)[0] == s[0]
  {
    if |s| > 1 {
      var tail := Dedup(s[1..]);
      DedupDistinguishes(s[1..]);
      assert s == [s[0]] + s[1..];
      if s[0] != s[1] {
        forall j | 0 <= j < |tail|
          ensures LexLeq(s[0], tail[j]) && s[0] != tail[j]
        {
          assert tail[j] in tail;
          var k :| 1 <= k < |s| && s[k] == tail[j];
          if s[k] == s[0] {
            LexLeqTotal(s[0], s[1]);
            if k > 1 {
              assert LexLeq(s[1], s[k]);
            }
            LexLeqAntisymmetric(s[0], s[1]);
          }
        }
      }
    }
  }

  /** The ascending listing of a set of names is unique, so hash order cannot show in it. */
  lemma {:induction false} AscendingListingIsUnique(s: seq<string>, t: seq<string>)
    requires Ascending(s) && NoDuplicates(s) && Ascending(t) && NoDuplicates(t)
    requires forall x :: x in s <==> x in t
    ensures s == t
  {
    SameMembersBothEmpty(s, t);
    if s != [] {
      assert s[0] in s;
      var j :| 0 <= j < |t| && t[j] == s[0];
      assert t[0] in t;
      var i :| 0 <= i < |s| && s[i] == t[0];
      if i > 0 && j > 0 {
        LexLeqAntisymmetric(s[0], t[0]);
      }
      assert s[0] == t[0];
      forall x
        ensures x in s[1..] <==> x in t[1..]
      {
        TailMembers(s, x);
        TailMembers(t, x);
      }
      AscendingListingIsUnique(s[1..], t[1..]);
      assert s == [s[0]] + s[1..] && t == [t[0]] + t[1..];
    }
  }

  lemma SameMembersBothEmpty(s: seq<string>, t: seq<string>)
    requires forall x :: x in s <==> x in t
    ensures s == [] <==> t == []
  {
    if s != [] {
      assert s[0] in s;
    }
    if t != [] {
      assert t[0] in t;
    }
  }

  lemma TailMembers(s: seq<string>, x: string)
    requires s != [] && NoDuplicates(s)
    ensures x in s[1..] <==> x in s && x != s[0]
  {
    if x in s && x != s[0] {
      var i :| 0 <= i < |s| && s[i] == x;
      assert s[1..][i - 1] == x;
    }
  }

  // ---------------------------------------------------------------------------
  // Which stores to keep
  // ---------------------------------------------------------------------------

  ghost function Kept(before: Configs, after: Configs): set<string> {
    set n | n in before && n in after && IdentityOf(before[n]) == IdentityOf(after[n])
  }

  /** The names to create a store for, and the names whose old store goes away. */
  ghost function Renewed(before: Configs, after: Configs): set<string> {
    after.Keys - Kept(before, after)
  }

  ghost function Changed(before: Configs, after: Configs): set<string> {
    before.Keys + after.Keys - Kept(before, after)
  }

  /** `same` lists the kept names in some order; `changedOrRemoved` is the one
      ascending listing of every other name of either configuration. */
  method ComputeStoreChanges(before: Configs, after: Configs)
    returns (same: seq<string>, changedOrRemoved: seq<string>)
    ensures NoDuplicates(same)
    ensures Names(same) == Kept(before, after)
    ensures Ascending(changedOrRemoved) && NoDuplicates(changedOrRemoved)
    ensures Names(changedOrRemoved) == Changed(before, after)
  {
    same := [];
    var changed: seq<string> := [];
    var pending := before.Keys;
    while pending != {}
      invariant pending <= before.Keys
      invariant NoDuplicates(same)
      invariant Names(same) == Kept(before, after) - pending
      invariant Names(changed) == before.Keys - Kept(before, after) - pending
      decreases pending
    {
      var name :| name in pending;
      pending := pending - {name};
      if name in after {
        ComparisonIsIdentity(before[name], after[name]);
        if StoreConfigEq(before[name], after[name]) {
          NamesAppend(same, name);
          assert name !in Names(same);
          same := same + [name];
        } else {
          NamesAppend(changed, name);
          changed := changed + [name];
        }
      } else {
        NamesAppend(changed, name);
        changed := changed + [name];
      }
    }
    pending := after.Keys;
    while pending != {}
      invariant pending <= after.Keys
      invariant Names(changed) == before.Keys + (after.Keys - pending) - Kept(before, after)
      decreases pending
    {
      var name :| name in pending;
      pending := pending - {name};
      if name !in before {
        NamesAppend(changed, name);
        changed := changed + [name];
      }
    }
    SortSorts(changed);
    DedupDistinguishes(Sort(changed));
    changedOrRemoved := Dedup(Sort(changed));
    assert Names(changedOrRemoved) == Names(Sort(changed));
  }

  // ---------------------------------------------------------------------------
  // The map of live stores
  // ---------------------------------------------------------------------------

  /** A created backend: its identity as an object, and the settings it was opened with. */
  datatype Instance = Instance(id: nat, config: StoreConfig)

  type Stores = map<string, Instance>

  /** Creates backends; those named in `broken` cannot be opened. */
  class StoreFactory {
    var next: nat
    const broken: set<string>

    constructor (broken: set<string>)
      ensures this.broken == broken && next == 0
    {
      this.broken := broken;
      next := 0;
    }

    method CreateStore(name: string, config: StoreConfig) returns (r: Option<Instance>)
      modifies this
      ensures name in broken ==> r == None && next == old(next)
      ensures name !in broken ==> r == Some(Instance(old(next), config)) && next == old(next) + 1
    {
      if name in broken {
        r := None;
      } else {
        r := Some(Instance(next, config));
        next := next + 1;
      }
    }
  }

  /** `built` keeps the instances of unchanged stores, drops the changed ones and
      holds a distinct new instance, numbered from `mark`, for every other store. */
  ghost predicate Rebuilt(live: Stores, before: Configs, after: Configs, mark: nat, built: Stores) {
    && built.Keys == live.Keys - Changed(before, after) + Renewed(before, after)
    && (forall n :: n in built && n !in Renewed(before, after) ==> built[n] == live[n])
    && Opened(built, after, Renewed(before, after), mark)
  }

  /** Each named store was opened for its configuration, as an instance numbered from `mark`. */
  ghost predicate Opened(stores: Stores, configs: Configs, names: set<string>, mark: nat)
    requires names <= stores.Keys && names <= configs.Keys
  {
    && (forall n :: n in names ==> stores[n].id >= mark && stores[n].config == configs[n])
    && (forall m, n :: m in names && n in names && m != n ==> stores[m].id != stores[n].id)
  }

  lemma OpenedOneMore(stores: Stores, configs: Configs, names: set<string>, mark: nat, name: string, store: Instance)
    requires names <= stores.Keys && names <= configs.Keys && Opened(stores, configs, names, mark)
    requires name in configs && store.config == configs[name] && store.id >= mark
    requires forall n :: n in names ==> stores[n].id < store.id
    ensures Opened(stores[name := store], configs, names + {name}, mark)
  {
  }

  method DropStores(live: Stores, names: seq<string>) returns (left: Stores)
    ensures left == live - Names(names)
  {
    left := live;
    for i := 0 to |names|
      invariant left == live - Names(names[..i])
    {
      assert names[..i + 1] == names[..i] + [names[i]];
      NamesAppend(names[..i], names[i]);
      left := left - {names[i]};
    }
    assert names[..|names|] == names;
  }

  method CreateStores(left: Stores, after: Configs, same: seq<string>, factory: StoreFactory)
    returns (r: Result<Stores, string>)
    modifies factory
    ensures r.Ok? <==> (after.Keys - Names(same)) !! factory.broken
    ensures r.Ok? ==> r.value.Keys == left.Keys + (after.Keys - Names(same))
    ensures r.Ok? ==> forall n :: n in left && n !in after.Keys - Names(same) ==> r.value[n] == left[n]
    ensures r.Ok? ==> Opened(r.value, after, after.Keys - Names(same), old(factory.next))
    ensures r.Ok? ==> forall n :: n in after.Keys - Names(same) ==> r.value[n].id < factory.next
    ensures r.Err? ==> r.error in factory.broken * (after.Keys - Names(same))
    ensures factory.next >= old(factory.next)
  {
    var built := left;
    var pending := after.Keys;
    ghost var made: set<string> := {};
    while pending != {}
      invariant pending <= after.Keys
      invariant made == after.Keys - Names(same) - pending
      invariant factory.next >= old(factory.next)
      invariant built.Keys == left.Keys + made
      invariant forall n :: n in left && n !in made ==> built[n] == left[n]
      invariant Opened(built, after, made, old(factory.next))
      invariant forall n :: n in made ==> built[n].id < factory.next
      invariant made !! factory.broken
      decreases pending
    {
      var name :| name in pending;
      pending := pending - {name};
      if name !in same {
        var store := factory.CreateStore(name, after[name]);
        if store == None {
          return Err(name);
        }
        OpenedOneMore(built, after, made, old(factory.next), name, store.value);
        made := made + {name};
        built := built[name := store.value];
      }
    }
    r := Ok(built);
  }

  method RebuildStores(live: Stores, before: Configs, after: Configs, factory: StoreFactory)
    returns (r: Result<Stores, string>)
    modifies factory
    ensures r.Ok? <==> Renewed(before, after) !! factory.broken
    ensures r.Ok? ==> Rebuilt(live, before, after, old(factory.next), r.value)
    ensures r.Ok? ==> forall n :: n in Renewed(before, after) ==> r.value[n].id < factory.next
    ensures r.Err? ==> r.error in factory.broken * Renewed(before, after)
    ensures factory.next >= old(factory.next)
  {
    var same, changed := ComputeStoreChanges(before, after);
    if changed == [] {
      assert Changed(before, after) == {};
      assert Renewed(before, after) == {} by {
        assert Renewed(before, after) <= Changed(before, after);
      }
      r := Ok(live);
    } else {
      var left := DropStores(live, changed);
      r := CreateStores(left, after, same, factory);
    }
  }

  const DEFAULT_STORE: StoreConfig := StoreConfig(Native, Some("./"), None, None, None)

  /** The stores opened at startup: one per configured store, or a single default one. */
  method BuildStoresFromConfig(configs: Configs, factory: StoreFactory) returns (r: Result<Stores, string>)
    modifies factory
    ensures r.Ok? <==> (if configs == map[] then {"default"} else configs.Keys) !! factory.broken
    ensures r.Ok? && configs != map[] ==> Backed(r.value, configs)
    ensures r.Ok? && configs == map[] ==> Backed(r.value, map["default" := DEFAULT_STORE])
    ensures r.Ok? ==> forall n :: n in r.value ==> old(factory.next) <= r.value[n].id < factory.next
  {
    if configs == map[] {
      var store := factory.CreateStore("default", DEFAULT_STORE);
      r := if store == None then Err("default") else Ok(map["default" := store.value]);
    } else {
      r := CreateStores(map[], configs, [], factory);
    }
  }

  /** The live stores are those of `configs`, each opened with settings of the same identity. */
  ghost predicate Backed(live: Stores, configs: Configs) {
    live.Keys == configs.Keys && forall n :: n in live ==> IdentityOf(live[n].config) == IdentityOf(configs[n])
  }

  /** Exactly when the rebuilt map has the names of the new configuration. */
  lemma RebuiltNames(live: Stores, before: Configs, after: Configs, mark: nat, built: Stores)
    requires Rebuilt(live, before, after, mark, built)
    ensures built.Keys == after.Keys <==> Kept(before, after) <= live.Keys && live.Keys <= before.Keys + after.Keys
  {
    var kept := Kept(before, after);
    if built.Keys == after.Keys {
      forall n | n in kept
        ensures n in live.Keys
      {
        assert n in built.Keys;
      }
    }
    if kept <= live.Keys && live.Keys <= before.Keys + after.Keys {
      forall n
        ensures n in built.Keys <==> n in after.Keys
      {
      }
    }
  }

  /** Live stores that match the old configuration are rebuilt into ones that match the
      new configuration; exactly the kept names hold the instance they held before. */
  lemma RebuildMatchesConfig(live: Stores, before: Configs, after: Configs, mark: nat, built: Stores)
    requires Backed(live, before) && Rebuilt(live, before, after, mark, built)
    requires forall n :: n in live ==> live[n].id < mark
    ensures Backed(built, after)
    ensures forall n :: n in live && n in built ==> (built[n] == live[n] <==> n in Kept(before, after))
    ensures forall n :: n in built && n !in Kept(before, after) ==> built[n].id >= mark
  {
    RebuiltNames(live, before, after, mark, built);
  }

  /** Whatever else changed in a kept store's settings is not picked up. */
  lemma RebuiltSettings(live: Stores, before: Configs, after: Configs, mark: nat, built: Stores)
    requires Backed(live, before) && Rebuilt(live, before, after, mark, built)
    ensures built.Keys == after.Keys
    ensures (forall n :: n in after ==> built[n].config == after[n])
       <==> (forall n :: n in Kept(before, after) ==> live[n].config == after[n])
  {
    RebuiltNames(live, before, after, mark, built);
    if forall n :: n in Kept(before, after) ==> live[n].config == after[n] {
      forall n | n in after
        ensures built[n].config == after[n]
      {
        if n in Kept(before, after) {
          assert built[n] == live[n];
        }
      }
    }
    if forall n :: n in after ==> built[n].config == after[n] {
      forall n | n in Kept(before, after)
        ensures live[n].config == after[n]
      {
        assert built[n] == live[n];
      }
    }
  }

  /** A server started without stores keeps its default store in every map rebuilt from
      there, unless the new configuration names a store "default" itself. */
  lemma DefaultStoreLingers(live: Stores, after: Configs, mark: nat, built: Stores)
    requires Backed(live, map["default" := DEFAULT_STORE]) && Rebuilt(live, map[], after, mark, built)
    ensures built.Keys == after.Keys + {"default"}
    ensures "default" !in after ==> built["default"] == live["default"]
    ensures "default" in after ==> built["default"].config == after["default"] && built["default"].id >= mark
  {
  }

  // ---------------------------------------------------------------------------
  // Several reloads
  // ---------------------------------------------------------------------------

  /** A run of reloads in which every rebuild starts from the map the last one built. */
  ghost predicate Chained(configs: seq<Configs>, maps: seq<Stores>, mark: seq<nat>) {
    && |configs| == |maps| == |mark| > 0
    && (forall i :: 0 <= i < |configs| ==> NumberedBelow(maps[i], mark[i]))
    && (forall i :: 0 < i < |configs| ==> Linked(configs, maps, mark, i))
  }

  ghost predicate NumberedBelow(stores: Stores, mark: nat) {
    forall n :: n in stores ==> stores[n].id < mark
  }

  ghost predicate Linked(configs: seq<Configs>, maps: seq<Stores>, mark: seq<nat>, i: nat)
    requires |configs| == |maps| == |mark| && 0 < i < |configs|
  {
    Rebuilt(maps[i - 1], configs[i - 1], configs[i], mark[i - 1], maps[i]) && mark[i - 1] <= mark[i]
  }

  /** Over any such run the map follows the configuration. */
  lemma {:induction false} ChainedRebuildsFollowConfig(configs: seq<Configs>, maps: seq<Stores>, mark: seq<nat>, i: nat)
    requires Chained(configs, maps, mark) && i < |configs|
    requires Backed(maps[0], configs[0])
    ensures Backed(maps[i], configs[i])
  {
    if i > 0 {
      ChainedRebuildsFollowConfig(configs, maps, mark, i - 1);
      assert Linked(configs, maps, mark, i);
      RebuildMatchesConfig(maps[i - 1], configs[i - 1], configs[i], mark[i - 1], maps[i]);
    }
  }

  ghost predicate KeptThroughout(configs: seq<Configs>, i: nat, j: nat, n: string)
    requires i <= j < |configs|
  {
    forall k :: i < k <= j ==> n in Kept(configs[k - 1], configs[k])
  }

  lemma KeptStep(configs: seq<Configs>, i: nat, j: nat, n: string)
    requires i < j < |configs|
    ensures KeptThroughout(configs, i, j, n)
       <==> KeptThroughout(configs, i, j - 1, n) && n in Kept(configs[j - 1], configs[j])
  {
  }

  /** A store is the same instance at two points of a run exactly when every reload between kept it. */
  lemma {:induction false} InstanceSurvives(configs: seq<Configs>, maps: seq<Stores>, mark: seq<nat>, i: nat, j: nat, n: string)
    requires Chained(configs, maps, mark) && i <= j < |configs|
    requires Backed(maps[0], configs[0])
    requires n in maps[i]
    ensures (n in maps[j] && maps[j][n] == maps[i][n]) <==> KeptThroughout(configs, i, j, n)
    ensures n in maps[j] && maps[j][n] != maps[i][n] ==> maps[j][n].id >= mark[i]
    decreases j
  {
    if i < j {
      InstanceSurvives(configs, maps, mark, i, j - 1, n);
      ChainedRebuildsFollowConfig(configs, maps, mark, j - 1);
      assert Linked(configs, maps, mark, j);
      assert NumberedBelow(maps[i], mark[i]);
      MarksGrow(configs, maps, mark, i, j - 1);
      InstanceStep(maps[j - 1], configs[j - 1], configs[j], mark[j - 1], maps[j], n);
      KeptStep(configs, i, j, n);
    }
  }

  lemma InstanceStep(live: Stores, before: Configs, after: Configs, mark: nat, built: Stores, n: string)
    requires Backed(live, before) && Rebuilt(live, before, after, mark, built)
    ensures n in Kept(before, after) ==> n in live && n in built && built[n] == live[n]
    ensures n !in Kept(before, after) && n in built ==> built[n].id >= mark
  {
  }

  lemma {:induction false} MarksGrow(configs: seq<Configs>, maps: seq<Stores>, mark: seq<nat>, i: nat, j: nat)
    requires Chained(configs, maps, mark) && i <= j < |configs|
    ensures mark[i] <= mark[j]
    decreases j
  {
    if i < j {
      MarksGrow(configs, maps, mark, i, j - 1);
      assert Linked(configs, maps, mark, j);
    }
  }

  /** The handler keeps the built map to itself, so a later reload compares the
      configurations of the previous reload while it starts from the startup stores.
      Exactly when the result still matches the new configuration: */
  lemma ReloadFromStartupStores(startup: Stores, first: Configs, before: Configs, after: Configs, mark: nat, built: Stores)
    requires Backed(startup, first) && Rebuilt(startup, before, after, mark, built)
    ensures Backed(built, after)
       <==> && first.Keys <= before.Keys + after.Keys
            && (forall n :: n in Kept(before, after) ==> n in first && IdentityOf(first[n]) == IdentityOf(after[n]))
  {
    RebuiltNames(startup, before, after, mark, built);
    var kept := Kept(before, after);
    if built.Keys == after.Keys {
      forall n | n in after
        ensures n in kept ==> built[n] == startup[n]
        ensures n !in kept ==> IdentityOf(built[n].config) == IdentityOf(after[n])
      {
      }
      assert kept <= first.Keys;
      assert Backed(built, after) ==> forall n :: n in kept ==> IdentityOf(first[n]) == IdentityOf(after[n]) by {
        forall n | n in kept && Backed(built, after)
          ensures IdentityOf(first[n]) == IdentityOf(after[n])
        {
          assert built[n] == startup[n];
        }
      }
    }
  }

  /** A store added by one reload is missing from the map that the next one builds. */
  lemma AddedStoreIsLost(c: StoreConfig, d: StoreConfig, mark: nat, built: Stores)
    requires Rebuilt(map[], map["uploads" := c], map["uploads" := c, "backup" := d], mark, built)
    ensures built.Keys == {"backup"}
  {
    var before: Configs := map["uploads" := c];
    var after: Configs := map["uploads" := c, "backup" := d];
    assert "uploads"[0] != "backup"[0];
    assert Kept(before, after) == {"uploads"};
    assert built.Keys == {"backup"};
  }
}
