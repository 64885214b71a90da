/** The persistent store as a state machine: database and cache under lookups, evictions,
    deletions and additions. */
module StoreRuns {
  import opened Wrappers
  import opened Text
  import opened XPath
  import opened ModuleOrder
  import opened YangTree
  import Navigation
  import opened SchemaElems
  import opened KeyCodec
  import opened StoreIndex

  datatype CacheKey = CacheKey(schema: SchemaKey, path: string)

  type Cache = map<CacheKey, SchemaElem>

  datatype State = State(db: Db, cache: Cache)

  /** `strings.Join(pes, "/")`. */
  function CachePath(pes: seq<string>): string {
    if pes == [] then ""
    else if |pes| == 1 then pes[0]
    else CachePath(pes[..|pes| - 1]) + "/" + pes[|pes| - 1]
  }

  /** Names without a slash can be read back from the joined text. */
  lemma {:induction false} SplitJoined(pes: seq<string>)
    requires pes != [] && forall i | 0 <= i < |pes| :: '/' !in pes[i]
    ensures SplitOn(CachePath(pes), '/') == pes
  {
    if |pes| == 1 {
      SplitAppend("", pes[0], '/');
      assert "" + pes[0] == pes[0];
      assert SplitOn("", '/') == [""];
    } else {
      var init, x := pes[..|pes| - 1], pes[|pes| - 1];
      SplitJoined(init);
      SplitSnoc(CachePath(init), '/', '/');
      SplitAppend(CachePath(init) + "/", x, '/');
      SnocParts(init, "");
      assert "" + x == x;
      Unsnoc(pes);
    }
  }

  lemma {:induction false} SplitSlashFree(s: string)
    ensures forall i | 0 <= i < |SplitOn(s, '/')| :: '/' !in SplitOn(s, '/')[i]
  {
    if s != [] { SplitSlashFree(s[..|s| - 1]); }
  }

  // ----- answers

  function WithoutDescription(v: SchemaElem): SchemaElem {
    match v
    case ContainerElem(_, _, _, _, _, _, _) => v.(description := "")
    case FieldElem(l) => FieldElem(l.(description := ""))
    case LeafListElem(l) => LeafListElem(l.(description := ""))
  }

  /** `a` is `d` in every field but the description, which is blank or that of `d`. */
  predicate SameBut(a: SchemaElem, d: SchemaElem, blank: bool) {
    match a
    case ContainerElem(name, isState, description, keys, fields, leaflists, children) =>
      && d.ContainerElem? && name == d.name && isState == d.isState
      && keys == d.keys && fields == d.fields && leaflists == d.leaflists && children == d.children
      && description == if blank then "" else d.description
    case FieldElem(l) =>
      && d.FieldElem? && l.name == d.leaf.name && l.isState == d.leaf.isState
      && l.description == if blank then "" else d.leaf.description
    case LeafListElem(l) =>
      && d.LeafListElem? && l.name == d.leaf.name && l.isState == d.leaf.isState
      && l.description == if blank then "" else d.leaf.description
  }

  predicate IsRoot(pes: seq<string>) {
    pes == [] || pes == [""]
  }

  /** What `getSchema` returns: a cached element, blanked if the cache keeps descriptions the
      request does not ask for, or what the database holds. */
  function Answer(s: State, k: SchemaKey, pes: seq<string>, withDesc: bool, cacheWithDesc: bool): Option<SchemaElem> {
    var ck := CacheKey(k, CachePath(pes));
    if ck in s.cache then
      Some(if !withDesc && cacheWithDesc then WithoutDescription(s.cache[ck]) else s.cache[ck])
    else DbLookup(s.db, k, pes)
  }

  /** The cache after a lookup: a found element other than the root is remembered. */
  function Remembered(s: State, k: SchemaKey, pes: seq<string>): State {
    var ck := CacheKey(k, CachePath(pes));
    var v := DbLookup(s.db, k, pes);
    if ck in s.cache || v.None? || IsRoot(pes) then s else s.(cache := s.cache[ck := v.value])
  }

  ghost function Deleted(db: Db, k: SchemaKey): Db {
    Dropped(Dropped(db, EntryPrefix(k)), SchemaRecordKey(k))
  }

  // ----- steps

  datatype Op =
    | Lookup(k: SchemaKey, pes: seq<string>)
    | Evict(gone: set<CacheKey>)
    | Delete(k: SchemaKey)
    | Add(k: SchemaKey, entries: Db)

  ghost function Apply(s: State, op: Op): State {
    match op
    case Lookup(k, pes) => Remembered(s, k, pes)
    case Evict(gone) => s.(cache := s.cache - gone)
    case Delete(k) => s.(db := Deleted(s.db, k))
    case Add(k, entries) => s.(db := s.db + entries)
  }

  /** Entries and record of one schema. */
  ghost predicate EntriesOf(k: SchemaKey, entries: Db) {
    forall key | key in entries :: EntryPrefix(k) <= key || key == SchemaRecordKey(k)
  }

  /** The entries and the record of a schema whose tree is `t`: what adding the schema writes. */
  ghost predicate StoresTree(k: SchemaKey, t: Tree, entries: Db) {
    HasSchema(entries, k) && EntriesOf(k, entries) && Holds(entries, k, t)
  }

  /** Names without slashes, well-formed schema keys, lookups in stored schemas, and additions
      only for keys that have no live cache entries. */
  ghost predicate Allowed(s: State, op: Op) {
    match op
    case Lookup(k, pes) =>
      ValidKey(k) && HasSchema(s.db, k) && forall i | 0 <= i < |pes| :: '/' !in pes[i]
    case Evict(_) => true
    case Delete(k) => ValidKey(k)
    case Add(k, entries) =>
      && ValidKey(k)
      && EntriesOf(k, entries)
      && (forall ck | ck in s.cache :: ck.schema != k)
  }

  /** Each cached element of a stored schema is what the database would answer. */
  ghost predicate Transparent(s: State) {
    forall ck | ck in s.cache ::
      && ValidKey(ck.schema)
      && (HasSchema(s.db, ck.schema) ==> DbLookup(s.db, ck.schema, SplitOn(ck.path, '/')) == Some(s.cache[ck]))
  }

  // ----- lookups depend on one schema's entries only

  ghost predicate SameEntries(a: Db, b: Db, k: SchemaKey) {
    forall key | EntryPrefix(k) <= key :: (key in a <==> key in b) && (key in a ==> a[key] == b[key])
  }

  lemma {:induction false} TrySame(a: Db, b: Db, k: SchemaKey, mods: seq<string>, pes: seq<string>)
    requires SameEntries(a, b, k) && pes != []
    ensures TryModules(a, k, mods, pes) == TryModules(b, k, mods, pes)
    decreases |mods|
  {
    if mods != [] {
      assert EntryPrefix(k) <= KeyInModule(k, mods[0], pes);
      TrySame(a, b, k, mods[1..], pes);
    }
  }

  lemma {:induction false} LookupSame(a: Db, b: Db, k: SchemaKey, pes: seq<string>)
    requires SameEntries(a, b, k)
    ensures DbLookup(a, k, pes) == DbLookup(b, k, pes)
  {
    assert EntryPrefix(k) <= EntryKey(k, [ROOT_NAME]);
    if !IsRoot(pes) {
      var i := IndexOf(pes[0], ':');
      if 0 < i < |pes[0]| {
        TrySame(a, b, k, [pes[0][..i]], [pes[0][i + 1..]] + pes[1..]);
      } else if Modules(a, k).Some? {
        TrySame(a, b, k, Sort(ModLess, Modules(a, k).value), pes);
      }
    }
  }

  lemma {:induction false} ForeignKey(mine: SchemaKey, other: SchemaKey, key: string)
    requires ValidKey(mine) && ValidKey(other) && mine != other && EntryPrefix(other) <= key
    ensures !(EntryPrefix(mine) <= key) && !(SchemaRecordKey(mine) <= key)
  {
    var rest := key[|EntryPrefix(other)|..];
    assert key == EntryPrefix(other) + rest;
    PrefixIsSchema(mine, other, rest);
    assert key[0] == OBJECTS_PREFIX && SchemaRecordKey(mine)[0] == SCHEMAS_PREFIX;
  }

  lemma {:induction false} RecordKeyInjective(a: SchemaKey, b: SchemaKey)
    requires ValidKey(a) && ValidKey(b) && SchemaRecordKey(a) == SchemaRecordKey(b)
    ensures a == b
  {
    assert SchemaRecordKey(a)[1..] == KeyString(a) && SchemaRecordKey(b)[1..] == KeyString(b);
    KeyStringInjective(a, b);
  }

  lemma {:induction false} OtherSchemasUntouched(s: State, op: Op, k: SchemaKey)
    requires Allowed(s, op) && ValidKey(k)
    requires op.Add? || op.Delete?
    ensures op.k != k ==> SameEntries(s.db, Apply(s, op).db, k)
    ensures op.Add? && op.k != k ==> (HasSchema(Apply(s, op).db, k) <==> HasSchema(s.db, k))
    ensures op.Delete? ==> !HasSchema(Apply(s, op).db, op.k) && (HasSchema(Apply(s, op).db, k) ==> HasSchema(s.db, k))
  {
    var db := Apply(s, op).db;
    if op.k != k {
      forall key | EntryPrefix(k) <= key
        ensures (key in s.db <==> key in db) && (key in s.db ==> s.db[key] == db[key])
      {
        ForeignKey(op.k, k, key);
      }
      if SchemaRecordKey(op.k) == SchemaRecordKey(k) { RecordKeyInjective(op.k, k); }
      assert SchemaRecordKey(k)[0] == SCHEMAS_PREFIX && EntryPrefix(op.k)[0] == OBJECTS_PREFIX;
    }
  }

  /** Every allowed step keeps the cache transparent. */
  lemma {:induction false} StepTransparent(s: State, op: Op)
    requires Transparent(s) && Allowed(s, op)
    ensures Transparent(Apply(s, op))
  {
    var s' := Apply(s, op);
    match op {
      case Lookup(k, pes) =>
        if !IsRoot(pes) { SplitJoined(pes); }
      case Evict(_) =>
      case _ =>
        forall ck | ck in s'.cache && HasSchema(s'.db, ck.schema)
          ensures DbLookup(s'.db, ck.schema, SplitOn(ck.path, '/')) == Some(s'.cache[ck])
        {
          OtherSchemasUntouched(s, op, ck.schema);
          LookupSame(s.db, s'.db, ck.schema, SplitOn(ck.path, '/'));
        }
    }
  }

  ghost function RunOps(s: State, ops: seq<Op>): State {
    if ops == [] then s else Apply(RunOps(s, ops[..|ops| - 1]), ops[|ops| - 1])
  }

  ghost predicate AllAllowed(s: State, ops: seq<Op>) {
    ops == [] || (AllAllowed(s, ops[..|ops| - 1]) && Allowed(RunOps(s, ops[..|ops| - 1]), ops[|ops| - 1]))
  }

  /** Cache transparency: over every run from a store with an empty cache. */
  lemma {:induction false} CacheTransparency(db: Db, ops: seq<Op>)
    requires AllAllowed(State(db, map[]), ops)
    ensures Transparent(RunOps(State(db, map[]), ops))
  {
    if ops != [] {
      CacheTransparency(db, ops[..|ops| - 1]);
      StepTransparent(RunOps(State(db, map[]), ops[..|ops| - 1]), ops[|ops| - 1]);
    }
  }

  /** In a transparent state a hit is the same as a miss in every field but the description,
      which is blank exactly when the cache keeps descriptions and none was asked for. */
  lemma {:induction false} HitLikeMiss(s: State, k: SchemaKey, pes: seq<string>, withDesc: bool, cacheWithDesc: bool)
    requires Transparent(s) && HasSchema(s.db, k) && forall i | 0 <= i < |pes| :: '/' !in pes[i]
    ensures var a, d := Answer(s, k, pes, withDesc, cacheWithDesc), DbLookup(s.db, k, pes);
            && (a.None? <==> d.None?)
            && (a.Some? ==> SameBut(a.value, d.value, CacheKey(k, CachePath(pes)) in s.cache && cacheWithDesc && !withDesc))
  {
    var ck := CacheKey(k, CachePath(pes));
    if ck in s.cache {
      if pes == [] {
        assert SplitOn("", '/') == [""];
      } else {
        SplitJoined(pes);
      }
    }
  }

  lemma {:induction false} OnlyRootIsEmpty(pes: seq<string>)
    ensures CachePath(pes) == "" <==> IsRoot(pes)
  {
  }

  /** The root is never cached, whatever the run. */
  lemma {:induction false} RootNeverCached(db: Db, ops: seq<Op>)
    ensures forall ck | ck in RunOps(State(db, map[]), ops).cache :: ck.path != ""
  {
    if ops != [] {
      RootNeverCached(db, ops[..|ops| - 1]);
      var op := ops[|ops| - 1];
      if op.Lookup? { OnlyRootIsEmpty(op.pes); }
    }
  }

  // ----- deletion

  /** Deleting a schema drops exactly its own entries, and the records of exactly those
      schemas of the same name and vendor whose version starts with the deleted version. */
  lemma {:induction false} DeleteExact(db: Db, k: SchemaKey, other: SchemaKey, pes: seq<string>)
    requires ValidKey(k) && ValidKey(other) && pes != []
    ensures EntryKey(other, pes) in Deleted(db, k) <==> EntryKey(other, pes) in db && other != k
    ensures HasSchema(Deleted(db, k), other) <==>
            HasSchema(db, other) && !(other.name == k.name && other.vendor == k.vendor && k.version <= other.version)
  {
    PrefixIsSchema(k, other, PathText(pes));
    RecordPrefix(k, other);
    assert EntryKey(other, pes)[0] == OBJECTS_PREFIX && SchemaRecordKey(k)[0] == SCHEMAS_PREFIX;
    assert SchemaRecordKey(other)[0] == SCHEMAS_PREFIX && EntryPrefix(k)[0] == OBJECTS_PREFIX;
  }

  /** A longer version loses its record but keeps all its entries. */
  lemma {:induction false} DeleteOrphans(db: Db, k: SchemaKey, other: SchemaKey, t: Tree)
    requires ValidKey(k) && ValidKey(other) && Holds(db, other, t) && other != k
    requires other.name == k.name && other.vendor == k.vendor && k.version <= other.version
    ensures !HasSchema(Deleted(db, k), other) && Holds(Deleted(db, k), other, t)
  {
    DeleteExact(db, k, other, [ROOT_NAME]);
    forall e: Id | e < |t| && IsData(t, e) ensures StoredAt(Deleted(db, k), other, t, e) {
      assert StoredAt(db, other, t, e);
      DeleteExact(db, k, other, Navigation.PathOf(t, e));
    }
  }
}
