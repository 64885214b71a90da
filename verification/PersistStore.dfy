/** The persistent store: a key/value database with a cache in front of it
    (`pkg/store/persiststore/persiststore.go`). */
module PersistStore {
  import opened Wrappers
  import opened Text
  import opened XPath
  import opened ModuleOrder
  import opened YangTree
  import opened Navigation
  import opened SchemaPaths
  import opened SchemaElems
  import opened KeyCodec
  import opened StoreIndex
  import opened StoreRuns
  import opened StorePaths
  import opened Expand
  import opened StoreExpand

  datatype StoreError = MissingVendor | MissingVersion | UnknownSchema | UnknownPath

  // ----- writing a tree

  /** `d` is a data node at or below `e` that is not reached through one of `todo`. */
  ghost predicate Covered(t: Links, e: Id, todo: set<string>, d: Id)
    requires e < |t|
  {
    d < |t| && InSubtree(t, e, d) && IsData(t, d) && (d == e || StepTo(t, e, d) !in todo)
  }

  /** `added` holds an element for exactly the covered nodes. */
  ghost predicate Writes(t: Links, k: SchemaKey, e: Id, todo: set<string>, added: Db)
    requires e < |t|
  {
    && (forall d: Id | Covered(t, e, todo, d) :: StoredAt(added, k, t, d))
    && (forall key | key in added :: exists d: Id :: Covered(t, e, todo, d) && NodeKey(t, k, d) == key)
  }

  /** `addSchemaElem`: one entry for every data node of the subtree, choice and case skipped. */
  method AddSchemaElem(wb: Db, k: SchemaKey, t: Tree, e: Id) returns (wb': Db, ghost added: Db)
    requires e < |t|
    ensures wb' == wb + added && Writes(t, k, e, {}, added)
    ensures exists added' :: wb' == wb + added' && Writes(t, k, e, {}, added')
    decreases |t| - e
  {
    wb', added := wb, map[];
    if !t[e].kind.IsFlat() {
      var path := GetEntryPath(t, e);
      var key := BuildEntryKey(k, path);
      var v := SchemaElemFromEntry(t, e);
      wb', added := wb[key := Object(v)], map[key := Object(v)];
      MergeOne(wb, key, Object(v));
    } else {
      MergeNone(wb);
    }
    var todo := t[e].dir.Keys;
    WritesFirst(t, k, e, added);
    while todo != {}
      invariant todo <= t[e].dir.Keys && wb' == wb + added && Writes(t, k, e, todo, added)
    {
      var n :| n in todo;
      DirFacts(t, e, n);
      ghost var more;
      wb', more := AddSchemaElem(wb', k, t, t[e].dir[n]);
      WritesMore(t, k, e, n, todo, added, more);
      MergeAssoc(wb, added, more);
      added := added + more;
      todo := todo - {n};
    }
  }

  lemma {:induction false} MergeOne(a: Db, key: string, v: Value)
    ensures a[key := v] == a + map[key := v]
  {
  }

  lemma {:induction false} MergeNone(a: Db)
    ensures a + map[] == a
  {
  }

  lemma {:induction false} MergeAssoc(a: Db, b: Db, c: Db)
    ensures (a + b) + c == a + (b + c)
  {
  }

  lemma {:induction false} WritesFirst(t: Links, k: SchemaKey, e: Id, added: Db)
    requires e < |t|
    requires if IsData(t, e) then added.Keys == {NodeKey(t, k, e)} && StoredAt(added, k, t, e) else added == map[]
    ensures Writes(t, k, e, t[e].dir.Keys, added)
  {
    forall d: Id | Covered(t, e, t[e].dir.Keys, d) ensures d == e { }
    assert IsData(t, e) ==> Covered(t, e, t[e].dir.Keys, e);
  }

  lemma {:induction false} WritesMore(t: Tree, k: SchemaKey, e: Id, n: string, todo: set<string>, added: Db, more: Db)
    requires e < |t| && n in t[e].dir && t[e].dir[n] < |t| && n in todo
    requires Writes(t, k, e, todo, added) && Writes(t, k, t[e].dir[n], {}, more)
    ensures Writes(t, k, e, todo - {n}, added + more)
  {
    var c := t[e].dir[n];
    var both := added + more;
    forall d: Id | Covered(t, e, todo - {n}, d) ensures StoredAt(both, k, t, d) {
      StepToIs(t, e, n, d);
      if InSubtree(t, c, d) {
        assert Covered(t, c, {}, d);
      } else {
        assert Covered(t, e, todo, d);
        if NodeKey(t, k, d) in more {
          var d': Id :| Covered(t, c, {}, d') && NodeKey(t, k, d') == NodeKey(t, k, d);
          NodeKeyInjective(t, k, d, d');
        }
      }
    }
    forall key | key in both ensures exists d: Id :: Covered(t, e, todo - {n}, d) && NodeKey(t, k, d) == key {
      if key in more {
        var d: Id :| Covered(t, c, {}, d) && NodeKey(t, k, d) == key;
        StepToIs(t, e, n, d);
        assert Covered(t, e, todo - {n}, d);
      } else {
        var d: Id :| Covered(t, e, todo, d) && NodeKey(t, k, d) == key;
        assert Covered(t, e, todo - {n}, d);
      }
    }
  }

  lemma {:induction false} WritesHolds(db: Db, k: SchemaKey, t: Tree, added: Db, config: Value)
    requires Writes(t, k, 0, {}, added)
    requires forall key | key in db :: !(EntryPrefix(k) <= key)
    ensures Holds(db + added[SchemaRecordKey(k) := config], k, t)
    ensures forall key | key in added :: EntryPrefix(k) <= key
  {
    var all := db + added[SchemaRecordKey(k) := config];
    assert SchemaRecordKey(k)[0] == SCHEMAS_PREFIX && EntryPrefix(k)[0] == OBJECTS_PREFIX;
    forall key | key in added ensures EntryPrefix(k) <= key {
      var d: Id :| Covered(t, 0, {}, d) && NodeKey(t, k, d) == key;
    }
    forall e: Id | e < |t| && IsData(t, e) ensures StoredAt(all, k, t, e) {
      AllBelowRoot(t, e);
      assert Covered(t, 0, {}, e);
      assert EntryPrefix(k) <= NodeKey(t, k, e);
    }
    forall key | key in all && EntryPrefix(k) <= key ensures IsNodeKey(t, k, key) {
      assert key in added;
    }
  }

  // ----- reading

  ghost predicate SlashFree(pes: seq<string>) {
    forall i | 0 <= i < |pes| :: '/' !in pes[i]
  }

  ghost predicate SameUpToDescription(a: Option<SchemaElem>, d: Option<SchemaElem>) {
    && (a.None? <==> d.None?)
    && (a.Some? ==> SameBut(a.value, d.value, false) || SameBut(a.value, d.value, true))
  }

  /** What an element says about keys, leaves and children, whatever its description. */
  ghost predicate DescribesNode(t: Links, e: Id, a: SchemaElem)
    requires e < |t|
  {
    match t[e].kind
    case Leaf => a.FieldElem? && a.leaf.isState == IsState(t, e)
    case LeafList => a.LeafListElem? && a.leaf.isState == IsState(t, e)
    case _ =>
      && a.ContainerElem? && KeyNames(a) == t[e].keys
      && Lists(t, a.fields, LeafChildren(t, e, false))
      && Lists(t, a.leaflists, LeafChildren(t, e, true))
      && NoDup(a.children) && (forall n :: n in a.children <==> n in DirChildNames(t, e))
      && (forall i | 0 <= i < |a.children| :: '/' !in a.children[i])
  }

  lemma {:induction false} AnswerDescribes(t: Tree, e: Id, a: SchemaElem, d: SchemaElem)
    requires e < |t| && IsElemOf(t, e, d) && SameUpToDescription(Some(a), Some(d))
    ensures DescribesNode(t, e, a)
  {
    if d.ContainerElem? {
      KeyNamesOf(t, e, d);
      ChildNames(t, e, d);
      assert a.keys == d.keys;
      assert KeyNames(a) == KeyNames(d);
    }
  }

  /** The node an answer describes; for a plain path it is the index node. */
  lemma {:induction false} ElementNode(db: Db, k: SchemaKey, t: Tree, pes: seq<string>, a: SchemaElem) returns (e: Id)
    requires Holds(db, k, t) && DbLookup(db, k, pes).Some?
    requires SameUpToDescription(Some(a), DbLookup(db, k, pes)) && FoundIn(t, pes, DbLookup(db, k, pes).value)
    ensures e < |t| && DescribesNode(t, e, a)
    ensures PlainNames(pes) ==> IndexNode(t, pes) == Some(e) && IsData(t, e)
  {
    var d := DbLookup(db, k, pes).value;
    if PlainNames(pes) {
      LookupFindsIndexNode(db, k, t, pes);
      e := IndexNode(t, pes).value;
      ElemOfNode(db, k, t, pes, e);
    } else {
      e :| e < |t| && IsElemOf(t, e, d);
    }
    AnswerDescribes(t, e, a, d);
  }

  /** The outcome of expanding `p`: refused when there is no node, the path itself for a leaf,
      the targets below the node otherwise. */
  ghost predicate Expanded(t: Tree, p: seq<PathElem>, dt: DataType, r: Outcome<seq<seq<PathElem>>, StoreError>, ids: seq<Id>)
    requires p != []
  {
    match IndexNode(t, Names(p))
    case None => r == Err(UnknownPath)
    case Some(e) =>
      if t[e].kind.IsTerminal() then r == Ok(if OfType(t, dt, e) then [p] else [])
      else r.Ok? && ExpandsFrom(t, Starred(p, t[e].keys), e, dt, r.value, ids)
  }

  lemma {:induction false} ExpandedTerminal(t: Tree, p: seq<PathElem>, dt: DataType, e: Id, a: SchemaElem)
    requires p != [] && IndexNode(t, Names(p)) == Some(e) && DescribesNode(t, e, a) && !a.ContainerElem?
    ensures Expanded(t, p, dt, Ok(if Wanted(dt, a.leaf.isState) then [p] else []), [])
  {
    WantedMeans(t, dt, e);
  }

  lemma {:induction false} ExpandedDir(t: Tree, p: seq<PathElem>, dt: DataType, e: Id, a: SchemaElem, rs: seq<seq<PathElem>>, ids: seq<Id>)
    requires p != [] && IndexNode(t, Names(p)) == Some(e) && DescribesNode(t, e, a) && a.ContainerElem?
    requires ExpandsFrom(t, Starred(p, t[e].keys), e, dt, rs, ids)
    ensures Expanded(t, p, dt, Ok(rs), ids)
  {
  }

  /** How one step of `ToPath` uses up items, given the element found for the name. */
  lemma {:induction false} StepUsesItems(db: Db, k: SchemaKey, rest: seq<string>, elems: seq<PathElem>, a: Option<SchemaElem>)
    requires |rest| > 1 && SameUpToDescription(a, DbLookup(db, k, Names(elems) + [rest[0]]))
    ensures a.None? ==> ToPathRest(db, k, rest, elems) == Err(PathNotFound)
    ensures a.Some? && a.value.ContainerElem? ==>
              var ks := KeyNames(a.value);
              if |ks| >= |rest| then ToPathRest(db, k, rest, elems) == Err(IndexOutOfRange)
              else
                && ToPathRest(db, k, rest, elems)
                   == ToPathRest(db, k, rest[1 + |ks|..], elems + [PathElem(rest[0], Zip(ks, rest[1..1 + |ks|]))])
                && (CleanNames(db, k, rest, Names(elems)) ==>
                      CleanNames(db, k, rest[1 + |ks|..], Names(elems) + [rest[0]]))
    ensures a.Some? && a.value.FieldElem? ==>
              && ToPathRest(db, k, rest, elems) == ToPathRest(db, k, rest[1..], elems + [PathElem(rest[0], map[])])
              && (CleanNames(db, k, rest, Names(elems)) ==> CleanNames(db, k, rest[1..], Names(elems) + [rest[0]]))
    ensures a.Some? && a.value.LeafListElem? ==>
              && ToPathRest(db, k, rest, elems)
                 == ToPathRest(db, k, rest[2..], elems + [PathElem(rest[0], map[rest[0] := rest[1]])])
              && (CleanNames(db, k, rest, Names(elems)) ==> CleanNames(db, k, rest[2..], Names(elems) + [rest[0]]))
  {
    hide DbLookup, Zip;
    NamesSnoc(elems, PathElem(rest[0], map[]));
    if a.Some? && a.value.ContainerElem? {
      assert KeyNames(a.value) == KeyNames(DbLookup(db, k, Names(elems) + [rest[0]]).value);
    }
  }

  lemma {:induction false} DirChildNamed(t: Links, e: Id, n: string) returns (c: Id)
    requires n in DirChildNames(t, e)
    ensures c < |t| && IsDirChild(t, e, c) && t[c].name == n
  {
    c :| c < |t| && IsDirChild(t, e, c) && t[c].name == n;
  }

  /** Slices of a tail are slices of the whole. */
  lemma {:induction false} TailSlices<T>(s: seq<T>, i: nat, n: nat)
    requires i + 1 + n <= |s|
    ensures s[i..][1..1 + n] == s[i + 1..i + 1 + n] && s[i..][1 + n..] == s[i + 1 + n..]
  {
  }

  // ----- listing

  ghost function RecordKeys(db: Db): set<string> {
    set key | key in db && [SCHEMAS_PREFIX] <= key
  }

  ghost function OrderedRecords(db: Db): (r: seq<string>)
    ensures forall i | 0 <= i < |r| :: r[i] != ""
    ensures forall key :: key in r <==> key in RecordKeys(db)
  {
    LexStrictTotal();
    var r := SortedSet(LexLess, RecordKeys(db));
    assert forall i | 0 <= i < |r| :: r[i] in r;
    r
  }

  /** The record keys come in byte order. */
  lemma {:induction false} RecordsAscend(db: Db)
    ensures var r := OrderedRecords(db);
            && (forall i, j | 0 <= i < j < |r| :: Before(r[i], r[j]))
            && forall key :: key in r <==> key in db && key != "" && key[0] == 1 as char
  {
    hide Before, SortedSet, RecordKeys;
    Ascending(RecordKeys(db));
    assert OrderedRecords(db) == SortedSet(LexLess, RecordKeys(db));
    forall key: string ensures key in RecordKeys(db) <==> key in db && key != "" && key[0] == 1 as char { RecordByte(db, key); }
  }

  lemma {:induction false} RecordByte(db: Db, key: string)
    ensures key in RecordKeys(db) <==> key in db && key != "" && key[0] == 1 as char
  {
    assert [SCHEMAS_PREFIX] <= key <==> key != "" && key[0] == SCHEMAS_PREFIX;
  }

  /** The database iterates over its keys in byte order. */
  method CollectRecords(db: Db) returns (keys: seq<string>)
    ensures keys == OrderedRecords(db)
  {
    LexStrictTotal();
    var all := set key | key in db && [SCHEMAS_PREFIX] <= key;
    var todo := all;
    var q: seq<string> := [];
    while todo != {}
      invariant todo <= all && NoDup(q)
      invariant forall key :: key in q <==> key in all && key !in todo
    {
      var key :| key in todo;
      q, todo := q + [key], todo - {key};
    }
    SortOfSet(LexLess, q, all);
    keys := Sort(LexLess, q);
  }

  lemma {:induction false} NothingSplit(keys: seq<string>)
    ensures SplitAll(keys[..0]) == []
  {
  }

  lemma {:induction false} ListsRecords(db: Db)
    ensures forall k :: k in SplitAll(OrderedRecords(db)) <==>
                        exists key :: key in RecordKeys(db) && key != "" && SplitKey(key[1..]) == Some(k)
  {
    hide SplitKey, SplitAll, OrderedRecords, RecordKeys;
    forall k
      ensures k in SplitAll(OrderedRecords(db)) <==>
              exists key :: key in RecordKeys(db) && key != "" && SplitKey(key[1..]) == Some(k)
    {
      SplitAllHas(OrderedRecords(db), k);
    }
  }

  // ----- the store

  class PersistStore {
    const hasCache: bool
    const cacheWithDescription: bool
    var db: Db
    var cache: Cache

    ghost function State(): StoreRuns.State
      reads this
    {
      StoreRuns.State(db, cache)
    }

    /** Without a cache nothing is ever cached. */
    ghost predicate Valid()
      reads this
    {
      hasCache || cache == map[]
    }

    constructor (hasCache: bool, cacheWithDescription: bool)
      ensures this.hasCache == hasCache && this.cacheWithDescription == cacheWithDescription
      ensures Valid() && State() == StoreRuns.State(map[], map[])
    {
      this.hasCache, this.cacheWithDescription := hasCache, cacheWithDescription;
      db, cache := map[], map[];
    }

    method Has(k: SchemaKey) returns (r: bool)
      ensures r == HasSchema(db, k)
    {
      var key := BuildSchemaKey(k);
      r := key in db;
    }

    /** The cache library may drop entries at any time. */
    method Evict(gone: set<CacheKey>)
      requires Valid()
      modifies this`cache
      ensures Valid() && State() == Apply(old(State()), StoreRuns.Evict(gone))
    {
      cache := cache - gone;
    }

    /** `AddSchema`: if no entries of the key are left over, the database then holds the tree. */
    method AddSchema(k: SchemaKey, t: Tree, config: Config) returns (ghost entries: Db)
      requires Valid()
      modifies this`db
      ensures Valid() && State() == Apply(old(State()), Add(k, entries)) && HasSchema(db, k)
      ensures StoresTree(k, t, entries) && db[SchemaRecordKey(k)] == Record(config)
      ensures (forall key | key in old(db) :: !(EntryPrefix(k) <= key)) ==> Holds(db, k, t)
    {
      hide Holds, Writes;
      var wb: Db := map[];
      ghost var added;
      wb, added := AddSchemaElem(wb, k, t, 0);
      assert wb == added;
      var key := BuildSchemaKey(k);
      wb := wb[key := Record(config)];
      assert wb == added[SchemaRecordKey(k) := Record(config)] && map[] + wb == wb;
      WritesHolds(map[], k, t, added, Record(config));
      if forall key | key in db :: !(EntryPrefix(k) <= key) { WritesHolds(db, k, t, added, Record(config)); }
      entries := wb;
      db := db + wb;
    }

    /** `DeleteSchema`. */
    method DeleteSchema(k: SchemaKey) returns (r: Outcome<(), StoreError>)
      requires Valid()
      modifies this`db
      ensures Valid()
      ensures k.vendor == "" ==> r == Err(MissingVendor)
      ensures k.vendor != "" && k.version == "" ==> r == Err(MissingVersion)
      ensures k.vendor != "" && k.version != "" ==> (r.Ok? <==> HasSchema(old(db), k))
      ensures if r.Ok? then State() == Apply(old(State()), Delete(k)) else State() == old(State())
    {
      if k.vendor == "" { return Err(MissingVendor); }
      if k.version == "" { return Err(MissingVersion); }
      var has := Has(k);
      if !has { return Err(UnknownSchema); }
      var objects := BuildEntryKey(k, [""]);
      assert objects == EntryPrefix(k);
      var record := BuildSchemaKey(k);
      db := Dropped(Dropped(db, objects), record);
      r := Ok(());
    }

    /** `ListSchema`: the stored record keys in order, each taken apart at its first two
        separators; those that cannot be are skipped. */
    method ListSchema() returns (rs: seq<SchemaKey>)
      ensures rs == SplitAll(OrderedRecords(db))
      ensures forall k :: k in rs <==> exists key :: key in RecordKeys(db) && key != "" && SplitKey(key[1..]) == Some(k)
    {
      var keys := CollectRecords(db);
      rs := [];
      NothingSplit(keys);
      hide SplitAll, OrderedRecords, RecordKeys;
      for i := 0 to |keys|
        invariant rs == SplitAll(keys[..i])
      {
        SliceNext(keys, 0, i);
        SplitAllSnoc(keys[..i], keys[i]);
        var k := SplitKey(keys[i][1..]);
        if k.Some? { rs := rs + [k.value]; }
      }
      assert keys[..|keys|] == keys;
      ListsRecords(db);
    }

    /** The loop over the candidate modules. */
    method SearchModules(k: SchemaKey, mods: seq<string>, pes: seq<string>) returns (r: Option<SchemaElem>)
      requires pes != []
      ensures r == TryModules(db, k, mods, pes)
    {
      for i := 0 to |mods|
        invariant TryModules(db, k, mods, pes) == TryModules(db, k, mods[i..], pes)
      {
        var key;
        if pes[0] == mods[i] {
          key := BuildEntryKey(k, pes);
        } else {
          key := BuildEntryKey(k, [mods[i]] + pes);
        }
        assert mods[i..][1..] == mods[i + 1..];
        if key in db && db[key].Object? { return Some(db[key].elem); }
      }
      assert mods[|mods|..] == [];
      r := None;
    }

    /** `getSchema`: the cache first, then the database. */
    method GetElem(k: SchemaKey, pes: seq<string>, withDesc: bool) returns (r: Option<SchemaElem>)
      requires Valid()
      modifies this`cache
      ensures Valid()
      ensures r == Answer(old(State()), k, pes, withDesc, cacheWithDescription)
      ensures State() == if hasCache then Apply(old(State()), Lookup(k, pes)) else old(State())
    {
      var cKey := CacheKey(k, CachePath(pes));
      if hasCache && cKey in cache {
        var rsp := cache[cKey];
        if !withDesc && cacheWithDescription { return Some(WithoutDescription(rsp)); }
        return Some(rsp);
      }
      var rootKey := BuildEntryKey(k, [ROOT_NAME]);
      if pes == [] || pes == [""] { return ObjectAt(db, rootKey); }
      var i := IndexOf(pes[0], ':');
      if 0 < i < |pes[0]| {
        r := SearchModules(k, [pes[0][..i]], [pes[0][i + 1..]] + pes[1..]);
      } else {
        var root := ObjectAt(db, rootKey);
        if root.None? { return None; }
        var ms := if root.value.ContainerElem? then root.value.children else [];
        r := SearchModules(k, Sort(ModLess, ms), pes);
      }
      if r.Some? && hasCache { cache := cache[cKey := r.value]; }
    }

    /** `GetSchema`: only stored schemas are asked. */
    method GetSchema(k: SchemaKey, pes: seq<string>, withDesc: bool) returns (r: Outcome<Option<SchemaElem>, StoreError>)
      requires Valid()
      modifies this`cache
      ensures Valid()
      ensures r == if HasSchema(db, k) then Ok(Answer(old(State()), k, pes, withDesc, cacheWithDescription)) else Err(UnknownSchema)
      ensures old(Transparent(State())) && SlashFree(pes) && r.Ok? && r.value.Some? ==>
                var hit := CacheKey(k, CachePath(pes)) in old(cache);
                && DbLookup(db, k, pes).Some?
                && SameBut(r.value.value, DbLookup(db, k, pes).value, hit && cacheWithDescription && !withDesc)
      ensures State() == if hasCache && HasSchema(db, k) then Apply(old(State()), Lookup(k, pes)) else old(State())
    {
      var has := Has(k);
      if !has { return Err(UnknownSchema); }
      var v := GetElem(k, pes, withDesc);
      if old(Transparent(State())) && SlashFree(pes) { HitLikeMiss(old(State()), k, pes, withDesc, cacheWithDescription); }
      r := Ok(v);
    }

    /** A lookup of a clean path in a transparent store: what the database holds, up to a
        blanked description. */
    method Find(k: SchemaKey, pes: seq<string>) returns (r: Option<SchemaElem>)
      requires Valid()
      modifies this`cache
      ensures Valid()
      ensures old(Transparent(State())) && ValidKey(k) && HasSchema(db, k) && SlashFree(pes)
          ==> Transparent(State()) && SameUpToDescription(r, DbLookup(db, k, pes))
    {
      r := GetElem(k, pes, false);
      if old(Transparent(State())) && ValidKey(k) && HasSchema(db, k) && SlashFree(pes) {
        HitLikeMiss(old(State()), k, pes, false, cacheWithDescription);
        if hasCache { StepTransparent(old(State()), Lookup(k, pes)); }
      }
    }

    /** Assign the items after position `i` to the keys of a list; none if the items run out. */
    method TakeKeys(ks: seq<string>, items: seq<string>, i: nat) returns (key: Option<map<string, string>>)
      requires i < |items|
      ensures key == if |ks| >= |items| - i then None else Some(Zip(ks, items[i + 1..i + 1 + |ks|]))
    {
      var m: map<string, string> := map[];
      for j := 0 to |ks|
        invariant i + j < |items|
        invariant m == Zip(ks, items[i + 1..i + 1 + j])
      {
        if i + j + 1 >= |items| { return None; }
        SliceNext(items, i + 1, i + 1 + j);
        assert items[i + 1..i + 2 + j][..j] == items[i + 1..i + 1 + j];
        m := m[ks[j] := items[i + j + 1]];
      }
      key := Some(m);
    }

    /** One iteration of `ToPath` before the last item: the element for the name at `i`, and
        the position after it and its values. */
    method TakeStep(k: SchemaKey, items: seq<string>, i: nat, elems: seq<PathElem>)
      returns (r: Outcome<(nat, PathElem), ToPathError>)
      requires Valid() && i + 1 < |items|
      modifies this`cache
      ensures Valid() && (r.Ok? ==> i < r.value.0 <= |items|)
      ensures old(Transparent(State())) && ValidKey(k) && HasSchema(db, k) && SlashFree(Names(elems)) && CleanNames(db, k, items[i..], Names(elems))
          ==> && Transparent(State())
              && ToPathRest(db, k, items[i..], elems) ==
                 (match r case Err(x) => Err(x) case Ok((j, elem)) => ToPathRest(db, k, items[j..], elems + [elem]))
              && (r.Ok? ==> r.value.1.name == items[i] && '/' !in items[i]
                            && CleanNames(db, k, items[r.value.0..], Names(elems) + [items[i]]))
    {
      hide ToPathRest, DbLookup, Transparent, Zip;
      var elem := PathElem(items[i], map[]);
      NamesSnoc(elems, elem);
      var v := Find(k, Names(elems + [elem]));
      ghost var rest := items[i..];
      if old(Transparent(State())) && ValidKey(k) && HasSchema(db, k) && SlashFree(Names(elems)) && CleanNames(db, k, rest, Names(elems)) {
        StepUsesItems(db, k, rest, elems, v);
      }
      if v.None? { return Err(PathNotFound); }
      match v.value {
        case ContainerElem(_, _, _, _, _, _, _) =>
          var ks := KeyNames(v.value);
          var key := TakeKeys(ks, items, i);
          if key.None? { return Err(IndexOutOfRange); }
          TailSlices(items, i, |ks|);
          r := Ok((i + |ks| + 1, PathElem(items[i], key.value)));
        case FieldElem(_) =>
          TailSlices(items, i, 0);
          r := Ok((i + 1, elem));
        case LeafListElem(_) =>
          TailSlices(items, i, 1);
          r := Ok((i + 2, PathElem(items[i], map[items[i] := items[i + 1]])));
      }
    }

    /** `ToPath`.  Reading past the items (a panic in the source) is reported as an error. */
    method ToPath(k: SchemaKey, items: seq<string>) returns (r: Outcome<ToPathResult, StoreError>)
      requires Valid()
      modifies this`cache
      ensures Valid()
      ensures !HasSchema(db, k) ==> r == Err(UnknownSchema)
      ensures old(Transparent(State())) && ValidKey(k) && HasSchema(db, k) && CleanNames(db, k, items, [])
          ==> Transparent(State()) && r == Ok(ToPathRest(db, k, items, []))
    {
      var has := Has(k);
      if !has { return Err(UnknownSchema); }
      ghost var good := Transparent(State()) && ValidKey(k) && CleanNames(db, k, items, []);
      var n := |items|;
      var elems: seq<PathElem> := [];
      var i := 0;
      assert items[0..] == items;
      while i < n
        invariant Valid() && 0 <= i <= n
        invariant good ==> Transparent(State()) && SlashFree(Names(elems)) && CleanNames(db, k, items[i..], Names(elems))
        invariant good ==> ToPathRest(db, k, items, []) == ToPathRest(db, k, items[i..], elems)
        decreases n - i
      {
        if i >= n - 1 {
          NamesSnoc(elems, PathElem(items[i], map[]));
          elems := elems + [PathElem(items[i], map[])];
          break;
        }
        var step := TakeStep(k, items, i, elems);
        if step.Err? { return Ok(Err(step.error)); }
        NamesSnoc(elems, step.value.1);
        elems := elems + [step.value.1];
        i := step.value.0;
      }
      assert i >= n - 1;  // so no item is left over
      var v := Find(k, Names(elems));
      r := Ok(if v.Some? then Ok(elems) else Err(PathNotFound));
    }

    /** The paths of an element's leaves. */
    method AddLeaves(p: seq<PathElem>, infos: seq<LeafInfo>, dt: DataType) returns (rs: seq<seq<PathElem>>)
      ensures rs == LeafPaths(p, infos, dt)
    {
      rs := [];
      for i := 0 to |infos|
        invariant rs == LeafPaths(p, infos[..i], dt)
      {
        assert infos[..i + 1][..i] == infos[..i];
        if Wanted(dt, infos[i].isState) { rs := rs + [p + [PathElem(infos[i].name, map[])]]; }
      }
      assert infos[..|infos|] == infos;
    }

    /** `ExpandPath`.  For a plain path the result is exactly the targets below the node the
        index answers with; the tree the database holds is the ghost argument `t`. */
    method ExpandPath(k: SchemaKey, p: seq<PathElem>, dt: DataType, ghost t: Tree)
      returns (r: Outcome<seq<seq<PathElem>>, StoreError>, ghost ids: seq<Id>)
      requires Valid() && ValidKey(k) && Transparent(State()) && SlashFree(Names(p))
      requires HasSchema(db, k) ==> Holds(db, k, t)
      modifies this`cache
      ensures Valid() && Transparent(State())
      ensures !HasSchema(db, k) ==> r == Err(UnknownSchema)
      ensures HasSchema(db, k) && PlainNames(Names(p)) ==> Expanded(t, p, dt, r, ids)
      decreases |t| + 1 - |p|
    {
      ids := [];
      var has := Has(k);
      if !has { return Err(UnknownSchema), []; }
      ghost var plain := PlainNames(Names(p));
      if plain { LookupFindsIndexNode(db, k, t, Names(p)); }
      var v := Find(k, Names(p));
      if v.None? { return Err(UnknownPath), []; }
      LookupFound(db, k, t, Names(p));
      ghost var e := ElementNode(db, k, t, Names(p), v.value);
      match v.value {
        case FieldElem(l) =>
          if plain { ExpandedTerminal(t, p, dt, e, v.value); }
          r := Ok(if Wanted(dt, l.isState) then [p] else []);
        case LeafListElem(l) =>
          if plain { ExpandedTerminal(t, p, dt, e, v.value); }
          r := Ok(if Wanted(dt, l.isState) then [p] else []);
        case ContainerElem(_, _, _, _, _, _, _) =>
          r, ids := ExpandContainer(k, p, v.value, dt, t, e, plain);
          if plain { ExpandedDir(t, p, dt, e, v.value, r.value, ids); }
      }
    }

    /** The container case: leaves here, children by recursion. */
    method ExpandContainer(k: SchemaKey, p: seq<PathElem>, v: SchemaElem, dt: DataType, ghost t: Tree, ghost e: Id, ghost plain: bool)
      returns (r: Outcome<seq<seq<PathElem>>, StoreError>, ghost ids: seq<Id>)
      requires Valid() && ValidKey(k) && Transparent(State()) && SlashFree(Names(p))
      requires HasSchema(db, k) && Holds(db, k, t) && |p| <= |t|
      requires e < |t| && v.ContainerElem? && DescribesNode(t, e, v)
      requires plain ==> PlainNames(Names(p)) && IndexNode(t, Names(p)) == Some(e) && IsData(t, e)
      modifies this`cache
      ensures Valid() && Transparent(State())
      ensures plain ==> r.Ok? && ExpandsFrom(t, Starred(p, t[e].keys), e, dt, r.value, ids)
      decreases |t| + 1 - |p|, 1
    {
      hide Holds, StoreRuns.Transparent, PlainNames, IndexNode, LeafPaths, SortedSet;
      ids := [];
      var pp := Starred(p, KeyNames(v));
      var fs := AddLeaves(pp, v.fields, dt);
      var ls := AddLeaves(pp, v.leaflists, dt);
      var ds;
      ghost var dids;
      r, ds, dids := ExpandChildren(k, pp, v.children, dt, t, Some(e), plain);
      if r.Err? { return; }
      if plain {
        var fids := LeavesCovered(t, pp, e, v.fields, dt, false);
        var lids := LeavesCovered(t, pp, e, v.leaflists, dt, true);
        AllCovered(t, pp, e, dt, v.children, fs, fids, ls, lids, ds, dids);
        ids := fids + lids + dids;
      }
      r := Ok(fs + ls + ds);
    }

    method ExpandChildren(k: SchemaKey, pp: seq<PathElem>, children: seq<string>, dt: DataType, ghost t: Tree,
                          ghost node: Option<Id>, ghost plain: bool)
      returns (r: Outcome<seq<seq<PathElem>>, StoreError>, ds: seq<seq<PathElem>>, ghost dids: seq<Id>)
      requires Valid() && ValidKey(k) && Transparent(State()) && SlashFree(Names(pp))
      requires HasSchema(db, k) && Holds(db, k, t) && |pp| <= |t|
      requires forall i | 0 <= i < |children| :: '/' !in children[i]
      requires plain ==> PlainNames(Names(pp)) && IndexNode(t, Names(pp)) == node && node.Some?
      requires plain ==> NoDup(children) && forall n :: n in children <==> n in DirChildNames(t, node.value)
      modifies this`cache
      ensures Valid() && Transparent(State())
      ensures plain ==> r.Ok? && NoDup(dids) && Prefixed(t, pp, node.value, ds, dids)
                        && forall l :: l in dids <==> ViaDirs(t, node.value, dt, l, children)
      decreases |t| + 1 - |pp|, 0
    {
      ds, dids := [], [];
      for i := 0 to |children|
        invariant Valid() && Transparent(State())
        invariant plain ==> NoDup(dids) && Prefixed(t, pp, node.value, ds, dids)
        invariant plain ==> forall l: Id :: l in dids <==> ViaDirs(t, node.value, dt, l, children[..i])
      {
        var child := PathElem(children[i], map[]);
        NamesSnoc(pp, child);
        ghost var c: Id := 0;
        if plain {
          c := DirChildNamed(t, node.value, children[i]);
          StaysInModule(t, Names(pp), node.value, c);
          PlainGrows(t, Names(pp), c);
        }
        var sub;
        ghost var sids;
        sub, sids := ExpandPath(k, pp + [child], dt, t);
        if sub.Err? {
          r := sub;
          return;
        }
        if plain {
          StarredChild(t, pp, c);
          assert children[i] !in children[..i];
          DirsMore(t, pp, node.value, dt, children[..i], c, ds, dids, sub.value, sids);
          SliceNext(children, 0, i);
        }
        ds, dids := ds + sub.value, dids + sids;
      }
      assert children[..|children|] == children;
      r := Ok(ds);
    }
  }
}
