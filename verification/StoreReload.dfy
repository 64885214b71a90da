/** Adding a schema while elements of its key are still cached, as a reload does. */
module StoreReload {
  import opened Wrappers
  import opened Text
  import opened XPath
  import opened YangTree
  import opened SchemaElems
  import opened KeyCodec
  import opened StoreIndex
  import opened StoreExpand
  import opened StoreRuns

  // ----- every tree can be stored

  lemma {:induction false} KeyShapes(k: SchemaKey)
    ensures SchemaRecordKey(k)[0] == SCHEMAS_PREFIX && EntryPrefix(k)[0] == OBJECTS_PREFIX
  {
  }

  /** The elements of the first `n` entries. */
  lemma {:induction false} Storable(k: SchemaKey, t: Tree, n: nat) returns (entries: Db)
    requires n <= |t|
    ensures forall e: Id | e < n && IsData(t, e) :: StoredAt(entries, k, t, e)
    ensures forall key | key in entries :: EntryPrefix(k) <= key && IsNodeKey(t, k, key)
  {
    entries := map[];
    if n > 0 {
      var rest := Storable(k, t, n - 1);
      var last: Id := n - 1;
      if IsData(t, last) {
        var v := ElemExists(t, last);
        entries := rest[NodeKey(t, k, last) := Object(v)];
        forall e: Id | e < n && IsData(t, e) ensures StoredAt(entries, k, t, e) {
          if NodeKey(t, k, e) == NodeKey(t, k, last) { NodeKeyInjective(t, k, e, last); }
        }
      } else {
        entries := rest;
      }
    }
  }

  /** Whatever the tree, there is a database that adding it to an empty one gives. */
  lemma {:induction false} TreeIsStorable(k: SchemaKey, t: Tree, config: Config) returns (entries: Db)
    ensures StoresTree(k, t, entries)
  {
    var objects := Storable(k, t, |t|);
    KeyShapes(k);
    entries := objects[SchemaRecordKey(k) := Record(config)];
    forall e: Id | e < |t| && IsData(t, e) ensures StoredAt(entries, k, t, e) {
      assert StoredAt(objects, k, t, e);
    }
  }

  // ----- a module that no cached element knows

  function Longest(names: seq<string>): (n: nat)
    ensures forall i | 0 <= i < |names| :: |names[i]| <= n
  {
    if names == [] then 0
    else
      var n := Longest(names[..|names| - 1]);
      if n < |names[|names| - 1]| then |names[|names| - 1]| else n
  }

  /** An identifier that is none of the names. */
  function Fresh(names: seq<string>): (n: string)
    ensures IsIdentifier(n) && n !in names && n != ROOT_NAME
  {
    var n := seq(Longest(names) + 1, i => 'm');
    assert n[0] == 'm' && ROOT_NAME[0] == '_';
    n
  }

  /** The tree of a schema with one empty module. */
  function EmptyModule(name: string): RawTree {
    [Node(ROOT_NAME, "", Container, None, map[name := 1], [], Unset, None, ""),
     Node(name, "", Container, None, map[], [], Unset, None, "")]
  }

  lemma {:induction false} EmptyModuleOk(name: string)
    requires IsIdentifier(name) && name != ROOT_NAME
    ensures Linked(EmptyModule(name)) && NamesUnique(EmptyModule(name))
  {
    var t := EmptyModule(name);
    assert NodeOk(t, 1);
  }

  /** The elements stored for it are those of the root, with the module as only child, and of
      the module. */
  lemma {:induction false} EmptyModuleElems(name: string, e: Id, v: SchemaElem)
    requires IsIdentifier(name) && name != ROOT_NAME && Linked(EmptyModule(name)) && e < 2
    requires IsElemOf(EmptyModule(name), e, v)
    ensures v.ContainerElem? && (v.name == name || name in v.children)
  {
    var t: Links := EmptyModule(name);
    if e == 0 {
      RootChildren(t);
      LexStrictTotal();
    }
  }

  lemma {:induction false} LookupInEntries(s: State, k: SchemaKey, entries: Db, pes: seq<string>)
    requires (forall key | key in s.db :: !(EntryPrefix(k) <= key))
    ensures DbLookup(Apply(s, Add(k, entries)).db, k, pes) == DbLookup(entries, k, pes)
  {
    LookupSame(Apply(s, Add(k, entries)).db, entries, k, pes);
  }

  /** Some tree can be added under whose entries no lookup gives the element `v`. */
  lemma {:induction false} SomeTreeDiffers(k: SchemaKey, v: SchemaElem, config: Config) returns (t: Tree, entries: Db)
    ensures StoresTree(k, t, entries)
    ensures forall pes | (forall i | 0 <= i < |pes| :: '/' !in pes[i]) :: DbLookup(entries, k, pes) != Some(v)
  {
    var n := Fresh(if v.ContainerElem? then [v.name] + v.children else []);
    EmptyModuleOk(n);
    t := EmptyModule(n);
    entries := TreeIsStorable(k, t, config);
    forall pes | (forall i | 0 <= i < |pes| :: '/' !in pes[i]) ensures DbLookup(entries, k, pes) != Some(v) {
      if DbLookup(entries, k, pes) == Some(v) {
        LookupFound(entries, k, t, pes);
        var e: Id :| e < |t| && IsElemOf(t, e, v);
        EmptyModuleElems(n, e, v);
      }
    }
  }

  lemma {:induction false} LiveElementBreaks(s: State, k: SchemaKey, ck: CacheKey) returns (t: Tree, entries: Db)
    requires ck in s.cache && ck.schema == k && forall key | key in s.db :: !(EntryPrefix(k) <= key)
    ensures StoresTree(k, t, entries) && !Transparent(Apply(s, Add(k, entries)))
  {
    hide Holds, DbLookup;
    t, entries := SomeTreeDiffers(k, s.cache[ck], Config([], [], []));
    var pes := SplitOn(ck.path, '/');
    SplitSlashFree(ck.path);
    LookupInEntries(s, k, entries, pes);
    assert HasSchema(Apply(s, Add(k, entries)).db, k);
  }

  /** The guard on additions is exact: into a store without entries of a key (as a deletion
      leaves it), the addition of every tree keeps the cache transparent exactly when no cached
      element of that key is alive. */
  lemma {:induction false} AdditionGuardExact(s: State, k: SchemaKey)
    requires Transparent(s) && ValidKey(k) && forall key | key in s.db :: !(EntryPrefix(k) <= key)
    ensures (forall t: Tree, entries | StoresTree(k, t, entries) :: Transparent(Apply(s, Add(k, entries))))
       <==> (forall ck | ck in s.cache :: ck.schema != k)
  {
    hide Holds, Transparent, Apply;
    if forall ck | ck in s.cache :: ck.schema != k {
      forall t: Tree, entries | StoresTree(k, t, entries) ensures Transparent(Apply(s, Add(k, entries))) {
        StepTransparent(s, Add(k, entries));
      }
    } else {
      var ck :| ck in s.cache && ck.schema == k;
      var t, entries := LiveElementBreaks(s, k, ck);
    }
  }

  // ----- a reload

  lemma {:induction false} RunSnoc(s: State, ops: seq<Op>, op: Op)
    ensures RunOps(s, ops + [op]) == Apply(RunOps(s, ops), op)
  {
    SnocParts(ops, op);
  }

  lemma {:induction false} RunThree(s: State, a: Op, b: Op, c: Op)
    ensures RunOps(s, [a, b, c]) == Apply(Apply(Apply(s, a), b), c)
  {
    RunSnoc(s, [], a);
    RunSnoc(s, [a], b);
    RunSnoc(s, [a, b], c);
    assert [] + [a] == [a] && [a] + [b] == [a, b] && [a, b] + [c] == [a, b, c];
  }

  /** What a lookup cached is answered after a deletion and any addition. */
  lemma {:induction false} OldAnswerStays(s: State, k: SchemaKey, pes: seq<string>, entries: Db)
    requires !IsRoot(pes) && DbLookup(s.db, k, pes).Some? && s.cache == map[]
    ensures Answer(RunOps(s, [Lookup(k, pes), Delete(k), Add(k, entries)]), k, pes, true, true) == DbLookup(s.db, k, pes)
  {
    hide DbLookup;
    RunThree(s, Lookup(k, pes), Delete(k), Add(k, entries));
  }

  /** After a lookup, a deletion and the addition of another tree under the same key (which is
      what a reload does), the store answers with the element it has stored exactly when that is
      the old one. */
  lemma {:induction false} ReloadExact(s: State, k: SchemaKey, pes: seq<string>, t: Tree, entries: Db)
    requires !IsRoot(pes) && DbLookup(s.db, k, pes).Some? && s.cache == map[] && StoresTree(k, t, entries)
    ensures var end := RunOps(s, [Lookup(k, pes), Delete(k), Add(k, entries)]);
            && HasSchema(end.db, k)
            && DbLookup(end.db, k, pes) == DbLookup(entries, k, pes)
            && (Answer(end, k, pes, true, true) == DbLookup(end.db, k, pes)
                <==> DbLookup(s.db, k, pes) == DbLookup(entries, k, pes))
  {
    hide DbLookup, Holds;
    OldAnswerStays(s, k, pes, entries);
    RunThree(s, Lookup(k, pes), Delete(k), Add(k, entries));
    LookupInEntries(Apply(Apply(s, Lookup(k, pes)), Delete(k)), k, entries, pes);
  }
}
