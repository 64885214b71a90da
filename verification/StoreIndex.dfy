/** The key/value index of a schema and its agreement with the tree it was built from. */
module StoreIndex {
  import opened Wrappers
  import opened Text
  import opened ModuleOrder
  import opened YangTree
  import opened Navigation
  import opened SchemaElems
  import opened KeyCodec

  datatype Config = Config(files: seq<string>, directories: seq<string>, excludes: seq<string>)

  datatype Value = Record(config: Config) | Object(elem: SchemaElem)

  type Db = map<string, Value>

  predicate HasSchema(db: Db, k: SchemaKey) {
    SchemaRecordKey(k) in db
  }

  // ----- lookup in the index

  function ObjectAt(db: Db, key: string): Option<SchemaElem> {
    if key in db && db[key].Object? then Some(db[key].elem) else None
  }

  /** The names below module `m`: its own name at the start is left out. */
  function Below(m: string, pe: seq<string>): (r: seq<string>)
    requires pe != []
    ensures pe == [m] + r || (pe[0] != m && pe == r)
  {
    if pe[0] == m then pe[1..] else pe
  }

  /** The key tried for one module; a path that starts with the module's own name is taken as is. */
  function KeyInModule(k: SchemaKey, module_: string, pes: seq<string>): string
    requires pes != []
  {
    if pes[0] == module_ then EntryKey(k, pes) else EntryKey(k, [module_] + pes)
  }

  function TryModules(db: Db, k: SchemaKey, mods: seq<string>, pes: seq<string>): Option<SchemaElem>
    requires pes != []
  {
    if mods == [] then None
    else
      var here := ObjectAt(db, KeyInModule(k, mods[0], pes));
      if here.Some? then here else TryModules(db, k, mods[1..], pes)
  }

  /** `getModules`: the children of the root element. */
  function Modules(db: Db, k: SchemaKey): Option<seq<string>> {
    match ObjectAt(db, EntryKey(k, [ROOT_NAME]))
    case None => None
    case Some(v) => Some(if v.ContainerElem? then v.children else [])
  }

  /** What `getSchema` finds in the database. */
  function DbLookup(db: Db, k: SchemaKey, pes: seq<string>): Option<SchemaElem> {
    if pes == [] || pes == [""] then ObjectAt(db, EntryKey(k, [ROOT_NAME]))
    else
      var i := IndexOf(pes[0], ':');
      if 0 < i < |pes[0]| then
        TryModules(db, k, [pes[0][..i]], [pes[0][i + 1..]] + pes[1..])
      else
        match Modules(db, k)
        case None => None
        case Some(ms) => TryModules(db, k, Sort(ModLess, ms), pes)
  }

  // ----- a database that holds a tree

  ghost function NodeKey(t: Links, k: SchemaKey, e: Id): string
    requires e < |t|
  {
    EntryKey(k, PathOf(t, e))
  }

  ghost predicate StoredAt(db: Db, k: SchemaKey, t: Links, e: Id)
    requires e < |t|
  {
    var key := NodeKey(t, k, e);
    key in db && db[key].Object? && IsElemOf(t, e, db[key].elem)
  }

  ghost predicate IsNodeKey(t: Links, k: SchemaKey, key: string) {
    exists e: Id :: e < |t| && IsData(t, e) && NodeKey(t, k, e) == key
  }

  /** The entries of schema `k` are exactly the data nodes of `t`. */
  ghost predicate Holds(db: Db, k: SchemaKey, t: Links) {
    && (forall e: Id | e < |t| && IsData(t, e) :: StoredAt(db, k, t, e))
    && (forall key | key in db && EntryPrefix(k) <= key :: IsNodeKey(t, k, key))
  }

  ghost function ElemAt(db: Db, k: SchemaKey, t: Links, e: Id): SchemaElem
    requires e < |t| && StoredAt(db, k, t, e)
  {
    db[NodeKey(t, k, e)].elem
  }

  lemma {:induction false} PathOfOk(t: Links, e: Id)
    requires e < |t|
    ensures PathOk(PathOf(t, e))
    ensures forall i | 0 <= i < |PathOf(t, e)| :: PathOf(t, e)[i] != "" && ':' !in PathOf(t, e)[i] && '/' !in PathOf(t, e)[i]
    decreases e
  {
    if e == 0 {
      assert PathOf(t, e) == [ROOT_NAME];
    } else {
      UpFacts(t, e);
      IdentifierIsPlain(t[e].name);
      if Up(t, e) != 0 { PathOfOk(t, DataParent(t, e)); }
    }
  }

  lemma {:induction false} NodeKeyInjective(t: Tree, k: SchemaKey, a: Id, b: Id)
    requires a < |t| && b < |t| && IsData(t, a) && IsData(t, b)
    requires NodeKey(t, k, a) == NodeKey(t, k, b)
    ensures a == b
  {
    PathOfOk(t, a);
    PathOfOk(t, b);
    EntryKeySame(k, PathOf(t, a), PathOf(t, b));
    PathOfInjective(t, a, b);
  }

  predicate NamesOnly(pe: seq<string>) {
    forall i | 0 <= i < |pe| :: pe[i] != "" && ':' !in pe[i] && '/' !in pe[i]
  }

  /** Paths of non-empty names without colon and slash. */
  predicate PlainNames(pe: seq<string>) {
    pe != [] && NamesOnly(pe)
  }

  /** Such paths that do not start with a module name. */
  ghost predicate PlainPath(t: Links, pe: seq<string>) {
    PlainNames(pe) && pe[0] !in t[0].dir
  }

  lemma {:induction false} ModuleFacts(t: Links, m: string)
    requires m in t[0].dir
    ensures 0 < t[0].dir[m] < |t| && t[t[0].dir[m]].name == m && Up(t, t[0].dir[m]) == 0
    ensures IsData(t, t[0].dir[m]) && IsIdentifier(m) && m != ROOT_NAME
  {
    DirFacts(t, 0, m);
  }

  /** An entry key below a module is present exactly when the tree has the node. */
  lemma {:induction false} KeyPresent(db: Db, k: SchemaKey, t: Tree, m: string, pe: seq<string>)
    requires Holds(db, k, t) && m in t[0].dir && NamesOnly(pe)
    ensures t[0].dir[m] < |t|
    ensures var d := Descend(t, t[0].dir[m], pe);
            match d
            case Some(e) => e < |t| && IsData(t, e) && StoredAt(db, k, t, e)
                            && ObjectAt(db, EntryKey(k, [m] + pe)) == Some(ElemAt(db, k, t, e))
            case None => ObjectAt(db, EntryKey(k, [m] + pe)) == None
  {
    ModuleFacts(t, m);
    var d := t[0].dir[m];
    var r := Descend(t, d, pe);
    if r.Some? {
      DownThenUp(t, d, pe, r.value);
      assert PathOf(t, d) == [m];
      assert StoredAt(db, k, t, r.value);
    } else {
      var key := EntryKey(k, [m] + pe);
      if key in db {
        assert EntryPrefix(k) <= key;
        var e: Id :| e < |t| && IsData(t, e) && NodeKey(t, k, e) == key;
        FoundBelowModule(k, t, m, pe, e);
      }
    }
  }

  lemma {:induction false} FoundBelowModule(k: SchemaKey, t: Tree, m: string, pe: seq<string>, e: Id)
    requires m in t[0].dir && NamesOnly(pe)
    requires e < |t| && IsData(t, e) && NodeKey(t, k, e) == EntryKey(k, [m] + pe)
    ensures t[0].dir[m] < |t| && Descend(t, t[0].dir[m], pe) == Some(e)
  {
    ModuleFacts(t, m);
    IdentifierIsPlain(m);
    PathOfOk(t, e);
    EntryKeySame(k, PathOf(t, e), [m] + pe);
    assert e > 0;
    UpDownInverse(t, t[0].dir[m], pe, e);
  }

  // ----- the node the index answers with

  /** The node at `pe` in module `m`, whose name `pe` may start with. */
  ghost function AnswerIn(t: Links, m: string, pe: seq<string>): (r: Option<Id>)
    requires m in t[0].dir && pe != []
    ensures r.Some? ==> r.value < |t| && IsData(t, r.value)
  {
    ModuleFacts(t, m);
    Descend(t, t[0].dir[m], Below(m, pe))
  }

  /** The modules that have the path. */
  ghost function AllHits(t: Links, pe: seq<string>): set<string>
    requires pe != []
  {
    set m | m in t[0].dir && AnswerIn(t, m, pe).Some?
  }

  /** The node at `pe` in the best of all modules that have it. */
  ghost function IndexNode(t: Links, pe: seq<string>): (r: Option<Id>)
    requires pe != []
    ensures r.Some? ==> r.value < |t| && IsData(t, r.value)
  {
    if AllHits(t, pe) == {} then None else AnswerIn(t, Best(AllHits(t, pe)), pe)
  }

  lemma {:induction false} TryFindsFirst(db: Db, k: SchemaKey, t: Tree, mods: seq<string>, pe: seq<string>)
    requires Holds(db, k, t) && PlainNames(pe)
    requires forall i | 0 <= i < |mods| :: mods[i] in t[0].dir
    ensures var i := FirstHit(mods, AllHits(t, pe));
            if i == |mods| then TryModules(db, k, mods, pe) == None
            else
              && AnswerIn(t, mods[i], pe).Some?
              && var e := AnswerIn(t, mods[i], pe).value;
                 StoredAt(db, k, t, e) && TryModules(db, k, mods, pe) == Some(ElemAt(db, k, t, e))
    decreases |mods|
  {
    if mods != [] {
      TriedHere(db, k, t, mods[0], pe);
      hide AnswerIn, KeyInModule, ObjectAt, Linked, NamesUnique, Holds, StoredAt, ElemAt, PlainNames;
      if mods[0] !in AllHits(t, pe) { TryFindsFirst(db, k, t, mods[1..], pe); }
    }
  }

  lemma {:induction false} TriedHere(db: Db, k: SchemaKey, t: Tree, m: string, pe: seq<string>)
    requires Holds(db, k, t) && PlainNames(pe) && m in t[0].dir
    ensures match AnswerIn(t, m, pe)
            case None => ObjectAt(db, KeyInModule(k, m, pe)) == None
            case Some(e) => StoredAt(db, k, t, e) && ObjectAt(db, KeyInModule(k, m, pe)) == Some(ElemAt(db, k, t, e))
  {
    hide Descend, EntryKey, Linked, Holds, NamesUnique, StoredAt, ElemAt, ObjectAt;
    ModuleFacts(t, m);
    KeyPresent(db, k, t, m, Below(m, pe));
    assert KeyInModule(k, m, pe) == EntryKey(k, [m] + Below(m, pe));
  }

  lemma {:induction false} RootChildren(t: Links)
    ensures forall m :: m in DirChildNames(t, 0) <==> m in t[0].dir
  {
    forall m ensures m in DirChildNames(t, 0) <==> m in t[0].dir {
      if m in t[0].dir {
        ModuleFacts(t, m);
        DirFacts(t, 0, m);
        assert IsDirChild(t, 0, t[0].dir[m]);
      }
      if m in DirChildNames(t, 0) {
        var c: Id :| c < |t| && IsDirChild(t, 0, c) && t[c].name == m;
        UnderData(t, 0, c);
        if Up(t, c) != 0 { DataParentKeepsModule(t, c); }
        UpFacts(t, c);
      }
    }
  }

  lemma {:induction false} StoredModules(db: Db, k: SchemaKey, t: Tree)
    requires Holds(db, k, t)
    ensures Modules(db, k).Some? && NoDup(Modules(db, k).value)
    ensures forall m :: m in Modules(db, k).value <==> m in t[0].dir
  {
    RootChildren(t);
    assert StoredAt(db, k, t, 0);
    assert PathOf(t, 0) == [ROOT_NAME];
    LexStrictTotal();
    SortedSetSorted(LexLess, DirChildNames(t, 0));
  }

  /** The modules in the order in which they are tried. */
  lemma {:induction false} SortedModules(db: Db, k: SchemaKey, t: Tree)
    requires Holds(db, k, t)
    ensures Modules(db, k).Some?
    ensures var mods := Sort(ModLess, Modules(db, k).value);
            && Sorted(ModLess, mods) && NoDup(mods) && (forall m :: m in mods <==> m in t[0].dir)
            && forall i | 0 <= i < |mods| :: mods[i] in t[0].dir
  {
    hide Holds, Modules, Linked, NamesUnique;
    StoredModules(db, k, t);
    var ms := Modules(db, k).value;
    var mods := Sort(ModLess, ms);
    ModLessStrictTotal();
    SortSorts(ModLess, ms);
    SortKeepsDistinct(ms);
    SameMembers(mods, ms);
    assert forall i | 0 <= i < |mods| :: mods[i] in mods;
  }

  lemma {:induction false} TriesModules(db: Db, k: SchemaKey, pe: seq<string>)
    requires PlainNames(pe) && Modules(db, k).Some?
    ensures DbLookup(db, k, pe) == TryModules(db, k, Sort(ModLess, Modules(db, k).value), pe)
  {
  }

  /** Looking a plain path up in the index gives the element of the index node. */
  lemma {:induction false} LookupFindsIndexNode(db: Db, k: SchemaKey, t: Tree, pe: seq<string>)
    requires Holds(db, k, t) && PlainNames(pe)
    ensures DbLookup(db, k, pe) ==
            match IndexNode(t, pe)
            case None => None
            case Some(e) => assert StoredAt(db, k, t, e); Some(ElemAt(db, k, t, e))
  {
    SortedModules(db, k, t);
    TriesModules(db, k, pe);
    hide Modules, DbLookup, Linked, NamesUnique, TryModules, AnswerIn, AllHits, PlainNames;
    var mods := Sort(ModLess, Modules(db, k).value);
    TryFindsFirst(db, k, t, mods, pe);
    var hits := AllHits(t, pe);
    FirstHitIsLeast(mods, hits);
    if hits != {} { LeastUnique(mods[FirstHit(mods, hits)], Best(hits), hits); }
  }

  // ----- agreement with the tree walk

  /** The first name of the path is a direct entry of the module the index answers from. */
  ghost predicate StartsDirect(t: Links, pe: seq<string>)
    requires pe != [] && AllHits(t, pe) != {}
  {
    ModuleFacts(t, Best(AllHits(t, pe)));
    pe[0] in t[t[0].dir[Best(AllHits(t, pe))]].dir
  }

  lemma {:induction false} PlainCandidates(t: Links, pe: seq<string>)
    requires PlainPath(t, pe)
    ensures Candidates(t, pe[0]) <= t[0].dir.Keys
    ensures forall m | m in t[0].dir :: t[0].dir[m] < |t| && (m in Candidates(t, pe[0]) <==> pe[0] in t[t[0].dir[m]].dir)
    ensures Candidates(t, pe[0]) != {pe[0]}
  {
    CandidatesAreModules(t, pe[0]);
    forall m | m in t[0].dir ensures m in Candidates(t, pe[0]) <==> pe[0] in t[t[0].dir[m]].dir {
      ModuleFacts(t, m);
      if pe[0] in t[t[0].dir[m]].dir { DirFacts(t, t[0].dir[m], pe[0]); }
    }
    assert pe[0] !in Candidates(t, pe[0]) && pe[0] in {pe[0]};
  }

  lemma {:induction false} ResolvePlain(t: Links, pe: seq<string>)
    requires PlainPath(t, pe) && Candidates(t, pe[0]) <= t[0].dir.Keys
    ensures var hits := Hits(t, Candidates(t, pe[0]), pe);
            if hits == {} then Resolve(t, pe) == None
            else Best(hits) in t[0].dir && t[0].dir[Best(hits)] < |t| && Resolve(t, pe) == Descend(t, t[0].dir[Best(hits)], pe)
  {
    PlainCandidates(t, pe);
    var hits := Hits(t, Candidates(t, pe[0]), pe);
    if hits != {} { ModuleFacts(t, Best(hits)); }
  }

  /** Without a module name at the start, every module is asked for the whole path. */
  lemma {:induction false} PlainHits(t: Links, pe: seq<string>)
    requires PlainPath(t, pe)
    ensures AllHits(t, pe) == Hits(t, t[0].dir.Keys, pe)
    ensures forall m | m in t[0].dir :: t[0].dir[m] < |t| && AnswerIn(t, m, pe) == Descend(t, t[0].dir[m], pe)
  {
    CandidatesAreModules(t, pe[0]);
  }

  /** The index and the tree walk agree on a path exactly when the index has no node for it, or
      the node's topmost ancestor below the module is not hidden in a top-level choice. */
  lemma {:induction false} WalksAgree(t: Tree, pe: seq<string>)
    requires PlainPath(t, pe)
    ensures Resolve(t, pe) == IndexNode(t, pe) <==> (AllHits(t, pe) == {} || StartsDirect(t, pe))
  {
    PlainCandidates(t, pe);
    PlainHits(t, pe);
    var all := AllHits(t, pe);
    var some := Hits(t, Candidates(t, pe[0]), pe);
    ResolvePlain(t, pe);
    assert some <= all;
    if all != {} {
      ModuleFacts(t, Best(all));
      if StartsDirect(t, pe) {
        assert Best(all) in some;
        LeastUnique(Best(all), Best(some), some);
      } else {
        assert Best(all) !in some;
        if some != {} { OtherModuleOtherNode(t, pe, Best(all), Best(some)); }
      }
    }
  }

  lemma {:induction false} OtherModuleOtherNode(t: Tree, pe: seq<string>, a: string, b: string)
    requires PlainPath(t, pe) && a in t[0].dir && b in t[0].dir && a != b
    ensures t[0].dir[a] < |t| && t[0].dir[b] < |t|
    ensures Descend(t, t[0].dir[a], pe).Some? && Descend(t, t[0].dir[b], pe).Some?
        ==> Descend(t, t[0].dir[a], pe) != Descend(t, t[0].dir[b], pe)
  {
    ModuleFacts(t, a);
    ModuleFacts(t, b);
    var x, y := Descend(t, t[0].dir[a], pe), Descend(t, t[0].dir[b], pe);
    if x.Some? && y.Some? {
      DownThenUp(t, t[0].dir[a], pe, x.value);
      DownThenUp(t, t[0].dir[b], pe, y.value);
      assert PathOf(t, x.value)[0] == a && PathOf(t, y.value)[0] == b;
    }
  }

  /** No module has a choice directly below it. */
  ghost predicate NoTopChoice(t: Links) {
    forall c: Id | 0 < c < |t| && t[c].kind.Choice? :: (UpFacts(t, c); Up(t, Up(t, c)) != 0)
  }

  lemma {:induction false} DirectWithoutTopChoice(t: Links, m: string, n: string)
    requires NoTopChoice(t) && m in t[0].dir && t[0].dir[m] < |t| && Child(t, t[0].dir[m], n).Some?
    ensures n in t[t[0].dir[m]].dir
  {
    ModuleFacts(t, m);
    var d := t[0].dir[m];
    var c := Child(t, d, n).value;
    WayInDir(t, d, c);
    var way := WayTo(t, d, c);
    WayIsStep(t, d, way, c);
    DirFacts(t, d, way);
    UpFacts(t, t[d].dir[way]);
  }

  lemma {:induction false} NoTopChoiceStartsDirect(t: Links, pe: seq<string>)
    requires NoTopChoice(t) && PlainPath(t, pe) && AllHits(t, pe) != {}
    ensures StartsDirect(t, pe)
  {
    PlainHits(t, pe);
    DirectWithoutTopChoice(t, Best(AllHits(t, pe)), pe[0]);
  }

  /** Index refines tree: on every plain path the index answers with the element stored for
      exactly the node the tree walk finds, and with nothing exactly when the walk fails. */
  lemma {:induction false} IndexRefinesTree(db: Db, k: SchemaKey, t: Tree, pe: seq<string>)
    requires Holds(db, k, t) && PlainPath(t, pe) && NoTopChoice(t)
    ensures match Resolve(t, pe)
            case None => DbLookup(db, k, pe) == None
            case Some(e) => e < |t| && IsData(t, e) && StoredAt(db, k, t, e)
                            && DbLookup(db, k, pe) == Some(ElemAt(db, k, t, e))
  {
    if AllHits(t, pe) != {} { NoTopChoiceStartsDirect(t, pe); }
    WalksAgree(t, pe);
    LookupFindsIndexNode(db, k, t, pe);
  }

  // ----- paths that start with a module name

  /** The tree walk looks for the module's name below the module. */
  lemma {:induction false} ModuleResolves(t: Links, pe: seq<string>)
    requires PlainNames(pe) && pe[0] in t[0].dir
    ensures t[0].dir[pe[0]] < |t|
    ensures Resolve(t, pe) ==
            var below := Descend(t, t[0].dir[pe[0]], pe);
            if below.None? && |pe| == 1 then Some(t[0].dir[pe[0]]) else below
  {
    ModuleFacts(t, pe[0]);
    assert Candidates(t, pe[0]) == {pe[0]};
    var hits := CandidateHits(t, pe);
    assert hits <= {pe[0]};
    if hits != {} { assert Best(hits) == pe[0]; }
    if Descend(t, t[0].dir[pe[0]], pe).Some? { assert pe[0] in hits; }
  }

  /** The index never answers with a node below the module that the path repeats the name of. */
  lemma {:induction false} NotBelowTwice(t: Tree, pe: seq<string>, x: Id)
    requires PlainNames(pe) && pe[0] in t[0].dir && IndexNode(t, pe) == Some(x)
    ensures t[0].dir[pe[0]] < |t| && Descend(t, t[0].dir[pe[0]], pe) != Some(x)
  {
    var m, b := pe[0], Best(AllHits(t, pe));
    ModuleFacts(t, m);
    ModuleFacts(t, b);
    DownThenUp(t, t[0].dir[b], Below(b, pe), x);
    var y := Descend(t, t[0].dir[m], pe);
    if y.Some? { DownThenUp(t, t[0].dir[m], pe, y.value); }
    assert PathOf(t, x) == [b] + Below(b, pe);
    assert ([m] + pe)[0] == m && ([b] + Below(b, pe))[0] == b;
    assert m == b ==> |Below(b, pe)| < |pe|;
  }

  /** On a path that starts with a module's name the two agree exactly when that module has
      nothing at the whole path, and either the name stands alone and no better module has an
      entry of that name, or the index has no node. */
  lemma {:induction false} ModuleStartAgrees(t: Tree, pe: seq<string>)
    requires PlainNames(pe) && pe[0] in t[0].dir
    ensures t[0].dir[pe[0]] < |t|
    ensures Resolve(t, pe) == IndexNode(t, pe) <==>
            && Descend(t, t[0].dir[pe[0]], pe) == None
            && (if |pe| == 1 then IsLeast(ModLess, pe[0], AllHits(t, pe)) else AllHits(t, pe) == {})
  {
    var m := pe[0];
    ModuleFacts(t, m);
    ModuleResolves(t, pe);
    var node := IndexNode(t, pe);
    if node.Some? { NotBelowTwice(t, pe, node.value); }
    if |pe| == 1 {
      LoneModule(t, pe);
    } else if AllHits(t, pe) != {} {
      assert Best(AllHits(t, pe)) in AllHits(t, pe);
    }
  }

  lemma {:induction false} LoneModule(t: Tree, pe: seq<string>)
    requires PlainNames(pe) && pe[0] in t[0].dir && |pe| == 1
    ensures IndexNode(t, pe) == Some(t[0].dir[pe[0]]) <==> IsLeast(ModLess, pe[0], AllHits(t, pe))
    ensures IndexNode(t, pe).Some?
  {
    var m := pe[0];
    ModuleFacts(t, m);
    assert AnswerIn(t, m, pe) == Some(t[0].dir[m]);
    assert m in AllHits(t, pe);
    var b := Best(AllHits(t, pe));
    assert b in AllHits(t, pe);
    if IsLeast(ModLess, m, AllHits(t, pe)) {
      LeastUnique(m, b, AllHits(t, pe));
    } else {
      ModuleFacts(t, b);
      var x := IndexNode(t, pe).value;
      DownThenUp(t, t[0].dir[b], Below(b, pe), x);
      assert PathOf(t, t[0].dir[m]) == [m] && PathOf(t, t[0].dir[b]) == [b];
      assert |PathOf(t, x)| == 2;
    }
  }
}
