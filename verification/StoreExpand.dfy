/** Facts about expanding a path through the index: how the children of an element make up
    the targets below its node, and why the recursion ends. */
module StoreExpand {
  import opened Text
  import opened XPath
  import opened ModuleOrder
  import opened YangTree
  import opened Navigation
  import opened SchemaPaths
  import opened SchemaElems
  import opened KeyCodec
  import opened StoreIndex
  import opened Expand

  // ----- the recursion ends

  lemma {:induction false} PathOfLength(t: Links, e: Id)
    requires e < |t|
    ensures |PathOf(t, e)| <= e + 1
    decreases e
  {
    if e > 0 {
      UpFacts(t, e);
      if Up(t, e) != 0 { PathOfLength(t, DataParent(t, e)); }
    }
  }

  /** `v` is the element of some node of the tree, and the path to it is no longer than the
      tree is large. */
  ghost predicate FoundIn(t: Links, pes: seq<string>, v: SchemaElem) {
    |pes| <= |t| && exists e: Id :: e < |t| && IsElemOf(t, e, v)
  }

  lemma {:induction false} KeyFound(db: Db, k: SchemaKey, t: Tree, pes: seq<string>)
    requires Holds(db, k, t) && PathOk(pes) && ObjectAt(db, EntryKey(k, pes)).Some?
    ensures FoundIn(t, pes, ObjectAt(db, EntryKey(k, pes)).value)
  {
    var key := EntryKey(k, pes);
    assert EntryPrefix(k) <= key;
    var e: Id :| e < |t| && IsData(t, e) && NodeKey(t, k, e) == key;
    assert StoredAt(db, k, t, e);
    PathOfOk(t, e);
    EntryKeySame(k, PathOf(t, e), pes);
    PathOfLength(t, e);
  }

  lemma {:induction false} TryFound(db: Db, k: SchemaKey, t: Tree, mods: seq<string>, pes: seq<string>)
    requires Holds(db, k, t) && pes != []
    requires forall i | 0 <= i < |pes| :: '/' !in pes[i]
    requires forall i | 0 <= i < |mods| :: ':' !in mods[i]
    requires TryModules(db, k, mods, pes).Some?
    ensures FoundIn(t, pes, TryModules(db, k, mods, pes).value)
    decreases |mods|
  {
    var m := mods[0];
    if ObjectAt(db, KeyInModule(k, m, pes)).Some? {
      if pes[0] == m { KeyFound(db, k, t, pes); } else { KeyFound(db, k, t, [m] + pes); }
    } else {
      TryFound(db, k, t, mods[1..], pes);
    }
  }

  lemma {:induction false} SortedModulesPlain(db: Db, k: SchemaKey, t: Tree)
    requires Holds(db, k, t)
    ensures Modules(db, k).Some?
    ensures forall j | 0 <= j < |Sort(ModLess, Modules(db, k).value)| :: ':' !in Sort(ModLess, Modules(db, k).value)[j]
  {
    SortedModules(db, k, t);
    var mods := Sort(ModLess, Modules(db, k).value);
    forall j | 0 <= j < |mods| ensures ':' !in mods[j] {
      ModuleFacts(t, mods[j]);
      IdentifierIsPlain(mods[j]);
    }
  }

  /** Whatever a lookup finds is the element of a node. */
  lemma {:induction false} LookupFound(db: Db, k: SchemaKey, t: Tree, pes: seq<string>)
    requires Holds(db, k, t) && (forall i | 0 <= i < |pes| :: '/' !in pes[i])
    requires DbLookup(db, k, pes).Some?
    ensures FoundIn(t, pes, DbLookup(db, k, pes).value)
  {
    hide FoundIn, Holds, TryModules, Modules;
    if pes == [] || pes == [""] {
      assert PathOf(t, 0) == [ROOT_NAME];
      KeyFound(db, k, t, [ROOT_NAME]);
      RootFound(t, pes, DbLookup(db, k, pes).value);
    } else {
      var i := IndexOf(pes[0], ':');
      if 0 < i < |pes[0]| {
        var rest := [pes[0][i + 1..]] + pes[1..];
        assert forall j | 0 <= j < |rest| :: '/' !in rest[j];
        TryFound(db, k, t, [pes[0][..i]], rest);
        SameLength(t, rest, pes, DbLookup(db, k, pes).value);
      } else {
        SortedModulesPlain(db, k, t);
        TryFound(db, k, t, Sort(ModLess, Modules(db, k).value), pes);
      }
    }
  }

  lemma {:induction false} RootFound(t: Links, pes: seq<string>, v: SchemaElem)
    requires FoundIn(t, [ROOT_NAME], v) && |pes| <= 1
    ensures FoundIn(t, pes, v)
  {
  }

  lemma {:induction false} SameLength(t: Links, p: seq<string>, q: seq<string>, v: SchemaElem)
    requires FoundIn(t, p, v) && |p| == |q|
    ensures FoundIn(t, q, v)
  {
  }

  lemma {:induction false} ChildNames(t: Links, e: Id, v: SchemaElem)
    requires e < |t| && IsElemOf(t, e, v) && v.ContainerElem?
    ensures NoDup(v.children) && forall n :: n in v.children <==> n in DirChildNames(t, e)
    ensures forall i | 0 <= i < |v.children| :: '/' !in v.children[i]
  {
    LexStrictTotal();
    SortedSetSorted(LexLess, DirChildNames(t, e));
    forall i | 0 <= i < |v.children| ensures '/' !in v.children[i] {
      assert v.children[i] in v.children;
      var c: Id :| c < |t| && IsDirChild(t, e, c) && t[c].name == v.children[i];
      UpFacts(t, c);
      IdentifierIsPlain(t[c].name);
    }
  }

  // ----- children and targets

  /** The flattened child of `e` on the way to its descendant `l`. */
  ghost function ChildTo(t: Links, e: Id, l: Id): (c: Id)
    requires e < |t| && IsData(t, e) && e < l < |t| && IsData(t, l) && InSubtree(t, e, l)
    ensures Offers(t, e, c) && c < |t| && InSubtree(t, c, l)
    decreases l
  {
    UpFacts(t, l);
    DataParentInSubtree(t, e, l);
    var p := DataParent(t, l);
    SubtreeOrder(t, e, p);
    if p == e then UnderData(t, e, l); l
    else
      InUpper(t, p, l);
      SubtreeTransitive(t, ChildTo(t, e, p), p, l);
      ChildTo(t, e, p)
  }

  lemma {:induction false} OfferedBelow(t: Links, e: Id, c: Id)
    requires e < |t| && IsData(t, e) && Offers(t, e, c)
    ensures InSubtree(t, e, c) && e < c < |t| && DataParent(t, c) == e
  {
    UnderData(t, e, c);
    InUpper(t, e, c);
  }

  lemma {:induction false} ChildToUnique(t: Links, e: Id, c: Id, l: Id)
    requires e < |t| && IsData(t, e) && Offers(t, e, c) && l < |t| && IsData(t, l) && InSubtree(t, c, l)
    ensures InSubtree(t, e, l) && e < l && ChildTo(t, e, l) == c
    decreases l
  {
    OfferedBelow(t, e, c);
    SubtreeTransitive(t, e, c, l);
    if l == c {
      UpFacts(t, c);
    } else {
      SubtreeOrder(t, c, l);
      DataParentInSubtree(t, c, l);
      ChildToUnique(t, e, c, DataParent(t, l));
    }
  }

  /** A leaf child is a field of the element exactly when it is not a key of its list. */
  lemma {:induction false} FieldIsTarget(t: Tree, e: Id, c: Id)
    requires e < |t| && IsData(t, e) && Offers(t, e, c) && t[c].kind.Leaf?
    ensures IsKeyLeaf(t, c) <==> t[c].name in t[e].keys
  {
    OfferedBelow(t, e, c);
    UpFacts(t, c);
    if t[c].name in t[e].keys {
      KeyIsChild(t, e, t[c].name);
      OfferedNamesUnique(t, e, c, t[e].dir[t[c].name]);
      DirFacts(t, e, t[c].name);
    }
    if Up(t, c) != e {
      KeysOnlyInLists(t, Up(t, c));
    }
  }

  lemma {:induction false} LeafListIsTarget(t: Links, c: Id)
    requires 0 < c < |t| && t[c].kind.LeafList?
    ensures !IsKeyLeaf(t, c)
  {
    if IsKeyLeaf(t, c) { KeyIsLeaf(t, c); }
  }

  /** The targets below `e` that lie under one of the given children. */
  ghost predicate TargetVia(t: Links, e: Id, dt: DataType, l: Id, c: Id)
    requires e < |t| && IsData(t, e)
  {
    IsTarget(t, e, dt, l) && l > e && ChildTo(t, e, l) == c
  }

  lemma {:induction false} ViaTerminal(t: Tree, e: Id, dt: DataType, c: Id)
    requires e < |t| && IsData(t, e) && Offers(t, e, c) && t[c].kind.IsTerminal()
    ensures forall l: Id :: TargetVia(t, e, dt, l, c) <==> l == c && !IsKeyLeaf(t, c) && OfType(t, dt, c)
    ensures PathBelow(t, e, c) == [PathElem(t[c].name, map[])]
  {
    OfferedBelow(t, e, c);
    OnlyItself(t, c);
    ChildToUnique(t, e, c, c);
    BelowThrough(t, e, c, c);
  }

  lemma {:induction false} ViaDir(t: Tree, e: Id, dt: DataType, c: Id)
    requires e < |t| && IsData(t, e) && Offers(t, e, c) && !t[c].kind.IsTerminal()
    ensures forall l: Id :: TargetVia(t, e, dt, l, c) <==> IsTarget(t, c, dt, l)
    ensures forall l: Id | IsTarget(t, c, dt, l) :: PathBelow(t, e, l) == [StarElem(t, c)] + PathBelow(t, c, l)
  {
    OfferedBelow(t, e, c);
    forall l: Id | l < |t| && IsData(t, l) && InSubtree(t, c, l) ensures InSubtree(t, e, l) && e < l && ChildTo(t, e, l) == c {
      ChildToUnique(t, e, c, l);
    }
    forall l: Id | IsTarget(t, c, dt, l) ensures PathBelow(t, e, l) == [StarElem(t, c)] + PathBelow(t, c, l) {
      BelowThrough(t, e, c, l);
    }
  }

  // ----- where the elements lead

  /** The path of `top` as it continues downwards; the root's own name is not written. */
  ghost function Above(t: Links, top: Id): seq<string>
    requires top < |t|
  {
    if top == 0 then [] else PathOf(t, top)
  }

  /** `pe` stands for the data node at `path`, with all keys a star if it is a list. */
  ghost predicate StandsFor(t: Links, path: seq<string>, pe: PathElem) {
    exists x: Id :: x < |t| && IsData(t, x) && PathOf(t, x) == path && WithStars(t, x, pe)
  }

  lemma {:induction false} PathStepsDown(t: Links, l: Id)
    requires 0 < l < |t|
    ensures PathOf(t, l) == Above(t, DataParent(t, l)) + [t[l].name]
  {
    UpFacts(t, l);
    if Up(t, l) != 0 { DataParentKeepsModule(t, l); }
    assert [] + [t[l].name] == [t[l].name];
  }

  /** The elements below `top` spell the path of `l`, and each stands for the node on the way. */
  lemma {:induction false} PathBelowLeads(t: Links, top: Id, l: Id)
    requires top < l < |t| && IsData(t, top) && IsData(t, l) && InSubtree(t, top, l)
    ensures var p := PathBelow(t, top, l);
            && PathOf(t, l) == Above(t, top) + Names(p)
            && forall i | 0 <= i < |p| :: StandsFor(t, Above(t, top) + Names(p)[..i + 1], p[i])
    decreases l
  {
    hide StandsFor, PathOf;
    var up := DataParent(t, l);
    DataParentInSubtree(t, top, l);
    PathStepsDown(t, l);
    var p, q := PathBelow(t, top, l), PathBelow(t, top, up);
    if up == top {
      assert q == [] && Names(p) == [t[l].name];
    } else {
      PathBelowLeads(t, top, up);
      Assoc(Above(t, top), Names(q), [t[l].name]);
      assert Above(t, up) == PathOf(t, up);
    }
    assert p == q + [StarElem(t, l)];
    assert Names(p) == Names(q) + [t[l].name];
    forall i | 0 <= i < |p| ensures StandsFor(t, Above(t, top) + Names(p)[..i + 1], p[i]) {
      if i < |q| {
        assert Names(p)[..i + 1] == Names(q)[..i + 1];
      } else {
        assert Names(p)[..i + 1] == Names(p);
        StarStands(t, l);
      }
    }
  }

  lemma {:induction false} StarStands(t: Links, l: Id)
    requires l < |t| && IsData(t, l)
    ensures StandsFor(t, PathOf(t, l), StarElem(t, l))
  {
    assert WithStars(t, l, StarElem(t, l));
  }

  // ----- the result of an expansion

  /** The request path with all keys of its last element set to a star. */
  function Starred(p: seq<PathElem>, ks: seq<string>): (r: seq<PathElem>)
    ensures |r| == |p| && Names(r) == Names(p)
    ensures p == [] || ks == [] ==> r == p
    ensures p != [] ==> r[..|p| - 1] == p[..|p| - 1]
    ensures p != [] ==> forall k :: k in r[|p| - 1].key <==> k in p[|p| - 1].key || k in ks
    ensures p != [] ==> forall k | k in r[|p| - 1].key :: r[|p| - 1].key[k] == if k in ks then "*" else p[|p| - 1].key[k]
  {
    if p == [] || ks == [] then p
    else
      var last := p[|p| - 1];
      var r := p[..|p| - 1] + [PathElem(last.name, last.key + map k | k in ks :: "*")];
      assert Names(r) == Names(p);
      r
  }

  ghost predicate Prefixed(t: Links, p: seq<PathElem>, e: Id, rs: seq<seq<PathElem>>, ids: seq<Id>) {
    |rs| == |ids| && forall i | 0 <= i < |ids| :: ids[i] < |t| && rs[i] == p + PathBelow(t, e, ids[i])
  }

  /** `rs` extends `p` by exactly the paths below `e` of its targets, each once. */
  ghost predicate ExpandsFrom(t: Links, p: seq<PathElem>, e: Id, dt: DataType, rs: seq<seq<PathElem>>, ids: seq<Id>) {
    && NoDup(ids) && (forall l :: l in ids <==> IsTarget(t, e, dt, l))
    && Prefixed(t, p, e, rs, ids)
  }

  lemma {:induction false} PrefixedConcat(t: Links, p: seq<PathElem>, e: Id, rs: seq<seq<PathElem>>, ids: seq<Id>, rs': seq<seq<PathElem>>, ids': seq<Id>)
    requires Prefixed(t, p, e, rs, ids) && Prefixed(t, p, e, rs', ids')
    ensures Prefixed(t, p, e, rs + rs', ids + ids')
  {
  }

  lemma {:induction false} PrefixedChild(t: Tree, p: seq<PathElem>, e: Id, c: Id, dt: DataType, rs: seq<seq<PathElem>>, ids: seq<Id>)
    requires e < |t| && IsData(t, e) && Offers(t, e, c) && !t[c].kind.IsTerminal()
    requires ExpandsFrom(t, p + [StarElem(t, c)], c, dt, rs, ids)
    ensures Prefixed(t, p, e, rs, ids)
  {
    ViaDir(t, e, dt, c);
    forall i | 0 <= i < |ids| ensures rs[i] == p + PathBelow(t, e, ids[i]) {
      assert ids[i] in ids;
      Assoc(p, [StarElem(t, c)], PathBelow(t, c, ids[i]));
    }
  }

  // ----- leaves of an element

  /** The paths `addPath` adds for the leaves of an element. */
  function LeafPaths(p: seq<PathElem>, infos: seq<LeafInfo>, dt: DataType): seq<seq<PathElem>> {
    if infos == [] then []
    else
      var l := infos[|infos| - 1];
      LeafPaths(p, infos[..|infos| - 1], dt) +
      if Wanted(dt, l.isState) then [p + [PathElem(l.name, map[])]] else []
  }

  ghost function WantedIds(t: Links, cs: seq<Id>, dt: DataType): seq<Id>
    requires forall i | 0 <= i < |cs| :: cs[i] < |t|
  {
    if cs == [] then []
    else
      var c := cs[|cs| - 1];
      WantedIds(t, cs[..|cs| - 1], dt) + if Wanted(dt, IsState(t, c)) then [c] else []
  }

  lemma {:induction false} WantedFacts(t: Links, cs: seq<Id>, dt: DataType)
    requires NoDup(cs) && forall i | 0 <= i < |cs| :: cs[i] < |t|
    ensures NoDup(WantedIds(t, cs, dt))
    ensures forall c :: c in WantedIds(t, cs, dt) <==> c in cs && Wanted(dt, IsState(t, c))
  {
    if cs != [] {
      var init, c := cs[..|cs| - 1], cs[|cs| - 1];
      WantedFacts(t, init, dt);
      assert c !in init;
      NoDupConcat(WantedIds(t, init, dt), if Wanted(dt, IsState(t, c)) then [c] else []);
      Unsnoc(cs);
    }
  }

  lemma {:induction false} LeafPathsOf(t: Tree, p: seq<PathElem>, e: Id, infos: seq<LeafInfo>, cs: seq<Id>, dt: DataType)
    requires e < |t| && IsData(t, e) && |infos| == |cs|
    requires forall i | 0 <= i < |cs| :: cs[i] < |t| && infos[i] == Info(t, cs[i]) && Offers(t, e, cs[i]) && t[cs[i]].kind.IsTerminal()
    ensures Prefixed(t, p, e, LeafPaths(p, infos, dt), WantedIds(t, cs, dt))
    decreases |cs|
  {
    if cs != [] {
      var n := |cs| - 1;
      LeafPathsOf(t, p, e, infos[..n], cs[..n], dt);
      if Wanted(dt, IsState(t, cs[n])) {
        ViaTerminal(t, e, dt, cs[n]);
        PrefixedConcat(t, p, e, LeafPaths(p, infos[..n], dt), WantedIds(t, cs[..n], dt),
                       [p + [PathElem(t[cs[n]].name, map[])]], [cs[n]]);
      } else {
        assert LeafPaths(p, infos, dt) == LeafPaths(p, infos[..n], dt) + [];
        assert WantedIds(t, cs, dt) == WantedIds(t, cs[..n], dt) + [];
      }
    }
  }

  /** A target below `e` that is a leaf child of the given kind. */
  ghost predicate ViaLeaf(t: Links, e: Id, dt: DataType, l: Id, list: bool) {
    && IsTarget(t, e, dt, l) && l > e && Offers(t, e, l)
    && (if list then t[l].kind.LeafList? else t[l].kind.Leaf?)
  }

  /** A target below `e` that lies in a child container or list with one of the names. */
  ghost predicate ViaDirs(t: Links, e: Id, dt: DataType, l: Id, names: seq<string>)
    requires e < |t| && IsData(t, e)
  {
    && IsTarget(t, e, dt, l) && l > e
    && var c := ChildTo(t, e, l);
    && !t[c].kind.IsTerminal() && t[c].name in names
  }

  /** The leaf-lists, or the leaves that are not keys, among the children. */
  ghost function LeafChildren(t: Links, e: Id, list: bool): iset<Id>
    requires e < |t|
  {
    if list then iset c | IsLeafListChild(t, e, c) else iset c | IsField(t, e, c)
  }

  lemma {:induction false} LeafChildIsTarget(t: Tree, e: Id, dt: DataType, list: bool, l: Id)
    requires e < |t| && IsData(t, e)
    ensures l in LeafChildren(t, e, list) ==> Offers(t, e, l) && t[l].kind.IsTerminal()
    ensures ViaLeaf(t, e, dt, l, list) <==> l in LeafChildren(t, e, list) && Wanted(dt, IsState(t, l))
  {
    if l < |t| { WantedMeans(t, dt, l); }
    if Offers(t, e, l) && t[l].kind.IsTerminal() {
      OfferedBelow(t, e, l);
      if t[l].kind.Leaf? { FieldIsTarget(t, e, l); } else { LeafListIsTarget(t, l); }
    }
  }

  /** The wanted fields, or the wanted leaf-lists, of an element are targets of its node. */
  lemma {:induction false} LeavesCovered(t: Tree, p: seq<PathElem>, e: Id, infos: seq<LeafInfo>, dt: DataType, list: bool)
    returns (ids: seq<Id>)
    requires e < |t| && IsData(t, e) && Lists(t, infos, LeafChildren(t, e, list))
    ensures NoDup(ids) && Prefixed(t, p, e, LeafPaths(p, infos, dt), ids)
    ensures forall l :: l in ids <==> ViaLeaf(t, e, dt, l, list)
  {
    var cs :| Listing(t, infos, cs, LeafChildren(t, e, list));
    ids := WantedIds(t, cs, dt);
    WantedFacts(t, cs, dt);
    forall l: Id
      ensures l in cs ==> Offers(t, e, l) && t[l].kind.IsTerminal()
      ensures l in ids <==> ViaLeaf(t, e, dt, l, list)
    {
      LeafChildIsTarget(t, e, dt, list, l);
    }
    assert forall i | 0 <= i < |cs| :: cs[i] in cs;
    LeafPathsOf(t, p, e, infos, cs, dt);
  }

  /** Fields, leaf-lists and children together make up the targets. */
  lemma {:induction false} AllCovered(t: Tree, p: seq<PathElem>, e: Id, dt: DataType, names: seq<string>,
                    fs: seq<seq<PathElem>>, fids: seq<Id>, ls: seq<seq<PathElem>>, lids: seq<Id>,
                    ds: seq<seq<PathElem>>, dids: seq<Id>)
    requires e < |t| && IsData(t, e) && !t[e].kind.IsTerminal()
    requires forall n :: n in names <==> n in DirChildNames(t, e)
    requires NoDup(fids) && Prefixed(t, p, e, fs, fids) && forall l :: l in fids <==> ViaLeaf(t, e, dt, l, false)
    requires NoDup(lids) && Prefixed(t, p, e, ls, lids) && forall l :: l in lids <==> ViaLeaf(t, e, dt, l, true)
    requires NoDup(dids) && Prefixed(t, p, e, ds, dids) && forall l :: l in dids <==> ViaDirs(t, e, dt, l, names)
    ensures ExpandsFrom(t, p, e, dt, fs + ls + ds, fids + lids + dids)
  {
    forall l: Id | l < |t| && e < l && Offers(t, e, l) && t[l].kind.IsTerminal() ensures ChildToSelf(t, e, l) {
      OfferedBelow(t, e, l);
      ChildToUnique(t, e, l, l);
    }
    NoDupConcat(fids, lids);
    forall l | l in fids + lids ensures l !in dids { assert ChildToSelf(t, e, l); }
    NoDupConcat(fids + lids, dids);
    PrefixedConcat(t, p, e, fs, fids, ls, lids);
    PrefixedConcat(t, p, e, fs + ls, fids + lids, ds, dids);
    forall l ensures l in fids + lids + dids <==> IsTarget(t, e, dt, l) {
      if IsTarget(t, e, dt, l) {
        SubtreeOrder(t, e, l);
        var c := ChildTo(t, e, l);
        if t[c].kind.IsTerminal() {
          OfferedBelow(t, e, c);
          OnlyItself(t, c);
        } else {
          assert IsDirChild(t, e, c);
        }
      }
    }
  }

  ghost predicate ChildToSelf(t: Links, e: Id, l: Id)
    requires e < |t| && IsData(t, e)
  {
    e < l < |t| && IsData(t, l) && InSubtree(t, e, l) && ChildTo(t, e, l) == l
  }

  /** One more child expanded. */
  lemma {:induction false} DirsMore(t: Tree, p: seq<PathElem>, e: Id, dt: DataType, names: seq<string>, c: Id,
                  ds: seq<seq<PathElem>>, dids: seq<Id>, sub: seq<seq<PathElem>>, sids: seq<Id>)
    requires e < |t| && IsData(t, e) && IsDirChild(t, e, c) && t[c].name !in names
    requires NoDup(dids) && Prefixed(t, p, e, ds, dids) && forall l :: l in dids <==> ViaDirs(t, e, dt, l, names)
    requires ExpandsFrom(t, p + [StarElem(t, c)], c, dt, sub, sids)
    ensures NoDup(dids + sids) && Prefixed(t, p, e, ds + sub, dids + sids)
    ensures forall l :: l in dids + sids <==> ViaDirs(t, e, dt, l, names + [t[c].name])
  {
    ViaDir(t, e, dt, c);
    PrefixedChild(t, p, e, c, dt, sub, sids);
    forall l: Id ensures l in sids <==> TargetVia(t, e, dt, l, c) {
      assert l in sids <==> IsTarget(t, c, dt, l);
    }
    NoDupConcat(dids, sids);
    PrefixedConcat(t, p, e, ds, dids, sub, sids);
    forall l: Id ensures l in dids + sids <==> ViaDirs(t, e, dt, l, names + [t[c].name]) {
      if IsTarget(t, e, dt, l) && l > e {
        var x := ChildTo(t, e, l);
        if t[x].name == t[c].name { OfferedNamesUnique(t, e, x, c); }
      }
    }
  }

  lemma {:induction false} StarredChild(t: Links, p: seq<PathElem>, c: Id)
    requires c < |t|
    ensures Starred(p + [PathElem(t[c].name, map[])], t[c].keys) == p + [StarElem(t, c)]
  {
    KeysOnlyInLists(t, c);
    var q := p + [PathElem(t[c].name, map[])];
    assert q[..|q| - 1] == p;
    var stars: map<string, string> := map k | k in t[c].keys :: "*";
    assert map[] + stars == stars;
    if t[c].keys == [] { assert stars == map[]; }
  }

  /** The two expansions agree: their suffixes below the common node are the same multiset. */
  lemma {:induction false} ExpansionsAgree(t: Links, p: seq<PathElem>, e: Id, dt: DataType,
                         stored: seq<seq<PathElem>>, ids: seq<Id>, walked: seq<seq<PathElem>>, ids': seq<Id>)
    requires ExpandsFrom(t, p, e, dt, stored, ids) && Expands(t, e, e, dt, walked, ids')
    ensures multiset(Suffixes(stored, |p|)) == multiset(walked)
  {
    var s := Suffixes(stored, |p|);
    forall i | 0 <= i < |ids| ensures ids[i] < |t| && s[i] == PathBelow(t, e, ids[i]) {
      assert stored[i] == p + PathBelow(t, e, ids[i]);
    }
    NoDupMultiset(ids, ids');
    SamePaths(t, e, s, ids, walked, ids');
  }

  function Suffixes(rs: seq<seq<PathElem>>, n: nat): (r: seq<seq<PathElem>>)
    ensures |r| == |rs| && forall i | 0 <= i < |rs| && |rs[i]| >= n :: r[i] == rs[i][n..]
  {
    seq(|rs|, i requires 0 <= i < |rs| => if |rs[i]| >= n then rs[i][n..] else [])
  }
}
