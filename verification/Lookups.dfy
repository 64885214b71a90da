/** What `GetEntry` and the store's lookup answer, said in terms of the schema alone. */
module Lookups {
  import opened Wrappers
  import opened Text
  import opened ModuleOrder
  import opened YangTree
  import opened Navigation
  import opened SchemaElems
  import opened KeyCodec
  import opened StoreIndex

  // ----- written paths

  /** Prefixes do not matter below the start of a descent. */
  lemma {:induction false} DescendSpelled(t: Links, e: Id, items: seq<Item>)
    requires e < |t| && AllOk(items) && forall i | 0 <= i < |items| :: ':' !in items[i].name
    ensures Descend(t, e, Written(items)) == Descend(t, e, Spelled(items))
    decreases |items|
  {
    if items != [] {
      ItemsTail(items);
      var c := Child(t, e, items[0].name);
      assert Spelled(items)[1..] == Spelled(items[1..]);
      if c.Some? { DescendSpelled(t, c.value, items[1..]); }
    }
  }

  /** `x` is the data node whose path is `path`. */
  ghost predicate At(t: Links, path: seq<string>, x: Id) {
    x < |t| && IsData(t, x) && PathOf(t, x) == path
  }

  lemma {:induction false} FoundAt(t: Links, e: Id, items: seq<Item>, x: Id)
    requires 0 < e < |t| && IsData(t, e) && AllOk(items) && Descend(t, e, Written(items)) == Some(x)
    ensures At(t, PathOf(t, e) + Spelled(items), x)
    decreases |items|
  {
    if items == [] {
      assert PathOf(t, e) + Spelled(items) == PathOf(t, e);
    } else {
      ItemsTail(items);
      var c := Child(t, e, items[0].name).value;
      ChildPath(t, e, c);
      FoundAt(t, c, items[1..], x);
      Assoc(PathOf(t, e), [items[0].name], Spelled(items[1..]));
    }
  }

  lemma {:induction false} NamesPlain(t: Links, x: Id)
    requires x < |t|
    ensures forall i | 0 <= i < |PathOf(t, x)| :: ':' !in PathOf(t, x)[i]
  {
    PathOfOk(t, x);
  }

  lemma {:induction false} AtIsFound(t: Tree, m: string, items: seq<Item>, x: Id)
    requires m in t[0].dir && AllOk(items) && At(t, [m] + Spelled(items), x)
    ensures t[0].dir[m] < |t| && Descend(t, t[0].dir[m], Written(items)) == Some(x)
  {
    hide Linked, NamesUnique;
    ModuleFacts(t, m);
    var d, names := t[0].dir[m], Spelled(items);
    NamesPlain(t, x);
    forall i | 0 <= i < |items| ensures ':' !in items[i].name { assert PathOf(t, x)[i + 1] == names[i]; }
    PathOfHead(t, x);
    assert PathOf(t, x)[0] == m;
    UpDownInverse(t, d, names, x);
    DescendSpelled(t, d, items);
  }

  /** A written path finds, from a module, exactly the node whose path are the module and the
      names, whatever the prefixes. */
  lemma {:induction false} DescendWritten(t: Tree, m: string, items: seq<Item>, x: Id)
    requires m in t[0].dir && AllOk(items)
    ensures t[0].dir[m] < |t|
    ensures Descend(t, t[0].dir[m], Written(items)) == Some(x) <==> At(t, [m] + Spelled(items), x)
  {
    ModuleFacts(t, m);
    var d := t[0].dir[m];
    assert PathOf(t, d) == [m];
    hide Descend, Linked, NamesUnique, PathOf, At;
    if Descend(t, d, Written(items)) == Some(x) { FoundAt(t, d, items, x); }
    if At(t, [m] + Spelled(items), x) { AtIsFound(t, m, items, x); }
  }

  // ----- `GetEntry`

  /** The item names a module, under the module's own prefix if it has one. */
  ghost predicate NamesModule(t: Links, item: Item) {
    item.name in t[0].dir &&
    (DirFacts(t, 0, item.name); item.prefix.Some? ==> t[t[0].dir[item.name]].prefix == item.prefix.value)
  }

  /** Module `m` has the name directly in its `Dir`, under the item's prefix if it has one. */
  ghost predicate HasEntry(t: Links, m: string, item: Item) {
    && m in t[0].dir
    && (DirFacts(t, 0, m);
        var top := t[t[0].dir[m]].dir;
        item.name in top &&
        (DirFacts(t, t[0].dir[m], item.name); item.prefix.Some? ==> t[top[item.name]].prefix == item.prefix.value))
  }

  ghost predicate MayAnswer(t: Links, m: string, items: seq<Item>, x: Id)
    requires items != []
  {
    HasEntry(t, m, items[0]) && At(t, [m] + Spelled(items), x)
  }

  lemma {:induction false} CandidatesMean(t: Links, item: Item)
    requires item.Ok()
    ensures NamesModule(t, item) ==> Candidates(t, item.Text()) == {item.name}
    ensures !NamesModule(t, item) ==> forall m :: m in Candidates(t, item.Text()) <==> HasEntry(t, m, item)
  {
    LocalOfItem(item);
  }

  lemma {:induction false} HitsMean(t: Tree, items: seq<Item>, m: string)
    requires items != [] && AllOk(items)
    ensures m in CandidateHits(t, Written(items)) <==>
            (if NamesModule(t, items[0]) then m == items[0].name else HasEntry(t, m, items[0])) &&
            exists x: Id :: At(t, [m] + Spelled(items), x)
  {
    var pe := Written(items);
    CandidatesMean(t, items[0]);
    CandidatesAreModules(t, pe[0]);
    if m in t[0].dir {
      var r := Descend(t, t[0].dir[m], pe);
      if r.Some? { DescendWritten(t, m, items, r.value); }
      if x: Id :| At(t, [m] + Spelled(items), x) { DescendWritten(t, m, items, x); }
    }
  }

  /** `GetEntry` answers a path that starts with a module's name from that module: with the node
      whose path repeats the name, or with the module itself when the bare name stands alone. */
  lemma {:induction false} GetEntryOfModule(t: Tree, items: seq<Item>, x: Id)
    requires items != [] && AllOk(items) && NamesModule(t, items[0])
    ensures var m := items[0].name;
            Resolve(t, Written(items)) == Some(x) <==>
            At(t, [m] + Spelled(items), x) ||
            (|items| == 1 && items[0].prefix.None? && x == t[0].dir[m] && forall y: Id :: !At(t, [m] + Spelled(items), y))
  {
    var pe, m := Written(items), items[0].name;
    CandidatesMean(t, items[0]);
    CandidatesAreModules(t, pe[0]);
    LocalOfItem(items[0]);
    var hits := CandidateHits(t, pe);
    assert hits <= {m};
    HitsMean(t, items, m);
    if hits != {} { assert Best(hits) == m; }
    DescendWritten(t, m, items, x);
    forall y: Id | At(t, [m] + Spelled(items), y) ensures m in hits {}
  }

  /** `m` is tried first among the modules that may answer. */
  ghost predicate FirstToAnswer(t: Links, m: string, items: seq<Item>, x: Id)
    requires items != []
  {
    MayAnswer(t, m, items, x) && forall m', y: Id | MayAnswer(t, m', items, y) && m' != m :: Earlier(m, m')
  }

  lemma {:induction false} BestIsFirst(t: Tree, items: seq<Item>, m: string)
    requires items != [] && AllOk(items) && !NamesModule(t, items[0])
    ensures IsLeast(ModLess, m, CandidateHits(t, Written(items))) <==> exists x: Id :: FirstToAnswer(t, m, items, x)
  {
    hide MayAnswer, Earlier, ModLess, CandidateHits;
    var hits := CandidateHits(t, Written(items));
    forall m' ensures m' in hits <==> exists y: Id :: MayAnswer(t, m', items, y) { HitIsAnswer(t, items, m'); }
    forall m' ensures ModLess(m, m') <==> Earlier(m, m') { ModLessIsEarlier(m, m'); }
    if x: Id :| FirstToAnswer(t, m, items, x) {
      forall m' | m' in hits && m' != m ensures ModLess(m, m') {
        var y: Id :| MayAnswer(t, m', items, y);
      }
    }
    if IsLeast(ModLess, m, hits) {
      var x: Id :| MayAnswer(t, m, items, x);
      assert FirstToAnswer(t, m, items, x);
    }
  }

  lemma {:induction false} HitIsAnswer(t: Tree, items: seq<Item>, m: string)
    requires items != [] && AllOk(items) && !NamesModule(t, items[0])
    ensures m in CandidateHits(t, Written(items)) <==> exists x: Id :: MayAnswer(t, m, items, x)
  {
    hide At;
    HitsMean(t, items, m);
    if x: Id :| At(t, [m] + Spelled(items), x) && HasEntry(t, m, items[0]) { assert MayAnswer(t, m, items, x); }
  }

  lemma {:induction false} NotAlone(t: Links, items: seq<Item>)
    requires items != [] && AllOk(items) && !NamesModule(t, items[0])
    ensures Candidates(t, Written(items)[0]) != {Written(items)[0]}
  {
    CandidatesMean(t, items[0]);
    LocalOfItem(items[0]);
    if Candidates(t, Written(items)[0]) == {Written(items)[0]} {
      ModuleFacts(t, Written(items)[0]);
      IdentifierIsPlain(Written(items)[0]);
    }
  }

  lemma {:induction false} ResolveHits(t: Links, pe: seq<string>)
    requires pe != [] && Candidates(t, pe[0]) != {pe[0]}
    ensures Resolve(t, pe) == (CandidatesAreModules(t, pe[0]);
                               if CandidateHits(t, pe) == {} then None else Descend(t, t[0].dir[Best(CandidateHits(t, pe))], pe))
  {
  }

  lemma {:induction false} AnswersFrom(t: Tree, items: seq<Item>, m: string, x: Id)
    requires items != [] && AllOk(items) && !NamesModule(t, items[0])
    requires IsLeast(ModLess, m, CandidateHits(t, Written(items)))
    ensures m in t[0].dir && t[0].dir[m] < |t|
    ensures Descend(t, t[0].dir[m], Written(items)) == Some(x) <==> FirstToAnswer(t, m, items, x)
  {
    hide Descend, At, Linked, NamesUnique, Earlier;
    HitIsAnswer(t, items, m);
    BestIsFirst(t, items, m);
    DescendWritten(t, m, items, x);
  }

  lemma {:induction false} FirstIsLeast(t: Tree, items: seq<Item>, m: string, x: Id)
    requires items != [] && AllOk(items) && !NamesModule(t, items[0]) && FirstToAnswer(t, m, items, x)
    ensures IsLeast(ModLess, m, CandidateHits(t, Written(items)))
  {
    hide FirstToAnswer, ModLess;
    BestIsFirst(t, items, m);
  }

  /** Any other path is answered from the module that is tried first among those that have the
      first name directly below them and the node at the whole path. */
  lemma {:induction false} GetEntryExact(t: Tree, items: seq<Item>, x: Id)
    requires items != [] && AllOk(items) && !NamesModule(t, items[0])
    ensures Resolve(t, Written(items)) == Some(x) <==> exists m :: FirstToAnswer(t, m, items, x)
  {
    hide Candidates, Descend, At, Linked, NamesUnique, FirstToAnswer, CandidateHits, Resolve, ModLess;
    var pe := Written(items);
    NotAlone(t, items);
    ResolveHits(t, pe);
    var hits := CandidateHits(t, pe);
    if hits != {} { AnswersFrom(t, items, Best(hits), x); }
    if m :| FirstToAnswer(t, m, items, x) {
      FirstIsLeast(t, items, m, x);
      LeastUnique(m, Best(hits), hits);
    }
  }

  /** No answer comes from a standards module when another module may answer, and within one
      group it comes from the first in dictionary order. */
  lemma {:induction false} StandardsLast(t: Tree, items: seq<Item>, x: Id, m: string, y: Id)
    requires items != [] && AllOk(items) && !NamesModule(t, items[0])
    requires Resolve(t, Written(items)) == Some(x) && MayAnswer(t, m, items, y)
    ensures x < |t|
    ensures var from := PathOf(t, x)[0];
            && (Occurs("ietf", from) || Occurs("iana", from) ==> Occurs("ietf", m) || Occurs("iana", m))
            && ((Occurs("ietf", from) || Occurs("iana", from) <==> Occurs("ietf", m) || Occurs("iana", m)) ==>
                  from == m || Before(from, m))
  {
    GetEntryExact(t, items, x);
    var b :| FirstToAnswer(t, b, items, x);
    assert PathOf(t, x)[0] == b;
    assert b != m ==> Earlier(b, m);
  }

  // ----- the store

  /** The path under which the index holds `pe` in module `m`. */
  function PathIn(m: string, pe: seq<string>): seq<string>
    requires pe != []
  {
    if pe[0] == m then pe else [m] + pe
  }

  ghost predicate InIndex(t: Links, m: string, pe: seq<string>, x: Id)
    requires pe != []
  {
    m in t[0].dir && At(t, PathIn(m, pe), x)
  }

  ghost predicate FirstInIndex(t: Links, m: string, pe: seq<string>, x: Id)
    requires pe != []
  {
    InIndex(t, m, pe, x) && forall m', y: Id | InIndex(t, m', pe, y) && m' != m :: Earlier(m, m')
  }

  /** Names without prefix. */
  function Bare(names: seq<string>): (items: seq<Item>)
    ensures Spelled(items) == names && Written(items) == names
    ensures (forall i | 0 <= i < |names| :: ':' !in names[i]) ==> AllOk(items)
  {
    var items := seq(|names|, i requires 0 <= i < |names| => Item(None, names[i]));
    assert Spelled(items) == names && Written(items) == names;
    items
  }

  lemma {:induction false} AnswerIsAt(t: Tree, m: string, pe: seq<string>, x: Id)
    requires m in t[0].dir && PlainNames(pe)
    ensures AnswerIn(t, m, pe) == Some(x) <==> InIndex(t, m, pe, x)
  {
    var rest := Below(m, pe);
    assert [m] + rest == PathIn(m, pe);
    assert forall i | 0 <= i < |rest| :: ':' !in rest[i];
    DescendWritten(t, m, Bare(rest), x);
  }

  lemma {:induction false} IndexHit(t: Tree, m: string, pe: seq<string>)
    requires PlainNames(pe)
    ensures m in AllHits(t, pe) <==> exists x: Id :: InIndex(t, m, pe, x)
  {
    hide AnswerIn;
    if m in t[0].dir {
      if AnswerIn(t, m, pe).Some? { AnswerIsAt(t, m, pe, AnswerIn(t, m, pe).value); }
      if x: Id :| InIndex(t, m, pe, x) { AnswerIsAt(t, m, pe, x); }
    }
  }

  lemma {:induction false} BestInIndex(t: Tree, m: string, pe: seq<string>)
    requires PlainNames(pe)
    ensures IsLeast(ModLess, m, AllHits(t, pe)) <==> exists x: Id :: FirstInIndex(t, m, pe, x)
  {
    hide InIndex, Earlier, ModLess, AllHits;
    var hits := AllHits(t, pe);
    forall m' ensures m' in hits <==> exists y: Id :: InIndex(t, m', pe, y) { IndexHit(t, m', pe); }
    forall m' ensures ModLess(m, m') <==> Earlier(m, m') { ModLessIsEarlier(m, m'); }
    if x: Id :| FirstInIndex(t, m, pe, x) {
      forall m' | m' in hits && m' != m ensures ModLess(m, m') {
        var y: Id :| InIndex(t, m', pe, y);
      }
    }
    if IsLeast(ModLess, m, hits) {
      var x: Id :| InIndex(t, m, pe, x);
      assert FirstInIndex(t, m, pe, x);
    }
  }

  /** The index answers from the module that is tried first among those that have the path. */
  lemma {:induction false} IndexExact(t: Tree, pe: seq<string>, x: Id)
    requires PlainNames(pe)
    ensures IndexNode(t, pe) == Some(x) <==> exists m :: FirstInIndex(t, m, pe, x)
  {
    hide AnswerIn, AllHits, ModLess, At, PathIn, Earlier;
    var hits := AllHits(t, pe);
    if hits != {} {
      var b := Best(hits);
      BestInIndex(t, b, pe);
      IndexHit(t, b, pe);
      AnswerIsAt(t, b, pe, x);
      var first: Id :| FirstInIndex(t, b, pe, first);
      assert InIndex(t, b, pe, x) ==> FirstInIndex(t, b, pe, x);
    }
    if m :| FirstInIndex(t, m, pe, x) {
      BestInIndex(t, m, pe);
      LeastUnique(m, Best(hits), hits);
      AnswerIsAt(t, m, pe, x);
    }
  }

  lemma {:induction false} StoredSays(db: Db, k: SchemaKey, t: Tree, x: Id)
    requires Holds(db, k, t) && x < |t| && IsData(t, x)
    ensures ObjectAt(db, NodeKey(t, k, x)).Some? && Says(t, x, ObjectAt(db, NodeKey(t, k, x)).value)
  {
    assert StoredAt(db, k, t, x);
    ElementSays(t, x, db[NodeKey(t, k, x)].elem);
  }

  /** A path of plain names is answered with an element that says what the schema says about the
      node found in the first module that has the path, and with nothing when no module has it. */
  lemma {:induction false} LookupExact(db: Db, k: SchemaKey, t: Tree, pe: seq<string>)
    requires Holds(db, k, t) && PlainNames(pe)
    ensures DbLookup(db, k, pe).Some? <==> exists m, x: Id :: InIndex(t, m, pe, x)
    ensures forall m, x: Id | FirstInIndex(t, m, pe, x) :: DbLookup(db, k, pe).Some? && Says(t, x, DbLookup(db, k, pe).value)
  {
    hide Holds, DbLookup, IndexNode, Says, StoredAt, ElemAt, AllHits;
    LookupFindsIndexNode(db, k, t, pe);
    forall m, x: Id | FirstInIndex(t, m, pe, x) ensures DbLookup(db, k, pe).Some? && Says(t, x, DbLookup(db, k, pe).value) {
      IndexExact(t, pe, x);
      IndexElement(db, k, t, pe, x);
    }
    SomeIndexed(t, pe);
  }

  lemma {:induction false} SomeIndexed(t: Tree, pe: seq<string>)
    requires PlainNames(pe)
    ensures IndexNode(t, pe).Some? <==> exists m, x: Id :: InIndex(t, m, pe, x)
  {
    hide AnswerIn, InIndex;
    if m, x: Id :| InIndex(t, m, pe, x) { IndexHit(t, m, pe); }
    if AllHits(t, pe) != {} { IndexHit(t, Best(AllHits(t, pe)), pe); }
  }

  lemma {:induction false} IndexElement(db: Db, k: SchemaKey, t: Tree, pe: seq<string>, x: Id)
    requires Holds(db, k, t) && PlainNames(pe) && IndexNode(t, pe) == Some(x)
    ensures DbLookup(db, k, pe).Some? && Says(t, x, DbLookup(db, k, pe).value)
  {
    hide DbLookup, IndexNode, Says;
    LookupFindsIndexNode(db, k, t, pe);
    StoredSays(db, k, t, x);
  }

  /** The empty path is answered with the root. */
  lemma {:induction false} LookupRoot(db: Db, k: SchemaKey, t: Tree, pe: seq<string>)
    requires Holds(db, k, t) && (pe == [] || pe == [""])
    ensures DbLookup(db, k, pe).Some? && Says(t, 0, DbLookup(db, k, pe).value)
  {
    StoredSays(db, k, t, 0);
    assert PathOf(t, 0) == [ROOT_NAME];
  }

  lemma {:induction false} KeyIsAt(db: Db, k: SchemaKey, t: Tree, path: seq<string>)
    requires Holds(db, k, t) && PathOk(path)
    ensures var r := ObjectAt(db, EntryKey(k, path));
            && (r.Some? <==> exists x: Id :: At(t, path, x))
            && forall x: Id | At(t, path, x) :: r.Some? && Says(t, x, r.value)
  {
    hide Says, EntryKey;
    var key := EntryKey(k, path);
    if ObjectAt(db, key).Some? {
      KeyHasPrefix(k, path);
      var x := KeyNode(db, k, t, key);
      PathOfOk(t, x);
      EntryKeySame(k, PathOf(t, x), path);
      assert At(t, path, x);
    }
    forall x: Id | At(t, path, x) ensures ObjectAt(db, key).Some? && Says(t, x, ObjectAt(db, key).value) {
      StoredSays(db, k, t, x);
    }
  }

  lemma {:induction false} KeyHasPrefix(k: SchemaKey, path: seq<string>)
    requires path != []
    ensures EntryPrefix(k) <= EntryKey(k, path)
  {
  }

  lemma {:induction false} KeyNode(db: Db, k: SchemaKey, t: Tree, key: string) returns (x: Id)
    requires Holds(db, k, t) && key in db && EntryPrefix(k) <= key
    ensures x < |t| && IsData(t, x) && NodeKey(t, k, x) == key
  {
    x :| x < |t| && IsData(t, x) && NodeKey(t, k, x) == key;
  }

  lemma {:induction false} PrefixedKey(db: Db, k: SchemaKey, m: string, n: string, rest: seq<string>)
    requires m != "" && ':' !in m
    ensures DbLookup(db, k, [m + ":" + n] + rest) == ObjectAt(db, EntryKey(k, PathIn(m, [n] + rest)))
  {
    hide ObjectAt, EntryKey;
    var first, pe := m + ":" + n, [n] + rest;
    FirstOccurrence(m, ':', n);
    assert first == m + [':'] + n && first != "";
    ConsParts(first, rest);
    assert [m][1..] == [];
    assert TryModules(db, k, [m], pe) == ObjectAt(db, EntryKey(k, PathIn(m, pe)));
  }

  /** With a module in front of the first name, exactly the node at that path of that module is
      answered with, whatever other modules have. */
  lemma {:induction false} LookupInModule(db: Db, k: SchemaKey, t: Tree, m: string, n: string, rest: seq<string>)
    requires Holds(db, k, t) && m != "" && ':' !in m
    requires '/' !in n && forall i | 0 <= i < |rest| :: '/' !in rest[i]
    ensures var r := DbLookup(db, k, [m + ":" + n] + rest);
            && (r.Some? <==> exists x: Id :: At(t, PathIn(m, [n] + rest), x))
            && forall x: Id | At(t, PathIn(m, [n] + rest), x) :: r.Some? && Says(t, x, r.value)
  {
    hide DbLookup, ObjectAt, Holds, Says, At, EntryKey;
    PrefixedKey(db, k, m, n, rest);
    KeyIsAt(db, k, t, PathIn(m, [n] + rest));
  }
}
