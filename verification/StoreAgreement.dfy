/** `ToPath` over the index and `BuildPath` over the tree give the same keyed paths. */
module StoreAgreement {
  import opened Wrappers
  import opened Text
  import opened XPath
  import opened ModuleOrder
  import opened YangTree
  import opened Navigation
  import opened SchemaPaths
  import opened PathBuilder
  import opened PathBuilderInverse
  import opened KeyCodec
  import opened StoreIndex
  import opened StorePaths

  /** Among the modules in which the index finds the name `n`, `m` is tried first; the index
      takes a module's own name for the module. */
  ghost predicate TriedFirst(t: Links, m: string, n: string) {
    && HasTop(t, m, n) && n != m
    && forall m' | m' != m && (HasTop(t, m', n) || (m' == n && n in t[0].dir)) :: ModLess(m, m')
  }

  lemma {:induction false} TopOfModule(t: Links, m: string, n: string)
    requires HasTop(t, m, n)
    ensures m in t[0].dir && Up(t, Top(t, m, n)) == t[0].dir[m] && t[0].dir[m] != 0
  {
    DirFacts(t, 0, m);
    DirFacts(t, t[0].dir[m], n);
  }

  /** Without top-level choices the index knows a name in exactly the modules that have it at
      the top, and in the module of that name. */
  lemma {:induction false} TopAnswer(t: Tree, m: string, n: string)
    requires NoTopChoice(t) && PlainNames([n]) && m in t[0].dir
    ensures AnswerIn(t, m, [n]) == if m == n then Some(t[0].dir[m]) else if HasTop(t, m, n) then Some(Top(t, m, n)) else None
  {
    ModuleFacts(t, m);
    var d := t[0].dir[m];
    assert [n][1..] == [] && LocalName([n][0]) == n;
    if m != n {
      if HasTop(t, m, n) {
        TopIsChild(t, m, n);
        assert Descend(t, Top(t, m, n), []) == Some(Top(t, m, n));
      } else if Child(t, d, n).Some? {
        DirectWithoutTopChoice(t, m, n);
      }
    }
  }

  lemma {:induction false} TopIsChild(t: Tree, m: string, n: string)
    requires NoTopChoice(t) && HasTop(t, m, n)
    ensures t[0].dir[m] < |t| && IsData(t, Top(t, m, n)) && Child(t, t[0].dir[m], n) == Some(Top(t, m, n))
  {
    ModuleFacts(t, m);
    var e := Top(t, m, n);
    TopOfModule(t, m, n);
    UpFacts(t, e);
    assert HasChild(t, t[0].dir[m], n, e);
    ChildIs(t, t[0].dir[m], n, e);
  }

  lemma {:induction false} TopHits(t: Tree, n: string)
    requires NoTopChoice(t) && PlainNames([n])
    ensures forall m :: m in AllHits(t, [n]) <==> HasTop(t, m, n) || (m == n && n in t[0].dir)
    ensures AllHits(t, [n]) <= t[0].dir.Keys
  {
    hide AnswerIn;
    forall m | m in t[0].dir ensures m in AllHits(t, [n]) <==> HasTop(t, m, n) || m == n { TopAnswer(t, m, n); }
  }

  /** Without top-level choices, the index looks a name up in the module tried first. */
  lemma {:induction false} FirstModuleAnswers(t: Tree, m: string, n: string)
    requires NoTopChoice(t) && PlainNames([n]) && HasTop(t, m, n) && n != m
    ensures IndexNode(t, [n]) == Some(Top(t, m, n)) <==> TriedFirst(t, m, n)
  {
    hide AnswerIn, AllHits, NoTopChoice, HasTop;
    TopHits(t, n);
    var hits := AllHits(t, [n]);
    var b := Best(hits);
    assert b in hits && m in hits;
    TopAnswer(t, b, n);
    TopOfModule(t, m, n);
    if TriedFirst(t, m, n) {
      LeastUnique(m, b, hits);
    } else if b != n {
      TopOfModule(t, b, n);
      ModuleFacts(t, b);
      ModuleFacts(t, m);
    } else {
      ModuleFacts(t, b);
    }
  }

  lemma {:induction false} FirstIsPlain(t: Tree, ids: seq<Id>, p: seq<PathElem>)
    requires ValidPath(t, ids, p)
    ensures PlainNames([p[0].name]) && p[0].name == t[ids[0]].name
  {
    UpFacts(t, ids[0]);
    IdentifierIsPlain(p[0].name);
  }

  lemma {:induction false} AllOrNone(t: Links, e: Id, pe: PathElem)
    requires e < |t|
    requires t[e].kind.List? ==>
               pe.key.Keys <= Elements(t[e].keys) && (|pe.key| == 0 || |pe.key| == |t[e].keys|)
    ensures KeysInOrder(t, e, pe)
  {
    hide SortedKeyNames;
    if t[e].kind.List? {
      SortedKeyFacts(t, e);
      KeysCount(t, e, pe.key);
      var ks := SortedKeyNames(t, e);
      assert ks[..|ks|] == ks && ks[..0] == [];
      assert pe.key.Keys == {} <==> |pe.key| == 0;
    }
  }

  /** A last list with none or all of its keys has the first ones. */
  lemma {:induction false} FullInOrder(t: Tree, ids: seq<Id>, p: seq<PathElem>)
    requires ValidPath(t, ids, p) && SchemaPath(t, StepsOf(ids, p)) && Full(t, StepsOf(ids, p))
    ensures KeysInOrder(t, ids[|ids| - 1], p[|p| - 1])
  {
    hide SortedVals, KeysInOrder;
    AllOrNone(t, ids[|ids| - 1], p[|p| - 1]);
  }

  lemma {:induction false} StoreRebuilds(db: Db, k: SchemaKey, t: Tree, m: string, ids: seq<Id>, p: seq<PathElem>)
    requires Holds(db, k, t) && NoTopChoice(t)
    requires ValidPath(t, ids, p) && Alphabetical(t, StepsOf(ids, p))
    requires TriedFirst(t, m, p[0].name) && Top(t, m, p[0].name) == ids[0]
    ensures SchemaPath(t, StepsOf(ids, p))
    ensures ToPathRest(db, k, Strings(p, false), []) ==
            if Full(t, StepsOf(ids, p)) then Ok(p) else Err(IndexOutOfRange)
  {
    hide Holds, ToPathRest, NoTopChoice, KeysInOrder;
    var ss := StepsOf(ids, p);
    ValidPathIsElems(t, ids, p);
    FlattenedItems(t, ids, p);
    FirstIsPlain(t, ids, p);
    FirstModuleAnswers(t, m, p[0].name);
    hide TriedFirst, IndexNode;
    ToPathRebuilds(db, k, t, ss);
    AlphabeticalAgrees(t, ss);
    if Full(t, ss) { FullInOrder(t, ids, p); }
  }

  /** For a valid keyed path in the module that is tried first for its first name, and with
      alphabetical key statements: the store rebuilds the path from its flat form exactly when a
      last list has none or all of its keys.  The tree walk through that module gives it exactly
      when the first name is no module, the items can be read by name and the keys of a last
      list are the first ones; whenever the store succeeds, it can fail only for the names. */
  lemma {:induction false} ToPathAgreesWithBuildPath(
    db: Db, k: SchemaKey, t: Tree, m: string, ids: seq<Id>, p: seq<PathElem>, built: Built)
    requires Holds(db, k, t) && NoTopChoice(t)
    requires ValidPath(t, ids, p) && Alphabetical(t, StepsOf(ids, p))
    requires TriedFirst(t, m, p[0].name) && Top(t, m, p[0].name) == ids[0]
    requires MayBuild(t, Strings(p, false), built)
    ensures SchemaPath(t, StepsOf(ids, p)) && Strings(p, false) != []
    ensures ToPathRest(db, k, Strings(p, false), []) ==
            if Full(t, StepsOf(ids, p)) then Ok(p) else Err(IndexOutOfRange)
    ensures p[0].name in t[0].dir ==> built != Ok(p)
    ensures p[0].name !in t[0].dir ==>
              (BuiltIn(t, Strings(p, false), m, p) <==>
               ByName(t, StepsOf(ids, p)) && KeysInOrder(t, ids[|ids| - 1], p[|p| - 1]))
    ensures p[0].name !in t[0].dir && OnlyIn(t, m, p[0].name) ==> (built == Ok(p) <==> BuiltIn(t, Strings(p, false), m, p))
    ensures Full(t, StepsOf(ids, p)) && p[0].name !in t[0].dir ==>
              (BuiltIn(t, Strings(p, false), m, p) <==> ByName(t, StepsOf(ids, p)))
  {
    hide KeysInOrder, ByName, Full, Alphabetical, TriedFirst, Holds, BuiltIn, OnlyIn;
    assert HasTop(t, m, p[0].name) by { TriedTop(t, m, p[0].name); }
    FlattenThenBuild(t, m, ids, p, built);
    StoreRebuilds(db, k, t, m, ids, p);
    if Full(t, StepsOf(ids, p)) { FullInOrder(t, ids, p); }
  }

  lemma {:induction false} TriedTop(t: Links, m: string, n: string)
    requires TriedFirst(t, m, n)
    ensures HasTop(t, m, n)
  {
  }
}
