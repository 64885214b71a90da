/** `ToPath` over the index: what it computes, and its agreement with `BuildPath`. */
module StorePaths {
  import opened Wrappers
  import opened Text
  import opened XPath
  import opened ModuleOrder
  import opened YangTree
  import opened Navigation
  import opened SchemaPaths
  import opened SchemaElems
  import opened KeyCodec
  import opened StoreIndex

  datatype ToPathError = PathNotFound | IndexOutOfRange

  type ToPathResult = Outcome<seq<PathElem>, ToPathError>

  function KeyNames(v: SchemaElem): (ks: seq<string>)
    requires v.ContainerElem?
    ensures |ks| == |v.keys|
  {
    seq(|v.keys|, i requires 0 <= i < |v.keys| => v.keys[i].name)
  }

  function Validated(db: Db, k: SchemaKey, es: seq<PathElem>): ToPathResult {
    if DbLookup(db, k, Names(es)).Some? then Ok(es) else Err(PathNotFound)
  }

  /** What the loop does with the items it has not used yet, after building `elems`. */
  function ToPathRest(db: Db, k: SchemaKey, rest: seq<string>, elems: seq<PathElem>): ToPathResult
    decreases |rest|
  {
    if rest == [] then Validated(db, k, elems)
    else
      var es := elems + [PathElem(rest[0], map[])];
      if |rest| == 1 then Validated(db, k, es)
      else
        var v := DbLookup(db, k, Names(es));
        if v.None? then Err(PathNotFound)
        else
          match v.value
          case ContainerElem(_, _, _, _, _, _, _) =>
            var ks := KeyNames(v.value);
            if |ks| >= |rest| then Err(IndexOutOfRange)
            else ToPathRest(db, k, rest[1 + |ks|..], elems + [PathElem(rest[0], Zip(ks, rest[1..1 + |ks|]))])
          case FieldElem(_) => ToPathRest(db, k, rest[1..], es)
          case LeafListElem(_) =>
            ToPathRest(db, k, rest[2..], elems + [PathElem(rest[0], map[rest[0] := rest[1]])])
  }

  /** No item that the loop takes for a name contains a slash. */
  predicate CleanNames(db: Db, k: SchemaKey, rest: seq<string>, names: seq<string>)
    decreases |rest|
  {
    rest == [] ||
    ('/' !in rest[0] &&
     (|rest| == 1 ||
      var now := names + [rest[0]];
      match DbLookup(db, k, now)
      case None => true
      case Some(ContainerElem(_, _, _, keys, _, _, _)) => |keys| >= |rest| || CleanNames(db, k, rest[1 + |keys|..], now)
      case Some(FieldElem(_)) => CleanNames(db, k, rest[1..], now)
      case Some(LeafListElem(_)) => CleanNames(db, k, rest[2..], now)))
  }

  // ----- paths stay in the module that answers for their first name

  lemma {:induction false} HitsShrink(t: Tree, pe: seq<string>, n: string)
    requires pe != []
    ensures AllHits(t, pe + [n]) <= AllHits(t, pe)
  {
    forall m | m in AllHits(t, pe + [n]) ensures m in AllHits(t, pe) { AnswerAppend(t, m, pe, n); }
  }

  lemma {:induction false} AnswerAppend(t: Links, m: string, pe: seq<string>, n: string)
    requires m in t[0].dir && pe != []
    ensures AnswerIn(t, m, pe + [n]) ==
            match AnswerIn(t, m, pe) case None => None case Some(e) => Descend(t, e, [n])
  {
    ModuleFacts(t, m);
    assert Below(m, pe + [n]) == Below(m, pe) + [n];
    DescendAppend(t, t[0].dir[m], Below(m, pe), [n]);
  }

  /** The index is prefix-closed: below the node it answers with, it stays in the same module. */
  lemma {:induction false} StaysInModule(t: Tree, pe: seq<string>, e: Id, c: Id)
    requires pe != [] && IndexNode(t, pe) == Some(e) && Offers(t, e, c)
    ensures IndexNode(t, pe + [t[c].name]) == Some(c)
  {
    var n := t[c].name;
    var m := Best(AllHits(t, pe));
    AnswerAppend(t, m, pe, n);
    UpFacts(t, c);
    IdentifierIsPlain(n);
    ChildIs(t, e, n, c);
    assert [n][1..] == [];
    assert Descend(t, e, [n]) == Some(c);
    HitsShrink(t, pe, n);
    assert m in AllHits(t, pe + [n]);
    LeastUnique(m, Best(AllHits(t, pe + [n])), AllHits(t, pe + [n]));
  }

  lemma {:induction false} PlainGrows(t: Links, pe: seq<string>, c: Id)
    requires PlainNames(pe) && 0 < c < |t|
    ensures PlainNames(pe + [t[c].name])
  {
    UpFacts(t, c);
    IdentifierIsPlain(t[c].name);
  }

  // ----- flat schema paths

  /** Values attached to the keys in the order of the key statement. */
  function StatementElem(t: Links, s: PathStep): PathElem
    requires s.e < |t| && (t[s.e].kind.List? ==> |s.vals| <= |t[s.e].keys|)
  {
    Keyed(t, s.e, t[s.e].keys, s.vals)
  }

  function StatementElems(t: Links, ss: seq<PathStep>): seq<PathElem>
    requires forall i | 0 <= i < |ss| :: ss[i].e < |t| && (t[ss[i].e].kind.List? ==> |ss[i].vals| <= |t[ss[i].e].keys|)
  {
    if ss == [] then [] else [StatementElem(t, ss[0])] + StatementElems(t, ss[1..])
  }

  /** A last list is followed by all its key values or by none. */
  ghost predicate Full(t: Links, ss: seq<PathStep>)
    requires SchemaPath(t, ss)
  {
    var s := ss[|ss| - 1];
    t[s.e].kind.List? ==> s.vals == [] || |s.vals| == |t[s.e].keys|
  }

  lemma {:induction false} ElemOfNode(db: Db, k: SchemaKey, t: Tree, pe: seq<string>, e: Id)
    requires Holds(db, k, t) && PlainNames(pe) && IndexNode(t, pe) == Some(e)
    ensures DbLookup(db, k, pe).Some? && IsElemOf(t, e, DbLookup(db, k, pe).value)
  {
    LookupFindsIndexNode(db, k, t, pe);
    assert StoredAt(db, k, t, e);
  }

  lemma {:induction false} KeyNamesOf(t: Tree, e: Id, v: SchemaElem)
    requires e < |t| && IsElemOf(t, e, v) && v.ContainerElem?
    ensures KeyNames(v) == t[e].keys
  {
    forall i | 0 <= i < |t[e].keys| ensures KeyNames(v)[i] == t[e].keys[i] {
      assert t[e].keys[i] in t[e].keys;
      KeyIsChild(t, e, t[e].keys[i]);
      DirFacts(t, e, t[e].keys[i]);
    }
  }

  lemma {:induction false} NamesSnoc(es: seq<PathElem>, pe: PathElem)
    ensures Names(es + [pe]) == Names(es) + [pe.name]
  {
  }

  /** One round of the loop takes up the first entry and its values. */
  lemma {:induction false} ToPathStep(db: Db, k: SchemaKey, t: Tree, ss: seq<PathStep>, done: seq<PathElem>)
    requires Holds(db, k, t) && SchemaPath(t, ss) && |ss| > 1
    requires PlainNames(Names(done) + [t[ss[0].e].name]) && IndexNode(t, Names(done) + [t[ss[0].e].name]) == Some(ss[0].e)
    ensures ToPathRest(db, k, Flat(t, ss), done) == ToPathRest(db, k, Flat(t, ss[1..]), done + [StatementElem(t, ss[0])])
    ensures StatementElem(t, ss[0]).name == t[ss[0].e].name
  {
    hide Linked, IsElemOf, IndexNode, Holds, DbLookup;
    var e := ss[0].e;
    var pe := Names(done) + [t[e].name];
    assert Offers(t, e, ss[1].e);
    FlatCons(t, ss);
    ElemOfNode(db, k, t, pe, e);
    NamesSnoc(done, PathElem(t[e].name, map[]));
    if t[e].kind.IsTerminal() { NothingUnderTerminal(t, e, ss[1].e); }
    var v := DbLookup(db, k, pe).value;
    KeyNamesOf(t, e, v);
    KeysOnlyInLists(t, e);
  }

  /** The loop rebuilds a flat path step by step. */
  lemma {:induction false} ToPathSteps(db: Db, k: SchemaKey, t: Tree, ss: seq<PathStep>, done: seq<PathElem>)
    requires Holds(db, k, t) && SchemaPath(t, ss)
    requires PlainNames(Names(done) + [t[ss[0].e].name]) && IndexNode(t, Names(done) + [t[ss[0].e].name]) == Some(ss[0].e)
    ensures ToPathRest(db, k, Flat(t, ss), done) ==
            if Full(t, ss) then Ok(done + StatementElems(t, ss)) else Err(IndexOutOfRange)
    decreases |ss|
  {
    hide Holds, Flat, Linked, StatementElem, ToPathRest, IndexNode, PlainNames, NamesUnique, Offers, IsData;
    if |ss| == 1 {
      ToPathLast(db, k, t, ss, done);
    } else {
      var pe := Names(done) + [t[ss[0].e].name];
      var elem := StatementElem(t, ss[0]);
      ToPathStep(db, k, t, ss, done);
      NamesSnoc(done, elem);
      SchemaPathTail(t, ss);
      assert Offers(t, ss[0].e, ss[1].e);
      StaysInModule(t, pe, ss[0].e, ss[1].e);
      PlainGrows(t, pe, ss[1].e);
      ToPathSteps(db, k, t, ss[1..], done + [elem]);
      Assoc(done, [elem], StatementElems(t, ss[1..]));
    }
  }

  lemma {:induction false} LastIsList(db: Db, k: SchemaKey, f: seq<string>, v: SchemaElem, done: seq<PathElem>)
    requires f != [] && DbLookup(db, k, Names(done) + [f[0]]) == Some(v) && v.ContainerElem? && |f| - 1 <= |v.keys|
    ensures ToPathRest(db, k, f, done) ==
            if |f| == 1 || |f| - 1 == |v.keys| then Ok(done + [PathElem(f[0], Zip(KeyNames(v), f[1..]))])
            else Err(IndexOutOfRange)
  {
    NamesSnoc(done, PathElem(f[0], map[]));
    var elem := PathElem(f[0], Zip(KeyNames(v), f[1..]));
    NamesSnoc(done, elem);
    if |f| > 1 && |f| - 1 == |v.keys| {
      assert f[1..|f|] == f[1..] && f[|f|..] == [];
    }
  }

  lemma {:induction false} LastIsTerminal(db: Db, k: SchemaKey, f: seq<string>, v: SchemaElem, done: seq<PathElem>)
    requires f != [] && DbLookup(db, k, Names(done) + [f[0]]) == Some(v)
    requires |f| == 1 || (|f| == 2 && v.LeafListElem?)
    ensures ToPathRest(db, k, f, done) ==
            Ok(done + [PathElem(f[0], if |f| == 1 then map[] else map[f[0] := f[1]])])
  {
    NamesSnoc(done, PathElem(f[0], map[]));
    if |f| == 2 {
      NamesSnoc(done, PathElem(f[0], map[f[0] := f[1]]));
      assert f[2..] == [];
    }
  }

  lemma {:induction false} ToPathLast(db: Db, k: SchemaKey, t: Tree, ss: seq<PathStep>, done: seq<PathElem>)
    requires Holds(db, k, t) && SchemaPath(t, ss) && |ss| == 1
    requires PlainNames(Names(done) + [t[ss[0].e].name]) && IndexNode(t, Names(done) + [t[ss[0].e].name]) == Some(ss[0].e)
    ensures ToPathRest(db, k, Flat(t, ss), done) ==
            if Full(t, ss) then Ok(done + StatementElems(t, ss)) else Err(IndexOutOfRange)
  {
    var e, vs := ss[0].e, ss[0].vals;
    var pe := Names(done) + [t[e].name];
    ElemOfNode(db, k, t, pe, e);
    var v := DbLookup(db, k, pe).value;
    var f := [t[e].name] + vs;
    assert ss[1..] == [];
    assert Flat(t, ss) == [t[e].name] + vs + [] == f;
    assert f[1..] == vs;
    assert StatementElems(t, ss) == [StatementElem(t, ss[0])] + [] == [StatementElem(t, ss[0])];
    if t[e].kind.List? {
      KeyNamesOf(t, e, v);
      LastIsList(db, k, f, v, done);
    } else {
      LastIsTerminal(db, k, f, v, done);
    }
  }

  /** `ToPath` index accounting: a flat path is rebuilt exactly, keys in the order of the key
      statements; only a last list followed by some but not all of its values makes it read
      past the items. */
  lemma {:induction false} ToPathRebuilds(db: Db, k: SchemaKey, t: Tree, ss: seq<PathStep>)
    requires Holds(db, k, t) && SchemaPath(t, ss)
    requires PlainNames([t[ss[0].e].name]) && IndexNode(t, [t[ss[0].e].name]) == Some(ss[0].e)
    ensures ToPathRest(db, k, Flat(t, ss), []) ==
            if Full(t, ss) then Ok(StatementElems(t, ss)) else Err(IndexOutOfRange)
  {
    hide ToPathRest, StatementElems, Flat, IndexNode, Holds, Full;
    assert Names([]) + [t[ss[0].e].name] == [t[ss[0].e].name];
    ToPathSteps(db, k, t, ss, []);
    assert [] + StatementElems(t, ss) == StatementElems(t, ss);
  }

  /** The key statement of every list on the path is alphabetical. */
  ghost predicate Alphabetical(t: Links, ss: seq<PathStep>)
    requires forall i | 0 <= i < |ss| :: ss[i].e < |t|
  {
    forall i | 0 <= i < |ss| :: Sorted(LexLess, t[ss[i].e].keys)
  }

  /** With alphabetical key statements the result is the path `BuildPath` gives. */
  lemma {:induction false} AlphabeticalAgrees(t: Links, ss: seq<PathStep>)
    requires (forall i | 0 <= i < |ss| :: ss[i].e < |t| && (t[ss[i].e].kind.List? ==> |ss[i].vals| <= |t[ss[i].e].keys|))
    requires Alphabetical(t, ss)
    ensures StatementElems(t, ss) == Elems(t, ss)
    decreases |ss|
  {
    if ss != [] {
      var keys := t[ss[0].e].keys;
      SortedKeyFacts(t, ss[0].e);
      LexStrictTotal();
      SortedUnique(LexLess, SortedKeyNames(t, ss[0].e), keys);
      AlphabeticalAgrees(t, ss[1..]);
    }
  }
}
