/** Keyed paths that a schema allows, and their flat forms. */
module SchemaPaths {
  import opened Text
  import opened XPath
  import opened YangTree
  import opened Navigation

  // ----- index strings

  ghost function SortedVals(m: map<string, string>): (vs: seq<string>)
    ensures |vs| == |m|
  {
    var ks := SortedKeys(m);
    LexStrictTotal();
    assert |ks| == |m.Keys| == |m|;
    seq(|ks|, i requires 0 <= i < |ks| => assert ks[i] in ks; m[ks[i]])
  }

  /** The values come in the dictionary order of the key names. */
  lemma {:induction false} ValsByKey(m: map<string, string>) returns (ks: seq<string>)
    ensures (forall i, j | 0 <= i < j < |ks| :: Before(ks[i], ks[j])) && (forall k :: k in ks <==> k in m)
    ensures |SortedVals(m)| == |ks| && forall i | 0 <= i < |ks| :: ks[i] in m && SortedVals(m)[i] == m[ks[i]]
  {
    hide Before, SortedSet;
    ks := SortedKeys(m);
    Ascending(m.Keys);
    assert ks == SortedSet(LexLess, m.Keys);
    assert forall i | 0 <= i < |ks| :: ks[i] in ks;
  }

  ghost function Strings(es: seq<PathElem>, noKeys: bool): seq<string> {
    if es == [] then []
    else [es[0].name] + (if noKeys then [] else SortedVals(es[0].key)) + Strings(es[1..], noKeys)
  }

  /** `sortedVals`. */
  method CollectVals(m: map<string, string>) returns (vs: seq<string>)
    ensures vs == SortedVals(m)
  {
    var ks := CollectKeys(m);
    assert forall i | 0 <= i < |ks| :: ks[i] in ks;
    vs := seq(|ks|, i requires 0 <= i < |ks| => m[ks[i]]);
  }

  lemma {:induction false} StringsAppend(a: seq<PathElem>, b: seq<PathElem>, noKeys: bool)
    ensures Strings(a + b, noKeys) == Strings(a, noKeys) + Strings(b, noKeys)
    decreases |a|
  {
    if a == [] {
      assert a + b == b;
    } else {
      assert (a + b)[1..] == a[1..] + b;
      StringsAppend(a[1..], b, noKeys);
      Assoc([a[0].name] + if noKeys then [] else SortedVals(a[0].key), Strings(a[1..], noKeys), Strings(b, noKeys));
    }
  }

  lemma {:induction false} StringsNext(es: seq<PathElem>, i: nat, noKeys: bool)
    requires i < |es|
    ensures Strings(es[..i + 1], noKeys)
         == Strings(es[..i], noKeys) + ([es[i].name] + if noKeys then [] else SortedVals(es[i].key))
  {
    SliceNext(es, 0, i);
    StringsAppend(es[..i], [es[i]], noKeys);
    assert [es[i]][1..] == [];
  }

  /** `ToStrings` without target and origin. */
  method ToStrings(p: Path, noKeys: bool) returns (is_: seq<string>)
    ensures is_ == Strings(p.elem, noKeys)
  {
    is_ := [];
    for i := 0 to |p.elem|
      invariant is_ == Strings(p.elem[..i], noKeys)
    {
      StringsNext(p.elem, i, noKeys);
      var vs := [];
      if !noKeys { vs := CollectVals(p.elem[i].key); }
      is_ := is_ + ([p.elem[i].name] + vs);
    }
    assert p.elem[..|p.elem|] == p.elem;
  }

  /** Just the names. */
  function Names(es: seq<PathElem>): (ns: seq<string>)
    ensures |ns| == |es| && forall i | 0 <= i < |es| :: ns[i] == es[i].name
  {
    seq(|es|, i requires 0 <= i < |es| => es[i].name)
  }

  lemma {:induction false} StringsNoKeys(es: seq<PathElem>)
    ensures Strings(es, true) == Names(es)
  {
    if es != [] {
      StringsNoKeys(es[1..]);
      assert Names(es) == [es[0].name] + Names(es[1..]);
    }
  }

  // ----- an ordered choice of keys

  /** The map from the first `|vs|` of `ks` to `vs`. */
  function Zip(ks: seq<string>, vs: seq<string>): map<string, string>
    requires |vs| <= |ks|
  {
    if vs == [] then map[] else Zip(ks, vs[..|vs| - 1])[ks[|vs| - 1] := vs[|vs| - 1]]
  }

  lemma {:induction false} ZipFacts(ks: seq<string>, vs: seq<string>)
    requires |vs| <= |ks| && NoDup(ks)
    ensures forall k :: k in Zip(ks, vs) <==> k in ks[..|vs|]
    ensures forall i | 0 <= i < |vs| :: ks[i] in Zip(ks, vs) && Zip(ks, vs)[ks[i]] == vs[i]
  {
    if vs != [] {
      ZipFacts(ks, vs[..|vs| - 1]);
      SliceNext(ks, 0, |vs| - 1);
      assert ks[..|vs|] == ks[..|vs| - 1] + [ks[|vs| - 1]];
    }
  }

  lemma {:induction false} PrefixSorted(ks: seq<string>, n: nat)
    requires Sorted(LexLess, ks) && NoDup(ks) && n <= |ks|
    ensures StrictTotal(LexLess)
    ensures SortedSet(LexLess, Elements(ks[..n])) == ks[..n]
  {
    LexStrictTotal();
    SortOfSet(LexLess, ks[..n], Elements(ks[..n]));
    SortSorts(LexLess, ks[..n]);
    SortedUnique(LexLess, Sort(LexLess, ks[..n]), ks[..n]);
  }

  /** Values attached to keys in sorted order come back in that order. */
  lemma {:induction false} ZipSortedVals(ks: seq<string>, vs: seq<string>)
    requires Sorted(LexLess, ks) && NoDup(ks) && |vs| <= |ks|
    ensures SortedVals(Zip(ks, vs)) == vs
  {
    ZipFacts(ks, vs);
    PrefixSorted(ks, |vs|);
    var m := Zip(ks, vs);
    assert m.Keys == Elements(ks[..|vs|]);
    assert SortedKeys(m) == ks[..|vs|];
  }

  /** The sorted key names of a list. */
  function SortedKeyNames(t: Links, e: Id): seq<string>
    requires e < |t|
  {
    Sort(LexLess, t[e].keys)
  }

  lemma {:induction false} SortedKeyFacts(t: Links, e: Id)
    requires e < |t|
    ensures StrictTotal(LexLess)
    ensures Sorted(LexLess, SortedKeyNames(t, e)) && NoDup(SortedKeyNames(t, e))
    ensures |SortedKeyNames(t, e)| == |t[e].keys|
    ensures forall k :: k in SortedKeyNames(t, e) <==> k in t[e].keys
  {
    LexStrictTotal();
    assert NoDup(t[e].keys) by { if e > 0 { assert NodeOk(t, e); } }
    SortSorts(LexLess, t[e].keys);
    SameMembers(t[e].keys, SortedKeyNames(t, e));
    SortOfSet(LexLess, t[e].keys, Elements(t[e].keys));
    SortedSetSorted(LexLess, Elements(t[e].keys));
  }

  // ----- schema paths

  /** The values `vs` written after entry `e`: all keys of a list that is not the last
      element, the first so many sorted keys of a last one, at most one leaf-list value. */
  ghost predicate ValuesFit(t: Links, e: Id, vs: seq<string>, last: bool)
    requires e < |t|
  {
    match t[e].kind
    case List => if last then |vs| <= |t[e].keys| else |vs| == |t[e].keys|
    case LeafList => |vs| <= 1
    case _ => vs == []
  }

  /** The element for entry `e` with values `vs` attached to `ks` in order. */
  function Keyed(t: Links, e: Id, ks: seq<string>, vs: seq<string>): PathElem
    requires e < |t| && (t[e].kind.List? ==> |vs| <= |ks|)
  {
    PathElem(t[e].name,
             match t[e].kind
             case List => Zip(ks, vs)
             case LeafList => if vs == [] then map[] else map[t[e].name := vs[0]]
             case _ => map[])
  }

  /** One step of a path: an entry and the values that follow its name. */
  datatype PathStep = PathStep(e: Id, vals: seq<string>)

  /** A path in the data tree: each entry is a flattened child of the one before. */
  ghost predicate SchemaPath(t: Links, ss: seq<PathStep>) {
    && ss != []
    && (forall i | 0 <= i < |ss| ::
          0 < ss[i].e < |t| && IsData(t, ss[i].e) && ValuesFit(t, ss[i].e, ss[i].vals, i == |ss| - 1))
    && (forall i | 0 <= i < |ss| - 1 :: Offers(t, ss[i].e, ss[i + 1].e))
  }

  /** The flat form: every name followed by its values. */
  function Flat(t: Links, ss: seq<PathStep>): seq<string>
    requires forall i | 0 <= i < |ss| :: ss[i].e < |t|
  {
    if ss == [] then [] else [t[ss[0].e].name] + ss[0].vals + Flat(t, ss[1..])
  }

  /** Values attached to the sorted keys. */
  function SortedElem(t: Links, s: PathStep): PathElem
    requires s.e < |t| && (t[s.e].kind.List? ==> |s.vals| <= |t[s.e].keys|)
  {
    assert |SortedKeyNames(t, s.e)| == |t[s.e].keys| by { SortedKeyFacts(t, s.e); }
    Keyed(t, s.e, SortedKeyNames(t, s.e), s.vals)
  }

  /** The keyed path, values attached to the sorted keys of each list. */
  function Elems(t: Links, ss: seq<PathStep>): seq<PathElem>
    requires forall i | 0 <= i < |ss| :: ss[i].e < |t| && (t[ss[i].e].kind.List? ==> |ss[i].vals| <= |t[ss[i].e].keys|)
  {
    if ss == [] then [] else [SortedElem(t, ss[0])] + Elems(t, ss[1..])
  }

  lemma {:induction false} KeyedStrings(t: Links, e: Id, vs: seq<string>, last: bool)
    requires e < |t| && ValuesFit(t, e, vs, last)
    ensures |SortedKeyNames(t, e)| == |t[e].keys|
    ensures SortedVals(Keyed(t, e, SortedKeyNames(t, e), vs).key) == vs
  {
    SortedKeyFacts(t, e);
    var ks := SortedKeyNames(t, e);
    match t[e].kind {
      case List => ZipSortedVals(ks, vs);
      case LeafList =>
        if vs != [] { ZipSortedVals([t[e].name], vs); }
      case _ =>
    }
  }

  lemma {:induction false} SchemaPathTail(t: Links, ss: seq<PathStep>)
    requires SchemaPath(t, ss) && |ss| > 1
    ensures SchemaPath(t, ss[1..])
  {
  }

  lemma {:induction false} FlatCons(t: Links, ss: seq<PathStep>)
    requires SchemaPath(t, ss)
    ensures var f := Flat(t, ss);
            && f[0] == t[ss[0].e].name && f[1..1 + |ss[0].vals|] == ss[0].vals
            && f[1 + |ss[0].vals|..] == Flat(t, ss[1..])
            && |f| == 1 + |ss[0].vals| + |Flat(t, ss[1..])|
            && (|f| == 1 <==> |ss| == 1 && ss[0].vals == [])
    ensures |ss| == 1 ==> Flat(t, ss[1..]) == []
    ensures |ss| > 1 ==> Flat(t, ss[1..]) != [] && Flat(t, ss[1..])[0] == t[ss[1].e].name
  {
    if |ss| > 1 { assert Flat(t, ss[1..]) != []; }
  }

  /** Flattening the keyed path with `ToStrings` gives the flat form. */
  lemma {:induction false} ElemsStrings(t: Links, ss: seq<PathStep>)
    requires SchemaPath(t, ss)
    ensures Strings(Elems(t, ss), false) == Flat(t, ss)
    decreases |ss|
  {
    var es := Elems(t, ss);
    KeyedStrings(t, ss[0].e, ss[0].vals, |ss| == 1);
    assert es[1..] == Elems(t, ss[1..]);
    if |ss| > 1 {
      SchemaPathTail(t, ss);
      ElemsStrings(t, ss[1..]);
    }
  }

  // ----- keyed paths as callers write them

  /** `pe` is an element for entry `e`: the key map of a list names all its keys, that of a
      last list any of them. */
  ghost predicate Fits(t: Links, e: Id, pe: PathElem, last: bool)
    requires e < |t|
  {
    && pe.name == t[e].name
    && match t[e].kind
       case List => if last then pe.key.Keys <= Elements(t[e].keys) else pe.key.Keys == Elements(t[e].keys)
       case LeafList => pe.key == map[] || pe.key.Keys == {t[e].name}
       case _ => pe.key == map[]
  }

  /** The entries `ids` form a data path and `es` fits them. */
  ghost predicate ValidPath(t: Links, ids: seq<Id>, es: seq<PathElem>) {
    && ids != [] && |ids| == |es|
    && (forall i | 0 <= i < |ids| :: 0 < ids[i] < |t| && IsData(t, ids[i]) && Fits(t, ids[i], es[i], i == |ids| - 1))
    && (forall i | 0 <= i < |ids| - 1 :: Offers(t, ids[i], ids[i + 1]))
  }

  ghost function StepsOf(ids: seq<Id>, es: seq<PathElem>): (ss: seq<PathStep>)
    requires |ids| == |es|
    ensures |ss| == |ids| && forall i | 0 <= i < |ss| :: ss[i] == PathStep(ids[i], SortedVals(es[i].key))
  {
    seq(|ids|, i requires 0 <= i < |ids| => PathStep(ids[i], SortedVals(es[i].key)))
  }

  /** The keys that an element of a list has are the first so many of the sorted keys. */
  ghost predicate KeysInOrder(t: Links, e: Id, pe: PathElem)
    requires e < |t|
  {
    t[e].kind.List? ==>
      |pe.key| <= |SortedKeyNames(t, e)| && pe.key.Keys == Elements(SortedKeyNames(t, e)[..|pe.key|])
  }

  lemma {:induction false} ValsInOrder(ks: seq<string>, m: map<string, string>)
    requires Sorted(LexLess, ks) && NoDup(ks) && |m| <= |ks| && m.Keys == Elements(ks[..|m|])
    ensures SortedKeys(m) == ks[..|m|]
    ensures forall i | 0 <= i < |m| :: ks[i] in m && SortedVals(m)[i] == m[ks[i]]
  {
    PrefixSorted(ks, |m|);
    assert SortedKeys(m) == ks[..|m|];
    assert forall i | 0 <= i < |m| :: ks[i] == ks[..|m|][i] && ks[i] in ks[..|m|];
  }

  /** Attaching the values of a map to the sorted keys restores the map exactly when its keys
      are the first ones. */
  lemma {:induction false} ZipOfVals(ks: seq<string>, m: map<string, string>)
    requires Sorted(LexLess, ks) && NoDup(ks) && |m| <= |ks|
    ensures Zip(ks, SortedVals(m)) == m <==> m.Keys == Elements(ks[..|m|])
  {
    var vs := SortedVals(m);
    ZipFacts(ks, vs);
    assert Zip(ks, vs).Keys == Elements(ks[..|m|]);
    if m.Keys == Elements(ks[..|m|]) { ZipRestores(ks, m, vs); }
  }

  lemma {:induction false} ValAt(ks: seq<string>, m: map<string, string>, k: string)
    requires Sorted(LexLess, ks) && NoDup(ks) && |m| <= |ks| && m.Keys == Elements(ks[..|m|]) && k in m
    ensures k in Zip(ks, SortedVals(m)) && Zip(ks, SortedVals(m))[k] == m[k]
  {
    hide Zip, Sorted;
    ValsInOrder(ks, m);
    ZipFacts(ks, SortedVals(m));
    assert k in ks[..|m|];
    var i :| 0 <= i < |m| && ks[..|m|][i] == k;
    assert ks[i] == k;
  }

  lemma {:induction false} ZipRestores(ks: seq<string>, m: map<string, string>, vs: seq<string>)
    requires Sorted(LexLess, ks) && NoDup(ks) && |m| <= |ks| && m.Keys == Elements(ks[..|m|]) && vs == SortedVals(m)
    requires Zip(ks, vs).Keys == m.Keys
    ensures Zip(ks, vs) == m
  {
    hide Zip, SortedVals, Sorted, NoDup;
    forall k | k in m ensures Zip(ks, vs)[k] == m[k] { ValAt(ks, m, k); }
  }

  lemma {:induction false} KeysCount(t: Links, e: Id, m: map<string, string>)
    requires e < |t| && m.Keys <= Elements(t[e].keys)
    ensures |m| <= |t[e].keys|
    ensures |m| == |t[e].keys| <==> m.Keys == Elements(t[e].keys)
  {
    SortedKeyFacts(t, e);
    assert NoDup(t[e].keys) by { if e > 0 { assert NodeOk(t, e); } }
    DistinctCount(t[e].keys);
    SubsetSize(m.Keys, Elements(t[e].keys));
    assert |m| == |m.Keys|;
  }

  lemma {:induction false} FitsValues(t: Links, e: Id, pe: PathElem, last: bool)
    requires e < |t| && Fits(t, e, pe, last)
    ensures ValuesFit(t, e, SortedVals(pe.key), last)
  {
    if t[e].kind.List? { KeysCount(t, e, pe.key); }
    if t[e].kind.LeafList? && pe.key != map[] { assert |pe.key| == |pe.key.Keys| == 1; }
  }

  /** An element is the one its values give exactly when its keys are the first ones. */
  lemma {:induction false} FitsIsKeyed(t: Links, e: Id, pe: PathElem, last: bool)
    requires e < |t| && Fits(t, e, pe, last)
    ensures ValuesFit(t, e, SortedVals(pe.key), last)
    ensures SortedElem(t, PathStep(e, SortedVals(pe.key))) == pe <==> KeysInOrder(t, e, pe)
    ensures !last || !t[e].kind.List? ==> KeysInOrder(t, e, pe)
  {
    FitsValues(t, e, pe, last);
    if t[e].kind.List? {
      ListIsKeyed(t, e, pe, last);
    } else if t[e].kind.LeafList? && pe.key != map[] {
      OneVal(t[e].name, pe.key);
    }
  }

  lemma {:induction false} ListIsKeyed(t: Links, e: Id, pe: PathElem, last: bool)
    requires e < |t| && Fits(t, e, pe, last) && t[e].kind.List?
    ensures |pe.key| <= |t[e].keys|
    ensures SortedElem(t, PathStep(e, SortedVals(pe.key))) == pe <==> KeysInOrder(t, e, pe)
    ensures !last ==> KeysInOrder(t, e, pe)
  {
    hide SortedKeyNames, SortedVals, Zip;
    SortedKeyFacts(t, e);
    KeysCount(t, e, pe.key);
    var ks := SortedKeyNames(t, e);
    ZipOfVals(ks, pe.key);
    assert ks[..|ks|] == ks && Elements(ks) == Elements(t[e].keys);
  }

  lemma {:induction false} OneVal(name: string, m: map<string, string>)
    requires m.Keys == {name}
    ensures SortedVals(m) == [m[name]] && m == map[name := m[name]]
  {
    var one := [name];
    assert one[..1] == one && Elements(one) == {name};
    assert |m| == |m.Keys| == 1;
    ValsInOrder(one, m);
  }

  // ----- keyed paths that flatten to the items of given steps

  /** `es` names the entries of `ss` and flattens to their values; only the keys of a last
      element may differ from the ones its values are attached to. */
  ghost predicate PathFor(t: Links, ss: seq<PathStep>, es: seq<PathElem>)
    requires SchemaPath(t, ss)
    decreases |ss|
  {
    && |es| == |ss|
    && es[0].name == t[ss[0].e].name && SortedVals(es[0].key) == ss[0].vals
    && (|ss| > 1 ==> es[0] == SortedElem(t, ss[0]) && (SchemaPathTail(t, ss); PathFor(t, ss[1..], es[1..])))
  }

  lemma {:induction false} PathForStrings(t: Links, ss: seq<PathStep>, es: seq<PathElem>)
    requires SchemaPath(t, ss) && PathFor(t, ss, es)
    ensures Strings(es, false) == Flat(t, ss)
    decreases |ss|
  {
    if |ss| > 1 {
      SchemaPathTail(t, ss);
      PathForStrings(t, ss[1..], es[1..]);
    } else {
      assert es[1..] == [] && ss[1..] == [];
    }
  }

  lemma {:induction false} FitsName(t: Links, e: Id, pe: PathElem, last: bool)
    requires e < |t| && Fits(t, e, pe, last)
    ensures pe.name == t[e].name
  {
  }

  lemma {:induction false} StepsAreSchemaPath(t: Links, ids: seq<Id>, es: seq<PathElem>)
    requires ValidPath(t, ids, es)
    ensures SchemaPath(t, StepsOf(ids, es))
  {
    var ss := StepsOf(ids, es);
    forall i | 0 <= i < |ss|
      ensures 0 < ss[i].e < |t| && IsData(t, ss[i].e) && ValuesFit(t, ss[i].e, ss[i].vals, i == |ss| - 1)
    {
      FitsValues(t, ids[i], es[i], i == |ids| - 1);
    }
  }

  lemma {:induction false} LastIsElems(t: Links, ids: seq<Id>, es: seq<PathElem>)
    requires ValidPath(t, ids, es) && |ids| == 1
    ensures SchemaPath(t, StepsOf(ids, es)) && PathFor(t, StepsOf(ids, es), es)
    ensures Elems(t, StepsOf(ids, es)) == es <==> KeysInOrder(t, ids[0], es[0])
  {
    hide Fits, KeysInOrder, SortedElem, SortedVals, Linked;
    StepsAreSchemaPath(t, ids, es);
    FitsIsKeyed(t, ids[0], es[0], true);
    FitsName(t, ids[0], es[0], true);
    var ss := StepsOf(ids, es);
    assert ss[1..] == [] && es == [es[0]];
    assert [SortedElem(t, ss[0])] + [] == [SortedElem(t, ss[0])];
  }

  lemma {:induction false} TailIsValid(t: Links, ids: seq<Id>, es: seq<PathElem>)
    requires ValidPath(t, ids, es) && |ids| > 1
    ensures ValidPath(t, ids[1..], es[1..]) && StepsOf(ids, es)[1..] == StepsOf(ids[1..], es[1..])
    ensures Fits(t, ids[0], es[0], false)
  {
    hide Fits, SortedVals, Linked;
  }

  lemma {:induction false} ConsIsElems(t: Links, ss: seq<PathStep>, es: seq<PathElem>)
    requires SchemaPath(t, ss) && |ss| > 1 && |es| == |ss| && SchemaPath(t, ss[1..])
    requires es[0].name == t[ss[0].e].name && SortedVals(es[0].key) == ss[0].vals && es[0] == SortedElem(t, ss[0])
    requires PathFor(t, ss[1..], es[1..])
    ensures PathFor(t, ss, es)
    ensures Elems(t, ss) == es <==> Elems(t, ss[1..]) == es[1..]
  {
    hide SortedElem, SortedVals, Linked;
    ConsParts(SortedElem(t, ss[0]), Elems(t, ss[1..]));
    assert es == [es[0]] + es[1..];
  }

  /** A valid keyed path flattens to the items of its steps; it is the path that the values
      alone give exactly when the keys of its last element are the first ones. */
  lemma {:induction false} ValidPathIsElems(t: Links, ids: seq<Id>, es: seq<PathElem>)
    requires ValidPath(t, ids, es)
    ensures SchemaPath(t, StepsOf(ids, es)) && PathFor(t, StepsOf(ids, es), es)
    ensures Elems(t, StepsOf(ids, es)) == es <==> KeysInOrder(t, ids[|ids| - 1], es[|es| - 1])
    decreases |ids|
  {
    hide Fits, KeysInOrder, SortedElem, SortedVals, Linked, Elems, PathFor, SchemaPath;
    StepsAreSchemaPath(t, ids, es);
    if |ids| == 1 {
      LastIsElems(t, ids, es);
    } else {
      TailIsValid(t, ids, es);
      FitsIsKeyed(t, ids[0], es[0], false);
      FitsName(t, ids[0], es[0], false);
      ValidPathIsElems(t, ids[1..], es[1..]);
      ConsIsElems(t, StepsOf(ids, es), es);
    }
  }
}
