/** What `ToPath` does with its items: exactly which item lists it accepts, and as what. */
module StoreItems {
  import opened Wrappers
  import opened Text
  import opened XPath
  import opened ModuleOrder
  import opened YangTree
  import opened SchemaPaths
  import opened SchemaElems
  import opened KeyCodec
  import opened StoreIndex
  import opened StorePaths

  /** The keys of the element at `names`: those of a list in the order of the key statement, the
      name of a leaf-list. */
  function KeysAt(db: Db, k: SchemaKey, names: seq<string>): seq<string>
    requires names != []
  {
    match DbLookup(db, k, names)
    case Some(ContainerElem(n, s, d, keys, f, l, c)) => KeyNames(ContainerElem(n, s, d, keys, f, l, c))
    case Some(LeafListElem(_)) => [names[|names| - 1]]
    case _ => []
  }

  /** The values that the keys `ks` have, in that order. */
  function ValuesOf(ks: seq<string>, key: map<string, string>): seq<string> {
    if ks == [] then [] else (if ks[0] in key then [key[ks[0]]] else []) + ValuesOf(ks[1..], key)
  }

  /** The items that spell a keyed path below `names`: each element's name, followed by the values
      of its keys in the order of the key statement. */
  function Spelled(db: Db, k: SchemaKey, names: seq<string>, es: seq<PathElem>): seq<string>
    decreases |es|
  {
    if es == [] then []
    else
      var here := names + [es[0].name];
      [es[0].name] + ValuesOf(KeysAt(db, k, here), es[0].key) + Spelled(db, k, here, es[1..])
  }

  /** Every element is found in the index and has all its keys, the last one all or none. */
  ghost predicate Acceptable(db: Db, k: SchemaKey, names: seq<string>, es: seq<PathElem>)
    decreases |es|
  {
    if es == [] then DbLookup(db, k, names).Some?
    else
      var here := names + [es[0].name];
      && DbLookup(db, k, here).Some?
      && (es[0].key.Keys == Elements(KeysAt(db, k, here)) || (|es| == 1 && es[0].key == map[]))
      && Acceptable(db, k, here, es[1..])
  }

  // ----- whatever the index answers with is the element of a node

  lemma {:induction false} TriedElement(db: Db, k: SchemaKey, t: Links, mods: seq<string>, pes: seq<string>) returns (e: Id)
    requires Holds(db, k, t) && pes != [] && TryModules(db, k, mods, pes).Some?
    ensures e < |t| && IsElemOf(t, e, TryModules(db, k, mods, pes).value)
    decreases |mods|
  {
    var key := KeyInModule(k, mods[0], pes);
    if ObjectAt(db, key).Some? { e := KeyElement(db, k, t, key); } else { e := TriedElement(db, k, t, mods[1..], pes); }
  }

  lemma {:induction false} KeyElement(db: Db, k: SchemaKey, t: Links, key: string) returns (e: Id)
    requires Holds(db, k, t) && ObjectAt(db, key).Some? && EntryPrefix(k) <= key
    ensures e < |t| && IsElemOf(t, e, ObjectAt(db, key).value)
  {
    e :| e < |t| && IsData(t, e) && NodeKey(t, k, e) == key;
    assert StoredAt(db, k, t, e);
  }

  lemma {:induction false} FoundElement(db: Db, k: SchemaKey, t: Links, pes: seq<string>) returns (e: Id)
    requires Holds(db, k, t) && DbLookup(db, k, pes).Some?
    ensures e < |t| && IsElemOf(t, e, DbLookup(db, k, pes).value)
  {
    hide Holds, IsElemOf, TryModules;
    if pes == [] || pes == [""] {
      e := KeyElement(db, k, t, EntryKey(k, [ROOT_NAME]));
    } else {
      var i := IndexOf(pes[0], ':');
      if 0 < i < |pes[0]| {
        e := TriedElement(db, k, t, [pes[0][..i]], [pes[0][i + 1..]] + pes[1..]);
      } else {
        e := TriedElement(db, k, t, Sort(ModLess, Modules(db, k).value), pes);
      }
    }
  }

  lemma {:induction false} KeysDistinct(db: Db, k: SchemaKey, t: Tree, names: seq<string>)
    requires Holds(db, k, t) && names != []
    ensures NoDup(KeysAt(db, k, names))
  {
    if DbLookup(db, k, names).Some? {
      var e := FoundElement(db, k, t, names);
      var v := DbLookup(db, k, names).value;
      if v.ContainerElem? {
        KeyNamesOf(t, e, v);
        SortedKeyFacts(t, e);
        if e > 0 { assert NodeOk(t, e); }
      }
    }
  }

  // ----- keys and values

  lemma {:induction false} AllValues(ks: seq<string>, key: map<string, string>)
    requires forall n | n in ks :: n in key
    ensures |ValuesOf(ks, key)| == |ks| && forall i | 0 <= i < |ks| :: ks[i] in key && ValuesOf(ks, key)[i] == key[ks[i]]
  {
    if ks != [] {
      AllValues(ks[1..], key);
      forall i | 0 <= i < |ks| ensures ks[i] in key && ValuesOf(ks, key)[i] == key[ks[i]] {
        if i > 0 { assert ks[i] == ks[1..][i - 1]; }
      }
    }
  }

  lemma {:induction false} NoValues(ks: seq<string>)
    ensures ValuesOf(ks, map[]) == []
  {
    if ks != [] { NoValues(ks[1..]); }
  }

  /** Attaching values to keys is undone by reading them off in order. */
  lemma {:induction false} KeyedBy(ks: seq<string>, key: map<string, string>, vs: seq<string>)
    requires NoDup(ks) && |vs| == |ks|
    ensures key == Zip(ks, vs) <==> key.Keys == Elements(ks) && ValuesOf(ks, key) == vs
  {
    hide Zip, ValuesOf;
    ZipFacts(ks, vs);
    assert ks[..|ks|] == ks;
    if key.Keys == Elements(ks) || key == Zip(ks, vs) {
      AllValues(ks, key);
      forall n | n in ks ensures exists i :: 0 <= i < |ks| && ks[i] == n {}
    }
  }

  lemma {:induction false} OneKey(n: string, v: string)
    ensures Zip([n], [v]) == map[n := v]
  {
    assert Zip([n], [v]) == map[][n := v];
  }

  // ----- one round

  /** With more than one item left, the keys of the element decide how many items go. */
  lemma {:induction false} Round(db: Db, k: SchemaKey, rest: seq<string>, done: seq<PathElem>)
    requires |rest| > 1
    ensures var here := Names(done) + [rest[0]];
            var n := |KeysAt(db, k, here)|;
            ToPathRest(db, k, rest, done) ==
            if DbLookup(db, k, here).None? then Err(PathNotFound)
            else if n >= |rest| then Err(IndexOutOfRange)
            else ToPathRest(db, k, rest[1 + n..],
                            done + [PathElem(rest[0], Zip(KeysAt(db, k, here), rest[1..1 + n]))])
  {
    hide DbLookup;
    NamesSnoc(done, PathElem(rest[0], map[]));
    OneKey(rest[0], rest[1]);
    assert rest[1..2] == [rest[1]];
  }

  lemma {:induction false} KeepsDone(db: Db, k: SchemaKey, rest: seq<string>, done: seq<PathElem>)
    ensures ToPathRest(db, k, rest, done).Ok? ==> done <= ToPathRest(db, k, rest, done).value
    decreases |rest|
  {
    if |rest| <= 1 {
      KeepsLast(db, k, rest, done);
    } else {
      hide ToPathRest, KeysAt, DbLookup, Zip;
      Round(db, k, rest, done);
      var ks := KeysAt(db, k, Names(done) + [rest[0]]);
      if |ks| < |rest| {
        var elem := PathElem(rest[0], Zip(ks, rest[1..1 + |ks|]));
        KeepsDone(db, k, rest[1 + |ks|..], done + [elem]);
        var later := ToPathRest(db, k, rest[1 + |ks|..], done + [elem]);
        if later.Ok? { LessPrefix(done, elem, later.value); }
      }
    }
  }

  lemma {:induction false} KeepsLast(db: Db, k: SchemaKey, rest: seq<string>, done: seq<PathElem>)
    requires |rest| <= 1
    ensures ToPathRest(db, k, rest, done).Ok? ==> done <= ToPathRest(db, k, rest, done).value
  {
    hide DbLookup;
  }

  lemma {:induction false} LessPrefix(done: seq<PathElem>, elem: PathElem, es: seq<PathElem>)
    ensures done + [elem] <= es ==> done <= es
  {
    if done + [elem] <= es { assert (done + [elem])[..|done|] == done; }
  }

  lemma {:induction false} OneMore(done: seq<PathElem>, elem: PathElem, es: seq<PathElem>)
    ensures done + [elem] == done + es <==> es == [elem]
  {
    assert (done + es)[|done|..] == es && (done + [elem])[|done|..] == [elem];
  }

  lemma {:induction false} LastItem(db: Db, k: SchemaKey, rest: seq<string>, done: seq<PathElem>, es: seq<PathElem>)
    requires |rest| == 1 && es != []
    ensures ToPathRest(db, k, rest, done) == Ok(done + es) <==>
            rest == Spelled(db, k, Names(done), es) && Acceptable(db, k, Names(done), es)
  {
    hide DbLookup, KeysAt, ValuesOf;
    var elem := PathElem(rest[0], map[]);
    var here := Names(done) + [rest[0]];
    NamesSnoc(done, elem);
    OneMore(done, elem, es);
    assert rest == [rest[0]];
    assert Spelled(db, k, Names(done), es)[0] == es[0].name;
    if es[0].name == rest[0] {
      var ks := KeysAt(db, k, here);
      var vs, tail := ValuesOf(ks, es[0].key), Spelled(db, k, here, es[1..]);
      Parts(rest, vs, tail);
      assert tail == [] <==> es[1..] == [];
      assert es[1..] == [] ==> Acceptable(db, k, here, es[1..]) == DbLookup(db, k, here).Some?;
      NoValues(ks);
      if es[0].key.Keys == Elements(ks) {
        AllValues(ks, es[0].key);
        assert ks == [] ==> es[0].key == map[];
      }
      assert es == [es[0]] + es[1..];
    }
  }

  /** What spelling a path and being acceptable say about its first element. */
  lemma {:induction false} SpelledFirst(db: Db, k: SchemaKey, rest: seq<string>, names: seq<string>, es: seq<PathElem>)
    requires |rest| > 1 && es != [] && NoDup(KeysAt(db, k, names + [rest[0]]))
    ensures var here := names + [rest[0]];
            var n := |KeysAt(db, k, here)|;
            rest == Spelled(db, k, names, es) && Acceptable(db, k, names, es) <==>
            && DbLookup(db, k, here).Some? && n < |rest|
            && es[0] == PathElem(rest[0], Zip(KeysAt(db, k, here), rest[1..1 + n]))
            && rest[1 + n..] == Spelled(db, k, here, es[1..]) && Acceptable(db, k, here, es[1..])
  {
    hide KeysAt, Zip, ValuesOf, DbLookup;
    var here := names + [rest[0]];
    var ks, key, tail := KeysAt(db, k, here), es[0].key, Spelled(db, k, here, es[1..]);
    NoValues(ks);
    if key.Keys == Elements(ks) { AllValues(ks, key); }
    if es[0].name == rest[0] {
      var vs := ValuesOf(ks, key);
      Parts(rest, vs, tail);
      if |ks| < |rest| { KeyedBy(ks, key, rest[1..1 + |ks|]); }
    }
  }

  lemma {:induction false} Parts(rest: seq<string>, vs: seq<string>, tail: seq<string>)
    requires rest != []
    ensures rest == [rest[0]] + vs + tail <==>
            |vs| < |rest| && rest[1..1 + |vs|] == vs && rest[1 + |vs|..] == tail
  {
    var s := [rest[0]] + vs + tail;
    assert s[1..1 + |vs|] == vs && s[1 + |vs|..] == tail;
    if |vs| < |rest| { assert rest == [rest[0]] + rest[1..1 + |vs|] + rest[1 + |vs|..]; }
  }

  lemma {:induction false} FirstOfRest(done: seq<PathElem>, elem: PathElem, es: seq<PathElem>)
    ensures done + [elem] <= done + es <==> es != [] && es[0] == elem
    ensures es != [] && es[0] == elem ==> done + es == done + [elem] + es[1..]
  {
    if done + [elem] <= done + es { assert (done + es)[|done|] == (done + [elem])[|done|]; }
    if es != [] && es[0] == elem { assert es == [elem] + es[1..]; }
  }

  lemma {:induction false} NothingSpelled(db: Db, k: SchemaKey, rest: seq<string>, done: seq<PathElem>, es: seq<PathElem>)
    requires rest == [] || es == []
    ensures ToPathRest(db, k, rest, done) == Ok(done + es) <==>
            rest == Spelled(db, k, Names(done), es) && Acceptable(db, k, Names(done), es)
  {
    assert done + [] == done;
    if rest != [] { KeepsMore(db, k, rest, done); }
  }

  lemma {:induction false} KeepsMore(db: Db, k: SchemaKey, rest: seq<string>, done: seq<PathElem>)
    requires rest != []
    ensures ToPathRest(db, k, rest, done).Ok? ==> |done| < |ToPathRest(db, k, rest, done).value|
  {
    if |rest| > 1 {
      hide ToPathRest, KeysAt, DbLookup, Zip;
      Round(db, k, rest, done);
      var ks := KeysAt(db, k, Names(done) + [rest[0]]);
      if |ks| < |rest| {
        KeepsDone(db, k, rest[1 + |ks|..], done + [PathElem(rest[0], Zip(ks, rest[1..1 + |ks|]))]);
      }
    }
  }

  /** The loop after `done` builds `es` exactly when the items left spell an acceptable `es`. */
  lemma {:induction false} ToPathFrom(db: Db, k: SchemaKey, t: Tree, rest: seq<string>, done: seq<PathElem>, es: seq<PathElem>)
    requires Holds(db, k, t)
    ensures ToPathRest(db, k, rest, done) == Ok(done + es) <==>
            rest == Spelled(db, k, Names(done), es) && Acceptable(db, k, Names(done), es)
    decreases |rest|
  {
    hide ToPathRest, Spelled, Acceptable, DbLookup, Zip, Holds, KeysAt, Linked, NamesUnique;
    if rest == [] || es == [] {
      NothingSpelled(db, k, rest, done, es);
    } else if |rest| == 1 {
      LastItem(db, k, rest, done, es);
    } else {
      var here := Names(done) + [rest[0]];
      var ks := KeysAt(db, k, here);
      KeysDistinct(db, k, t, here);
      Round(db, k, rest, done);
      SpelledFirst(db, k, rest, Names(done), es);
      if DbLookup(db, k, here).Some? && |ks| < |rest| {
        var elem := PathElem(rest[0], Zip(ks, rest[1..1 + |ks|]));
        KeepsDone(db, k, rest[1 + |ks|..], done + [elem]);
        FirstOfRest(done, elem, es);
        NamesSnoc(done, elem);
        ToPathFrom(db, k, t, rest[1 + |ks|..], done + [elem], es[1..]);
      }
    }
  }

  /** `ToPath` accepts exactly the items that spell an acceptable path: in order, each element's
      name followed by its values in the order of the key statement, and nothing left over. */
  lemma {:induction false} ToPathAccounts(db: Db, k: SchemaKey, t: Tree, items: seq<string>, es: seq<PathElem>)
    requires Holds(db, k, t)
    ensures ToPathRest(db, k, items, []) == Ok(es) <==>
            items == Spelled(db, k, [], es) && Acceptable(db, k, [], es)
  {
    assert Names([]) == [] && [] + es == es;
    ToPathFrom(db, k, t, items, [], es);
  }

  // ----- reading past the items

  /** Every element is found in the index and has all its keys. */
  ghost predicate Keyed(db: Db, k: SchemaKey, names: seq<string>, es: seq<PathElem>)
    decreases |es|
  {
    es == [] ||
    (var here := names + [es[0].name];
     && DbLookup(db, k, here).Some? && es[0].key.Keys == Elements(KeysAt(db, k, here)) && Keyed(db, k, here, es[1..]))
  }

  /** A name that is found, followed by some values but not as many as it has keys. */
  ghost predicate TooFew(db: Db, k: SchemaKey, names: seq<string>, tail: seq<string>) {
    && |tail| > 1 && DbLookup(db, k, names + [tail[0]]).Some?
    && |tail| - 1 < |KeysAt(db, k, names + [tail[0]])|
  }

  /** The items spell a keyed path and end in a name with too few values. */
  ghost predicate EndsShort(db: Db, k: SchemaKey, names: seq<string>, rest: seq<string>, es: seq<PathElem>, tail: seq<string>) {
    rest == Spelled(db, k, names, es) + tail && Keyed(db, k, names, es) && TooFew(db, k, names + Names(es), tail)
  }

  lemma {:induction false} FirstElement(db: Db, k: SchemaKey, names: seq<string>, rest: seq<string>, es: seq<PathElem>, tail: seq<string>)
    requires es != [] && tail != [] && NoDup(KeysAt(db, k, names + [es[0].name]))
    requires rest == Spelled(db, k, names, es) + tail && Keyed(db, k, names, es)
    ensures var here := names + [es[0].name];
            var n := |KeysAt(db, k, here)|;
            && 1 + n < |rest| && rest[0] == es[0].name
            && es[0] == PathElem(rest[0], Zip(KeysAt(db, k, here), rest[1..1 + n]))
            && rest[1 + n..] == Spelled(db, k, here, es[1..]) + tail
  {
    hide KeysAt, Zip, ValuesOf, DbLookup;
    var here := names + [es[0].name];
    var ks, key, more := KeysAt(db, k, here), es[0].key, Spelled(db, k, here, es[1..]);
    AllValues(ks, key);
    var vs := ValuesOf(ks, key);
    Assoc([es[0].name] + vs, more, tail);
    assert rest == [es[0].name] + vs + (more + tail);
    assert rest[0] == es[0].name;
    Parts(rest, vs, more + tail);
    assert |more + tail| > 0;
    KeyedBy(ks, key, vs);
  }

  /** Items that spell a keyed path are used up, whatever follows. */
  lemma {:induction false} Consumed(db: Db, k: SchemaKey, t: Tree, rest: seq<string>, done: seq<PathElem>, es: seq<PathElem>, tail: seq<string>)
    requires Holds(db, k, t) && tail != []
    requires rest == Spelled(db, k, Names(done), es) + tail && Keyed(db, k, Names(done), es)
    ensures ToPathRest(db, k, rest, done) == ToPathRest(db, k, tail, done + es)
    decreases |es|
  {
    hide ToPathRest, DbLookup, Zip, Holds, KeysAt, Linked, NamesUnique;
    if es == [] {
      assert [] + tail == tail && done + [] == done;
    } else {
      var here := Names(done) + [es[0].name];
      KeysDistinct(db, k, t, here);
      FirstElement(db, k, Names(done), rest, es, tail);
      var n := |KeysAt(db, k, here)|;
      Round(db, k, rest, done);
      NamesSnoc(done, es[0]);
      Consumed(db, k, t, rest[1 + n..], done + [es[0]], es[1..], tail);
      FirstOfRest(done, es[0], es);
    }
  }

  lemma {:induction false} OneMoreKeyed(db: Db, k: SchemaKey, names: seq<string>, elem: PathElem, es: seq<PathElem>,
                                       tail: seq<string>, rest: seq<string>)
    requires rest != [] && rest[0] == elem.name && DbLookup(db, k, names + [elem.name]).Some?
    requires var ks := KeysAt(db, k, names + [elem.name]);
             NoDup(ks) && |ks| < |rest| && elem.key == Zip(ks, rest[1..1 + |ks|]) &&
             EndsShort(db, k, names + [elem.name], rest[1 + |ks|..], es, tail)
    ensures EndsShort(db, k, names, rest, [elem] + es, tail)
  {
    hide DbLookup, Zip, KeysAt, Spelled, TooFew, Keyed, ValuesOf;
    var ks := KeysAt(db, k, names + [elem.name]);
    KeyedBy(ks, elem.key, rest[1..1 + |ks|]);
    SpelledCons(db, k, names, elem, es, tail, rest);
    KeyedCons(db, k, names, elem, es);
    NamesCons(names, elem, es);
  }

  lemma {:induction false} NamesCons(names: seq<string>, elem: PathElem, es: seq<PathElem>)
    ensures names + Names([elem] + es) == names + [elem.name] + Names(es)
  {
    assert Names([elem] + es) == [elem.name] + Names(es);
  }

  lemma {:induction false} KeyedCons(db: Db, k: SchemaKey, names: seq<string>, elem: PathElem, es: seq<PathElem>)
    requires DbLookup(db, k, names + [elem.name]).Some? && elem.key.Keys == Elements(KeysAt(db, k, names + [elem.name]))
    requires Keyed(db, k, names + [elem.name], es)
    ensures Keyed(db, k, names, [elem] + es)
  {
    hide DbLookup, KeysAt;
    ConsParts(elem, es);
  }

  lemma {:induction false} MoreThanOne(db: Db, k: SchemaKey, rest: seq<string>, done: seq<PathElem>)
    requires ToPathRest(db, k, rest, done) == Err(IndexOutOfRange)
    ensures |rest| > 1
  {
  }

  /** Where reading past the items comes from. */
  lemma {:induction false} ShortEnd(db: Db, k: SchemaKey, t: Tree, rest: seq<string>, done: seq<PathElem>)
    returns (es: seq<PathElem>, tail: seq<string>)
    requires Holds(db, k, t) && ToPathRest(db, k, rest, done) == Err(IndexOutOfRange)
    ensures EndsShort(db, k, Names(done), rest, es, tail)
    decreases |rest|
  {
    hide ToPathRest, DbLookup, Zip, Holds, KeysAt, Linked, NamesUnique, Spelled, EndsShort;
    MoreThanOne(db, k, rest, done);
    var here := Names(done) + [rest[0]];
    var ks := KeysAt(db, k, here);
    Round(db, k, rest, done);
    if |ks| >= |rest| {
      es, tail := [], rest;
      ShortNow(db, k, Names(done), rest);
    } else {
      KeysDistinct(db, k, t, here);
      var elem := PathElem(rest[0], Zip(ks, rest[1..1 + |ks|]));
      var es', tail' := ShortEnd(db, k, t, rest[1 + |ks|..], done + [elem]);
      NamesSnoc(done, elem);
      es, tail := [elem] + es', tail';
      OneMoreKeyed(db, k, Names(done), elem, es', tail', rest);
    }
  }

  lemma {:induction false} ShortNow(db: Db, k: SchemaKey, names: seq<string>, rest: seq<string>)
    requires TooFew(db, k, names, rest)
    ensures EndsShort(db, k, names, rest, [], rest)
  {
    hide TooFew;
    NothingSpelledOut(db, k, names, rest);
    assert names + Names([]) == names;
  }

  lemma {:induction false} NothingSpelledOut(db: Db, k: SchemaKey, names: seq<string>, tail: seq<string>)
    ensures Spelled(db, k, names, []) + tail == tail
  {
  }

  lemma {:induction false} SpelledCons(db: Db, k: SchemaKey, names: seq<string>, elem: PathElem, es: seq<PathElem>,
                                      tail: seq<string>, rest: seq<string>)
    requires rest != [] && rest[0] == elem.name
    requires var ks := KeysAt(db, k, names + [elem.name]);
             |ks| < |rest| && ValuesOf(ks, elem.key) == rest[1..1 + |ks|] &&
             rest[1 + |ks|..] == Spelled(db, k, names + [elem.name], es) + tail
    ensures rest == Spelled(db, k, names, [elem] + es) + tail
  {
    hide KeysAt, ValuesOf;
    var here := names + [elem.name];
    var ks := KeysAt(db, k, here);
    ConsParts(elem, es);
    var more := Spelled(db, k, here, es);
    Parts(rest, rest[1..1 + |ks|], more + tail);
    Assoc([elem.name] + ValuesOf(ks, elem.key), more, tail);
  }

  /** `ToPath` reads past the items exactly when they spell a keyed path and end in a name with
      some but too few values.  Whatever is neither accepted nor of this kind is not found. */
  lemma {:induction false} ToPathOverruns(db: Db, k: SchemaKey, t: Tree, items: seq<string>)
    requires Holds(db, k, t)
    ensures ToPathRest(db, k, items, []) == Err(IndexOutOfRange) <==> exists es, tail :: EndsShort(db, k, [], items, es, tail)
  {
    hide Holds, DbLookup, KeysAt, Spelled, Keyed, Linked, NamesUnique;
    assert Names([]) == [];
    if es, tail :| EndsShort(db, k, [], items, es, tail) {
      Consumed(db, k, t, items, [], es, tail);
      assert [] + es == es && [] + Names(es) == Names(es);
      Round(db, k, tail, es);
    }
    if ToPathRest(db, k, items, []) == Err(IndexOutOfRange) {
      var es, tail := ShortEnd(db, k, t, items, []);
    }
  }
}
