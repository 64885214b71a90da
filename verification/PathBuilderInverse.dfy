/** `BuildPath` and `ToStrings` undo each other: exactly when, for every schema. */
module PathBuilderInverse {
  import opened Wrappers
  import opened Text
  import opened XPath
  import opened YangTree
  import opened Navigation
  import opened SchemaPaths
  import opened PathBuilder
  import opened OwnNames
  import opened Flattening

  // ----- building what was flattened

  /** `c` is in the `Dir` of `e` or in a case one choice below it. */
  ghost predicate Near(t: Links, e: Id, c: Id)
    requires 0 < c < |t|
  {
    Up(t, c) == e || OneDeep(t, e, c)
  }

  /** When the items of a path are read one by one from the name of its first entry, each step
      is near the one before, and where a container has a child of its own name, that child is
      a choice through which the path goes on. */
  ghost predicate ByName(t: Links, ss: seq<PathStep>)
    requires SchemaPath(t, ss)
    decreases |ss|
  {
    var e := ss[0].e;
    if HasOwn(t, e) then
      && OwnChoice(t, e)
      && (|ss| == 1 || (InCaseOf(t, Own(t, e), ss[1].e) && (SchemaPathTail(t, ss); Unnamed(t, ss[1..]))))
    else |ss| == 1 || (Near(t, e, ss[1].e) && (SchemaPathTail(t, ss); ByName(t, ss[1..])))
  }

  /** The first entry was entered through a choice of its parent's name, which uses its name up.
      It must end the path without values, or be a container with the next entry in its `Dir`;
      otherwise the next name is lost, and only a repetition of that name can make up for it. */
  ghost predicate Unnamed(t: Links, ss: seq<PathStep>)
    requires SchemaPath(t, ss)
    decreases |ss|
  {
    if |ss| == 1 then ss[0].vals == []
    else
      var e, c := ss[0].e, ss[1].e;
      SchemaPathTail(t, ss);
      if t[e].kind.Container? && Up(t, c) == e then ByName(t, ss[1..])
      else Near(t, e, c) && Repeats(t, ss) && Unnamed(t, ss[1..])
  }

  /** The values of the first entry and the item after the second name are all that name. */
  ghost predicate Repeats(t: Links, ss: seq<PathStep>)
    requires SchemaPath(t, ss) && |ss| > 1
  {
    var rest, n := Flat(t, ss[1..]), t[ss[1].e].name;
    && (forall i | 0 <= i < |ss[0].vals| :: ss[0].vals[i] == n)
    && |rest| > 1 && rest[1] == n
  }

  lemma {:induction false} NextStep(t: Tree, e: Id, c: Id)
    requires e < |t| && IsData(t, e) && Offers(t, e, c)
    ensures Next(t, e, t[c].name) == if Near(t, e, c) then Some(c) else None
    ensures t[c].name in t[e].dir <==> Up(t, c) == e
  {
    UnderData(t, e, c);
    UpFacts(t, c);
    var n := t[c].name;
    assert Scoped(t, c);
    if n in t[e].dir {
      DirFacts(t, e, n);
      assert Scoped(t, t[e].dir[n]);
      SameScope(t, c, t[e].dir[n]);
    } else if OneDeep(t, e, c) {
      FoundOneDeep(t, e, c);
    } else {
      var x := FindOneDeep(t, e, n);
      if x.Some? {
        OneDeepScope(t, e, x.value);
        SameScope(t, c, x.value);
      }
    }
  }

  lemma {:induction false} AfterIs(a: PathElem, b: Built, es: seq<PathElem>)
    requires es != []
    ensures After([a], b) == Ok(es) <==> es[0] == a && b == Ok(es[1..])
  {
    if b.Ok? {
      ConsParts(a, b.value);
      assert es == [es[0]] + es[1..];
    }
  }

  lemma {:induction false} PathForTail(t: Links, ss: seq<PathStep>, es: seq<PathElem>)
    requires SchemaPath(t, ss) && PathFor(t, ss, es) && |ss| > 1
    ensures SchemaPath(t, ss[1..]) && PathFor(t, ss[1..], es[1..]) && |es| > 1
    ensures es == Elems(t, ss) <==> es[1..] == Elems(t, ss[1..])
    ensures 0 < ss[0].e < |t| && IsData(t, ss[0].e) && Offers(t, ss[0].e, ss[1].e)
    ensures t[ss[0].e].kind.Container? || (t[ss[0].e].kind.List? && |ss[0].vals| == |t[ss[0].e].keys|)
    ensures t[ss[0].e].kind.Container? ==> ss[0].vals == [] && es[0] == PathElem(t[ss[0].e].name, map[])
  {
    hide Elems, SortedVals, SortedKeyNames, Zip, Linked;
    ElemsCons(t, ss);
    assert es == [es[0]] + es[1..];
    ConsParts(SortedElem(t, ss[0]), Elems(t, ss[1..]));
    if t[ss[0].e].kind.IsTerminal() { NothingUnderTerminal(t, ss[0].e, ss[1].e); }
  }

  /** Going on from `e` with the items `rest` builds the rest of the path exactly when they start
      with the name of the next entry, that entry is near, and they build the path from it. */
  lemma {:induction false} GoOn(t: Tree, e: Id, ss: seq<PathStep>, es: seq<PathElem>, rest: seq<string>)
    requires e < |t| && IsData(t, e) && SchemaPath(t, ss) && PathFor(t, ss, es) && Offers(t, e, ss[0].e) && rest != []
    ensures var nxt := Next(t, e, rest[0]);
            (nxt.Some? && BuildFrom(t, rest, nxt.value) == Ok(es)) <==>
            (rest[0] == t[ss[0].e].name && Near(t, e, ss[0].e) && BuildFrom(t, rest, ss[0].e) == Ok(es))
  {
    NextStep(t, e, ss[0].e);
    var nxt := Next(t, e, rest[0]);
    if rest[0] != t[ss[0].e].name && nxt.Some? {
      NextScoped(t, e, rest[0]);
      NamedFirst(t, rest, nxt.value);
    }
  }

  /** `buildPath` gives a keyed path back from its items exactly when they can be read by name and
      the keys of a last list are the first ones in sorted order. */
  lemma {:induction false} BuildFlat(t: Tree, ss: seq<PathStep>, es: seq<PathElem>)
    requires SchemaPath(t, ss) && PathFor(t, ss, es)
    ensures BuildFrom(t, Flat(t, ss), ss[0].e) == Ok(es) <==> ByName(t, ss) && es == Elems(t, ss)
    decreases |ss|, 1
  {
    if |ss| == 1 {
      BuildLast(t, ss, es);
    } else if OwnData(t, ss[0].e) {
      BuildDoubled(t, ss, es);
    } else if OwnChoice(t, ss[0].e) {
      BuildThroughChoice(t, ss, es);
    } else {
      BuildStep(t, ss, es);
    }
  }

  lemma {:induction false} BuildLast(t: Tree, ss: seq<PathStep>, es: seq<PathElem>)
    requires SchemaPath(t, ss) && PathFor(t, ss, es) && |ss| == 1
    ensures BuildFrom(t, Flat(t, ss), ss[0].e) == Ok(es) <==> ByName(t, ss) && es == Elems(t, ss)
  {
    var e, vs := ss[0].e, ss[0].vals;
    assert ss[1..] == [] && es[1..] == [];
    assert Flat(t, ss) == [t[e].name] + vs + [] == [t[e].name] + vs;
    assert Elems(t, ss) == [SortedElem(t, ss[0])] + [] == [SortedElem(t, ss[0])];
    if HasOwn(t, e) {
      assert [t[e].name] + vs == [t[e].name];
      OwnStep(t, [t[e].name], e);
      if OwnData(t, e) {
        AfterIs(PathElem(t[e].name, map[]), BuildFrom(t, [t[e].name], Own(t, e)), es);
        BuiltNotEmpty(t, [t[e].name], Own(t, e));
      }
    } else {
      LastElem(t, e, vs);
    }
  }

  lemma {:induction false} LastElem(t: Tree, e: Id, vs: seq<string>)
    requires 0 < e < |t| && IsData(t, e) && !HasOwn(t, e) && ValuesFit(t, e, vs, true)
    ensures BuildFrom(t, [t[e].name] + vs, e) == Ok([SortedElem(t, PathStep(e, vs))])
  {
    var pe := [t[e].name] + vs;
    ConsParts(t[e].name, vs);
    match t[e].kind {
      case List =>
        var n, elem := ListStep(t, pe, e);
        assert pe[1..n + 1] == vs;
      case Container => ContainerStep(t, pe, e);
      case _ => TerminalStep(t, pe, e);
    }
  }

  lemma {:induction false} BuildDoubled(t: Tree, ss: seq<PathStep>, es: seq<PathElem>)
    requires SchemaPath(t, ss) && PathFor(t, ss, es) && |ss| > 1 && OwnData(t, ss[0].e)
    ensures BuildFrom(t, Flat(t, ss), ss[0].e) != Ok(es)
  {
    var e, pe := ss[0].e, Flat(t, ss);
    FlatCons(t, ss);
    PathForTail(t, ss, es);
    OwnStep(t, pe, e);
    ExtraNever(t, pe, Own(t, e), 1);
    AfterIs(PathElem(t[e].name, map[]), BuildFrom(t, pe, Own(t, e)), es);
    PathForStrings(t, ss[1..], es[1..]);
  }

  /** An entry without a child of its own name is left by the name of the next one. */
  lemma {:induction false} StepBuilds(t: Tree, ss: seq<PathStep>)
    requires SchemaPath(t, ss) && |ss| > 1 && !HasOwn(t, ss[0].e)
    ensures var nxt := Next(t, ss[0].e, t[ss[1].e].name);
            BuildFrom(t, Flat(t, ss), ss[0].e) ==
            if nxt.None? then Err(UnknownElement)
            else After([SortedElem(t, ss[0])], BuildFrom(t, Flat(t, ss[1..]), nxt.value))
  {
    hide BuildFrom, SortedVals, Next, After;
    var e, pe := ss[0].e, Flat(t, ss);
    FlatCons(t, ss);
    assert Offers(t, e, ss[1].e);
    if t[e].kind.IsTerminal() {
      NothingUnderTerminal(t, e, ss[1].e);
    } else if t[e].kind.List? {
      var n, elem := ListStep(t, pe, e);
    } else {
      ContainerStep(t, pe, e);
    }
  }

  lemma {:induction false} BuildStep(t: Tree, ss: seq<PathStep>, es: seq<PathElem>)
    requires SchemaPath(t, ss) && PathFor(t, ss, es) && |ss| > 1 && !HasOwn(t, ss[0].e)
    ensures BuildFrom(t, Flat(t, ss), ss[0].e) == Ok(es) <==> ByName(t, ss) && es == Elems(t, ss)
    decreases |ss|, 0
  {
    hide Flat, Elems, SortedElem, Near, BuildFrom, Next;
    var e, rest := ss[0].e, Flat(t, ss[1..]);
    FlatCons(t, ss);
    PathForTail(t, ss, es);
    StepBuilds(t, ss);
    BuildFlat(t, ss[1..], es[1..]);
    GoOn(t, e, ss[1..], es[1..], rest);
    var nxt := Next(t, e, rest[0]);
    if nxt.Some? { AfterIs(es[0], BuildFrom(t, rest, nxt.value), es); }
  }

  lemma {:induction false} BuildThroughChoice(t: Tree, ss: seq<PathStep>, es: seq<PathElem>)
    requires SchemaPath(t, ss) && PathFor(t, ss, es) && |ss| > 1 && OwnChoice(t, ss[0].e)
    ensures BuildFrom(t, Flat(t, ss), ss[0].e) == Ok(es) <==> ByName(t, ss) && es == Elems(t, ss)
    decreases |ss|, 0
  {
    var e, pe, rest := ss[0].e, Flat(t, ss), Flat(t, ss[1..]);
    FlatCons(t, ss);
    PathForTail(t, ss, es);
    OwnStep(t, pe, e);
    InOwnChoice(t, e, ss[1].e);
    assert pe[1] == rest[0] && pe[2..] == rest[1..];
    if InCaseOf(t, Own(t, e), ss[1].e) {
      BuildUnnamed(t, ss[1..], es[1..]);
      AfterIs(es[0], BuildFrom(t, rest[1..], ss[1].e), es);
    }
  }

  /** A child offered by a container is found in the choice of the container's name exactly when
      it sits in one of its cases. */
  lemma {:induction false} InOwnChoice(t: Tree, e: Id, c: Id)
    requires e < |t| && IsData(t, e) && OwnChoice(t, e) && Offers(t, e, c)
    ensures FindInChoice(t, Own(t, e), t[c].name) == if InCaseOf(t, Own(t, e), c) then Some(c) else None
  {
    var ch := Own(t, e);
    UnderData(t, e, c);
    assert Scoped(t, c);
    forall x: Id | InCaseOf(t, ch, x) && t[x].name == t[c].name ensures x == c {
      InCaseScope(t, ch, x);
      SameScope(t, c, x);
    }
  }

  /** The same for an entry that was entered without its name. */
  lemma {:induction false} BuildUnnamed(t: Tree, ss: seq<PathStep>, es: seq<PathElem>)
    requires SchemaPath(t, ss) && PathFor(t, ss, es)
    ensures BuildFrom(t, Flat(t, ss)[1..], ss[0].e) == Ok(es) <==> Unnamed(t, ss) && es == Elems(t, ss)
    decreases |ss|, 1
  {
    if |ss| == 1 {
      UnnamedLast(t, ss, es);
    } else {
      PathForTail(t, ss, es);
      if t[ss[0].e].kind.List? { UnnamedList(t, ss, es); } else { UnnamedContainer(t, ss, es); }
    }
  }

  lemma {:induction false} UnnamedLast(t: Tree, ss: seq<PathStep>, es: seq<PathElem>)
    requires SchemaPath(t, ss) && PathFor(t, ss, es) && |ss| == 1
    ensures BuildFrom(t, Flat(t, ss)[1..], ss[0].e) == Ok(es) <==> Unnamed(t, ss) && es == Elems(t, ss)
  {
    var e, vs := ss[0].e, ss[0].vals;
    assert ss[1..] == [] && es[1..] == [];
    assert Flat(t, ss) == [t[e].name] + vs + [] == [t[e].name] + vs;
    ConsParts(t[e].name, vs);
    assert Elems(t, ss) == [SortedElem(t, ss[0])] + [] == [SortedElem(t, ss[0])];
    NoVals();
    if vs != [] {
      if t[e].kind.List? {
        var n, elem := ListStep(t, vs, e);
      } else {
        TerminalStep(t, vs, e);
      }
    }
  }

  lemma {:induction false} UnnamedContainer(t: Tree, ss: seq<PathStep>, es: seq<PathElem>)
    requires SchemaPath(t, ss) && PathFor(t, ss, es) && |ss| > 1 && t[ss[0].e].kind.Container?
    ensures BuildFrom(t, Flat(t, ss)[1..], ss[0].e) == Ok(es) <==> Unnamed(t, ss) && es == Elems(t, ss)
    decreases |ss|, 0
  {
    var e, c, rest := ss[0].e, ss[1].e, Flat(t, ss[1..]);
    FlatCons(t, ss);
    PathForTail(t, ss, es);
    NextStep(t, e, c);
    assert Flat(t, ss)[1..] == rest;
    if Up(t, c) == e {
      UpFacts(t, c);
      BuildFlat(t, ss[1..], es[1..]);
      AfterIs(es[0], BuildFrom(t, rest, c), es);
    } else if |rest| > 1 {
      BuildUnnamed(t, ss[1..], es[1..]);
      GoOn(t, e, ss[1..], es[1..], rest[1..]);
      var nxt := Next(t, e, rest[1]);
      if nxt.Some? { AfterIs(es[0], BuildFrom(t, rest[1..], nxt.value), es); }
    }
  }

  lemma {:induction false} UnnamedList(t: Tree, ss: seq<PathStep>, es: seq<PathElem>)
    requires SchemaPath(t, ss) && PathFor(t, ss, es) && |ss| > 1 && t[ss[0].e].kind.List?
    ensures BuildFrom(t, Flat(t, ss)[1..], ss[0].e) == Ok(es) <==> Unnamed(t, ss) && es == Elems(t, ss)
    decreases |ss|, 0
  {
    hide ByName, Elems, Flat, BuildFrom, Near;
    var rest := Flat(t, ss[1..]);
    FlatCons(t, ss);
    PathForTail(t, ss, es);
    LateList(t, ss, es);
    if |rest| > 1 {
      BuildUnnamed(t, ss[1..], es[1..]);
      GoOn(t, ss[0].e, ss[1..], es[1..], rest[1..]);
    }
  }

  lemma {:induction false} LateFlat(t: Links, ss: seq<PathStep>)
    requires SchemaPath(t, ss)
    ensures Flat(t, ss)[1..] == ss[0].vals + Flat(t, ss[1..])
  {
    Assoc([t[ss[0].e].name], ss[0].vals, Flat(t, ss[1..]));
    ConsParts(t[ss[0].e].name, ss[0].vals + Flat(t, ss[1..]));
  }

  /** A list entered without its name takes the items one late. */
  lemma {:induction false} LateList(t: Tree, ss: seq<PathStep>, es: seq<PathElem>)
    requires SchemaPath(t, ss) && PathFor(t, ss, es) && |ss| > 1 && t[ss[0].e].kind.List?
    ensures Flat(t, ss[1..]) != []
    ensures var e, rest := ss[0].e, Flat(t, ss[1..]);
            BuildFrom(t, Flat(t, ss)[1..], e) == Ok(es) <==>
            && (forall i | 0 <= i < |ss[0].vals| :: ss[0].vals[i] == rest[0])
            && |rest| > 1 && Next(t, e, rest[1]).Some? && BuildFrom(t, rest[1..], Next(t, e, rest[1]).value) == Ok(es[1..])
  {
    hide SortedElem, SortedVals, Elems, BuildFrom, Next, Flat, Offers;
    var e, vs, rest := ss[0].e, ss[0].vals, Flat(t, ss[1..]);
    FlatCons(t, ss);
    PathForTail(t, ss, es);
    LateFlat(t, ss);
    var q := vs + rest;
    LateItems(vs, rest);
    var n, elem := ListStep(t, q, e);
    SameElem(t, ss[0], elem, es[0], q[1..n + 1]);
    if |rest| > 1 {
      var nxt := Next(t, e, rest[1]);
      if nxt.Some? { AfterIs(elem, BuildFrom(t, rest[1..], nxt.value), es); }
    }
  }

  lemma {:induction false} SameElem(t: Links, s: PathStep, a: PathElem, b: PathElem, vs: seq<string>)
    requires s.e < |t| && (t[s.e].kind.List? ==> |s.vals| <= |t[s.e].keys| && |vs| <= |t[s.e].keys|)
    requires a == SortedElem(t, PathStep(s.e, vs)) && b == SortedElem(t, s)
    requires SortedVals(a.key) == vs && SortedVals(b.key) == s.vals
    ensures a == b <==> vs == s.vals
  {
  }

  /** Reading the items after a list name one item late. */
  lemma {:induction false} LateItems(vs: seq<string>, rest: seq<string>)
    requires rest != []
    ensures var q := vs + rest;
            && |q| == |vs| + |rest|
            && (q[1..|vs| + 1] == vs <==> forall i | 0 <= i < |vs| :: vs[i] == rest[0])
            && q[|vs| + 1..] == rest[1..]
            && (|rest| > 1 ==> q[|vs| + 1] == rest[1])
  {
    ShiftByOne(vs, rest);
  }

  /** Read one item late, values are unchanged exactly when they all are the item after them. */
  lemma {:induction false} ShiftByOne(vs: seq<string>, rest: seq<string>)
    requires rest != []
    ensures (vs + rest)[1..|vs| + 1] == vs <==> forall i | 0 <= i < |vs| :: vs[i] == rest[0]
    decreases |vs|
  {
    var q := vs + rest;
    if vs != [] {
      ConsParts(vs[0], vs[1..] + rest);
      assert q == [vs[0]] + (vs[1..] + rest);
      ShiftByOne(vs[1..], rest);
      assert q[1..|vs| + 1] == [q[1]] + (vs[1..] + rest)[1..|vs|];
      assert vs == [vs[0]] + vs[1..];
      if |vs| > 1 { assert q[1] == vs[1]; } else { assert q[1] == rest[0]; }
    }
  }

  // ----- paths without such containers

  /** No entry of the path is a container with a child of its own name. */
  ghost predicate OwnFree(t: Links, ss: seq<PathStep>)
    requires forall i | 0 <= i < |ss| :: 0 < ss[i].e < |t|
  {
    forall i | 0 <= i < |ss| :: !HasOwn(t, ss[i].e)
  }

  /** Each entry of the path is in its predecessor's `Dir` or in a case one choice below it. */
  ghost predicate Shallow(t: Links, ss: seq<PathStep>)
    requires forall i | 0 <= i < |ss| :: 0 < ss[i].e < |t|
  {
    forall i | 0 <= i < |ss| - 1 :: Near(t, ss[i].e, ss[i + 1].e)
  }

  lemma {:induction false} ShallowStep(t: Links, ss: seq<PathStep>)
    requires SchemaPath(t, ss) && |ss| > 1
    ensures Shallow(t, ss) <==> Shallow(t, ss[1..]) && Near(t, ss[0].e, ss[1].e)
  {
    var tail := ss[1..];
    if Shallow(t, tail) && Near(t, ss[0].e, ss[1].e) {
      forall i | 0 <= i < |ss| - 1 ensures Near(t, ss[i].e, ss[i + 1].e) {
        if i > 0 { assert tail[i - 1] == ss[i] && tail[i] == ss[i + 1]; }
      }
    }
    if Shallow(t, ss) {
      forall i | 0 <= i < |tail| - 1 ensures Near(t, tail[i].e, tail[i + 1].e) {
        assert tail[i] == ss[i + 1] && tail[i + 1] == ss[i + 2];
      }
    }
  }

  lemma {:induction false} ElemsArePathFor(t: Links, ss: seq<PathStep>)
    requires SchemaPath(t, ss)
    ensures PathFor(t, ss, Elems(t, ss))
    decreases |ss|
  {
    KeyedStrings(t, ss[0].e, ss[0].vals, |ss| == 1);
    ConsParts(SortedElem(t, ss[0]), Elems(t, ss[1..]));
    if |ss| > 1 {
      SchemaPathTail(t, ss);
      ElemsArePathFor(t, ss[1..]);
    }
  }

  lemma {:induction false} OwnFreeLast(t: Tree, ss: seq<PathStep>)
    requires SchemaPath(t, ss) && OwnFree(t, ss) && |ss| == 1
    ensures ByName(t, ss) && Shallow(t, ss) && BuildFrom(t, Flat(t, ss), ss[0].e) == Ok(Elems(t, ss))
  {
    var e := ss[0].e;
    assert ss[1..] == [];
    assert Flat(t, ss) == [t[e].name] + ss[0].vals + [] == [t[e].name] + ss[0].vals;
    assert Elems(t, ss) == [SortedElem(t, ss[0])] + [] == [SortedElem(t, ss[0])];
    LastElem(t, e, ss[0].vals);
  }

  lemma {:induction false} ElemsCons(t: Links, ss: seq<PathStep>)
    requires SchemaPath(t, ss) && |ss| > 1
    ensures SchemaPath(t, ss[1..]) && Elems(t, ss) == [SortedElem(t, ss[0])] + Elems(t, ss[1..])
    ensures IsData(t, ss[0].e) && Offers(t, ss[0].e, ss[1].e)
  {
    SchemaPathTail(t, ss);
    assert Offers(t, ss[0].e, ss[1].e);
  }

  /** On such paths nothing but a step over more than one choice goes wrong, and it is refused. */
  lemma {:induction false} OwnFreeBuild(t: Tree, ss: seq<PathStep>)
    requires SchemaPath(t, ss) && OwnFree(t, ss)
    ensures ByName(t, ss) <==> Shallow(t, ss)
    ensures BuildFrom(t, Flat(t, ss), ss[0].e) == if Shallow(t, ss) then Ok(Elems(t, ss)) else Err(UnknownElement)
    decreases |ss|
  {
    if |ss| == 1 {
      OwnFreeLast(t, ss);
    } else {
      hide Flat, Elems, SortedElem, Near, BuildFrom, Next;
      FlatCons(t, ss);
      ElemsCons(t, ss);
      ShallowStep(t, ss);
      StepBuilds(t, ss);
      OwnFreeBuild(t, ss[1..]);
      NextStep(t, ss[0].e, ss[1].e);
    }
  }

  // ----- the whole schema

  function Renamed(es: seq<PathElem>, prefix: string): seq<PathElem> {
    if es == [] then [] else [PathElem(prefix + ":" + es[0].name, es[0].key)] + es[1..]
  }

  /** The items as `BuildPath` reads them: a module prefix of the first one is cut off. */
  function CutPrefix(pe: seq<string>): (string, seq<string>)
    requires pe != []
  {
    var i := IndexOf(pe[0], ':');
    if 0 < i < |pe[0]| then (pe[0][..i], [pe[0][i + 1..]] + pe[1..]) else (pe[0], pe)
  }

  ghost predicate HasTop(t: Links, m: string, n: string) {
    m in t[0].dir && n in (DirFacts(t, 0, m); t[t[0].dir[m]].dir)
  }

  ghost function Top(t: Links, m: string, n: string): (e: Id)
    requires HasTop(t, m, n)
    ensures 0 < e < |t| && t[e].name == n && Scoped(t, e)
  {
    DirFacts(t, 0, m);
    DirFacts(t, t[0].dir[m], n);
    t[t[0].dir[m]].dir[n]
  }

  /** The results `BuildPath` may give: without a prefix, any module with the name may be met first. */
  ghost predicate MayBuild(t: Links, pe: seq<string>, r: Built) {
    if pe == [] then r == Ok([])
    else
      var (first, items) := CutPrefix(pe);
      if first in t[0].dir then
        if !HasTop(t, first, items[0]) then r == Err(UnknownElement)
        else
          match BuildFrom(t, items, Top(t, first, items[0]))
          case Err(x) => r == Err(x)
          case Ok(es) => r == Ok(Renamed(es, first))
      else if exists m :: HasTop(t, m, items[0]) then
        exists m :: HasTop(t, m, items[0]) && r == BuildFrom(t, items, Top(t, m, items[0]))
      else r == Err(UnknownElement)
  }

  /** `BuildPath`. */
  method BuildPath(t: Tree, pe: seq<string>) returns (r: Built)
    ensures MayBuild(t, pe, r)
    ensures pe == [] ==> r == Ok([])
  {
    if pe == [] { return Ok([]); }
    var (first, items) := CutPrefix(pe);
    if first in t[0].dir {
      var d := t[0].dir[first];
      DirFacts(t, 0, first);
      if items[0] !in t[d].dir { return Err(UnknownElement); }
      DirFacts(t, d, items[0]);
      var built := BuildPathFrom(t, items, [], t[d].dir[items[0]]);
      BuiltNotEmpty(t, items, t[d].dir[items[0]]);
      AfterNothing(BuildFrom(t, items, t[d].dir[items[0]]));
      if built.Err? { return built; }
      return Ok(Renamed(built.value, first));
    }
    var todo := t[0].dir.Keys;
    while todo != {}
      invariant todo <= t[0].dir.Keys
      invariant forall m | HasTop(t, m, items[0]) :: m in todo
    {
      var m :| m in todo;
      var d := t[0].dir[m];
      DirFacts(t, 0, m);
      if items[0] in t[d].dir {
        DirFacts(t, d, items[0]);
        assert HasTop(t, m, items[0]);
        r := BuildPathFrom(t, items, [], t[d].dir[items[0]]);
        AfterNothing(BuildFrom(t, items, t[d].dir[items[0]]));
        return;
      }
      todo := todo - {m};
    }
    r := Err(UnknownElement);
  }

  lemma {:induction false} AfterNothing(b: Built)
    ensures After([], b) == b
  {
    if b.Ok? { assert [] + b.value == b.value; }
  }

  /** Items whose first one is a plain name that is no module, or carries a module prefix. */
  ghost predicate ProperStart(t: Links, pe: seq<string>) {
    && pe != []
    && var i := IndexOf(pe[0], ':');
       if 0 < i < |pe[0]| then pe[0][..i] in t[0].dir else pe[0] !in t[0].dir
  }

  /** Putting a module prefix on the first element puts it on the first string. */
  lemma {:induction false} RenamedStrings(es: seq<PathElem>, items: seq<string>, prefix: string)
    requires es != [] && items != []
    ensures Strings(Renamed(es, prefix), false) == [prefix + ":" + items[0]] + items[1..] <==> Strings(es, false) == items
  {
    hide SortedVals;
    var vs, tail := SortedVals(es[0].key), Strings(es[1..], false);
    var first := prefix + ":" + es[0].name;
    StringsCons(PathElem(first, es[0].key), es[1..]);
    StringsCons(es[0], es[1..]);
    assert es == [es[0]] + es[1..];
    Assoc([first], vs, tail);
    Assoc([es[0].name], vs, tail);
    assert items == [items[0]] + items[1..];
    ConsSame(es[0].name, items[0], vs + tail, items[1..]);
    ConsSame(first, prefix + ":" + items[0], vs + tail, items[1..]);
    assert first[|prefix| + 1..] == es[0].name && (prefix + ":" + items[0])[|prefix| + 1..] == items[0];
  }

  lemma {:induction false} CutPrefixParts(pe: seq<string>)
    requires pe != [] && 0 < IndexOf(pe[0], ':') < |pe[0]|
    ensures var (first, items) := CutPrefix(pe); items != [] && [first + ":" + items[0]] + items[1..] == pe
  {
    var (first, items) := CutPrefix(pe);
    assert pe[0] == first + ":" + items[0];
    assert items[1..] == pe[1..];
  }

  lemma {:induction false} RenamedFirst(es: seq<PathElem>, prefix: string)
    requires es != []
    ensures Strings(Renamed(es, prefix), false) != [] && ':' in Strings(Renamed(es, prefix), false)[0]
  {
    StringsCons(PathElem(prefix + ":" + es[0].name, es[0].key), es[1..]);
    assert (prefix + ":" + es[0].name)[|prefix|] == ':';
  }

  lemma {:induction false} TopIsPlain(t: Links, m: string, n: string)
    requires HasTop(t, m, n)
    ensures ':' !in n && ':' !in m
  {
    DirFacts(t, 0, m);
    IdentifierIsPlain(m);
    UpFacts(t, Top(t, m, n));
    IdentifierIsPlain(n);
  }

  /** `es` is what `BuildPath` gives when it looks the first name up in module `m`. */
  ghost predicate BuiltIn(t: Links, pe: seq<string>, m: string, es: seq<PathElem>)
    requires pe != []
  {
    var (first, items) := CutPrefix(pe);
    HasTop(t, m, items[0]) &&
    match BuildFrom(t, items, Top(t, m, items[0]))
    case Err(_) => false
    case Ok(b) => if first in t[0].dir then m == first && es == Renamed(b, m) else es == b
  }

  ghost predicate ReadBackIn(t: Links, items: seq<string>, m: string)
    requires items != [] && HasTop(t, m, items[0])
  {
    ReadBack(t, items, Top(t, m, items[0]))
  }

  lemma {:induction false} SomeModule(t: Links, pe: seq<string>, es: seq<PathElem>)
    requires pe != []
    ensures MayBuild(t, pe, Ok(es)) <==> exists m :: BuiltIn(t, pe, m, es)
  {
    var (first, items) := CutPrefix(pe);
    if first in t[0].dir && MayBuild(t, pe, Ok(es)) { assert BuiltIn(t, pe, first, es); }
    if first !in t[0].dir && MayBuild(t, pe, Ok(es)) {
      var m :| HasTop(t, m, items[0]) && Ok(es) == BuildFrom(t, items, Top(t, m, items[0]));
      assert BuiltIn(t, pe, m, es);
    }
  }

  /** Build, then flatten: what `BuildPath` builds in a module flattens to the input exactly when
      the first item carries the prefix of a module or is a plain name that is no module, and
      the items are read back in that module. */
  lemma {:induction false} BuildThenFlatten(t: Tree, pe: seq<string>, m: string, es: seq<PathElem>)
    requires pe != [] && BuiltIn(t, pe, m, es)
    ensures MayBuild(t, pe, Ok(es))
    ensures Strings(es, false) == pe <==> ProperStart(t, pe) && ReadBackIn(t, CutPrefix(pe).1, m)
  {
    SomeModule(t, pe, es);
    hide BuildFrom, ReadBack, Strings, MayBuild;
    var (first, items) := CutPrefix(pe);
    var e := Top(t, m, items[0]);
    var b := BuildFrom(t, items, e).value;
    FlattenBack(t, items, e);
    BuiltNotEmpty(t, items, e);
    TopIsPlain(t, m, items[0]);
    if first in t[0].dir {
      RenamedFirst(b, m);
      if 0 < IndexOf(pe[0], ':') < |pe[0]| {
        CutPrefixParts(pe);
        RenamedStrings(b, items, m);
      }
    } else {
      NamedFirst(t, items, e);
      FirstString(es);
    }
  }

  lemma {:induction false} FirstItem(items: seq<string>, es: seq<PathElem>)
    requires es != [] && items != [] && Strings(es, false) == items
    ensures es[0].name == items[0] && SortedVals(es[0].key) + Strings(es[1..], false) == items[1..]
  {
    StringsCons(es[0], es[1..]);
    assert es == [es[0]] + es[1..];
    Assoc([es[0].name], SortedVals(es[0].key), Strings(es[1..], false));
  }

  /** `m` is the only module with a top-level entry called `n`. */
  ghost predicate OnlyIn(t: Links, m: string, n: string) {
    HasTop(t, m, n) && forall m' | HasTop(t, m', n) :: m' == m
  }

  /** Flatten, then build: for every valid keyed path, a first name that is a module name is
      never given back; otherwise the walk through module `m` gives the path back exactly when
      its items can be read by name and the keys of a last list are the first ones in sorted
      order, and no other result is possible when `m` alone has the first name. */
  lemma {:induction false} FlattenThenBuild(t: Tree, m: string, ids: seq<Id>, p: seq<PathElem>, r: Built)
    requires ValidPath(t, ids, p)
    requires HasTop(t, m, p[0].name) && Top(t, m, p[0].name) == ids[0]
    requires MayBuild(t, Strings(p, false), r)
    ensures SchemaPath(t, StepsOf(ids, p)) && Strings(p, false) != []
    ensures p[0].name in t[0].dir ==> r != Ok(p)
    ensures p[0].name !in t[0].dir ==>
              (BuiltIn(t, Strings(p, false), m, p) <==>
               ByName(t, StepsOf(ids, p)) && KeysInOrder(t, ids[|ids| - 1], p[|p| - 1]))
    ensures p[0].name !in t[0].dir && OnlyIn(t, m, p[0].name) ==>
              && (r == Ok(p) <==> ByName(t, StepsOf(ids, p)) && KeysInOrder(t, ids[|ids| - 1], p[|p| - 1]))
              && (OwnFree(t, StepsOf(ids, p)) ==>
                    r == if Shallow(t, StepsOf(ids, p)) then Ok(Elems(t, StepsOf(ids, p))) else Err(UnknownElement))
  {
    hide ByName, KeysInOrder, BuildFrom, OwnFree, Shallow, Elems;
    FlattenedItems(t, ids, p);
    BuildsItems(t, ids, p);
    var pe := Strings(p, false);
    UpFacts(t, ids[0]);
    IdentifierIsPlain(t[ids[0]].name);
    assert HasTop(t, m, pe[0]);
    if pe[0] in t[0].dir && r.Ok? {
      BuiltNotEmpty(t, pe, Top(t, pe[0], pe[0]));
      RenamedFirst(BuildFrom(t, pe, Top(t, pe[0], pe[0])).value, pe[0]);
    }
  }

  /** The entries `ids` are those of the path `p` in module `m`. */
  ghost predicate PathIn(t: Links, m: string, ids: seq<Id>, p: seq<PathElem>) {
    p != [] && HasTop(t, m, p[0].name) && ValidPath(t, ids, p) && Top(t, m, p[0].name) == ids[0]
  }

  /** The path is read by name, and the keys of a last list are the first ones. */
  ghost predicate GivesBack(t: Links, ids: seq<Id>, p: seq<PathElem>) {
    && ValidPath(t, ids, p) && SchemaPath(t, StepsOf(ids, p))
    && ByName(t, StepsOf(ids, p)) && KeysInOrder(t, ids[|ids| - 1], p[|p| - 1])
  }

  /** `r` is what the items of `p` are built into in module `m`. */
  ghost predicate ResultIn(t: Links, m: string, p: seq<PathElem>, r: Built)
    requires p != []
  {
    HasTop(t, m, p[0].name) && r == BuildFrom(t, Strings(p, false), Top(t, m, p[0].name))
  }

  lemma {:induction false} GivesBackIn(t: Tree, m: string, ids: seq<Id>, p: seq<PathElem>) returns (r: Built)
    requires PathIn(t, m, ids, p)
    ensures ResultIn(t, m, p, r) && (GivesBack(t, ids, p) <==> r == Ok(p))
    ensures Strings(p, false) != [] && Strings(p, false)[0] == p[0].name && ':' !in p[0].name
  {
    hide ByName, KeysInOrder, BuildFrom;
    FlattenedItems(t, ids, p);
    BuildsItems(t, ids, p);
    TopIsPlain(t, m, p[0].name);
    r := BuildFrom(t, Strings(p, false), Top(t, m, p[0].name));
  }

  lemma {:induction false} PlainResults(t: Links, p: seq<PathElem>, r: Built)
    requires p != [] && Strings(p, false) != [] && Strings(p, false)[0] == p[0].name
    requires ':' !in p[0].name && p[0].name !in t[0].dir && exists m :: HasTop(t, m, p[0].name)
    ensures MayBuild(t, Strings(p, false), r) <==> exists m :: ResultIn(t, m, p, r)
  {
    var pe := Strings(p, false);
    assert CutPrefix(pe) == (pe[0], pe);
    assert forall m :: ResultIn(t, m, p, r) <==> HasTop(t, m, pe[0]) && r == BuildFrom(t, pe, Top(t, m, pe[0]));
  }

  /** Every module that has the first name of `p` has the path, with the entries `every` gives. */
  ghost predicate Shared(t: Links, every: map<string, seq<Id>>, p: seq<PathElem>) {
    && p != [] && p[0].name !in t[0].dir && every != map[]
    && (forall m :: m in every <==> HasTop(t, m, p[0].name))
    && forall m | m in every :: PathIn(t, m, every[m], p)
  }

  lemma {:induction false} SharedStart(t: Tree, every: map<string, seq<Id>>, p: seq<PathElem>)
    requires Shared(t, every, p)
    ensures Strings(p, false) != [] && Strings(p, false)[0] == p[0].name && ':' !in p[0].name
    ensures exists m :: HasTop(t, m, p[0].name)
  {
    var m :| m in every;
    assert HasTop(t, m, p[0].name) && PathIn(t, m, every[m], p);
    var r := GivesBackIn(t, m, every[m], p);
  }

  lemma {:induction false} ResultShared(t: Tree, every: map<string, seq<Id>>, p: seq<PathElem>, r: Built)
    requires Shared(t, every, p) && MayBuild(t, Strings(p, false), r)
    ensures exists m :: m in every && (GivesBack(t, every[m], p) <==> r == Ok(p))
  {
    hide GivesBack, PathIn, MayBuild;
    SharedStart(t, every, p);
    PlainResults(t, p, r);
    var m :| ResultIn(t, m, p, r);
    assert PathIn(t, m, every[m], p);
    var same := GivesBackIn(t, m, every[m], p);
  }

  lemma {:induction false} SharedResult(t: Tree, every: map<string, seq<Id>>, p: seq<PathElem>, m: string) returns (r: Built)
    requires Shared(t, every, p) && m in every
    ensures MayBuild(t, Strings(p, false), r) && (GivesBack(t, every[m], p) <==> r == Ok(p))
  {
    hide GivesBack, PathIn, MayBuild;
    SharedStart(t, every, p);
    assert PathIn(t, m, every[m], p);
    r := GivesBackIn(t, m, every[m], p);
    PlainResults(t, p, r);
  }

  /** When every module that has the first name has the path, `BuildPath` always gives it back
      exactly when it does so in each of them, and may give it back exactly when it does in one. */
  lemma {:induction false} FlattenThenBuildShared(t: Tree, every: map<string, seq<Id>>, p: seq<PathElem>)
    requires Shared(t, every, p)
    ensures (forall r | MayBuild(t, Strings(p, false), r) :: r == Ok(p)) <==> forall m | m in every :: GivesBack(t, every[m], p)
    ensures MayBuild(t, Strings(p, false), Ok(p)) <==> exists m :: m in every && GivesBack(t, every[m], p)
  {
    hide *;
    var pe := Strings(p, false);
    if forall m | m in every :: GivesBack(t, every[m], p) {
      forall r | MayBuild(t, pe, r) ensures r == Ok(p) { ResultShared(t, every, p, r); }
    }
    if forall r | MayBuild(t, pe, r) :: r == Ok(p) {
      forall m | m in every ensures GivesBack(t, every[m], p) { var r := SharedResult(t, every, p, m); }
    }
    if MayBuild(t, pe, Ok(p)) { ResultShared(t, every, p, Ok(p)); }
    if m :| m in every && GivesBack(t, every[m], p) { var r := SharedResult(t, every, p, m); }
  }

  lemma {:induction false} FlattenedItems(t: Tree, ids: seq<Id>, p: seq<PathElem>)
    requires ValidPath(t, ids, p)
    ensures SchemaPath(t, StepsOf(ids, p)) && Strings(p, false) == Flat(t, StepsOf(ids, p))
    ensures Strings(p, false) != [] && Strings(p, false)[0] == p[0].name == t[ids[0]].name
  {
    var ss := StepsOf(ids, p);
    ValidPathIsElems(t, ids, p);
    PathForStrings(t, ss, p);
    FlatCons(t, ss);
  }

  /** What the items of a valid keyed path are built into. */
  lemma {:induction false} BuildsItems(t: Tree, ids: seq<Id>, p: seq<PathElem>)
    requires ValidPath(t, ids, p)
    ensures SchemaPath(t, StepsOf(ids, p))
    ensures var b := BuildFrom(t, Strings(p, false), ids[0]);
            && (b == Ok(p) <==> ByName(t, StepsOf(ids, p)) && KeysInOrder(t, ids[|ids| - 1], p[|p| - 1]))
            && (OwnFree(t, StepsOf(ids, p)) ==>
                  b == if Shallow(t, StepsOf(ids, p)) then Ok(Elems(t, StepsOf(ids, p))) else Err(UnknownElement))
  {
    hide Flat, Elems, KeysInOrder, ByName, Shallow, OwnFree;
    var ss := StepsOf(ids, p);
    ValidPathIsElems(t, ids, p);
    PathForStrings(t, ss, p);
    BuildFlat(t, ss, p);
    if OwnFree(t, ss) { OwnFreeBuild(t, ss); }
  }

  /** The same for a first name that carries its module as prefix, whatever other modules define. */
  lemma {:induction false} FlattenThenBuildPrefixed(t: Tree, m: string, ids: seq<Id>, p: seq<PathElem>, r: Built)
    requires ValidPath(t, ids, p)
    requires HasTop(t, m, p[0].name) && Top(t, m, p[0].name) == ids[0]
    requires MayBuild(t, Strings(Renamed(p, m), false), r)
    ensures SchemaPath(t, StepsOf(ids, p))
    ensures r == Ok(Renamed(p, m)) <==> ByName(t, StepsOf(ids, p)) && KeysInOrder(t, ids[|ids| - 1], p[|p| - 1])
    ensures OwnFree(t, StepsOf(ids, p)) ==>
              r == if Shallow(t, StepsOf(ids, p)) then Ok(Renamed(Elems(t, StepsOf(ids, p)), m)) else Err(UnknownElement)
  {
    FlattenedItems(t, ids, p);
    BuildsItems(t, ids, p);
    var items := Strings(p, false);
    RenamedStrings(p, items, m);
    FirstItem(items, p);
    PrefixCuts(t, m, items);
    BuiltNotEmpty(t, items, ids[0]);
    var b := BuildFrom(t, items, ids[0]);
    if b.Ok? { RenamedInjective(b.value, p, m); }
  }

  lemma {:induction false} RenamedInjective(a: seq<PathElem>, b: seq<PathElem>, prefix: string)
    requires a != [] && b != []
    ensures Renamed(a, prefix) == Renamed(b, prefix) <==> a == b
  {
    var x, y := PathElem(prefix + ":" + a[0].name, a[0].key), PathElem(prefix + ":" + b[0].name, b[0].key);
    ConsParts(x, a[1..]);
    ConsParts(y, b[1..]);
    assert x.name[|prefix| + 1..] == a[0].name && y.name[|prefix| + 1..] == b[0].name;
    assert a == [a[0]] + a[1..] && b == [b[0]] + b[1..];
  }

  lemma {:induction false} PrefixCuts(t: Links, m: string, items: seq<string>)
    requires m in t[0].dir && items != []
    ensures CutPrefix([m + ":" + items[0]] + items[1..]) == (m, items)
  {
    DirFacts(t, 0, m);
    IdentifierIsPlain(m);
    FirstOccurrence(m, ':', items[0]);
    var first := m + ":" + items[0];
    assert first == m + [':'] + items[0];
    assert first[..|m|] == m && first[|m| + 1..] == items[0];
    assert ([first] + items[1..])[1..] == items[1..];
    assert [items[0]] + items[1..] == items;
  }
}
