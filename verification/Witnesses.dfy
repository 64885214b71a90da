/** Small schemas and inputs on which the exact conditions of this project fail.  Each schema is
    given by its shape, for any names. */
module Witnesses {
  import opened Wrappers
  import opened Text
  import opened XPath
  import opened XPathRoundTrip
  import opened ModuleOrder
  import opened YangTree
  import opened Navigation
  import opened SchemaPaths
  import opened PathBuilder
  import opened OwnNames
  import opened Flattening
  import opened PathBuilderInverse
  import opened KeyCodec
  import opened SchemaElems
  import opened StoreIndex
  import opened StorePaths
  import opened StoreRuns
  import opened StoreReload
  import opened References
  import opened Lookups
  import opened Annotation
  import LeafTypes

  // ----- entries

  ghost predicate Name(n: string) {
    IsIdentifier(n) && n != ROOT_NAME
  }

  function RootOf(dir: map<string, Id>): Node {
    Node(ROOT_NAME, "", Container, None, dir, [], Unset, None, "")
  }

  function ModuleEntry(name: string, dir: map<string, Id>): Node {
    Node(name, "", Container, None, dir, [], Unset, None, "")
  }

  function Inner(name: string, kind: Kind, parent: Id, dir: map<string, Id>, keys: seq<string>): Node {
    Node(name, "", kind, Some(parent), dir, keys, Unset, None, "")
  }

  function LeafEntry(name: string, parent: Id, ltype: YangType, description: string): Node {
    Node(name, "", Leaf, Some(parent), map[], [], Unset, Some(ltype), description)
  }

  const STRING := Builtin("string")

  /** Names as the witnesses use them. */
  lemma {:induction false} Letters()
    ensures Name("a") && Name("b") && Name("c") && Name("d") && Name("h") && Name("i") && Name("k") && Name("l")
    ensures Name("m") && Name("x") && Name("z")
    ensures "x" != "z" && "x" != "l" && "l" != "z" && "m" != "x" && "m" != "l" && "h" != "x" && "h" != "i" && "i" != "x"
    ensures "a" != "b" && "a" != "c" && "b" != "c" && "c" != "h" && "foo" != "m" && Name("foo")
    ensures LexLess("a", "b") && ModLess("a", "b")
  {
    assert !HasSubstring("", "ietf") && !HasSubstring("", "iana");
    assert forall s | s in DEPRIORITIZED :: !HasSubstring("a", s) && !HasSubstring("b", s);
  }

  // ----- lookup: a choice directly below a module

  /** module m { choice h { case c { leaf x; } } } */
  ghost predicate TopChoice(t: RawTree, m: string, h: string, c: string, x: string) {
    && |t| == 5
    && t[0] == RootOf(map[m := 1])
    && t[1] == ModuleEntry(m, map[h := 2])
    && t[2] == Inner(h, Choice, 1, map[c := 3], [])
    && t[3] == Inner(c, Case, 2, map[x := 4], [])
    && t[4] == LeafEntry(x, 3, STRING, "")
  }

  lemma {:induction false} TopChoiceTree(m: string, h: string, c: string, x: string) returns (t: Tree)
    requires Name(m) && Name(h) && Name(c) && Name(x) && h != x
    ensures TopChoice(t, m, h, c, x)
  {
    hide IsIdentifier, Linked, NamesUnique;
    var r: RawTree := [RootOf(map[m := 1]), ModuleEntry(m, map[h := 2]), Inner(h, Choice, 1, map[c := 3], []),
                       Inner(c, Case, 2, map[x := 4], []), LeafEntry(x, 3, STRING, "")];
    assert TopChoice(r, m, h, c, x);
    TopChoiceLinked(r, m, h, c, x);
    TopChoiceUnique(r, m, h, c, x);
    t := r;
  }

  lemma {:induction false} TopChoiceLinked(t: RawTree, m: string, h: string, c: string, x: string)
    requires TopChoice(t, m, h, c, x) && Name(m) && Name(h) && Name(c) && Name(x)
    ensures Linked(t)
  {
    hide IsIdentifier;
    assert NodeOk(t, 1) && NodeOk(t, 2) && NodeOk(t, 3) && NodeOk(t, 4);
  }

  lemma {:induction false} TopChoiceUnique(t: Links, m: string, h: string, c: string, x: string)
    requires TopChoice(t, m, h, c, x) && h != x
    ensures NamesUnique(t)
  {
    hide IsIdentifier;
    assert DataParent(t, 2) == 1 && DataParent(t, 3) == 1 && DataParent(t, 4) == 1;
  }

  /** The index has a node for the leaf, the tree walk finds none. */
  lemma {:induction false} TopChoiceSplits(t: Tree, m: string, h: string, c: string, x: string)
    requires TopChoice(t, m, h, c, x) && m != x && h != x
    ensures PlainPath(t, [x]) && IndexNode(t, [x]) == Some(4) && Resolve(t, [x]) == None
  {
    UpFacts(t, 4);
    IdentifierIsPlain(x);
    assert Under(t, 1, 2) && Under(t, 1, 3) && Under(t, 1, 4);
    assert HasChild(t, 1, x, 4);
    ChildIs(t, 1, x, 4);
    assert [x][1..] == [];
    assert Descend(t, 1, [x]) == Some(4);
    assert m in AllHits(t, [x]);
    assert AllHits(t, [x]) == {m};
    PlainCandidates(t, [x]);
    assert Candidates(t, x) == {};
  }

  // ----- `GetEntry` and relative leafrefs: two modules with the same names

  /** module a { container c { leaf x; } } and module b { container c { leaf x; } } */
  ghost predicate TwoModules(t: RawTree, a: string, b: string, c: string, x: string) {
    && |t| == 7
    && t[0] == RootOf(map[a := 1, b := 4])
    && t[1] == ModuleEntry(a, map[c := 2])
    && t[2] == Inner(c, Container, 1, map[x := 3], [])
    && t[3] == LeafEntry(x, 2, STRING, "")
    && t[4] == ModuleEntry(b, map[c := 5])
    && t[5] == Inner(c, Container, 4, map[x := 6], [])
    && t[6] == LeafEntry(x, 5, STRING, "")
  }

  lemma {:induction false} TwoModulesTree(a: string, b: string, c: string, x: string) returns (t: Tree)
    requires Name(a) && Name(b) && Name(c) && Name(x) && a != b
    ensures TwoModules(t, a, b, c, x)
  {
    hide IsIdentifier, Linked, NamesUnique;
    var r: RawTree := [RootOf(map[a := 1, b := 4]),
                       ModuleEntry(a, map[c := 2]), Inner(c, Container, 1, map[x := 3], []), LeafEntry(x, 2, STRING, ""),
                       ModuleEntry(b, map[c := 5]), Inner(c, Container, 4, map[x := 6], []), LeafEntry(x, 5, STRING, "")];
    assert TwoModules(r, a, b, c, x);
    TwoModulesLinked(r, a, b, c, x);
    TwoModulesUnique(r, a, b, c, x);
    t := r;
  }

  lemma {:induction false} TwoModulesNodes(t: RawTree, a: string, b: string, c: string, x: string)
    requires TwoModules(t, a, b, c, x) && Name(a) && Name(b) && Name(c) && Name(x) && a != b
    ensures forall e :: 0 < e < |t| ==> NodeOk(t, e)
  {
    hide IsIdentifier;
    assert NodeOk(t, 1) && NodeOk(t, 2) && NodeOk(t, 3) && NodeOk(t, 4) && NodeOk(t, 5) && NodeOk(t, 6);
  }

  lemma {:induction false} TwoModulesLinked(t: RawTree, a: string, b: string, c: string, x: string)
    requires TwoModules(t, a, b, c, x) && Name(a) && Name(b) && Name(c) && Name(x) && a != b
    ensures Linked(t)
  {
    TwoModulesNodes(t, a, b, c, x);
    hide IsIdentifier, NodeOk;
  }

  lemma {:induction false} TwoModulesParents(t: Links, a: string, b: string, c: string, x: string)
    requires TwoModules(t, a, b, c, x)
    ensures DataParent(t, 1) == 0 && DataParent(t, 2) == 1 && DataParent(t, 3) == 2
    ensures DataParent(t, 4) == 0 && DataParent(t, 5) == 4 && DataParent(t, 6) == 5
  {
    hide IsIdentifier, KeysOk;
    assert DataParent(t, 1) == 0;
    assert DataParent(t, 2) == 1;
    assert DataParent(t, 3) == 2;
    assert DataParent(t, 4) == 0;
    assert DataParent(t, 5) == 4;
    assert DataParent(t, 6) == 5;
  }

  lemma {:induction false} TwoModulesUnique(t: Links, a: string, b: string, c: string, x: string)
    requires TwoModules(t, a, b, c, x) && a != b
    ensures NamesUnique(t)
  {
    TwoModulesParents(t, a, b, c, x);
    hide Linked, DataParent;
  }

  lemma {:induction false} TwoModulesPaths(t: Tree, a: string, b: string, c: string, x: string)
    requires TwoModules(t, a, b, c, x) && a != b
    ensures Descend(t, 1, [c, x]) == Some(3) && Descend(t, 4, [c, x]) == Some(6) && Descend(t, 5, [x]) == Some(6)
    ensures PathOf(t, 5) == [b, c] && ModuleOf(t, 6) == 4
  {
    UpFacts(t, 2);
    UpFacts(t, 3);
    IdentifierIsPlain(c);
    IdentifierIsPlain(x);
    ChildIs(t, 1, c, 2);
    ChildIs(t, 2, x, 3);
    ChildIs(t, 4, c, 5);
    ChildIs(t, 5, x, 6);
    assert [c, x][1..] == [x] && [x][1..] == [];
    assert Descend(t, 2, [x]) == Some(3) && Descend(t, 5, [x]) == Some(6);
    assert PathOf(t, 4) == [b] && DataParent(t, 5) == 4;
    assert ModuleOf(t, 4) == 4 && ModuleOf(t, 5) == 4;
  }

  lemma {:induction false} HitsAmong(t: Links, m: string, pe: seq<string>)
    requires pe != [] && m in t[0].dir && t[0].dir[m] < |t| && m in Candidates(t, pe[0])
    requires Descend(t, t[0].dir[m], pe).Some?
    ensures m in CandidateHits(t, pe) && CandidateHits(t, pe) <= Candidates(t, pe[0])
  {
    hide Candidates, Descend;
  }

  lemma {:induction false} TwoModulesCandidates(t: Tree, a: string, b: string, c: string, x: string)
    requires TwoModules(t, a, b, c, x) && a != b && a != c && b != c
    ensures Candidates(t, c) <= {a, b} && a in Candidates(t, c)
  {
    UpFacts(t, 2);
    IdentifierIsPlain(c);
    hide Linked, IsIdentifier;
    assert PlainPath(t, [c]);
    PlainCandidates(t, [c]);
  }

  lemma {:induction false} LeastOfTwo(a: string, b: string, s: set<string>)
    requires a in s && s <= {a, b} && ModLess(a, b)
    ensures IsLeast(ModLess, a, s)
  {
  }

  lemma {:induction false} TwoModulesResolve(t: Tree, a: string, b: string, c: string, x: string)
    requires TwoModules(t, a, b, c, x) && a != b && ModLess(a, b) && a != c && b != c
    ensures Resolve(t, [c, x]) == Some(3)
  {
    TwoModulesPaths(t, a, b, c, x);
    TwoModulesCandidates(t, a, b, c, x);
    hide Linked, NamesUnique, IsIdentifier, Descend, Candidates, CandidateHits, Resolve, ModLess, IsLeast;
    assert [c, x][0] == c;
    HitsAmong(t, a, [c, x]);
    LeastOfTwo(a, b, CandidateHits(t, [c, x]));
    ResolveInModule(t, a, [c, x]);
  }

  lemma {:induction false} SiblingPath(t: Tree, a: string, b: string, c: string, x: string)
    requires TwoModules(t, a, b, c, x) && a != b
    ensures Climb(t, 6, 1) == Some(5) && StepName(x) && Locals([x]) == [x]
    ensures Normalized(t, 6, XPathOf(Path("", RelativeElems(1, [x])), false)) == Some([c, x])
  {
    hide Linked, NamesUnique, Descend, IsIdentifier, Climb, PathOf, Normalized, XPathOf;
    TwoModulesPaths(t, a, b, c, x);
    UpFacts(t, 6);
    IdentifierIsPlain(x);
    ClimbToParent(t, 6, 5);
    hide TwoModules;
    OneUp(t, 6, 5, x);
    assert Locals([x]) == [x];
    assert [b, c][1..] + [x] == [c, x];
  }

  lemma {:induction false} ClimbToParent(t: Links, e: Id, p: Id)
    requires 0 < e < |t| && p < |t| && t[e].parent == Some(p) && IsData(t, p)
    ensures Climb(t, e, 1) == Some(p)
  {
    assert ClimbOne(t, e) == Some(p) && Climb(t, p, 0) == Some(p);
  }

  /** One `..` and a name. */
  lemma {:induction false} OneUp(t: Links, e: Id, a: Id, x: string)
    requires e < |t| && a < |t| && StepName(x) && Climb(t, e, 1) == Some(a)
    ensures Normalized(t, e, XPathOf(Path("", RelativeElems(1, [x])), false)) == Some(PathOf(t, a)[1..] + Locals([x]))
  {
    hide Parse, XPathOf, RelativeElems, Climb, PathOf, Locals;
    ParseRelative(1, [x]);
    CountRelative(1, [x]);
    assert (Ups(1) + [x])[0] == "..";
    LocalsAbove(t, a, [x]);
  }

  /** The leafref `../x` written at leaf `x` of the second module means that leaf; `GetEntry`
      answers its normalised path with the leaf of the module it prefers. */
  lemma {:induction false} WrongLeaf(t: Tree, a: string, b: string, c: string, x: string)
    requires TwoModules(t, a, b, c, x) && a != b && ModLess(a, b) && a != c && b != c
    ensures Climb(t, 6, 1) == Some(5) && StepName(x) && Locals([x]) == [x] && Descend(t, 5, [x]) == Some(6)
    ensures Normalized(t, 6, XPathOf(Path("", RelativeElems(1, [x])), false)) == Some([c, x])
    ensures Resolve(t, [c, x]) == Some(3)
  {
    TwoModulesResolve(t, a, b, c, x);
    TwoModulesPaths(t, a, b, c, x);
    SiblingPath(t, a, b, c, x);
  }

  lemma {:induction false} SecondHasEntry(t: Links, a: string, b: string, c: string, x: string)
    requires TwoModules(t, a, b, c, x) && a != b && c != a && c != b
    ensures HasEntry(t, b, Item(None, c)) && !NamesModule(t, Item(None, c)) && t[0].dir.Keys == {a, b} && IsData(t, 5)
  {
    hide Linked;
    assert t[0].dir[b] == 4 && t[4].dir == map[c := 5];
  }

  lemma {:induction false} TwoModulesEntries(t: Tree, a: string, b: string, c: string, x: string)
    requires TwoModules(t, a, b, c, x) && a != b && c != a && c != b && Name(c)
    ensures var items := Bare([c]);
            && AllOk(items) && !NamesModule(t, items[0]) && MayAnswer(t, b, items, 5)
            && forall m, y: Id | MayAnswer(t, m, items, y) :: m == a || m == b
  {
    hide IsIdentifier, Linked, NamesUnique, PathOf, TwoModules, HasEntry, NamesModule, Descend, ModuleOf;
    IdentifierIsPlain(c);
    TwoModulesPaths(t, a, b, c, x);
    SecondHasEntry(t, a, b, c, x);
    var items := Bare([c]);
    assert items[0] == Item(None, c);
    assert [b] + [c] == [b, c];
    forall m, y: Id | MayAnswer(t, m, items, y) ensures m == a || m == b { AnswererIsModule(t, m, items, y); }
  }

  lemma {:induction false} AnswererIsModule(t: Links, m: string, items: seq<Item>, y: Id)
    requires items != [] && MayAnswer(t, m, items, y)
    ensures m in t[0].dir.Keys
  {
  }

  /** A standards module comes second, whatever the dictionary order. */
  lemma {:induction false} StandardComesLast(t: Tree, a: string, b: string, c: string, x: string)
    requires TwoModules(t, a, b, c, x) && a != b && c != a && c != b && Name(c) && IsStandard(a) && !IsStandard(b)
    ensures Resolve(t, [c]) == Some(5)
  {
    TwoModulesEntries(t, a, b, c, x);
    hide Resolve, IsStandard, MayAnswer, TwoModules, Name;
    assert Earlier(b, a);
    assert FirstToAnswer(t, b, Bare([c]), 5);
    GetEntryExact(t, Bare([c]), 5);
  }

  lemma {:induction false} StandardNames()
    ensures IsStandard("ietf-interfaces") && !IsStandard("openconfig-interfaces")
  {
    assert "ietf-interfaces" == "" + "ietf" + "-interfaces";
    NotIn("openconfig-interfaces", "ietf", 'e', 't');
    NotIn("openconfig-interfaces", "iana", 'i', 'a');
  }

  /** A text in which two characters never stand side by side holds no text in which they do. */
  lemma {:induction false} NotIn(s: string, sub: string, x: char, y: char)
    requires (sub == "ietf" && x == 'e' && y == 't') || (sub == "iana" && x == 'i' && y == 'a')
    requires forall i | 0 <= i < |s| - 1 :: !(s[i] == x && s[i + 1] == y)
    ensures !Occurs(sub, s)
  {
    forall a: string, b: string ensures s != a + sub + b {
      var whole, i := a + sub + b, |a| + if x == 'e' then 1 else 0;
      assert whole[i] == x && whole[i + 1] == y;
    }
  }

  // ----- `BuildPath`: a choice inside a choice

  /** module m { container c { choice h { case d { choice i { case k { leaf x; } } } } } } */
  ghost predicate NestedChoice(t: RawTree, m: string, c: string, h: string, d: string, i: string, k: string, x: string) {
    && |t| == 8
    && t[0] == RootOf(map[m := 1])
    && t[1] == ModuleEntry(m, map[c := 2])
    && t[2] == Inner(c, Container, 1, map[h := 3], [])
    && t[3] == Inner(h, Choice, 2, map[d := 4], [])
    && t[4] == Inner(d, Case, 3, map[i := 5], [])
    && t[5] == Inner(i, Choice, 4, map[k := 6], [])
    && t[6] == Inner(k, Case, 5, map[x := 7], [])
    && t[7] == LeafEntry(x, 6, STRING, "")
  }

  lemma {:induction false} NestedChoiceTree(m: string, c: string, h: string, d: string, i: string, k: string, x: string)
    returns (t: Tree)
    requires Name(m) && Name(c) && Name(h) && Name(d) && Name(i) && Name(k) && Name(x)
    requires h != i && h != x && i != x
    ensures NestedChoice(t, m, c, h, d, i, k, x)
  {
    hide IsIdentifier, Linked, NamesUnique;
    var r: RawTree := [RootOf(map[m := 1]), ModuleEntry(m, map[c := 2]), Inner(c, Container, 1, map[h := 3], []),
                       Inner(h, Choice, 2, map[d := 4], []), Inner(d, Case, 3, map[i := 5], []),
                       Inner(i, Choice, 4, map[k := 6], []), Inner(k, Case, 5, map[x := 7], []),
                       LeafEntry(x, 6, STRING, "")];
    assert NestedChoice(r, m, c, h, d, i, k, x);
    NestedChoiceLinked(r, m, c, h, d, i, k, x);
    NestedChoiceUnique(r, m, c, h, d, i, k, x);
    t := r;
  }

  lemma {:induction false} NestedChoiceNodes(t: RawTree, m: string, c: string, h: string, d: string, i: string, k: string, x: string)
    requires NestedChoice(t, m, c, h, d, i, k, x)
    requires Name(m) && Name(c) && Name(h) && Name(d) && Name(i) && Name(k) && Name(x)
    ensures forall e :: 0 < e < |t| ==> NodeOk(t, e)
  {
    hide IsIdentifier;
    assert NodeOk(t, 1) && NodeOk(t, 2) && NodeOk(t, 3) && NodeOk(t, 4) && NodeOk(t, 5) && NodeOk(t, 6) && NodeOk(t, 7);
  }

  lemma {:induction false} NestedChoiceLinked(t: RawTree, m: string, c: string, h: string, d: string, i: string, k: string, x: string)
    requires NestedChoice(t, m, c, h, d, i, k, x)
    requires Name(m) && Name(c) && Name(h) && Name(d) && Name(i) && Name(k) && Name(x)
    ensures Linked(t)
  {
    NestedChoiceNodes(t, m, c, h, d, i, k, x);
    hide IsIdentifier, NodeOk;
  }

  lemma {:induction false} NestedChoiceParents(t: Links, m: string, c: string, h: string, d: string, i: string, k: string, x: string)
    requires NestedChoice(t, m, c, h, d, i, k, x)
    ensures DataParent(t, 1) == 0 && DataParent(t, 2) == 1 && DataParent(t, 3) == 2
    ensures DataParent(t, 4) == 2 && DataParent(t, 5) == 2 && DataParent(t, 6) == 2 && DataParent(t, 7) == 2
  {
    hide IsIdentifier, KeysOk;
    assert DataParent(t, 1) == 0;
    assert DataParent(t, 2) == 1;
    assert DataParent(t, 3) == 2;
    assert DataParent(t, 4) == 2;
    assert DataParent(t, 5) == 2;
    assert DataParent(t, 6) == 2;
    assert DataParent(t, 7) == 2;
  }

  lemma {:induction false} NestedChoiceUnique(t: Links, m: string, c: string, h: string, d: string, i: string, k: string, x: string)
    requires NestedChoice(t, m, c, h, d, i, k, x) && h != i && h != x && i != x
    ensures NamesUnique(t)
  {
    NestedChoiceParents(t, m, c, h, d, i, k, x);
    hide Linked, DataParent;
  }

  /** The data path from the container to the leaf is refused. */
  lemma {:induction false} NestedChoiceRefused(t: Tree, m: string, c: string, h: string, d: string, i: string, k: string, x: string)
    requires NestedChoice(t, m, c, h, d, i, k, x) && c != h
    ensures SchemaPath(t, [PathStep(2, []), PathStep(7, [])])
    ensures BuildFrom(t, [c, x], 2) == Err(UnknownElement)
  {
    hide IsIdentifier, BuildFrom;
    var ss := [PathStep(2, []), PathStep(7, [])];
    assert Under(t, 2, 3) && Under(t, 2, 4) && Under(t, 2, 5) && Under(t, 2, 6) && Under(t, 2, 7);
    assert Offers(t, ss[0].e, ss[1].e);
    assert !Near(t, ss[0].e, ss[1].e);
    assert !Shallow(t, ss);
    OwnFreeBuild(t, ss);
    TwoSteps(t, ss);
    assert [c] + [] + ([x] + []) == [c, x];
  }

  lemma {:induction false} TwoSteps(t: Links, ss: seq<PathStep>)
    requires |ss| == 2 && ss[0].e < |t| && ss[1].e < |t|
    ensures Flat(t, ss) == [t[ss[0].e].name] + ss[0].vals + ([t[ss[1].e].name] + ss[1].vals)
  {
    var tail := ss[1..];
    assert tail[1..] == [] && tail[0] == ss[1];
    assert Flat(t, tail) == [t[ss[1].e].name] + ss[1].vals + [];
    assert [t[ss[1].e].name] + ss[1].vals + [] == [t[ss[1].e].name] + ss[1].vals;
  }

  // ----- `BuildPath`: a container with a choice of its own name

  /** module m { container x { choice x { case c { list l { key k; leaf k; } } } leaf z; } } */
  ghost predicate OwnNamed(t: RawTree, m: string, x: string, c: string, l: string, k: string, z: string) {
    && |t| == 8
    && t[0] == RootOf(map[m := 1])
    && t[1] == ModuleEntry(m, map[x := 2])
    && t[2] == Inner(x, Container, 1, map[x := 3, z := 7], [])
    && t[3] == Inner(x, Choice, 2, map[c := 4], [])
    && t[4] == Inner(c, Case, 3, map[l := 5], [])
    && t[5] == Inner(l, List, 4, map[k := 6], [k])
    && t[6] == LeafEntry(k, 5, STRING, "")
    && t[7] == LeafEntry(z, 2, STRING, "")
  }

  lemma {:induction false} OwnNamedTree(m: string, x: string, c: string, l: string, k: string, z: string) returns (t: Tree)
    requires Name(m) && Name(x) && Name(c) && Name(l) && Name(k) && Name(z) && x != z && l != z && l != x
    ensures OwnNamed(t, m, x, c, l, k, z)
  {
    hide IsIdentifier, Linked, NamesUnique;
    var r: RawTree := [RootOf(map[m := 1]), ModuleEntry(m, map[x := 2]), Inner(x, Container, 1, map[x := 3, z := 7], []),
                       Inner(x, Choice, 2, map[c := 4], []), Inner(c, Case, 3, map[l := 5], []),
                       Inner(l, List, 4, map[k := 6], [k]), LeafEntry(k, 5, STRING, ""), LeafEntry(z, 2, STRING, "")];
    assert OwnNamed(r, m, x, c, l, k, z);
    OwnNamedLinked(r, m, x, c, l, k, z);
    OwnNamedUnique(r, m, x, c, l, k, z);
    t := r;
  }

  lemma {:induction false} OwnNamedNodes(t: RawTree, m: string, x: string, c: string, l: string, k: string, z: string)
    requires OwnNamed(t, m, x, c, l, k, z) && Name(m) && Name(x) && Name(c) && Name(l) && Name(k) && Name(z) && x != z
    ensures forall e :: 0 < e < |t| ==> NodeOk(t, e)
  {
    hide IsIdentifier;
    assert NodeOk(t, 1) && NodeOk(t, 2) && NodeOk(t, 3) && NodeOk(t, 4) && NodeOk(t, 5) && NodeOk(t, 6) && NodeOk(t, 7);
  }

  lemma {:induction false} OwnNamedLinked(t: RawTree, m: string, x: string, c: string, l: string, k: string, z: string)
    requires OwnNamed(t, m, x, c, l, k, z) && Name(m) && Name(x) && Name(c) && Name(l) && Name(k) && Name(z) && x != z
    ensures Linked(t)
  {
    OwnNamedNodes(t, m, x, c, l, k, z);
    hide IsIdentifier, NodeOk;
  }

  lemma {:induction false} OwnNamedParents(t: Links, m: string, x: string, c: string, l: string, k: string, z: string)
    requires OwnNamed(t, m, x, c, l, k, z)
    ensures DataParent(t, 1) == 0 && DataParent(t, 2) == 1 && DataParent(t, 3) == 2
    ensures DataParent(t, 4) == 2 && DataParent(t, 5) == 2 && DataParent(t, 6) == 5 && DataParent(t, 7) == 2
  {
    hide IsIdentifier, KeysOk;
    assert DataParent(t, 1) == 0;
    assert DataParent(t, 2) == 1;
    assert DataParent(t, 3) == 2;
    assert DataParent(t, 4) == 2;
    assert DataParent(t, 5) == 2;
    assert DataParent(t, 6) == 5;
    assert DataParent(t, 7) == 2;
  }

  lemma {:induction false} OwnNamedUnique(t: Links, m: string, x: string, c: string, l: string, k: string, z: string)
    requires OwnNamed(t, m, x, c, l, k, z) && x != z && l != z && l != x
    ensures NamesUnique(t)
  {
    OwnNamedParents(t, m, x, c, l, k, z);
    hide Linked, DataParent;
  }

  /** The data path `x/z` is refused although `z` is in the `Dir` of `x`. */
  lemma {:induction false} OwnNamedRefused(t: Tree, m: string, x: string, c: string, l: string, k: string, z: string)
    requires OwnNamed(t, m, x, c, l, k, z) && x != z
    ensures SchemaPath(t, [PathStep(2, []), PathStep(7, [])]) && Shallow(t, [PathStep(2, []), PathStep(7, [])])
    ensures OwnChoice(t, 2) && BuildFrom(t, [x, z], 2) == Err(UnknownElement)
  {
    hide IsIdentifier, BuildFrom;
    var ss := [PathStep(2, []), PathStep(7, [])];
    assert Under(t, 2, 7);
    assert Offers(t, ss[0].e, ss[1].e) && Near(t, ss[0].e, ss[1].e);
    assert Own(t, 2) == 3;
    OwnStep(t, [x, z], 2);
    InOwnChoice(t, 2, 7);
    assert !InCaseOf(t, 3, 7);
  }

  /** On the data path through the choice to the list, the key value is lost. */
  lemma {:induction false} OwnNamedLosesKey(t: Tree, m: string, x: string, c: string, l: string, k: string, z: string, v: string)
    requires OwnNamed(t, m, x, c, l, k, z) && x != z
    ensures SchemaPath(t, [PathStep(2, []), PathStep(5, [v])])
    ensures BuildFrom(t, [x, l, v], 2) == Ok([PathElem(x, map[]), PathElem(l, map[])])
  {
    hide IsIdentifier, BuildFrom;
    var ss := [PathStep(2, []), PathStep(5, [v])];
    assert Under(t, 2, 3) && Under(t, 2, 4) && Under(t, 2, 5);
    assert Offers(t, ss[0].e, ss[1].e);
    assert Own(t, 2) == 3;
    OwnStep(t, [x, l, v], 2);
    InOwnChoice(t, 2, 5);
    assert InCaseOf(t, 3, 5);
    assert [x, l, v][2..] == [v];
    LoneValue(t, 5, v);
    assert [PathElem(x, map[])] + [PathElem(l, map[])] == [PathElem(x, map[]), PathElem(l, map[])];
  }

  /** The items start properly and are accepted, but the value is not given back. */
  lemma {:induction false} OwnNamedDropsValue(t: Tree, m: string, x: string, c: string, l: string, k: string, z: string, v: string)
    requires OwnNamed(t, m, x, c, l, k, z) && x != z && m != x
    ensures ProperStart(t, [x, l, v]) && BuiltIn(t, [x, l, v], m, [PathElem(x, map[]), PathElem(l, map[])])
    ensures Strings([PathElem(x, map[]), PathElem(l, map[])], false) != [x, l, v]
    ensures !ReadBackIn(t, [x, l, v], m)
  {
    hide IsIdentifier, BuildFrom, ReadBack, Strings;
    var pe, es := [x, l, v], [PathElem(x, map[]), PathElem(l, map[])];
    TopIsPlain(t, m, x);
    assert Top(t, m, x) == 2 && CutPrefix(pe) == (x, pe);
    OwnNamedLosesKey(t, m, x, c, l, k, z, v);
    assert BuiltIn(t, pe, m, es);
    BuildThenFlatten(t, pe, m, es);
    TwoNames(x, l);
  }

  lemma {:induction false} TwoNames(a: string, b: string)
    ensures Strings([PathElem(a, map[]), PathElem(b, map[])], false) == [a, b]
  {
    NameThen(a, Ok([PathElem(b, map[])]));
    NameThen(b, Ok([]));
    assert [PathElem(a, map[])] + [PathElem(b, map[])] == [PathElem(a, map[]), PathElem(b, map[])];
    assert [a] + [b] == [a, b];
  }

  lemma {:induction false} LoneValue(t: Links, e: Id, v: string)
    requires 0 < e < |t| && t[e].kind.List?
    ensures BuildFrom(t, [v], e) == Ok([PathElem(t[e].name, map[])])
  {
    var n, elem := ListStep(t, [v], e);
    assert [v][1..1] == [];
  }

  // ----- lists with two keys

  /** module m { list l { key "a b"; leaf a; leaf b; } } */
  ghost predicate TwoKeys(t: RawTree, m: string, l: string, a: string, b: string) {
    && |t| == 5
    && t[0] == RootOf(map[m := 1])
    && t[1] == ModuleEntry(m, map[l := 2])
    && t[2] == Inner(l, List, 1, map[a := 3, b := 4], [a, b])
    && t[3] == LeafEntry(a, 2, STRING, "")
    && t[4] == LeafEntry(b, 2, STRING, "")
  }

  lemma {:induction false} TwoKeysTree(m: string, l: string, a: string, b: string) returns (t: Tree)
    requires Name(m) && Name(l) && Name(a) && Name(b) && a != b
    ensures TwoKeys(t, m, l, a, b)
  {
    hide IsIdentifier, Linked, NamesUnique;
    var r: RawTree := [RootOf(map[m := 1]), ModuleEntry(m, map[l := 2]), Inner(l, List, 1, map[a := 3, b := 4], [a, b]),
                       LeafEntry(a, 2, STRING, ""), LeafEntry(b, 2, STRING, "")];
    assert TwoKeys(r, m, l, a, b);
    TwoKeysLinked(r, m, l, a, b);
    TwoKeysUnique(r, m, l, a, b);
    t := r;
  }

  lemma {:induction false} TwoKeysLinked(t: RawTree, m: string, l: string, a: string, b: string)
    requires TwoKeys(t, m, l, a, b) && Name(m) && Name(l) && Name(a) && Name(b) && a != b
    ensures Linked(t)
  {
    hide IsIdentifier;
    assert NodeOk(t, 1) && NodeOk(t, 2) && NodeOk(t, 3) && NodeOk(t, 4);
  }

  lemma {:induction false} TwoKeysUnique(t: Links, m: string, l: string, a: string, b: string)
    requires TwoKeys(t, m, l, a, b) && a != b
    ensures NamesUnique(t)
  {
    hide IsIdentifier;
    assert DataParent(t, 1) == 0 && DataParent(t, 2) == 1 && DataParent(t, 3) == 2 && DataParent(t, 4) == 2;
  }

  lemma {:induction false} TwoKeysSorted(t: Links, m: string, l: string, a: string, b: string)
    requires TwoKeys(t, m, l, a, b) && LexLess(a, b)
    ensures SortedKeyNames(t, 2) == [a, b]
  {
    SortedKeyFacts(t, 2);
    assert !LexLess(b, a) by { LexStrictTotal(); }
    assert Sorted(LexLess, [a, b]);
    SortedUnique(LexLess, SortedKeyNames(t, 2), [a, b]);
  }

  /** The final element `l[b=v]` comes back as `l[a=v]`. */
  lemma {:induction false} SecondKeyMoves(t: Tree, m: string, l: string, a: string, b: string, v: string)
    requires TwoKeys(t, m, l, a, b) && LexLess(a, b)
    ensures var p := [PathElem(l, map[b := v])];
            && ValidPath(t, [2], p) && Strings(p, false) == [l, v]
            && BuildFrom(t, [l, v], 2) == Ok([PathElem(l, map[a := v])])
  {
    hide IsIdentifier, BuildFrom, SortedVals;
    OneVal(b, map[b := v]);
    var p := [PathElem(l, map[b := v])];
    assert p[1..] == [] && Strings(p[1..], false) == [];
    assert Strings(p, false) == [l] + SortedVals(p[0].key) + [] == [l, v];
    assert Elements(t[2].keys) == {a, b};
    FirstKeyOnly(t, m, l, a, b, v);
  }

  lemma {:induction false} FirstKeyOnly(t: Links, m: string, l: string, a: string, b: string, v: string)
    requires TwoKeys(t, m, l, a, b) && LexLess(a, b)
    ensures BuildFrom(t, [l, v], 2) == Ok([PathElem(l, map[a := v])])
  {
    hide IsIdentifier, BuildFrom, SortedVals, SortedKeyNames;
    TwoKeysSorted(t, m, l, a, b);
    var n, elem := ListStep(t, [l, v], 2);
    assert [l, v][1..2] == [v];
    assert [v][..0] == [] && Zip([a, b], []) == map[];
    assert Zip([a, b], [v]) == map[][a := v];
  }

  lemma {:induction false} ListIsIndexed(t: Tree, m: string, l: string, a: string, b: string)
    requires TwoKeys(t, m, l, a, b) && m != l
    ensures PlainPath(t, [l]) && IndexNode(t, [l]) == Some(2)
  {
    UpFacts(t, 2);
    IdentifierIsPlain(l);
    ChildIs(t, 1, l, 2);
    assert [l][1..] == [];
    assert Descend(t, 1, [l]) == Some(2);
    assert m in AllHits(t, [l]);
    assert AllHits(t, [l]) == {m};
  }

  /** The store reads past the items when one of two values is given. */
  lemma {:induction false} OneOfTwoValues(db: Db, k: SchemaKey, t: Tree, m: string, l: string, a: string, b: string, v: string)
    requires TwoKeys(t, m, l, a, b) && m != l && Holds(db, k, t)
    ensures SchemaPath(t, [PathStep(2, [v])])
    ensures ToPathRest(db, k, [l, v], []) == Err(IndexOutOfRange)
  {
    hide IsIdentifier, Holds, ToPathRest, IndexNode;
    var ss := [PathStep(2, [v])];
    assert ss[1..] == [];
    assert Flat(t, ss) == [l, v];
    ListIsIndexed(t, m, l, a, b);
    ToPathRebuilds(db, k, t, ss);
  }

  // ----- one leaf below a module

  /** module m { leaf x { type `ltype`; description `text`; } } */
  ghost predicate OneLeaf(t: RawTree, m: string, x: string, ltype: YangType, text: string) {
    && |t| == 3
    && t[0] == RootOf(map[m := 1])
    && t[1] == ModuleEntry(m, map[x := 2])
    && t[2] == LeafEntry(x, 1, ltype, text)
  }

  lemma {:induction false} OneLeafTree(m: string, x: string, ltype: YangType, text: string) returns (t: Tree)
    requires Name(m) && Name(x)
    ensures OneLeaf(t, m, x, ltype, text)
  {
    hide IsIdentifier;
    var r: RawTree := [RootOf(map[m := 1]), ModuleEntry(m, map[x := 2]), LeafEntry(x, 1, ltype, text)];
    assert NodeOk(r, 1) && NodeOk(r, 2);
    assert Linked(r);
    var links: Links := r;
    assert DataParent(links, 1) == 0 && DataParent(links, 2) == 1;
    t := r;
  }

  lemma {:induction false} LeafFound(t: Tree, m: string, x: string, ltype: YangType, text: string)
    requires OneLeaf(t, m, x, ltype, text) && m != x
    ensures PlainPath(t, [x]) && Descend(t, 1, [x]) == Some(2)
    ensures IndexNode(t, [x]) == Some(2) && Resolve(t, [x]) == Some(2)
  {
    UpFacts(t, 2);
    IdentifierIsPlain(x);
    ChildIs(t, 1, x, 2);
    assert [x][1..] == [];
    assert Descend(t, 1, [x]) == Some(2);
    assert m in AllHits(t, [x]);
    assert AllHits(t, [x]) == {m};
    PlainCandidates(t, [x]);
    assert Candidates(t, x) == {m};
    assert CandidateHits(t, [x]) == {m};
  }

  /** With the module's name in front, the index finds the leaf and the tree walk does not. */
  lemma {:induction false} ModuleNameSplits(t: Tree, m: string, x: string, ltype: YangType, text: string)
    requires OneLeaf(t, m, x, ltype, text) && m != x
    ensures PlainNames([m, x]) && IndexNode(t, [m, x]) == Some(2) && Resolve(t, [m, x]) == None
  {
    hide Resolve, IsIdentifier, NamesUnique;
    UpFacts(t, 1);
    UpFacts(t, 2);
    IdentifierIsPlain(m);
    IdentifierIsPlain(x);
    LeafFound(t, m, x, ltype, text);
    NothingTwice(t, m, x, ltype, text);
    assert [m, x][1..] == [x];
    hide Linked, Descend;
    assert AnswerIn(t, m, [m, x]) == Some(2);
    assert AllHits(t, [m, x]) == {m};
    ModuleResolves(t, [m, x]);
  }

  lemma {:induction false} NothingTwice(t: Tree, m: string, x: string, ltype: YangType, text: string)
    requires OneLeaf(t, m, x, ltype, text) && m != x && ':' !in m
    ensures Descend(t, 1, [m, x]) == None
  {
    assert Child(t, 1, m) == None;
  }

  /** A prefix that is no module is accepted, and comes back cut off. */
  lemma {:induction false} UnknownPrefixDropped(t: Tree, m: string, x: string, ltype: YangType, text: string, foo: string)
    requires OneLeaf(t, m, x, ltype, text) && Name(foo) && foo != m
    ensures MayBuild(t, [foo + ":" + x], Ok([PathElem(x, map[])]))
    ensures Strings([PathElem(x, map[])], false) == [x] != [foo + ":" + x]
  {
    var first := foo + ":" + x;
    IdentifierIsPlain(foo);
    FirstOccurrence(foo, ':', x);
    assert first == foo + [':'] + x;
    assert [x] + [first][1..] == [x];
    assert CutPrefix([first]) == (foo, [x]);
    assert HasTop(t, m, [x][0]) && Top(t, m, [x][0]) == 2;
    TerminalStep(t, [x], 2);
    assert Ok([PathElem(x, map[])]) == BuildFrom(t, [x], Top(t, m, [x][0]));
    NoVals();
    StringsCons(PathElem(x, map[]), []);
    assert [PathElem(x, map[])] + [] == [PathElem(x, map[])];
    assert |first| > |x|;
  }

  // ----- XPath: a first name that ends in a colon

  lemma {:induction false} NoKeysText(name: string)
    ensures ElemTexts([PathElem(name, map[])], false) == name
  {
    LexStrictTotal();
    var none: map<string, string> := map[];
    assert none.Keys == {};
    assert SortedKeys(none) == [];
    assert name + "" == name;
  }

  /** `a:` is printed as it is and read as an origin. */
  lemma {:induction false} ColonName()
    ensures var p := Path("", [PathElem("a:", map[])]);
            && Printable(p.elem[0]) && BracketFree(p.elem[0]) && XPathOf(p, false) == "a:"
            && HasOrigin("a:") && Parse("a:") == Ok(Path("a", []))
  {
    NoKeysText("a:");
    FirstOccurrence("a", ':', "");
    assert "a:" == "a" + [':'] + "";
    assert "a:"[..1] == "a" && "a:"[2..] == "";
    ParseNothing();
  }

  // ----- leafref types: a leaf that refers to itself

  lemma {:induction false} SelfTarget(t: Tree, m: string, x: string, text: string)
    requires OneLeaf(t, m, x, Leafref("/" + x), text) && m != x
    ensures LeafTypes.Target(t, 2, "/" + x) == LeafTypes.Found(2)
  {
    hide Resolve, IndexNode, IsIdentifier, Normalized;
    assert RelativeElems(0, [x]) == [PathElem(x, map[])];
    NoKeysText(x);
    UpFacts(t, 2);
    IdentifierIsPlain(x);
    assert XPathOf(Path("", RelativeElems(0, [x])), false) == "" + x == x;
    AbsoluteMeaning(t, 2, [x]);
    assert Locals([x]) == [x];
    LeafTypes.ResolveInTree(t, [x]);
    LeafFound(t, m, x, Leafref("/" + x), text);
  }

  /** All leafrefs resolve, and the conversion of the leaf's type never comes to an end. */
  lemma {:induction false} SelfReferenceRuns(t: Tree, m: string, x: string, text: string)
    requires OneLeaf(t, m, x, Leafref("/" + x), text) && m != x
    ensures LeafTypes.LeafrefsResolve(t) && LeafTypes.Circular(t, 2)
    ensures !LeafTypes.Terminates(t, 2, Leafref("/" + x))
  {
    hide LeafTypes.Target, IsIdentifier;
    SelfTarget(t, m, x, text);
    assert LeafTypes.HasLeafref(LeafTypes.TypeOf(t, 2), "/" + x);
    assert LeafTypes.RefersTo(t, 2, 2);
    var es: seq<Id> := [2, 2];
    assert forall i | 0 <= i < |es| - 1 :: LeafTypes.RefersTo(t, es[i], es[i + 1]);
    assert es[..1] == [2];
    assert LeafTypes.Lasso(t, es) && es[0] == 2;
    LeafTypes.TerminatesExactly(t, 2);
  }

  // ----- a reload with a changed leaf

  /** After a reload from one of the trees to the other the store still describes the old leaf. */
  lemma {:induction false} ReloadServesStale(k: SchemaKey, m: string, x: string, was: Tree, is_: Tree, before: Db, after: Db)
    requires ValidKey(k) && m != x && OneLeaf(was, m, x, STRING, "old") && OneLeaf(is_, m, x, STRING, "new")
    requires StoresTree(k, was, before) && StoresTree(k, is_, after)
    ensures var s := State(before, map[]);
            var ops := [Lookup(k, [x]), Delete(k), Add(k, after)];
            && Transparent(s) && AllAllowed(s, ops[..2])
            && HasSchema(RunOps(s, ops).db, k) && DbLookup(RunOps(s, ops).db, k, [x]).Some?
            && Answer(RunOps(s, ops), k, [x], true, true) != DbLookup(RunOps(s, ops).db, k, [x])
  {
    hide DbLookup, Holds, Answer;
    var s := State(before, map[]);
    var ops := [Lookup(k, [x]), Delete(k), Add(k, after)];
    StoredLeaf(k, m, x, was, "old", before);
    StoredLeaf(k, m, x, is_, "new", after);
    ReloadExact(s, k, [x], is_, after);
    assert ops[..2] == [ops[0], ops[1]] && ops[..2][..1] == [ops[0]] && [ops[0]][..0] == [];
    assert AllAllowed(s, [ops[0]]);
  }

  lemma {:induction false} StoredLeaf(k: SchemaKey, m: string, x: string, t: Tree, text: string, db: Db)
    requires m != x && OneLeaf(t, m, x, STRING, text) && Holds(db, k, t)
    ensures DbLookup(db, k, [x]) == Some(FieldElem(LeafInfo(x, false, text))) && '/' !in x && x != ""
  {
    LeafFound(t, m, x, STRING, text);
    ElemOfNode(db, k, t, [x], 2);
  }

  // ----- keys, references and leafref texts as they are written

  lemma {:induction false} KeyFormat()
    ensures SchemaRecordKey(SchemaKey("srl", "Nokia", "1")) == [1 as char] + "srl@Nokia@1"
    ensures EntryKey(SchemaKey("srl", "Nokia", "1"), ["if"]) == [2 as char] + "srl@Nokia@1:::if"
    ensures EntryKey(SchemaKey("srl", "Nokia", "1"), ["if", "a", "b"]) == [2 as char] + "srl@Nokia@1:::if:::/a/b"
  {
    assert ["if", "a", "b"][1..] == ["a", "b"] && ["a", "b"][..1] == ["a"] && ["a"][..0] == [];
    assert "" + ("/" + "a") == "/a" && "/a" + ("/" + "b") == "/a/b";
  }

  lemma {:induction false} RefFormat(t: Tree, x: string, ltype: YangType, text: string)
    requires OneLeaf(t, "m", x, ltype, text) && t[2].name == x
    ensures RefKey(t, 2) == "REF_/m/" + x
  {
    assert FullPath(t, 1) == "/" + "m";
    assert FullPath(t, 2) == "/m" + ("/" + x);
    assert "REF_" + ("/m" + ("/" + x)) == "REF_/m/" + x;
  }

  lemma {:induction false} NamesOfTwo(i: Item, n: Item)
    ensures var steps: seq<Step> := [Some(i), Some(n)]; UpSteps(steps) == 0 && NameSteps(steps) == [i.name, n.name]
  {
    var none: seq<Step>, one: seq<Step>, two: seq<Step> := [], [Some(n)], [Some(i), Some(n)];
    assert two[1..] == one && one[1..] == none;
    assert UpSteps(none) == 0 && NameSteps(none) == [];
    assert UpSteps(one) == 0 && NameSteps(one) == [n.name] + [];
    assert UpSteps(two) == 0 && NameSteps(two) == [i.name] + [n.name];
  }

  /** An absolute leafref as modules write it, with prefixes before the names. */
  lemma {:induction false} PrefixedLeafref(t: Tree, e: Id, p: string, i: string, q: string, n: string)
    requires 0 < e < |t| && IsData(t, e) && Name(p) && Name(i) && Name(q) && Name(n)
    ensures Normalized(t, e, "/" + (p + ":" + i + "/" + (q + ":" + n))) == Some([i, n])
  {
    hide Normalized, XPathOf, NameSteps, UpSteps, Linked, NamesUnique, IsIdentifier;
    var x, y := Item(Some(p), i), Item(Some(q), n);
    var steps: seq<Step> := [Some(x), Some(y)];
    PrefixedStep(p, i);
    PrefixedStep(q, n);
    NamesOfTwo(x, y);
    PrintedPair(x.Text(), y.Text(), StepElems(steps));
    NormalizedSpelled(t, e, steps, true);
  }

  lemma {:induction false} PrefixedStep(p: string, n: string)
    requires Name(p) && Name(n)
    ensures Item(Some(p), n).Ok() && StepName(Item(Some(p), n).Text())
  {
    hide IsIdentifier;
    IdentifierIsPlain(p);
    IdentifierIsPlain(n);
    var text := p + ":" + n;
    assert text[|p|] == ':' && text[|text| - 1] == n[|n| - 1];
  }

  lemma {:induction false} PrintedPair(a: string, b: string, es: seq<PathElem>)
    requires es == [PathElem(a, map[]), PathElem(b, map[])]
    ensures XPathOf(Path("", es), false) == a + "/" + b
  {
    NoKeysText(a);
    NoKeysText(b);
    assert es[..1] == [PathElem(a, map[])];
  }

  // ----- the schemas exist

  /** Asked for `interfaces`, the server answers from the OpenConfig module. */
  lemma {:induction false} StandardAnswer() returns (t: Tree)
    ensures TwoModules(t, "ietf-interfaces", "openconfig-interfaces", "interfaces", "x")
    ensures Resolve(t, ["interfaces"]) == Some(5)
  {
    hide TwoModules, IsStandard, Resolve;
    Letters();
    LongNames();
    StandardNames();
    t := TwoModulesTree("ietf-interfaces", "openconfig-interfaces", "interfaces", "x");
    StandardComesLast(t, "ietf-interfaces", "openconfig-interfaces", "interfaces", "x");
  }

  lemma {:induction false} LongNames()
    ensures Name("ietf-interfaces") && Name("openconfig-interfaces") && Name("interfaces")
    ensures "ietf-interfaces" != "openconfig-interfaces" && "interfaces" !in {"ietf-interfaces", "openconfig-interfaces"}
  {
  }

  lemma {:induction false} TreesExist()
    ensures exists t: Tree :: TopChoice(t, "m", "h", "c", "x")
    ensures exists t: Tree :: TwoModules(t, "a", "b", "c", "x")
    ensures exists t: Tree :: NestedChoice(t, "m", "c", "h", "d", "i", "k", "x")
    ensures exists t: Tree :: OwnNamed(t, "m", "x", "c", "l", "k", "z")
    ensures exists t: Tree :: TwoKeys(t, "m", "l", "a", "b")
    ensures exists t: Tree :: OneLeaf(t, "m", "x", STRING, "old")
    ensures exists t: Tree :: OneLeaf(t, "m", "x", STRING, "new")
    ensures exists t: Tree :: OneLeaf(t, "m", "x", Leafref("/" + "x"), "")
  {
    Letters();
    hide Name, TopChoice, TwoModules, NestedChoice, OwnNamed, TwoKeys, OneLeaf;
    var t1 := TopChoiceTree("m", "h", "c", "x");
    var t2 := TwoModulesTree("a", "b", "c", "x");
    var t3 := NestedChoiceTree("m", "c", "h", "d", "i", "k", "x");
    var t4 := OwnNamedTree("m", "x", "c", "l", "k", "z");
    var t5 := TwoKeysTree("m", "l", "a", "b");
    var t6 := OneLeafTree("m", "x", STRING, "old");
    var t7 := OneLeafTree("m", "x", STRING, "new");
    var t8 := OneLeafTree("m", "x", Leafref("/" + "x"), "");
  }
}
