/** Leafref paths: their normalisation, and the annotation of their targets
    (`pkg/schema/references.go`). */
module References {
  import opened Wrappers
  import opened Text
  import opened XPath
  import opened XPathRoundTrip
  import opened XPathScanners
  import opened XPathExact
  import opened ModuleOrder
  import opened YangTree
  import opened Navigation
  import opened SchemaPaths

  // ----- climbing

  /** The data-node ancestor that one `..` of the source reaches: none when the entry has no
      parent link, where the source dereferences a nil parent. */
  ghost function ClimbOne(t: Links, e: Id): (r: Option<Id>)
    requires e < |t|
    ensures r.Some? ==> r.value < |t| && IsData(t, r.value)
  {
    if t[e].parent == None || e == 0 then None else Some(DataParent(t, e))
  }

  ghost function Climb(t: Links, e: Id, n: nat): (r: Option<Id>)
    requires e < |t|
    ensures r.Some? ==> r.value < |t| && (IsData(t, e) ==> IsData(t, r.value))
  {
    if n == 0 then Some(e)
    else
      match ClimbOne(t, e)
      case None => None
      case Some(p) => Climb(t, p, n - 1)
  }

  function CountUps(names: seq<string>): nat {
    if names == [] then 0 else CountUps(names[..|names| - 1]) + if names[|names| - 1] == ".." then 1 else 0
  }

  function Downs(names: seq<string>): seq<string> {
    if names == [] then []
    else Downs(names[..|names| - 1]) + if names[|names| - 1] == ".." then [] else [names[|names| - 1]]
  }

  lemma {:induction false} ClimbMore(t: Links, e: Id, n: nat)
    requires e < |t|
    ensures Climb(t, e, n + 1) == match Climb(t, e, n) case None => None case Some(p) => ClimbOne(t, p)
    decreases n
  {
    var p := ClimbOne(t, e);
    if n > 0 && p.Some? { ClimbMore(t, p.value, n - 1); }
  }

  lemma {:induction false} ClimbFails(t: Links, e: Id, n: nat, m: nat)
    requires e < |t| && n <= m && Climb(t, e, n) == None
    ensures Climb(t, e, m) == None
    decreases m
  {
    if n < m {
      ClimbFails(t, e, n, m - 1);
      ClimbMore(t, e, m - 1);
    }
  }

  lemma {:induction false} CountUpsPrefix(names: seq<string>, i: nat)
    requires i <= |names|
    ensures CountUps(names[..i]) <= CountUps(names)
    decreases |names|
  {
    if i < |names| {
      assert names[..|names| - 1][..i] == names[..i];
      CountUpsPrefix(names[..|names| - 1], i);
    } else {
      assert names[..i] == names;
    }
  }

  /** One `..`: from a data node to its parent, then out of choice and case two links at a time. */
  method ClimbStep(t: Links, ce: Id) returns (r: Option<Id>)
    requires ce < |t| && IsData(t, ce)
    ensures r == ClimbOne(t, ce)
  {
    if t[ce].parent == None { return None; }
    TopFacts(t, ce);
    UpFacts(t, ce);
    var at: Id := t[ce].parent.value;
    while t[at].kind.IsFlat() && t[at].parent.Some?
      invariant at < ce && (IsData(t, at) || at > 0)
      invariant DataParent(t, ce) == if IsData(t, at) then at else DataParent(t, at)
      invariant !t[at].kind.Choice?
      decreases at
    {
      UpFacts(t, at);
      var choice := t[at].parent.value;
      UpFacts(t, choice);
      at := t[choice].parent.value;
    }
    if at > 0 { UpFacts(t, at); }
    r := Some(at);
  }

  /** `relativeToAbsPath`: every `..` climbs from `e`, every other name is kept, and the names
      of the node reached are put in front.  Nothing comes back when a climb has no parent. */
  method RelativeToAbsPath(t: Links, names: seq<string>, e: Id) returns (r: Option<seq<string>>)
    requires e < |t| && IsData(t, e)
    ensures r == match Climb(t, e, CountUps(names))
                 case None => None
                 case Some(a) => Some(PathOf(t, a)[1..] + Downs(names))
  {
    var np: seq<string> := [];
    var ce: Id := e;
    for i := 0 to |names|
      invariant ce < |t| && IsData(t, ce) && Climb(t, e, CountUps(names[..i])) == Some(ce)
      invariant np == Downs(names[..i])
    {
      assert names[..i + 1][..i] == names[..i];
      if names[i] == ".." {
        ClimbMore(t, e, CountUps(names[..i]));
        var up := ClimbStep(t, ce);
        if up.None? {
          CountUpsPrefix(names, i + 1);
          ClimbFails(t, e, CountUps(names[..i + 1]), CountUps(names));
          return None;
        }
        ce := up.value;
        continue;
      }
      np := np + [names[i]];
    }
    assert names[..|names|] == names;
    var above := NamesAbove(t, ce);
    r := Some(above + np);
  }

  /** The loop that prepends names up to the module, choice and case left out. */
  method NamesAbove(t: Links, from: Id) returns (np: seq<string>)
    requires from < |t| && IsData(t, from)
    ensures np == PathOf(t, from)[1..]
  {
    np := [];
    var ce: Id := from;
    while true
      invariant ce <= from
      invariant IsData(t, ce) ==> PathOf(t, from)[1..] == PathOf(t, ce)[1..] + np
      invariant !IsData(t, ce) ==> ce > 0 && Up(t, ce) > 0 && PathOf(t, from)[1..] == PathOf(t, DataParent(t, ce))[1..] + np
      decreases ce
    {
      TopFacts(t, ce);
      if t[ce].parent == None || t[t[ce].parent.value].name == ROOT_NAME { break; }
      if !t[ce].kind.IsFlat() {
        PrependName(t, ce, np);
        np := [t[ce].name] + np;
      }
      ce := t[ce].parent.value;
    }
    assert PathOf(t, ce) == [t[ce].name];
    assert [t[ce].name][1..] == [] && [] + np == np;
  }

  lemma {:induction false} PrependName(t: Links, ce: Id, np: seq<string>)
    requires 0 < ce < |t| && IsData(t, ce) && Up(t, ce) != 0
    ensures PathOf(t, ce)[1..] + np == PathOf(t, DataParent(t, ce))[1..] + ([t[ce].name] + np)
  {
    var up := PathOf(t, DataParent(t, ce));
    assert PathOf(t, ce) == up + [t[ce].name];
    assert (up + [t[ce].name])[1..] == up[1..] + [t[ce].name];
    Assoc(up[1..], [t[ce].name], np);
  }

  // ----- normalisation

  function Locals(names: seq<string>): (r: seq<string>)
    ensures |r| == |names| && forall i | 0 <= i < |names| :: r[i] == LocalName(names[i])
  {
    seq(|names|, i requires 0 <= i < |names| => LocalName(names[i]))
  }

  /** What `normalizePath` gives for the leafref text of entry `e`: the empty path for
      malformed text, nothing when a `..` has no parent to climb to. */
  ghost function Normalized(t: Links, e: Id, text: string): Option<seq<string>>
    requires e < |t|
  {
    match Parse(text)
    case Err(_) => Some([])
    case Ok(p) =>
      var names := Names(p.elem);
      if ".." in names then
        match Climb(t, e, CountUps(names))
        case None => None
        case Some(a) => Some(Locals(PathOf(t, a)[1..] + Downs(names)))
      else Some(Locals(names))
  }

  /** `normalizePath`. */
  method NormalizePath(t: Links, e: Id, text: string) returns (r: Option<seq<string>>)
    requires e < |t| && IsData(t, e)
    ensures r == Normalized(t, e, text)
  {
    var scp := ParsePath(text);
    if scp.Err? { return Some([]); }
    var names := Names(scp.value.elem);
    if ".." in names {
      var abs := RelativeToAbsPath(t, names, e);
      if abs.None? { return None; }
      names := abs.value;
    }
    r := Some(Locals(names));
  }

  // ----- relative paths mean what RFC 7950 says

  /** Names that may follow in a leafref path, with or without a prefix. */
  ghost predicate StepName(n: string) {
    NameOk(n) && n != ".." && n[|n| - 1] != ':'
  }

  /** `k` times `..`, then the names. */
  function RelativeElems(k: nat, names: seq<string>): seq<PathElem> {
    seq(k, i => PathElem("..", map[])) + seq(|names|, i requires 0 <= i < |names| => PathElem(names[i], map[]))
  }

  function Ups(k: nat): (r: seq<string>)
    ensures |r| == k && forall i | 0 <= i < k :: r[i] == ".."
  {
    seq(k, i => "..")
  }

  lemma {:induction false} CountRelative(k: nat, names: seq<string>)
    requires forall i | 0 <= i < |names| :: names[i] != ".."
    ensures CountUps(Ups(k) + names) == k && Downs(Ups(k) + names) == names
    decreases k + |names|
  {
    var all := Ups(k) + names;
    if names != [] {
      var init := names[..|names| - 1];
      assert all[..|all| - 1] == Ups(k) + init;
      CountRelative(k, init);
      Unsnoc(names);
    } else if k > 0 {
      assert all[..|all| - 1] == Ups(k - 1) + [];
      CountRelative(k - 1, []);
      assert all[|all| - 1] == "..";
    }
  }

  lemma {:induction false} StepElemOk(n: string)
    requires StepName(n) || n == ".."
    ensures Printable(PathElem(n, map[])) && BracketFree(PathElem(n, map[])) && NoOriginLook(PathElem(n, map[]))
  {
  }

  lemma {:induction false} RelativeNames(k: nat, names: seq<string>)
    ensures Names(RelativeElems(k, names)) == Ups(k) + names
  {
  }

  lemma {:induction false} ParseRelative(k: nat, names: seq<string>)
    requires forall i | 0 <= i < |names| :: StepName(names[i])
    ensures Parse(XPathOf(Path("", RelativeElems(k, names)), false)) == Ok(Path("", RelativeElems(k, names)))
    ensures Names(RelativeElems(k, names)) == Ups(k) + names
  {
    hide Printable, BracketFree, NoOriginLook, StepName, Parse, XPathOf, Names;
    RelativeNames(k, names);
    var es := RelativeElems(k, names);
    forall i | 0 <= i < |es| ensures Printable(es[i]) && BracketFree(es[i]) && NoOriginLook(es[i]) {
      StepElemOk(if i < k then ".." else names[i - k]);
    }
    RoundTrip(Path("", es));
  }

  lemma {:induction false} ClimbKeepsModule(t: Links, e: Id, k: nat)
    requires 0 < e < |t| && IsData(t, e) && Climb(t, e, k).Some? && Climb(t, e, k).value != 0
    ensures ModuleOf(t, Climb(t, e, k).value) == ModuleOf(t, e)
    decreases k
  {
    if k > 0 {
      UpFacts(t, e);
      ClimbFromRoot(t, k - 1);
      if Up(t, e) != 0 {
        DataParentKeepsModule(t, e);
        ClimbKeepsModule(t, DataParent(t, e), k - 1);
      }
    }
  }

  lemma {:induction false} ClimbFromRoot(t: Links, k: nat)
    ensures Climb(t, 0, k) == if k == 0 then Some(0) else None
  {
  }

  /** Relative leafref normalisation preserves meaning (section 9.9.2 of RFC 7950): looking the
      normalised path up from the leaf's own module reaches exactly the node found by climbing
      `k` data-node ancestors and then descending the names. */
  lemma {:induction false} RelativeMeaning(t: Tree, e: Id, k: nat, names: seq<string>)
    requires 0 < e < |t| && IsData(t, e) && k > 0 && forall i | 0 <= i < |names| :: StepName(names[i])
    ensures var text := XPathOf(Path("", RelativeElems(k, names)), false);
            match Climb(t, e, k)
            case None => Normalized(t, e, text) == None
            case Some(a) =>
              && Normalized(t, e, text).Some?
              && (a != 0 ==> Descend(t, ModuleOf(t, e), Normalized(t, e, text).value) == Descend(t, a, Locals(names)))
              && (a == 0 ==> Normalized(t, e, text).value == Locals(names))
  {
    ParseRelative(k, names);
    var all := Ups(k) + names;
    assert all[0] == "..";
    CountRelative(k, names);
    var r := Climb(t, e, k);
    if r.Some? {
      var a := r.value;
      var above := PathOf(t, a)[1..];
      LocalsAbove(t, a, names);
      if a == 0 {
        assert PathOf(t, a) == [ROOT_NAME];
        assert [] + Locals(names) == Locals(names);
      } else {
        ClimbKeepsModule(t, e, k);
        UpThenDown(t, a);
        DescendAppend(t, ModuleOf(t, e), above, Locals(names));
      }
    }
  }

  /** What the server makes of it: `GetEntry` is asked for the normalised path and finds the
      node meant exactly when the leaf's module is the best candidate that has the path; when
      nothing is meant, it fails exactly when no candidate module has the path. */
  lemma {:induction false} RelativeTarget(t: Tree, e: Id, k: nat, names: seq<string>)
    requires 0 < e < |t| && IsData(t, e) && k > 0 && forall i | 0 <= i < |names| :: StepName(names[i])
    requires Climb(t, e, k).Some? && Climb(t, e, k).value != 0
    ensures var meant := Descend(t, Climb(t, e, k).value, Locals(names));
            var text := XPathOf(Path("", RelativeElems(k, names)), false);
            && Normalized(t, e, text).Some?
            && var pes := Normalized(t, e, text).value;
               pes != [] ==>
                 var hits := CandidateHits(t, pes);
                 if meant.Some? then Resolve(t, pes) == meant <==> IsLeast(ModLess, t[ModuleOf(t, e)].name, hits)
                 else Resolve(t, pes) == None <==> hits == {} && !(|pes| == 1 && Candidates(t, pes[0]) == {pes[0]})
  {
    hide Normalized, XPathOf, Climb, Locals;
    RelativeMeaning(t, e, k, names);
    var pes := Normalized(t, e, XPathOf(Path("", RelativeElems(k, names)), false)).value;
    var m := ModuleOf(t, e);
    UpFacts(t, m);
    if pes != [] { ResolveInModule(t, t[m].name, pes); }
  }

  lemma {:induction false} LocalsAbove(t: Links, a: Id, names: seq<string>)
    requires a < |t|
    ensures Locals(PathOf(t, a)[1..] + names) == PathOf(t, a)[1..] + Locals(names)
  {
    NoColons(t, a);
  }

  lemma {:induction false} NoColons(t: Links, a: Id)
    requires a < |t|
    ensures forall i | 0 <= i < |PathOf(t, a)| :: ':' !in PathOf(t, a)[i]
    decreases a
  {
    if a > 0 {
      UpFacts(t, a);
      IdentifierIsPlain(t[a].name);
      if Up(t, a) != 0 { NoColons(t, DataParent(t, a)); }
    }
  }

  lemma {:induction false} ParseAbsoluteText(names: seq<string>)
    requires names != [] && forall i | 0 <= i < |names| :: StepName(names[i])
    ensures Parse("/" + XPathOf(Path("", RelativeElems(0, names)), false)) == Ok(Path("", RelativeElems(0, names)))
  {
    var es := RelativeElems(0, names);
    forall i | 0 <= i < |es| ensures Printable(es[i]) && BracketFree(es[i]) {
      assert es[i] == PathElem(names[i], map[]);
    }
    DecodesRaws(es);
    PrinterWrites(es);
    ParseAbsolute(Raws(es));
    assert XPathOf(Path("", es), false) == EscapedXPath(es);
  }

  /** An absolute leafref path keeps its names and loses its prefixes. */
  lemma {:induction false} AbsoluteMeaning(t: Links, e: Id, names: seq<string>)
    requires e < |t| && names != [] && forall i | 0 <= i < |names| :: StepName(names[i])
    ensures Normalized(t, e, "/" + XPathOf(Path("", RelativeElems(0, names)), false)) == Some(Locals(names))
  {
    ParseAbsoluteText(names);
    assert Names(RelativeElems(0, names)) == names;
  }

  // ----- what normalisation gives, spelled out

  /** A step of a leafref path: `..`, or a name with or without prefix. */
  type Step = Option<Item>

  function StepText(s: Step): string {
    if s.None? then ".." else s.value.Text()
  }

  function StepElems(steps: seq<Step>): (es: seq<PathElem>)
    ensures |es| == |steps| && forall i | 0 <= i < |steps| :: es[i] == PathElem(StepText(steps[i]), map[])
  {
    seq(|steps|, i requires 0 <= i < |steps| => PathElem(StepText(steps[i]), map[]))
  }

  function UpSteps(steps: seq<Step>): nat {
    if steps == [] then 0 else (if steps[0].None? then 1 else 0) + UpSteps(steps[1..])
  }

  function NameSteps(steps: seq<Step>): seq<string> {
    if steps == [] then [] else (if steps[0].None? then [] else [steps[0].value.name]) + NameSteps(steps[1..])
  }

  ghost predicate StepsOk(steps: seq<Step>) {
    forall i | 0 <= i < |steps| :: steps[i].Some? ==> steps[i].value.Ok() && StepName(steps[i].value.Text())
  }

  lemma {:induction false} UpsAppend(a: seq<string>, b: seq<string>)
    ensures CountUps(a + b) == CountUps(a) + CountUps(b) && Downs(a + b) == Downs(a) + Downs(b)
    decreases |b|
  {
    if b == [] {
      assert a + b == a && Downs(a) + [] == Downs(a);
    } else {
      var init, x := b[..|b| - 1], b[|b| - 1];
      assert (a + b)[..|a + b| - 1] == a + init;
      UpsAppend(a, init);
      Assoc(Downs(a), Downs(init), if x == ".." then [] else [x]);
    }
  }

  lemma {:induction false} UpsOfOne(x: string)
    ensures CountUps([x]) == (if x == ".." then 1 else 0) && Downs([x]) == if x == ".." then [] else [x]
  {
    assert [x][..0] == [];
  }

  lemma {:induction false} LocalsAppend(a: seq<string>, b: seq<string>)
    ensures Locals(a + b) == Locals(a) + Locals(b)
  {
  }

  lemma {:induction false} StepNames(steps: seq<Step>)
    requires steps != []
    ensures Names(StepElems(steps)) == [StepText(steps[0])] + Names(StepElems(steps[1..]))
  {
  }

  /** What one step contributes. */
  lemma {:induction false} StepTaken(s: Step)
    requires StepsOk([s])
    ensures StepText(s) == ".." <==> s.None?
    ensures CountUps([StepText(s)]) == (if s.None? then 1 else 0)
    ensures Locals(Downs([StepText(s)])) == if s.None? then [] else [s.value.name]
    ensures s.Some? ==> Locals([StepText(s)]) == [s.value.name]
  {
    UpsOfOne(StepText(s));
    if s.Some? {
      assert [s][0] == s;
      LocalOfItem(s.value);
      assert Locals([StepText(s)]) == [s.value.name];
    }
  }

  /** The steps counted and kept by the climbing loop. */
  lemma {:induction false} StepsTaken(steps: seq<Step>)
    requires StepsOk(steps)
    ensures var names := Names(StepElems(steps));
            CountUps(names) == UpSteps(steps) && Locals(Downs(names)) == NameSteps(steps)
    ensures ".." in Names(StepElems(steps)) <==> UpSteps(steps) > 0
    ensures UpSteps(steps) == 0 ==> Locals(Names(StepElems(steps))) == NameSteps(steps)
  {
    if steps != [] {
      hide CountUps, Downs, StepText, Names, StepElems, StepName, Locals;
      var first, rest := StepText(steps[0]), steps[1..];
      var more := Names(StepElems(rest));
      StepNames(steps);
      StepTaken(steps[0]);
      StepsTaken(rest);
      UpsAppend([first], more);
      LocalsAppend(Downs([first]), Downs(more));
      LocalsAppend([first], more);
    }
  }

  lemma {:induction false} ParseSteps(steps: seq<Step>, slash: bool)
    requires StepsOk(steps) && steps != []
    ensures Parse((if slash then "/" else "") + XPathOf(Path("", StepElems(steps)), false)) == Ok(Path("", StepElems(steps)))
  {
    hide Printable, BracketFree, NoOriginLook, StepName, Parse, XPathOf, Names;
    var es := StepElems(steps);
    forall i | 0 <= i < |es| ensures Printable(es[i]) && BracketFree(es[i]) && NoOriginLook(es[i]) {
      StepElemOk(StepText(steps[i]));
    }
    if slash {
      ParseSlashed(es);
    } else {
      RoundTrip(Path("", es));
      assert "" + XPathOf(Path("", es), false) == XPathOf(Path("", es), false);
    }
  }

  lemma {:induction false} ParseSlashed(es: seq<PathElem>)
    requires es != [] && forall i | 0 <= i < |es| :: Printable(es[i]) && BracketFree(es[i])
    ensures Parse("/" + XPathOf(Path("", es), false)) == Ok(Path("", es))
  {
    DecodesRaws(es);
    PrinterWrites(es);
    ParseAbsolute(Raws(es));
    assert XPathOf(Path("", es), false) == EscapedXPath(es);
  }

  /** Climbing `k` times leaves out the last `k` names of the path; above the module there is
      the root if the module has it as parent, and nothing otherwise. */
  lemma {:induction false} ClimbShortens(t: Links, e: Id, k: nat)
    requires 0 < e < |t| && IsData(t, e)
    ensures var p := PathOf(t, e);
            if k < |p| then Climb(t, e, k).Some? && PathOf(t, Climb(t, e, k).value) == p[..|p| - k]
            else Climb(t, e, k) == if k == |p| && t[ModuleOf(t, e)].parent.Some? then Some(0) else None
    decreases k
  {
    UpFacts(t, e);
    var p := PathOf(t, e);
    if k == 0 {
      assert p[..|p|] == p;
    } else if Up(t, e) == 0 {
      ClimbFromRoot(t, k - 1);
    } else {
      DataParentKeepsModule(t, e);
      ClimbShortens(t, DataParent(t, e), k - 1);
      if k < |p| { assert p[..|p| - k] == PathOf(t, DataParent(t, e))[..|p| - k]; }
    }
  }

  /** The normalised path of any leafref text without predicates: every `..`, wherever it stands,
      leaves out one name of the leaf's own path from the end, the other steps follow without
      their prefixes, and a leading slash makes no difference.  Only more `..` than there are
      names above have no result. */
  lemma {:induction false} NormalizedSpelled(t: Tree, e: Id, steps: seq<Step>, slash: bool)
    requires 0 < e < |t| && IsData(t, e) && StepsOk(steps) && steps != []
    ensures var text := (if slash then "/" else "") + XPathOf(Path("", StepElems(steps)), false);
            var p, k := PathOf(t, e), UpSteps(steps);
            Normalized(t, e, text) ==
            if k == 0 then Some(NameSteps(steps))
            else if k < |p| then Some(p[1..|p| - k] + NameSteps(steps))
            else if k == |p| && t[ModuleOf(t, e)].parent.Some? then Some(NameSteps(steps))
            else None
  {
    ParseSteps(steps, slash);
    StepsTaken(steps);
    hide Parse, XPathOf, StepsOk, Climb, Downs, CountUps, Linked, NamesUnique, Names, NameSteps, UpSteps;
    var names := Names(StepElems(steps));
    var p, k := PathOf(t, e), UpSteps(steps);
    ClimbShortens(t, e, k);
    var r := Climb(t, e, k);
    if k > 0 && r.Some? {
      LocalsAbove(t, r.value, Downs(names));
      if k < |p| {
        assert p[..|p| - k][1..] == p[1..|p| - k];
      } else {
        assert PathOf(t, 0) == [ROOT_NAME] && [ROOT_NAME][1..] == [];
        assert [] + NameSteps(steps) == NameSteps(steps);
      }
    }
  }

  /** A text with unbalanced brackets is taken for the empty path, and so for the root. */
  lemma {:induction false} MalformedIsRoot(t: Links, e: Id, text: string)
    requires e < |t| && NUL !in text && !Balanced(Slashed(text)) && forall o, rest :: !OriginAt(text, o, rest)
    ensures Normalized(t, e, text) == Some([]) && Resolve(t, []) == Some(0)
  {
    MalformedExactly(text);
    ParseNoOrigin(text);
  }
}
