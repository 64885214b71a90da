/** The stored type of a leaf: unions and leafrefs resolved into nested types
    (`toSchemaType` of `pkg/schema/leaf.go`). */
module LeafTypes {
  import opened Wrappers
  import opened Text
  import opened YangTree
  import opened Navigation
  import opened References
  import XPath
  import XPathScanners
  import XPathExact

  datatype TypeKind = Basic(name: string) | UnionKind | LeafrefKind

  /** `SchemaLeafType`: its kind, leafref text, union members and leafref target type. */
  datatype LeafType = LeafType(kind: TypeKind, leafref: string, members: seq<LeafType>, target: Option<LeafType>)

  /** `Crashed` stands for a nil dereference; `Running` for a conversion that has followed all
      the leafrefs it was allowed to and still has one before it. */
  datatype Conversion = Done(v: LeafType) | Failed | Crashed | Running

  // ----- leafrefs as steps between leaves

  /** Where the leafref text `path` leads from entry `e`. */
  ghost function Target(t: Links, e: Id, path: string): (r: Destination)
    requires e < |t|
    ensures r.Found? ==> r.node < |t| && t[r.node].ltype.Some? && IsData(t, r.node)
  {
    match Normalized(t, e, path)
    case None => Nil
    case Some(pes) =>
      var b := Resolve(t, pes);
      if b.None? then Missing
      else
        ResolveInTree(t, pes);
        if t[b.value].ltype.None? then Nil else Found(b.value)
  }

  /** A typed node, none, or something that is dereferenced although it is nil. */
  datatype Destination = Found(node: Id) | Missing | Nil

  lemma {:induction false} ResolveInTree(t: Links, pes: seq<string>)
    ensures Resolve(t, pes).Some? ==> Resolve(t, pes).value < |t| && (t[Resolve(t, pes).value].ltype.Some? ==> IsData(t, Resolve(t, pes).value))
  {
    if pes != [] {
      CandidatesAreModules(t, pes[0]);
    }
  }

  function TypeOf(t: Links, e: Id): YangType
    requires e < |t| && t[e].ltype.Some?
  {
    t[e].ltype.value
  }

  /** `path` is the text of a leafref in `yt`, possibly inside unions. */
  predicate HasLeafref(yt: YangType, path: string) {
    match yt
    case Builtin(_) => false
    case Leafref(p) => p == path
    case Union(ms) => exists i | 0 <= i < |ms| :: HasLeafref(ms[i], path)
  }

  /** A leafref in the type of leaf `a` refers to leaf `b`. */
  ghost predicate RefersTo(t: Links, a: Id, b: Id) {
    a < |t| && t[a].ltype.Some? && exists p :: HasLeafref(TypeOf(t, a), p) && Target(t, a, p) == Found(b)
  }

  ghost predicate Chain(t: Links, es: seq<Id>) {
    es != [] && forall i | 0 <= i < |es| - 1 :: RefersTo(t, es[i], es[i + 1])
  }

  /** A chain of leafrefs from `e` comes back to a leaf it has visited (section 9.9 of RFC 7950). */
  ghost predicate Circular(t: Links, e: Id) {
    exists es :: Lasso(t, es) && es[0] == e
  }

  ghost predicate Lasso(t: Links, es: seq<Id>) {
    Chain(t, es) && es[|es| - 1] in es[..|es| - 1]
  }

  // ----- the conversion

  /** `toSchemaType` when it may follow at most `hops` leafrefs in a row. */
  ghost function Convert(t: Links, e: Id, yt: YangType, hops: nat): Conversion
    requires e < |t|
    decreases hops, yt
  {
    match yt
    case Builtin(k) => Done(LeafType(Basic(k), "", [], None))
    case Union(ms) =>
      (match ConvertAll(t, e, ms, hops)
       case Stopped(c) => c
       case All(vs) => Done(LeafType(UnionKind, "", vs, None)))
    case Leafref(p) =>
      (match Target(t, e, p)
       case Missing => Failed
       case Nil => Crashed
       case Found(b) =>
         if hops == 0 then Running
         else
           match Convert(t, b, TypeOf(t, b), hops - 1)
           case Done(v) => Done(LeafType(LeafrefKind, p, [], Some(v)))
           case c => c)
  }

  datatype Members = All(vs: seq<LeafType>) | Stopped(c: Conversion)

  /** The members in order, up to the first that does not succeed. */
  ghost function ConvertAll(t: Links, e: Id, ms: seq<YangType>, hops: nat): (r: Members)
    requires e < |t|
    ensures r.Stopped? ==> !r.c.Done?
    ensures r.All? ==> |r.vs| == |ms|
    decreases hops, ms
  {
    if ms == [] then All([])
    else
      match ConvertAll(t, e, ms[..|ms| - 1], hops)
      case Stopped(c) => Stopped(c)
      case All(vs) =>
        match Convert(t, e, ms[|ms| - 1], hops)
        case Done(v) => All(vs + [v])
        case c => Stopped(c)
  }

  /** `normalizePath`, `GetEntry` and the type of the entry found. */
  method LeafrefTarget(t: Tree, e: Id, path: string) returns (r: Destination)
    requires e < |t| && IsData(t, e)
    ensures r == Target(t, e, path)
  {
    var pes := NormalizePath(t, e, path);
    if pes.None? { return Nil; }
    var b := GetEntry(t, pes.value);
    if b.None? { return Missing; }
    ResolveInTree(t, pes.value);
    r := if t[b.value].ltype.None? then Nil else Found(b.value);
  }

  /** `toSchemaType`.  The ghost budget and the size of the type form the measure by which it
      terminates; the code itself does not count. */
  method ToSchemaType(t: Tree, e: Id, yt: YangType, ghost hops: nat) returns (r: Conversion)
    requires e < |t| && IsData(t, e) && Convert(t, e, yt, hops) != Running
    ensures r == Convert(t, e, yt, hops)
    decreases hops, yt
  {
    hide Target;
    match yt {
      case Builtin(k) =>
        r := Done(LeafType(Basic(k), "", [], None));
      case Union(ms) =>
        var members := UnionTypes(t, e, ms, hops);
        r := if members.All? then Done(LeafType(UnionKind, "", members.vs, None)) else members.c;
      case Leafref(p) =>
        var to := LeafrefTarget(t, e, p);
        if !to.Found? { return if to.Nil? then Crashed else Failed; }
        var target := ToSchemaType(t, to.node, TypeOf(t, to.node), hops - 1);
        r := if target.Done? then Done(LeafType(LeafrefKind, p, [], Some(target.v))) else target;
    }
  }

  /** The loop over the members of a union. */
  method UnionTypes(t: Tree, e: Id, ms: seq<YangType>, ghost hops: nat) returns (r: Members)
    requires e < |t| && IsData(t, e) && ConvertAll(t, e, ms, hops) != Stopped(Running)
    ensures r == ConvertAll(t, e, ms, hops)
    decreases hops, ms
  {
    var vs: seq<LeafType> := [];
    for i := 0 to |ms|
      invariant ConvertAll(t, e, ms[..i], hops) == All(vs)
    {
      assert ms[..i + 1][..i] == ms[..i];
      StopsEarly(t, e, ms, i + 1, hops);
      var schem := ToSchemaType(t, e, ms[i], hops);
      if !schem.Done? { return Stopped(schem); }
      vs := vs + [schem.v];
    }
    assert ms[..|ms|] == ms;
    r := All(vs);
  }

  lemma {:induction false} StopsEarly(t: Links, e: Id, ms: seq<YangType>, i: nat, hops: nat)
    requires e < |t| && i <= |ms|
    ensures ConvertAll(t, e, ms[..i], hops).Stopped? ==> ConvertAll(t, e, ms, hops) == ConvertAll(t, e, ms[..i], hops)
    decreases |ms|
  {
    hide Target;
    if i < |ms| {
      assert ms[..|ms| - 1][..i] == ms[..i];
      StopsEarly(t, e, ms[..|ms| - 1], i, hops);
    } else {
      assert ms[..i] == ms;
    }
  }

  // ----- what a converted type says

  /** `v` describes `yt` at leaf `e`: the type of each leafref is the description of the type
      of the leaf it refers to. */
  ghost predicate Describes(t: Links, e: Id, yt: YangType, v: LeafType)
    requires e < |t|
    decreases v
  {
    match yt
    case Builtin(k) => v == LeafType(Basic(k), "", [], None)
    case Union(ms) =>
      && v.kind == UnionKind && v.leafref == "" && v.target == None
      && |v.members| == |ms|
      && forall i | 0 <= i < |ms| :: Describes(t, e, ms[i], v.members[i])
    case Leafref(p) =>
      && v.kind == LeafrefKind && v.leafref == p && v.members == []
      && v.target.Some? && Target(t, e, p).Found?
      && Describes(t, Target(t, e, p).node, TypeOf(t, Target(t, e, p).node), v.target.value)
  }

  lemma {:induction false} DoneDescribes(t: Links, e: Id, yt: YangType, hops: nat)
    requires e < |t|
    ensures Convert(t, e, yt, hops).Done? ==> Describes(t, e, yt, Convert(t, e, yt, hops).v)
    decreases hops, yt
  {
    hide Target;
    match yt {
      case Builtin(_) =>
      case Union(ms) => AllDescribe(t, e, ms, hops);
      case Leafref(p) =>
        var b := Target(t, e, p);
        if b.Found? && hops > 0 { DoneDescribes(t, b.node, TypeOf(t, b.node), hops - 1); }
    }
  }

  lemma {:induction false} AllDescribe(t: Links, e: Id, ms: seq<YangType>, hops: nat)
    requires e < |t|
    ensures var r := ConvertAll(t, e, ms, hops);
            r.All? ==> forall i | 0 <= i < |ms| :: Describes(t, e, ms[i], r.vs[i])
    decreases hops, ms
  {
    hide Target;
    if ms != [] {
      AllDescribe(t, e, ms[..|ms| - 1], hops);
      DoneDescribes(t, e, ms[|ms| - 1], hops);
    }
  }

  // ----- how a conversion fails

  /** The leafref text `path` at `a` leads to no entry. */
  ghost predicate Lost(t: Links, a: Id, path: string) {
    a < |t| && Normalized(t, a, path).Some? && Resolve(t, Normalized(t, a, path).value) == None
  }

  /** It climbs past the top, or leads to an entry without a type. */
  ghost predicate Dangling(t: Links, a: Id, path: string) {
    a < |t| &&
    match Normalized(t, a, path)
    case None => true
    case Some(pes) =>
      ResolveInTree(t, pes);
      Resolve(t, pes).Some? && t[Resolve(t, pes).value].ltype == None
  }

  /** A chain of leafrefs from `e` reaches a leaf with a leafref that is lost or dangling. */
  ghost predicate Reaches(t: Links, e: Id, lost: bool) {
    exists es, p :: BadEnd(t, es, p, lost) && es[0] == e
  }

  ghost predicate BadEnd(t: Links, es: seq<Id>, p: string, lost: bool) {
    && Chain(t, es)
    && var a := es[|es| - 1];
    && a < |t| && t[a].ltype.Some? && HasLeafref(TypeOf(t, a), p)
    && if lost then Lost(t, a, p) else Dangling(t, a, p)
  }

  lemma {:induction false} TargetMeans(t: Links, a: Id, path: string)
    requires a < |t|
    ensures Target(t, a, path) == Missing <==> Lost(t, a, path)
    ensures Target(t, a, path) == Nil <==> Dangling(t, a, path)
  {
  }

  lemma {:induction false} ReachesOn(t: Links, e: Id, p: string, b: Id, lost: bool)
    requires e < |t| && t[e].ltype.Some? && HasLeafref(TypeOf(t, e), p) && Target(t, e, p) == Found(b) && Reaches(t, b, lost)
    ensures Reaches(t, e, lost)
  {
    hide Target, Lost, Dangling;
    var es, q :| BadEnd(t, es, q, lost) && es[0] == b;
    var longer := [e] + es;
    assert RefersTo(t, e, b);
    forall i | 0 <= i < |longer| - 1 ensures RefersTo(t, longer[i], longer[i + 1]) {
      if i > 0 { assert RefersTo(t, es[i - 1], es[i]); }
    }
    assert longer[|longer| - 1] == es[|es| - 1];
    assert BadEnd(t, longer, q, lost);
  }

  /** A conversion is refused only because a chain of leafrefs leads to one that names no entry,
      and runs into a nil pointer only because one leads past the top or to an entry that has no
      type. */
  lemma {:induction false} FailureHasCause(t: Links, e: Id, yt: YangType, hops: nat)
    requires e < |t| && t[e].ltype.Some? && PartOf(yt, TypeOf(t, e))
    ensures Convert(t, e, yt, hops) == Failed ==> Reaches(t, e, true)
    ensures Convert(t, e, yt, hops) == Crashed ==> Reaches(t, e, false)
    decreases hops, yt
  {
    hide Target, Lost, Dangling, Reaches;
    match yt {
      case Builtin(_) =>
      case Union(ms) =>
        PartsOfUnion(t, e, ms);
        MemberFailure(t, e, ms, hops);
      case Leafref(p) =>
        assert HasLeafref(yt, p);
        var to := Target(t, e, p);
        TargetMeans(t, e, p);
        if !to.Found? {
          BadHere(t, e, p, to.Missing?);
        } else if hops > 0 {
          FailureHasCause(t, to.node, TypeOf(t, to.node), hops - 1);
          var r := Convert(t, to.node, TypeOf(t, to.node), hops - 1);
          if r == Failed { ReachesOn(t, e, p, to.node, true); }
          if r == Crashed { ReachesOn(t, e, p, to.node, false); }
        }
    }
  }

  lemma {:induction false} BadHere(t: Links, e: Id, p: string, lost: bool)
    requires e < |t| && t[e].ltype.Some? && HasLeafref(TypeOf(t, e), p) && if lost then Lost(t, e, p) else Dangling(t, e, p)
    ensures Reaches(t, e, lost)
  {
    assert Chain(t, [e]);
    assert BadEnd(t, [e], p, lost);
  }

  lemma {:induction false} MemberFailure(t: Links, e: Id, ms: seq<YangType>, hops: nat)
    requires e < |t| && t[e].ltype.Some? && forall m | m in ms :: PartOf(m, TypeOf(t, e))
    ensures ConvertAll(t, e, ms, hops) == Stopped(Failed) ==> Reaches(t, e, true)
    ensures ConvertAll(t, e, ms, hops) == Stopped(Crashed) ==> Reaches(t, e, false)
    decreases hops, ms
  {
    hide Target, Lost, Dangling, Reaches;
    if ms != [] {
      MemberFailure(t, e, ms[..|ms| - 1], hops);
      assert ms[|ms| - 1] in ms;
      FailureHasCause(t, e, ms[|ms| - 1], hops);
    }
  }

  /** A union fails as its first member that does not succeed. */
  lemma {:induction false} FirstMemberDecides(t: Links, e: Id, ms: seq<YangType>, hops: nat, i: nat)
    requires e < |t| && i < |ms| && !Convert(t, e, ms[i], hops).Done?
    requires forall j | 0 <= j < i :: Convert(t, e, ms[j], hops).Done?
    ensures Convert(t, e, Union(ms), hops) == Convert(t, e, ms[i], hops)
  {
    hide Target;
    AllBefore(t, e, ms, hops, i);
    StopsEarly(t, e, ms, i + 1, hops);
    assert ms[..i + 1][..i] == ms[..i];
  }

  lemma {:induction false} AllBefore(t: Links, e: Id, ms: seq<YangType>, hops: nat, i: nat)
    requires e < |t| && i <= |ms| && forall j | 0 <= j < i :: Convert(t, e, ms[j], hops).Done?
    ensures ConvertAll(t, e, ms[..i], hops).All?
  {
    if i > 0 {
      AllBefore(t, e, ms, hops, i - 1);
      assert ms[..i][..i - 1] == ms[..i - 1];
    }
  }

  /** A larger budget changes nothing once the conversion has come to an end. */
  lemma {:induction false} MoreHops(t: Links, e: Id, yt: YangType, hops: nat, more: nat)
    requires e < |t| && hops <= more && Convert(t, e, yt, hops) != Running
    ensures Convert(t, e, yt, more) == Convert(t, e, yt, hops)
    decreases hops, yt
  {
    hide Target;
    match yt {
      case Builtin(_) =>
      case Union(ms) => MoreHopsAll(t, e, ms, hops, more);
      case Leafref(p) =>
        var b := Target(t, e, p);
        if b.Found? { MoreHops(t, b.node, TypeOf(t, b.node), hops - 1, more - 1); }
    }
  }

  lemma {:induction false} MoreHopsAll(t: Links, e: Id, ms: seq<YangType>, hops: nat, more: nat)
    requires e < |t| && hops <= more && ConvertAll(t, e, ms, hops) != Stopped(Running)
    ensures ConvertAll(t, e, ms, more) == ConvertAll(t, e, ms, hops)
    decreases hops, ms
  {
    hide Target;
    if ms != [] {
      MoreHopsAll(t, e, ms[..|ms| - 1], hops, more);
      if ConvertAll(t, e, ms[..|ms| - 1], hops).All? { MoreHops(t, e, ms[|ms| - 1], hops, more); }
    }
  }

  lemma {:induction false} DescribedIsDone(t: Links, e: Id, yt: YangType, v: LeafType) returns (hops: nat)
    requires e < |t| && Describes(t, e, yt, v)
    ensures Convert(t, e, yt, hops) == Done(v)
    decreases v, 1
  {
    hide Target;
    match yt {
      case Builtin(_) => hops := 0;
      case Union(ms) => hops := AllDone(t, e, ms, v, |ms|); assert ms[..|ms|] == ms && v.members[..|ms|] == v.members;
      case Leafref(p) =>
        var b := Target(t, e, p).node;
        hops := DescribedIsDone(t, b, TypeOf(t, b), v.target.value);
        hops := hops + 1;
    }
  }

  lemma {:induction false} AllDone(t: Links, e: Id, ms: seq<YangType>, v: LeafType, i: nat) returns (hops: nat)
    requires e < |t| && |v.members| == |ms| && i <= |ms| && forall j | 0 <= j < |ms| :: Describes(t, e, ms[j], v.members[j])
    ensures ConvertAll(t, e, ms[..i], hops) == All(v.members[..i])
    decreases v, 0, i
  {
    hide Target;
    if i == 0 {
      hops := 0;
    } else {
      var h1 := AllDone(t, e, ms, v, i - 1);
      var h2 := DescribedIsDone(t, e, ms[i - 1], v.members[i - 1]);
      hops := if h1 < h2 then h2 else h1;
      MoreHopsAll(t, e, ms[..i - 1], h1, hops);
      MoreHops(t, e, ms[i - 1], h2, hops);
      assert ms[..i][..i - 1] == ms[..i - 1];
      SliceNext(v.members, 0, i - 1);
    }
  }

  lemma {:induction false} DescribedIsResult(t: Links, e: Id, yt: YangType, v: LeafType, hops: nat)
    requires e < |t| && Describes(t, e, yt, v) && Convert(t, e, yt, hops) != Running
    ensures Convert(t, e, yt, hops) == Done(v)
  {
    var enough := DescribedIsDone(t, e, yt, v);
    var more := if hops < enough then enough else hops;
    MoreHops(t, e, yt, hops, more);
    MoreHops(t, e, yt, enough, more);
  }

  /** The conversion returns `v` exactly when `v` describes the type. */
  lemma {:induction false} ConvertExact(t: Links, e: Id, yt: YangType, v: LeafType)
    requires e < |t|
    ensures (exists hops :: Convert(t, e, yt, hops) == Done(v)) <==> Describes(t, e, yt, v)
  {
    if Describes(t, e, yt, v) {
      var hops := DescribedIsDone(t, e, yt, v);
    }
    forall hops | Convert(t, e, yt, hops) == Done(v) ensures Describes(t, e, yt, v) {
      DoneDescribes(t, e, yt, hops);
    }
  }

  /** `LeafrefTargetType` followed to its end. */
  function Follow(v: LeafType): LeafType {
    if v.target.Some? then Follow(v.target.value) else v
  }

  /** The leaf and type at which the leafrefs themselves end. */
  ghost function EndOf(t: Links, e: Id, yt: YangType, v: LeafType): (r: (Id, YangType))
    requires e < |t| && Describes(t, e, yt, v)
    ensures r.0 < |t|
    decreases v
  {
    if yt.Leafref? then
      var b := Target(t, e, yt.path).node;
      EndOf(t, b, TypeOf(t, b), v.target.value)
    else (e, yt)
  }

  /** Following `LeafrefTargetType` from any result ends at the type of the leaf at which the
      leafrefs end, and that type is no leafref. */
  lemma {:induction false} FollowEnds(t: Links, e: Id, yt: YangType, v: LeafType)
    requires e < |t| && Describes(t, e, yt, v)
    ensures var (a, end) := EndOf(t, e, yt, v);
            !end.Leafref? && Describes(t, a, end, Follow(v)) && Follow(v).kind != LeafrefKind && Follow(v).target == None
    decreases v
  {
    hide Target;
    if yt.Leafref? {
      var b := Target(t, e, yt.path).node;
      FollowEnds(t, b, TypeOf(t, b), v.target.value);
    }
  }

  // ----- termination

  ghost predicate Terminates(t: Links, e: Id, yt: YangType)
    requires e < |t|
  {
    exists hops :: Convert(t, e, yt, hops) != Running
  }

  ghost predicate PartOf(part: YangType, yt: YangType) {
    forall p | HasLeafref(part, p) :: HasLeafref(yt, p)
  }

  lemma {:induction false} ChainGrows(t: Links, es: seq<Id>, b: Id, p: string)
    requires Chain(t, es) && NoDup(es) && !Circular(t, es[0])
    requires es[|es| - 1] < |t| && t[es[|es| - 1]].ltype.Some? && HasLeafref(TypeOf(t, es[|es| - 1]), p)
    requires Target(t, es[|es| - 1], p) == Found(b)
    ensures Chain(t, es + [b]) && NoDup(es + [b]) && (es + [b])[0] == es[0]
  {
    hide Target;
    var longer := es + [b];
    assert RefersTo(t, es[|es| - 1], b);
    forall i | 0 <= i < |longer| - 1 ensures RefersTo(t, longer[i], longer[i + 1]) {
      if i < |es| - 1 { assert RefersTo(t, es[i], es[i + 1]); }
    }
    assert longer[..|es|] == es;
    assert !Lasso(t, longer);
    NoDupConcat(es, [b]);
  }

  /** Following a chain without repetition, at most as many hops are left as there are leaves
      not yet visited. */
  lemma {:induction false} SimpleChainTerminates(t: Links, es: seq<Id>, yt: YangType)
    requires Chain(t, es) && NoDup(es) && !Circular(t, es[0])
    requires (forall i | 0 <= i < |es| :: es[i] < |t|) && t[es[|es| - 1]].ltype.Some?
    requires PartOf(yt, TypeOf(t, es[|es| - 1]))
    ensures |es| <= |t|
    ensures Convert(t, es[|es| - 1], yt, |t| - |es|) != Running
    decreases |t| - |es|, yt
  {
    hide Target;
    InTreeCount(es, |t|);
    var e := es[|es| - 1];
    match yt {
      case Builtin(_) =>
      case Union(ms) =>
        PartsOfUnion(t, e, ms);
        MembersTerminate(t, es, ms);
      case Leafref(p) =>
        var b := Target(t, e, p);
        if b.Found? {
          assert HasLeafref(yt, p);
          ChainGrows(t, es, b.node, p);
          InTreeCount(es + [b.node], |t|);
          SimpleChainTerminates(t, es + [b.node], TypeOf(t, b.node));
        }
    }
  }

  lemma {:induction false} MembersTerminate(t: Links, es: seq<Id>, ms: seq<YangType>)
    requires Chain(t, es) && NoDup(es) && !Circular(t, es[0])
    requires (forall i | 0 <= i < |es| :: es[i] < |t|) && t[es[|es| - 1]].ltype.Some?
    requires forall m | m in ms :: PartOf(m, TypeOf(t, es[|es| - 1]))
    requires |es| <= |t|
    ensures ConvertAll(t, es[|es| - 1], ms, |t| - |es|) != Stopped(Running)
    decreases |t| - |es|, ms
  {
    hide Target;
    if ms != [] {
      var e := es[|es| - 1];
      assert PartOf(ms[|ms| - 1], TypeOf(t, e)) by { assert ms[|ms| - 1] in ms; }
      forall m | m in ms[..|ms| - 1] ensures PartOf(m, TypeOf(t, e)) { assert m in ms; }
      MembersTerminate(t, es, ms[..|ms| - 1]);
      SimpleChainTerminates(t, es, ms[|ms| - 1]);
    }
  }

  lemma {:induction false} InTreeCount(es: seq<Id>, n: nat)
    requires NoDup(es) && forall i | 0 <= i < |es| :: es[i] < n
    ensures |es| <= n
  {
    DistinctCount(es);
    var all := IdsBelow(n);
    assert Elements(es) <= all;
    SubsetSize(Elements(es), all);
  }

  ghost function IdsBelow(n: nat): (s: set<Id>)
    ensures |s| == n && forall i: Id :: i in s <==> i < n
  {
    if n == 0 then {} else IdsBelow(n - 1) + {n - 1}
  }

  /** Every leafref of the schema leads to a leaf or leaf-list. */
  ghost predicate LeafrefsResolve(t: Links) {
    forall e: Id, p | e < |t| && t[e].ltype.Some? && HasLeafref(TypeOf(t, e), p) :: Target(t, e, p).Found?
  }

  /** When all leafrefs lead somewhere, a finished conversion has succeeded, and has converted
      every leaf it refers to within one hop less. */
  lemma {:induction false} AllHopsDone(t: Links, e: Id, yt: YangType, hops: nat, p: string)
    requires LeafrefsResolve(t) && e < |t| && t[e].ltype.Some? && PartOf(yt, TypeOf(t, e))
    requires Convert(t, e, yt, hops) != Running
    ensures Convert(t, e, yt, hops).Done?
    ensures HasLeafref(yt, p) ==>
              Target(t, e, p).Found? && hops > 0 &&
              Convert(t, Target(t, e, p).node, TypeOf(t, Target(t, e, p).node), hops - 1) != Running
    decreases hops, yt
  {
    hide Target;
    match yt {
      case Builtin(_) =>
      case Union(ms) =>
        PartsOfUnion(t, e, ms);
        AllMembersDone(t, e, ms, hops, p);
        assert forall i | 0 <= i < |ms| :: ms[i] in ms;
      case Leafref(q) =>
        assert HasLeafref(yt, q);
        var b := Target(t, e, q).node;
        AllHopsDone(t, b, TypeOf(t, b), hops - 1, p);
    }
  }

  lemma {:induction false} PartsOfUnion(t: Links, e: Id, ms: seq<YangType>)
    requires e < |t| && t[e].ltype.Some? && PartOf(Union(ms), TypeOf(t, e))
    ensures forall m | m in ms :: PartOf(m, TypeOf(t, e))
  {
    forall m, p | m in ms && HasLeafref(m, p) ensures HasLeafref(TypeOf(t, e), p) {
      assert HasLeafref(Union(ms), p);
    }
  }

  lemma {:induction false} AllMembersDone(t: Links, e: Id, ms: seq<YangType>, hops: nat, p: string)
    requires LeafrefsResolve(t) && e < |t| && t[e].ltype.Some? && forall m | m in ms :: PartOf(m, TypeOf(t, e))
    requires ConvertAll(t, e, ms, hops) != Stopped(Running)
    ensures ConvertAll(t, e, ms, hops).All?
    ensures forall m | m in ms :: HasLeafref(m, p) ==>
              Target(t, e, p).Found? && hops > 0 &&
              Convert(t, Target(t, e, p).node, TypeOf(t, Target(t, e, p).node), hops - 1) != Running
    decreases hops, ms
  {
    hide Target;
    if ms != [] {
      AllMembersDone(t, e, ms[..|ms| - 1], hops, p);
      AllHopsDone(t, e, ms[|ms| - 1], hops, p);
    }
  }

  /** Along a chain the budget goes down by one with every leafref. */
  lemma {:induction false} ChainUsesHops(t: Links, es: seq<Id>, hops: nat)
    requires LeafrefsResolve(t) && Chain(t, es) && es[0] < |t| && t[es[0]].ltype.Some?
    requires Convert(t, es[0], TypeOf(t, es[0]), hops) != Running
    ensures |es| - 1 <= hops
    ensures es[|es| - 1] < |t| && t[es[|es| - 1]].ltype.Some?
    ensures Convert(t, es[|es| - 1], TypeOf(t, es[|es| - 1]), hops - (|es| - 1)) != Running
    decreases |es|
  {
    hide Target;
    if |es| > 1 {
      assert RefersTo(t, es[0], es[1]);
      var p :| HasLeafref(TypeOf(t, es[0]), p) && Target(t, es[0], p) == Found(es[1]);
      AllHopsDone(t, es[0], TypeOf(t, es[0]), hops, p);
      forall i | 0 <= i < |es[1..]| - 1 ensures RefersTo(t, es[1..][i], es[1..][i + 1]) {
        assert RefersTo(t, es[i + 1], es[i + 2]);
      }
      ChainUsesHops(t, es[1..], hops - 1);
    }
  }

  lemma {:induction false} NoLoop(t: Links, loop: seq<Id>, hops: nat)
    requires LeafrefsResolve(t) && Chain(t, loop) && |loop| > 1 && loop[0] == loop[|loop| - 1]
    requires loop[0] < |t| && t[loop[0]].ltype.Some?
    ensures Convert(t, loop[0], TypeOf(t, loop[0]), hops) == Running
    decreases hops
  {
    if Convert(t, loop[0], TypeOf(t, loop[0]), hops) != Running {
      ChainUsesHops(t, loop, hops);
      NoLoop(t, loop, hops - (|loop| - 1));
    }
  }

  /** When every leafref resolves, the conversion of a leaf's type comes to an end exactly when
      no chain of leafrefs from that leaf is circular, and then it succeeds. */
  lemma {:induction false} TerminatesExactly(t: Links, e: Id)
    requires e < |t| && t[e].ltype.Some? && LeafrefsResolve(t)
    ensures Terminates(t, e, TypeOf(t, e)) <==> !Circular(t, e)
    ensures Terminates(t, e, TypeOf(t, e)) <==> exists v :: Describes(t, e, TypeOf(t, e), v)
  {
    hide Target;
    if !Circular(t, e) { AcyclicTerminates(t, e); }
    if Terminates(t, e, TypeOf(t, e)) {
      var hops: nat :| Convert(t, e, TypeOf(t, e), hops) != Running;
      AllHopsDone(t, e, TypeOf(t, e), hops, "");
      DoneDescribes(t, e, TypeOf(t, e), hops);
      assert Describes(t, e, TypeOf(t, e), Convert(t, e, TypeOf(t, e), hops).v);
      if es: seq<Id> :| Lasso(t, es) && es[0] == e { LassoRuns(t, es, hops); }
    }
    if v: LeafType :| Describes(t, e, TypeOf(t, e), v) {
      var hops := DescribedIsDone(t, e, TypeOf(t, e), v);
      assert Convert(t, e, TypeOf(t, e), hops) != Running;
    }
  }

  lemma {:induction false} LassoRuns(t: Links, es: seq<Id>, hops: nat)
    requires LeafrefsResolve(t) && Lasso(t, es) && es[0] < |t| && t[es[0]].ltype.Some?
    ensures Convert(t, es[0], TypeOf(t, es[0]), hops) == Running
  {
    hide Target;
    if Convert(t, es[0], TypeOf(t, es[0]), hops) != Running {
      var n := |es| - 1;
      var i :| 0 <= i < n && es[i] == es[n];
      ChainUsesHops(t, es[..i + 1], hops);
      var loop := es[i..];
      forall j | 0 <= j < |loop| - 1 ensures RefersTo(t, loop[j], loop[j + 1]) {
        assert RefersTo(t, es[i + j], es[i + j + 1]);
      }
      NoLoop(t, loop, hops - i);
    }
  }

  /** Without a circular chain the conversion ends, whether or not every leafref resolves. */
  lemma {:induction false} AcyclicTerminates(t: Links, e: Id)
    requires e < |t| && t[e].ltype.Some? && !Circular(t, e)
    ensures Convert(t, e, TypeOf(t, e), |t| - 1) != Running
  {
    assert Chain(t, [e]);
    SimpleChainTerminates(t, [e], TypeOf(t, e));
  }

  /** The type stored for a leaf: an accepted one describes the leaf's type. */
  method LeafTypeOf(t: Tree, e: Id) returns (r: Conversion)
    requires e < |t| && t[e].ltype.Some? && !Circular(t, e)
    ensures r != Running
    ensures r.Done? <==> exists v :: Describes(t, e, TypeOf(t, e), v)
    ensures r.Done? ==> Describes(t, e, TypeOf(t, e), r.v)
  {
    hide Target;
    AcyclicTerminates(t, e);
    if e > 0 { UpFacts(t, e); }
    r := ToSchemaType(t, e, t[e].ltype.value, |t| - 1);
    DoneDescribes(t, e, TypeOf(t, e), |t| - 1);
    if v: LeafType :| Describes(t, e, TypeOf(t, e), v) {
      DescribedIsResult(t, e, TypeOf(t, e), v, |t| - 1);
    }
    assert r.Done? ==> Describes(t, e, TypeOf(t, e), r.v);
  }

  /** The type of a leafref whose text has unbalanced brackets is looked up at the root, which has
      none. */
  lemma {:induction false} MalformedHasNoType(t: Links, e: Id, text: string, hops: nat)
    requires e < |t| && XPath.NUL !in text && !XPathScanners.Balanced(XPath.Slashed(text))
    requires forall o, rest :: !XPathExact.OriginAt(text, o, rest)
    ensures Convert(t, e, Leafref(text), hops) == Crashed
  {
    MalformedIsRoot(t, e, text);
  }
}
