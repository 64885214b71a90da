/** The annotation of leafref targets when a schema is built (`buildReferencesAnnotation`). */
module Annotation {
  import opened Wrappers
  import opened Text
  import opened YangTree
  import opened Navigation
  import opened References
  import opened Expand

  datatype BuildStatus = Built | Unresolved | NilParent

  predicate IsLeafref(t: Links, s: Id)
    requires s < |t|
  {
    t[s].ltype.Some? && t[s].ltype.value.Leafref?
  }

  /** The node that the leafref of `s` refers to. */
  ghost function TargetOf(t: Links, s: Id): Option<Id>
    requires s < |t| && IsLeafref(t, s)
  {
    match Normalized(t, s, t[s].ltype.value.path)
    case None => None
    case Some(pes) => Resolve(t, pes)
  }

  /** A configuration leafref at or below `e`. */
  ghost predicate InScope(t: Links, e: Id, s: Id) {
    s < |t| && InSubtree(t, e, s) && IsLeafref(t, s) && !IsState(t, s)
  }

  // ----- the name an entry is annotated under

  /** The full path of an entry, choice and case included (goyang's `Path`). */
  function FullPath(t: Links, e: Id): string
    requires e < |t|
    decreases e
  {
    if t[e].parent == None || e == 0 then "/" + t[e].name
    else UpFacts(t, e); FullPath(t, t[e].parent.value) + ("/" + t[e].name)
  }

  function RefKey(t: Links, e: Id): string
    requires e < |t|
  {
    "REF_" + FullPath(t, e)
  }

  lemma {:induction false} FullPathShape(t: Links, e: Id)
    requires e < |t|
    ensures '/' !in t[e].name
    ensures var above := if t[e].parent == None || e == 0 then "" else (UpFacts(t, e); FullPath(t, t[e].parent.value));
            FullPath(t, e) == above + ("/" + t[e].name)
    ensures FullPath(t, e) != ""
  {
    if e > 0 {
      UpFacts(t, e);
      IdentifierIsPlain(t[e].name);
    }
    assert "" + ("/" + t[e].name) == "/" + t[e].name;
  }

  /** Full paths identify entries. */
  lemma {:induction false} FullPathInjective(t: Links, a: Id, b: Id)
    requires 0 < a < |t| && 0 < b < |t| && FullPath(t, a) == FullPath(t, b)
    ensures a == b
    decreases a
  {
    FullPathShape(t, a);
    FullPathShape(t, b);
    UpFacts(t, a);
    UpFacts(t, b);
    var p := if t[a].parent == None then "" else FullPath(t, t[a].parent.value);
    var q := if t[b].parent == None then "" else FullPath(t, t[b].parent.value);
    LastSlash(p, t[a].name, q, t[b].name);
    SameParents(t, a, b);
    assert t[Up(t, a)].dir[t[a].name] == a && t[Up(t, b)].dir[t[b].name] == b;
  }

  lemma {:induction false} SameParents(t: Links, a: Id, b: Id)
    requires 0 < a < |t| && 0 < b < |t|
    requires Up(t, a) < a && Up(t, b) < b
    requires (if t[a].parent == None then "" else (UpFacts(t, a); FullPath(t, t[a].parent.value)))
          == (if t[b].parent == None then "" else (UpFacts(t, b); FullPath(t, t[b].parent.value)))
    ensures Up(t, a) == Up(t, b)
    decreases a, 0
  {
    UpFacts(t, a);
    UpFacts(t, b);
    if t[a].parent.Some? && t[b].parent.Some? {
      var x, y := Up(t, a), Up(t, b);
      if x > 0 && y > 0 {
        FullPathInjective(t, x, y);
      } else {
        RootPathDiffers(t, x);
        RootPathDiffers(t, y);
      }
    } else {
      if t[a].parent.Some? { FullPathShape(t, t[a].parent.value); }
      if t[b].parent.Some? { FullPathShape(t, t[b].parent.value); }
    }
  }

  lemma {:induction false} RootPathDiffers(t: Links, e: Id)
    requires e < |t|
    ensures FullPath(t, e) == FullPath(t, 0) <==> e == 0
  {
    FullPathShape(t, e);
    FullPathShape(t, 0);
    if e > 0 && FullPath(t, e) == FullPath(t, 0) {
      UpFacts(t, e);
      var p := if t[e].parent == None then "" else FullPath(t, t[e].parent.value);
      LastSlash(p, t[e].name, "", t[0].name);
    }
  }

  lemma {:induction false} RefKeyInjective(t: Links, a: Id, b: Id)
    requires 0 < a < |t| && 0 < b < |t| && RefKey(t, a) == RefKey(t, b)
    ensures a == b
  {
    assert RefKey(t, a)[4..] == FullPath(t, a) && RefKey(t, b)[4..] == FullPath(t, b);
    FullPathInjective(t, a, b);
  }

  // ----- annotations

  type Annotations = map<Id, map<string, Id>>

  /** Entry `r` carries a `REF_` annotation for the leafref `s`. */
  ghost predicate Refers(t: Links, ann: Annotations, r: Id, s: Id) {
    s < |t| && r in ann && RefKey(t, s) in ann[r] && ann[r][RefKey(t, s)] == s
  }

  /** Every annotation is filed under the path of the entry it holds. */
  ghost predicate Filed(t: Links, ann: Annotations) {
    forall r: Id, key | r in ann && key in ann[r] :: 0 < ann[r][key] < |t| && key == RefKey(t, ann[r][key])
  }

  /** `b` has the annotations of `a` and those of the leafrefs in `scope`, and no others. */
  ghost predicate Adds(t: Links, a: Annotations, b: Annotations, scope: set<Id>) {
    forall r: Id, s: Id :: Refers(t, b, r, s) <==> Refers(t, a, r, s) || (s in scope && s < |t| && IsLeafref(t, s) && TargetOf(t, s) == Some(r))
  }

  lemma {:induction false} AddsBoth(t: Links, a: Annotations, b: Annotations, c: Annotations, x: set<Id>, y: set<Id>)
    requires Adds(t, a, b, x) && Adds(t, b, c, y)
    ensures Adds(t, a, c, x + y)
  {
  }

  /** The leafrefs in scope below `e` that are not reached through one of `todo`. */
  ghost function Scope(t: Links, e: Id, todo: set<string>): set<Id>
    requires e < |t|
  {
    set s: Id | s < |t| && InScope(t, e, s) && (s == e || StepTo(t, e, s) !in todo)
  }

  ghost function WholeScope(t: Links, e: Id): set<Id> {
    set s: Id | s < |t| && InScope(t, e, s)
  }

  lemma {:induction false} ScopeNext(t: Links, e: Id, todo: set<string>, n: string)
    requires e < |t| && n in t[e].dir && t[e].dir[n] < |t|
    ensures Scope(t, e, todo - {n}) == Scope(t, e, todo) + WholeScope(t, t[e].dir[n])
  {
    forall s: Id | s < |t| ensures InSubtree(t, t[e].dir[n], s) <==> (InSubtree(t, e, s) && s != e && StepTo(t, e, s) == n) {
      StepToIs(t, e, n, s);
    }
  }

  lemma {:induction false} ScopeDone(t: Links, e: Id)
    requires e < |t|
    ensures Scope(t, e, {}) == WholeScope(t, e)
  {
  }

  lemma {:induction false} ScopeStart(t: Links, e: Id)
    requires e < |t|
    ensures Scope(t, e, t[e].dir.Keys) == if InScope(t, e, e) then {e} else {}
  {
    assert InSubtree(t, e, e);
  }

  lemma {:induction false} StateScope(t: Links, e: Id)
    requires e < |t| && IsState(t, e)
    ensures WholeScope(t, e) == {}
  {
    forall s: Id | s < |t| && InSubtree(t, e, s) ensures IsState(t, s) { StateInherited(t, e, s); }
  }

  /** All leafrefs of the set have a target. */
  ghost predicate Resolved(t: Links, scope: set<Id>) {
    forall s | s in scope && s < |t| && IsLeafref(t, s) :: TargetOf(t, s).Some?
  }

  // ----- building

  /** The schema tree together with the annotations written into its entries. */
  class AnnotatedTree {
    const t: Tree
    var annotation: Annotations

    constructor (t: Tree)
      ensures this.t == t && annotation == map[]
    {
      this.t, annotation := t, map[];
    }

    /** File leafref `s` under its target `r`. */
    method Annotate(r: Id, s: Id)
      requires Filed(t, annotation) && 0 < s < |t| && IsLeafref(t, s) && TargetOf(t, s) == Some(r)
      modifies this`annotation
      ensures Filed(t, annotation) && Adds(t, old(annotation), annotation, {s})
    {
      hide FullPath, TargetOf;
      var here: map<string, Id> := if r in annotation then annotation[r] else map[];
      var key := RefKey(t, s);
      ghost var before := annotation;
      annotation := annotation[r := here[key := s]];
      forall r': Id, s': Id ensures Refers(t, annotation, r', s') <==> Refers(t, before, r', s') || (s' == s && r' == r) {
        if s' < |t| && RefKey(t, s') == key && s' > 0 { RefKeyInjective(t, s', s); }
        if Refers(t, before, r', s') { assert before[r'][RefKey(t, s')] > 0; }
      }
    }

    /** The leafref branch of `buildReferences`. */
    method AnnotateLeafref(e: Id) returns (st: BuildStatus)
      requires Filed(t, annotation) && e < |t| && IsLeafref(t, e)
      modifies this`annotation
      ensures Filed(t, annotation)
      ensures st == Built <==> TargetOf(t, e).Some?
      ensures st == Built ==> Adds(t, old(annotation), annotation, {e})
    {
      assert e > 0 && IsData(t, e) by { if e > 0 { assert NodeOk(t, e); } }
      var pes := NormalizePath(t, e, t[e].ltype.value.path);
      if pes.None? { return NilParent; }
      var target := GetEntry(t, pes.value);
      if target.None? { return Unresolved; }
      Annotate(target.value, e);
      st := Built;
    }

    /** `buildReferences` for all entries in the `Dir` of a choice or case. */
    method BuildInside(e: Id) returns (st: BuildStatus)
      requires Filed(t, annotation) && e < |t| && !IsData(t, e)
      modifies this`annotation
      ensures Filed(t, annotation)
      ensures st == Built ==> Resolved(t, WholeScope(t, e)) && Adds(t, old(annotation), annotation, WholeScope(t, e))
      ensures st != Built ==> !Resolved(t, WholeScope(t, e))
      decreases |t| - e, 0
    {
      var todo := t[e].dir.Keys;
      ScopeStart(t, e);
      FlatHasNoType(t, e);
      while todo != {}
        invariant todo <= t[e].dir.Keys && Filed(t, annotation)
        invariant Resolved(t, Scope(t, e, todo)) && Adds(t, old(annotation), annotation, Scope(t, e, todo))
      {
        var n :| n in todo;
        DirFacts(t, e, n);
        ScopeNext(t, e, todo, n);
        ScopePart(t, e, n);
        ghost var before := annotation;
        st := BuildReferences(t[e].dir[n]);
        if st != Built { return; }
        AddsBoth(t, old(annotation), before, annotation, Scope(t, e, todo), WholeScope(t, t[e].dir[n]));
        todo := todo - {n};
      }
      ScopeDone(t, e);
      st := Built;
    }

    /** `buildReferences`: entries inside a choice or case are visited once on their own and
        again through it, and state subtrees are left out. */
    method BuildReferences(e: Id) returns (st: BuildStatus)
      requires Filed(t, annotation) && e < |t|
      modifies this`annotation
      ensures Filed(t, annotation)
      ensures st == Built ==> Resolved(t, WholeScope(t, e)) && Adds(t, old(annotation), annotation, WholeScope(t, e))
      ensures st != Built ==> !Resolved(t, WholeScope(t, e))
      decreases |t| - e, 1
    {
      if IsState(t, e) {
        StateScope(t, e);
        return Built;
      }
      var todo := t[e].dir.Keys;
      ScopeStart(t, e);
      if t[e].ltype.Some? && t[e].ltype.value.Leafref? {
        assert InScope(t, e, e);
        st := AnnotateLeafref(e);
        if st != Built {
          assert e in WholeScope(t, e);
          return;
        }
      }
      while todo != {}
        invariant todo <= t[e].dir.Keys && Filed(t, annotation)
        invariant Resolved(t, Scope(t, e, todo)) && Adds(t, old(annotation), annotation, Scope(t, e, todo))
      {
        var n :| n in todo;
        var ce := t[e].dir[n];
        DirFacts(t, e, n);
        ScopeNext(t, e, todo, n);
        ScopePart(t, e, n);
        ghost var before := annotation;
        if t[ce].kind.IsFlat() {
          st := BuildInside(ce);
          if st != Built { return; }
          AddsBoth(t, old(annotation), before, annotation, Scope(t, e, todo), WholeScope(t, ce));
        } else {
          assert Adds(t, old(annotation), annotation, Scope(t, e, todo));
        }
        ghost var middle := annotation;
        st := BuildReferences(ce);
        if st != Built { return; }
        AddsBoth(t, before, middle, annotation, if t[ce].kind.IsFlat() then WholeScope(t, ce) else {}, WholeScope(t, ce));
        AddsBoth(t, old(annotation), before, annotation, Scope(t, e, todo),
                 (if t[ce].kind.IsFlat() then WholeScope(t, ce) else {}) + WholeScope(t, ce));
        assert (if t[ce].kind.IsFlat() then WholeScope(t, ce) else {}) + WholeScope(t, ce) == WholeScope(t, ce);
        todo := todo - {n};
      }
      ScopeDone(t, e);
      st := Built;
    }

    /** `buildReferencesAnnotation`: when it returns without error, the annotations on each
        entry are exactly the configuration leafrefs whose path resolves to it; it fails
        exactly when some configuration leafref has no target. */
    method BuildAll() returns (st: BuildStatus)
      requires annotation == map[]
      modifies this`annotation
      ensures Filed(t, annotation)
      ensures st == Built <==> forall s: Id | s < |t| && IsLeafref(t, s) && !UnderConfigFalse(t, s) :: TargetOf(t, s).Some?
      ensures st == Built ==>
                forall r: Id, s: Id :: Refers(t, annotation, r, s) <==>
                               s < |t| && IsLeafref(t, s) && !UnderConfigFalse(t, s) && TargetOf(t, s) == Some(r)
    {
      forall s: Id | s < |t| ensures IsState(t, s) <==> UnderConfigFalse(t, s) { StateMeans(t, s); }
      var todo := t[0].dir.Keys;
      ScopeStart(t, 0);
      forall s: Id | s < |t| ensures InSubtree(t, 0, s) { AllBelowRoot(t, s); }
      while todo != {}
        invariant todo <= t[0].dir.Keys && Filed(t, annotation)
        invariant Resolved(t, Scope(t, 0, todo)) && Adds(t, map[], annotation, Scope(t, 0, todo))
      {
        var n :| n in todo;
        DirFacts(t, 0, n);
        ScopeNext(t, 0, todo, n);
        ScopePart(t, 0, n);
        ghost var before := annotation;
        st := BuildReferences(t[0].dir[n]);
        if st != Built {
          assert WholeScope(t, t[0].dir[n]) <= WholeScope(t, 0);
          return;
        }
        AddsBoth(t, map[], before, annotation, Scope(t, 0, todo), WholeScope(t, t[0].dir[n]));
        todo := todo - {n};
      }
      ScopeDone(t, 0);
      assert forall s: Id | s < |t| :: s in WholeScope(t, 0) <==> IsLeafref(t, s) && !IsState(t, s);
      assert forall r: Id, s: Id :: !Refers(t, map[], r, s);
      st := Built;
    }
  }

  lemma {:induction false} ScopePart(t: Links, e: Id, n: string)
    requires e < |t| && n in t[e].dir && t[e].dir[n] < |t|
    ensures WholeScope(t, t[e].dir[n]) <= WholeScope(t, e)
  {
    forall s: Id | s < |t| && InSubtree(t, t[e].dir[n], s) ensures InSubtree(t, e, s) { StepToIs(t, e, n, s); }
  }

  lemma {:induction false} FlatHasNoType(t: Links, e: Id)
    requires e < |t| && !IsData(t, e)
    ensures !IsLeafref(t, e)
  {
    if e > 0 { assert NodeOk(t, e); }
  }
}
