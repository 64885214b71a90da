/** Expanding a subtree into the paths of its leaves (`pkg/schema/expand.go`). */
module Expand {
  import opened Text
  import opened XPath
  import opened YangTree

  datatype DataType = ALL | CONFIG | STATE

  predicate Wanted(dt: DataType, isState: bool) {
    match dt
    case ALL => true
    case CONFIG => !isState
    case STATE => isState
  }

  /** What the data types select: configuration has no `config false` at or above it, state has. */
  ghost predicate OfType(t: Links, dt: DataType, l: Id)
    requires l < |t|
  {
    (dt == CONFIG ==> !UnderConfigFalse(t, l)) && (dt == STATE ==> UnderConfigFalse(t, l))
  }

  lemma {:induction false} WantedMeans(t: Links, dt: DataType, l: Id)
    requires l < |t|
    ensures Wanted(dt, IsState(t, l)) <==> OfType(t, dt, l)
  {
    StateMeans(t, l);
  }

  /** A leaf that is a key of the list it is in. */
  predicate IsKeyLeaf(t: Links, l: Id)
    requires 0 < l < |t|
  {
    UpFacts(t, l);
    t[l].name in t[Up(t, l)].keys
  }

  /** `e` itself if it is a leaf or leaf-list, and those below it that are not list keys. */
  ghost predicate IsTarget(t: Links, e: Id, dt: DataType, l: Id) {
    && 0 < l < |t| && InSubtree(t, e, l) && t[l].kind.IsTerminal() && (l == e || !IsKeyLeaf(t, l))
    && OfType(t, dt, l)
  }

  /** The path element of a node on the way: a list with all its keys wildcarded. */
  function StarElem(t: Links, e: Id): PathElem
    requires e < |t|
  {
    PathElem(t[e].name, if t[e].kind.List? then map k | k in t[e].keys :: "*" else map[])
  }

  /** The elements from below the data node `top` down to `l`. */
  ghost function PathBelow(t: Links, top: Id, l: Id): seq<PathElem>
    requires l < |t|
    decreases l
  {
    if l <= top || l == 0 then [] else PathBelow(t, top, DataParent(t, l)) + [StarElem(t, l)]
  }

  /** `rs` are the paths below `top` of the nodes `ids`, which are exactly the targets of `e`
      of data type `dt`, each once. */
  ghost predicate Expands(t: Links, top: Id, e: Id, dt: DataType, rs: seq<seq<PathElem>>, ids: seq<Id>) {
    && NoDup(ids) && (forall l :: l in ids <==> IsTarget(t, e, dt, l))
    && PathsOf(t, top, rs, ids)
  }

  ghost predicate PathsOf(t: Links, top: Id, rs: seq<seq<PathElem>>, ids: seq<Id>) {
    |rs| == |ids| && forall i | 0 <= i < |ids| :: ids[i] < |t| && rs[i] == PathBelow(t, top, ids[i])
  }

  lemma {:induction false} PathsConcat(t: Links, top: Id, rs: seq<seq<PathElem>>, ids: seq<Id>, rs': seq<seq<PathElem>>, ids': seq<Id>)
    requires PathsOf(t, top, rs, ids) && PathsOf(t, top, rs', ids')
    ensures PathsOf(t, top, rs + rs', ids + ids')
  {
  }

  lemma {:induction false} SubtreeStep(t: Links, e: Id, n: string, l: Id)
    requires e < |t| && n in t[e].dir && l < |t|
    ensures InSubtree(t, t[e].dir[n], l) ==> InSubtree(t, e, l) && l != e
  {
    if InSubtree(t, t[e].dir[n], l) {
      DirFacts(t, e, n);
      var c := t[e].dir[n];
      assert InSubtree(t, e, c) by { UpFacts(t, c); }
      SubtreeTransitive(t, e, c, l);
      SubtreeOrder(t, c, l);
    }
  }

  /** Everything below `e` other than `e` itself lies below one entry of its `Dir`. */
  ghost function StepTo(t: Links, e: Id, l: Id): (n: string)
    requires e < |t| && l < |t| && InSubtree(t, e, l) && l != e
    ensures n in t[e].dir && t[e].dir[n] < |t| && InSubtree(t, t[e].dir[n], l)
  {
    assert exists n :: n in t[e].dir && t[e].dir[n] < |t| && InSubtree(t, t[e].dir[n], l) by {
      var n := FirstStep(t, e, l);
      DirFacts(t, e, n);
    }
    var n :| n in t[e].dir && t[e].dir[n] < |t| && InSubtree(t, t[e].dir[n], l);
    n
  }

  lemma {:induction false} StepToIs(t: Links, e: Id, n: string, l: Id)
    requires e < |t| && l < |t| && n in t[e].dir && t[e].dir[n] < |t|
    ensures InSubtree(t, t[e].dir[n], l) <==> (InSubtree(t, e, l) && l != e && StepTo(t, e, l) == n)
  {
    SubtreeStep(t, e, n, l);
    if InSubtree(t, t[e].dir[n], l) { StepUnique(t, e, n, StepTo(t, e, l), l); }
  }

  /** Below a child, paths from the common data parent pass through the child. */
  lemma {:induction false} BelowThrough(t: Links, top: Id, c: Id, l: Id)
    requires 0 < c < |t| && IsData(t, c) && DataParent(t, c) == top && l < |t| && InSubtree(t, c, l)
    ensures PathBelow(t, top, l) == if l == c then [StarElem(t, c)]
                                else if IsData(t, l) then [StarElem(t, c)] + PathBelow(t, c, l) else PathBelow(t, top, l)
    decreases l
  {
    hide StarElem;
    SubtreeOrder(t, c, l);
    UpFacts(t, c);
    if l == c {
      assert PathBelow(t, top, top) == [];
      assert PathBelow(t, top, c) == PathBelow(t, top, DataParent(t, c)) + [StarElem(t, c)];
    } else {
      UpFacts(t, l);
      DataParentInSubtree(t, c, l);
      var p := DataParent(t, l);
      BelowThrough(t, top, c, p);
      if p == c {
        assert PathBelow(t, c, c) == [];
      }
      assert PathBelow(t, top, l) == PathBelow(t, top, p) + [StarElem(t, l)];
      assert PathBelow(t, c, l) == PathBelow(t, c, p) + [StarElem(t, l)];
      Assoc([StarElem(t, c)], PathBelow(t, c, p), [StarElem(t, l)]);
    }
  }

  lemma {:induction false} DataParentInSubtree(t: Links, c: Id, l: Id)
    requires c < |t| && IsData(t, c) && c < l < |t| && InSubtree(t, c, l)
    ensures InSubtree(t, c, DataParent(t, l)) && c <= DataParent(t, l)
    decreases l
  {
    UpFacts(t, l);
    SubtreeOrder(t, c, Up(t, l));
    if !IsData(t, Up(t, l)) { DataParentInSubtree(t, c, Up(t, l)); }
  }

  /** `getPathElems`: complete, without duplicates, for every order of walking the maps. */
  method GetPathElems(t: Links, e: Id, dt: DataType) returns (rs: seq<seq<PathElem>>, ghost ids: seq<Id>)
    requires 0 < e < |t|
    ensures Expands(t, DataParent(t, e), e, dt, rs, ids)
    ensures exists ids' :: Expands(t, DataParent(t, e), e, dt, rs, ids')
    decreases |t| - e
  {
    rs, ids := [], [];
    ghost var top := DataParent(t, e);
    UpFacts(t, e);
    if t[e].kind.IsTerminal() {
      OnlyItself(t, e);
      BelowThrough(t, top, e, e);
      StateMeans(t, e);
      assert !OfType(t, dt, e) ==> Expands(t, top, e, dt, [], []);
      if dt == CONFIG && IsState(t, e) { return; }
      if dt == STATE && !IsState(t, e) { return; }
      rs, ids := [[PathElem(t[e].name, map[])]], [e];
      assert Expands(t, top, e, dt, rs, ids);
      return;
    }
    var todo := t[e].dir.Keys;
    while todo != {}
      invariant todo <= t[e].dir.Keys
      invariant NoDup(ids) && PathsOf(t, top, rs, ids)
      invariant forall l :: l in ids <==> IsTarget(t, e, dt, l) && l != e && StepTo(t, e, l) !in todo
    {
      var n :| n in todo;
      var c := t[e].dir[n];
      DirFacts(t, e, n);
      forall l: Id | l < |t|
        ensures InSubtree(t, c, l) <==> (InSubtree(t, e, l) && l != e && StepTo(t, e, l) == n)
      {
        StepToIs(t, e, n, l);
      }
      if t[e].kind.List? && n in t[e].keys {
        KeyStandsAlone(t, c);
      } else {
        KeysOnlyInLists(t, e);
        assert forall l: Id :: IsTarget(t, c, dt, l) <==> IsTarget(t, e, dt, l) && l != e && StepTo(t, e, l) == n;
        var sub, subIds := GetPathElems(t, c, dt);
        NoDupConcat(ids, subIds);
        if t[e].kind.IsFlat() {
          assert DataParent(t, c) == top;
          PathsConcat(t, top, rs, ids, sub, subIds);
          rs := rs + sub;
        } else {
          var branches := seq(|sub|, i requires 0 <= i < |sub| => [StarElem(t, e)] + sub[i]);
          PrependPaths(t, e, dt, c, sub, subIds);
          PathsConcat(t, top, rs, ids, branches, subIds);
          rs := rs + branches;
        }
        ids := ids + subIds;
      }
      todo := todo - {n};
    }
    forall l ensures l in ids <==> IsTarget(t, e, dt, l) {
      assert IsTarget(t, e, dt, l) ==> l != e;
    }
    assert Expands(t, top, e, dt, rs, ids);
  }

  lemma {:induction false} PrependPaths(t: Links, e: Id, dt: DataType, c: Id, sub: seq<seq<PathElem>>, ids: seq<Id>)
    requires 0 < e < |t| && IsData(t, e) && 0 < c < |t| && Up(t, c) == e && Expands(t, e, c, dt, sub, ids)
    ensures PathsOf(t, DataParent(t, e), seq(|sub|, i requires 0 <= i < |sub| => [StarElem(t, e)] + sub[i]), ids)
  {
    forall i | 0 <= i < |ids| ensures PathBelow(t, DataParent(t, e), ids[i]) == [StarElem(t, e)] + sub[i] {
      assert ids[i] in ids;
      var l := ids[i];
      UpFacts(t, c);
      SubtreeStep(t, e, t[c].name, l);
      BelowThrough(t, DataParent(t, e), e, l);
    }
  }

  lemma {:induction false} OnlyItself(t: Links, e: Id)
    requires 0 < e < |t| && t[e].kind.IsTerminal()
    ensures forall l: Id | l < |t| :: InSubtree(t, e, l) <==> l == e
  {
    assert NodeOk(t, e);
    forall l: Id | l < |t| && InSubtree(t, e, l) ensures l == e {
      if l != e { var n := FirstStep(t, e, l); }
    }
  }

  lemma {:induction false} KeyStandsAlone(t: Links, c: Id)
    requires 0 < c < |t| && IsKeyLeaf(t, c)
    ensures forall l: Id | l < |t| :: InSubtree(t, c, l) <==> l == c
  {
    KeyIsLeaf(t, c);
    OnlyItself(t, c);
  }

  lemma {:induction false} KeyIsLeaf(t: Links, c: Id)
    requires 0 < c < |t| && IsKeyLeaf(t, c)
    ensures t[c].kind.Leaf?
  {
    UpFacts(t, c);
    if Up(t, c) != 0 { assert NodeOk(t, Up(t, c)); }
  }

  /** `Schema.ExpandPath` from the entry on: what is appended to the path.  The children of a
      container or list are expanded, keys left out; a leaf gives the path itself whatever the
      data type, a leaf-list nothing. */
  method ExpandEntry(t: Links, e: Id, dt: DataType) returns (rs: seq<seq<PathElem>>, ghost ids: seq<Id>)
    requires e < |t| && IsData(t, e)
    ensures t[e].kind.Leaf? ==> rs == [[]]
    ensures t[e].kind.LeafList? ==> rs == []
    ensures !t[e].kind.IsTerminal() ==> Expands(t, e, e, dt, rs, ids)
    ensures !t[e].kind.IsTerminal() ==> exists ids' :: Expands(t, e, e, dt, rs, ids')
  {
    rs, ids := [], [];
    if t[e].kind.Leaf? { return [[]], []; }
    if t[e].kind.LeafList? {
      assert NodeOk(t, e);
      assert t[e].dir.Keys == {};
      return;
    }
    var todo := t[e].dir.Keys;
    while todo != {}
      invariant todo <= t[e].dir.Keys
      invariant NoDup(ids) && PathsOf(t, e, rs, ids)
      invariant forall l :: l in ids <==> IsTarget(t, e, dt, l) && l != e && StepTo(t, e, l) !in todo
    {
      var n :| n in todo;
      var c := t[e].dir[n];
      DirFacts(t, e, n);
      forall l: Id | l < |t|
        ensures InSubtree(t, c, l) <==> (InSubtree(t, e, l) && l != e && StepTo(t, e, l) == n)
      {
        StepToIs(t, e, n, l);
      }
      if n in t[e].keys {
        KeyStandsAlone(t, c);
      } else {
        assert forall l: Id :: IsTarget(t, c, dt, l) <==> IsTarget(t, e, dt, l) && l != e && StepTo(t, e, l) == n;
        var sub, subIds := GetPathElems(t, c, dt);
        NoDupConcat(ids, subIds);
        PathsConcat(t, e, rs, ids, sub, subIds);
        rs, ids := rs + sub, ids + subIds;
      }
      todo := todo - {n};
    }
    forall l ensures l in ids <==> IsTarget(t, e, dt, l) {
      assert IsTarget(t, e, dt, l) ==> l != e;
    }
    assert Expands(t, e, e, dt, rs, ids);
  }

  // ----- what follows

  /** As multisets the paths of all data are those of configuration plus those of state. */
  lemma {:induction false} AllIsConfigPlusState(t: Links, top: Id, e: Id,
                              all: seq<seq<PathElem>>, allIds: seq<Id>,
                              cfg: seq<seq<PathElem>>, cfgIds: seq<Id>,
                              st: seq<seq<PathElem>>, stIds: seq<Id>)
    requires Expands(t, top, e, ALL, all, allIds)
    requires Expands(t, top, e, CONFIG, cfg, cfgIds) && Expands(t, top, e, STATE, st, stIds)
    ensures multiset(all) == multiset(cfg) + multiset(st)
  {
    NoDupConcat(cfgIds, stIds);
    PathsConcat(t, top, cfg, cfgIds, st, stIds);
    NoDupMultiset(allIds, cfgIds + stIds);
    SamePaths(t, top, all, allIds, cfg + st, cfgIds + stIds);
    assert multiset(cfg + st) == multiset(cfg) + multiset(st);
  }

  lemma {:induction false} RemovedSame<T>(a: seq<T>, i: nat, b: seq<T>, j: nat)
    requires i < |a| && j < |b| && a[i] == b[j]
    ensures multiset(a) == multiset(b) <==> multiset(Without(a, i)) == multiset(Without(b, j))
  {
    Removed(a, i);
    Removed(b, j);
    assert multiset(Without(a, i)) == multiset(a) - multiset{a[i]};
    assert multiset(Without(b, j)) == multiset(b) - multiset{b[j]};
  }

  /** Listing the same nodes in another order gives the same paths in another order. */
  lemma {:induction false} SamePaths(t: Links, top: Id, a: seq<seq<PathElem>>, ids: seq<Id>, b: seq<seq<PathElem>>, ids': seq<Id>)
    requires PathsOf(t, top, a, ids) && PathsOf(t, top, b, ids') && multiset(ids) == multiset(ids')
    ensures multiset(a) == multiset(b)
    decreases |ids|
  {
    SameMembers(ids, ids');
    if ids != [] {
      assert ids[0] in ids';
      var j :| 0 <= j < |ids'| && ids'[j] == ids[0];
      RemovedSame(ids, 0, ids', j);
      SamePaths(t, top, Without(a, 0), Without(ids, 0), Without(b, j), Without(ids', j));
      RemovedSame(a, 0, b, j);
    }
  }

  /** No two targets have the same path, so the result has no duplicates. */
  lemma {:induction false} ExpansionDistinct(t: Tree, top: Id, rs: seq<seq<PathElem>>, ids: seq<Id>)
    requires top < |t| && IsData(t, top) && PathsOf(t, top, rs, ids) && NoDup(ids)
    requires forall l | l in ids :: 0 < l < |t| && IsData(t, l) && l > top && InSubtree(t, top, l)
    ensures NoDup(rs)
  {
    forall i, j | 0 <= i < j < |rs| ensures rs[i] != rs[j] {
      assert ids[i] in ids && ids[j] in ids;
      if rs[i] == rs[j] { BelowInjective(t, top, ids[i], ids[j]); }
    }
  }

  lemma {:induction false} BelowInjective(t: Tree, top: Id, a: Id, b: Id)
    requires top < |t| && IsData(t, top) && a < |t| && b < |t| && IsData(t, a) && IsData(t, b)
    requires InSubtree(t, top, a) && InSubtree(t, top, b) && PathBelow(t, top, a) == PathBelow(t, top, b)
    ensures a == b
    decreases a
  {
    SubtreeOrder(t, top, a);
    SubtreeOrder(t, top, b);
    if a != top && b != top {
      var p, q := DataParent(t, a), DataParent(t, b);
      DataParentInSubtree(t, top, a);
      DataParentInSubtree(t, top, b);
      LastEqual(PathBelow(t, top, p), StarElem(t, a), PathBelow(t, top, q), StarElem(t, b));
      BelowInjective(t, top, p, q);
      assert Scoped(t, a) && Scoped(t, b);
      SameScope(t, a, b);
    }
  }

  lemma {:induction false} LastEqual<T>(a: seq<T>, x: T, b: seq<T>, y: T)
    requires a + [x] == b + [y]
    ensures a == b && x == y
  {
    assert a == (a + [x])[..|a|] && b == (b + [y])[..|b|];
    assert x == (a + [x])[|a|] && y == (b + [y])[|b|];
  }

  lemma {:induction false} InUpper(t: Links, p: Id, l: Id)
    requires 0 < l < |t| && DataParent(t, l) == p
    ensures InSubtree(t, p, l)
    decreases l
  {
    UpFacts(t, l);
    if !IsData(t, Up(t, l)) { InUpper(t, p, Up(t, l)); }
  }

  /** An element for entry `e` with all its keys set to a star if it is a list, without keys
      otherwise. */
  ghost predicate WithStars(t: Links, e: Id, pe: PathElem)
    requires e < |t|
  {
    && pe.name == t[e].name
    && (forall k :: k in pe.key <==> t[e].kind.List? && k in t[e].keys)
    && (forall k | k in pe.key :: pe.key[k] == "*")
  }

  /** Every element stands for a node on the way to the target, lists with all keys a star. */
  lemma {:induction false} KeysAreStars(t: Links, top: Id, l: Id, i: nat)
    requires top < |t| && IsData(t, top) && l < |t| && InSubtree(t, top, l) && i < |PathBelow(t, top, l)|
    ensures exists e: Id :: e < |t| && InSubtree(t, top, e) && InSubtree(t, e, l) && WithStars(t, e, PathBelow(t, top, l)[i])
    decreases l
  {
    var p := DataParent(t, l);
    if i < |PathBelow(t, top, p)| {
      DataParentInSubtree(t, top, l);
      KeysAreStars(t, top, p, i);
      var e: Id :| e < |t| && InSubtree(t, top, e) && InSubtree(t, e, p) && WithStars(t, e, PathBelow(t, top, p)[i]);
      InUpper(t, p, l);
      SubtreeTransitive(t, e, p, l);
      assert PathBelow(t, top, l)[i] == PathBelow(t, top, p)[i];
    } else {
      assert PathBelow(t, top, l)[i] == StarElem(t, l);
      assert InSubtree(t, l, l) && WithStars(t, l, StarElem(t, l));
    }
  }
}
