/** Walking the schema tree: flattened children, downward lookup, upward paths
    (`pkg/schema/object.go`, `pkg/schema/references.go` and `getEntryPath` of the store). */
module Navigation {
  import opened Wrappers
  import opened Text
  import opened ModuleOrder
  import opened YangTree

  // ----- children with choice and case flattened away

  /** Only choice and case nodes lie between `e` and its descendant `c`. */
  ghost predicate Under(t: Links, e: Id, c: Id)
    decreases c
  {
    0 < c < |t| &&
    (UpFacts(t, c);
     Up(t, c) == e || (!IsData(t, Up(t, c)) && Under(t, e, Up(t, c))))
  }

  ghost predicate Offers(t: Links, e: Id, c: Id)
  {
    Under(t, e, c) && IsData(t, c)
  }

  /** The entry of `e`'s own `Dir` through which `c` is reached. */
  ghost function WayTo(t: Links, e: Id, c: Id): string
    requires Under(t, e, c)
    decreases c
  {
    if Up(t, c) == e then t[c].name else UpFacts(t, c); WayTo(t, e, Up(t, c))
  }

  lemma {:induction false} UnderData(t: Links, e: Id, c: Id)
    requires e < |t| && IsData(t, e) && 0 < c < |t|
    ensures Under(t, e, c) <==> DataParent(t, c) == e
    decreases c
  {
    UpFacts(t, c);
    if !IsData(t, Up(t, c)) { UnderData(t, e, Up(t, c)); }
  }

  lemma {:induction false} UnderSameScope(t: Links, e: Id, c: Id)
    requires 0 < e < |t| && !IsData(t, e) && Under(t, e, c)
    ensures DataParent(t, c) == DataParent(t, e)
    decreases c
  {
    UpFacts(t, c);
    if Up(t, c) != e { UnderSameScope(t, e, Up(t, c)); }
  }

  lemma {:induction false} WayIsStep(t: Links, e: Id, n: string, c: Id)
    requires e < |t| && n in t[e].dir && 0 < c < |t|
    ensures t[e].dir[n] < |t|
    ensures (Under(t, e, c) && WayTo(t, e, c) == n)
       <==> (c == t[e].dir[n] || (!IsData(t, t[e].dir[n]) && Under(t, t[e].dir[n], c)))
    decreases c
  {
    DirFacts(t, e, n);
    UpFacts(t, c);
    var ee := t[e].dir[n];
    if Up(t, c) == e {
      // a child of `e` cannot lie below another child of `e`
      UnderOrder(t, ee, e);
    } else if !IsData(t, Up(t, c)) {
      WayIsStep(t, e, n, Up(t, c));
    }
  }

  lemma {:induction false} UnderOrder(t: Links, e: Id, c: Id)
    ensures Under(t, e, c) ==> e < c
    decreases c
  {
    if 0 < c < |t| {
      UpFacts(t, c);
      if Up(t, c) != e { UnderOrder(t, e, Up(t, c)); }
    }
  }

  /** Two flattened children of one entry with the same name are the same node. */
  lemma {:induction false} OfferedNamesUnique(t: Tree, e: Id, a: Id, b: Id)
    requires e < |t| && Offers(t, e, a) && Offers(t, e, b) && t[a].name == t[b].name
    ensures a == b
  {
    if IsData(t, e) {
      UnderData(t, e, a);
      UnderData(t, e, b);
    } else {
      UnderSameScope(t, e, a);
      UnderSameScope(t, e, b);
    }
    SameScope(t, a, b);
  }

  /** `getChildren`, for every order in which `Dir` may be walked. */
  method GetChildren(t: Links, e: Id) returns (rs: seq<Id>)
    requires e < |t|
    ensures NoDup(rs)
    ensures forall c :: c in rs <==> Offers(t, e, c)
    decreases |t| - e
  {
    rs := [];
    if t[e].kind.IsTerminal() {
      forall c ensures !Offers(t, e, c) { NothingUnderTerminal(t, e, c); }
      return;
    }
    var todo := t[e].dir.Keys;
    forall c | Offers(t, e, c) ensures WayTo(t, e, c) in todo { WayInDir(t, e, c); }
    while todo != {}
      invariant todo <= t[e].dir.Keys
      invariant NoDup(rs)
      invariant forall c :: c in rs <==> (Offers(t, e, c) && WayTo(t, e, c) !in todo)
    {
      var n :| n in todo;
      var ee := t[e].dir[n];
      DirFacts(t, e, n);
      forall c | 0 < c < |t|
        ensures (Under(t, e, c) && WayTo(t, e, c) == n)
                <==> (c == ee || (!IsData(t, ee) && Under(t, ee, c)))
      {
        WayIsStep(t, e, n, c);
      }
      if t[ee].kind.IsFlat() {
        var sub := GetChildren(t, ee);
        NoDupConcat(rs, sub);
        rs := rs + sub;
      } else {
        NoDupConcat(rs, [ee]);
        rs := rs + [ee];
      }
      todo := todo - {n};
    }
  }

  lemma {:induction false} NothingUnderTerminal(t: Links, e: Id, c: Id)
    requires e < |t| && t[e].kind.IsTerminal()
    ensures !Under(t, e, c)
    decreases c
  {
    if 0 < c < |t| {
      UpFacts(t, c);
      NothingUnderTerminal(t, e, Up(t, c));
      assert e > 0 ==> NodeOk(t, e);
    }
  }

  lemma {:induction false} WayInDir(t: Links, e: Id, c: Id)
    requires Under(t, e, c)
    ensures e < |t| && WayTo(t, e, c) in t[e].dir
    decreases c
  {
    UpFacts(t, c);
    if Up(t, c) != e { WayInDir(t, e, Up(t, c)); }
  }

  // ----- downward lookup

  ghost predicate HasChild(t: Links, e: Id, n: string, c: Id)
  {
    Offers(t, e, c) && t[c].name == n
  }

  ghost function Child(t: Links, e: Id, n: string): (r: Option<Id>)
    ensures r.Some? ==> HasChild(t, e, n, r.value)
    ensures r.None? ==> forall c :: !HasChild(t, e, n, c)
  {
    if exists c :: HasChild(t, e, n, c) then
      var c :| HasChild(t, e, n, c); Some(c)
    else None
  }

  lemma {:induction false} ChildIs(t: Tree, e: Id, n: string, c: Id)
    requires e < |t| && HasChild(t, e, n, c)
    ensures Child(t, e, n) == Some(c)
  {
    OfferedNamesUnique(t, e, c, Child(t, e, n).value);
  }

  /** Where a lookup that ends on a choice or case settles. */
  function Landing(t: RawTree, e: Id): Id
    requires e < |t|
  {
    if t[e].kind.IsFlat() && t[e].name in t[e].dir then t[e].dir[t[e].name] else e
  }

  /** The node reached from `e` by the names of `pe`, each below the previous one's data node. */
  ghost function Descend(t: Links, e: Id, pe: seq<string>): (r: Option<Id>)
    requires e < |t|
    ensures IsData(t, e) && r.Some? ==> r.value < |t| && IsData(t, r.value)
    decreases |pe|
  {
    if pe == [] then Some(Landing(t, e))
    else
      match Child(t, e, LocalName(pe[0]))
      case None => None
      case Some(c) => Descend(t, c, pe[1..])
  }

  /** `getEntry`: whatever the map order, the lookup finds exactly the named descendant. */
  method GetEntryFrom(t: Tree, e: Id, pe: seq<string>) returns (r: Option<Id>)
    requires e < |t|
    ensures r == Descend(t, e, pe)
    ensures pe == [] ==> r == Some(if (t[e].kind.Choice? || t[e].kind.Case?) && t[e].name in t[e].dir then t[e].dir[t[e].name] else e)
    decreases |pe|
  {
    if pe == [] {
      return Some(Landing(t, e));
    }
    var children := GetChildren(t, e);
    var name := LocalName(pe[0]);
    assert forall k | 0 <= k < |children| :: children[k] in children;
    for i := 0 to |children|
      invariant forall k | 0 <= k < i :: children[k] < |t| && t[children[k]].name != name
    {
      if t[children[i]].name == name {
        ChildIs(t, e, name, children[i]);
        r := GetEntryFrom(t, children[i], pe[1..]);
        return;
      }
    }
    forall c ensures !HasChild(t, e, name, c) {
      if Offers(t, e, c) { assert c in children; }
    }
    r := None;
  }

  lemma {:induction false} DescendAppend(t: Links, e: Id, a: seq<string>, b: seq<string>)
    requires e < |t| && IsData(t, e)
    ensures Descend(t, e, a + b) ==
            match Descend(t, e, a) case None => None case Some(x) => Descend(t, x, b)
    decreases |a|
  {
    if a == [] {
      assert a + b == b;
    } else {
      assert (a + b)[1..] == a[1..] + b;
      var c := Child(t, e, LocalName(a[0]));
      if c.Some? { DescendAppend(t, c.value, a[1..], b); }
    }
  }

  // ----- the whole schema

  predicate PrefixFits(t: RawTree, item: string, c: Id)
    requires c < |t|
  {
    ':' !in item || t[c].prefix == item[..IndexOf(item, ':')]
  }

  ghost predicate IsCandidate(t: Links, item: string, m: string)
  {
    && m in t[0].dir
    && LocalName(item) in (DirFacts(t, 0, m); t[t[0].dir[m]].dir)
    && PrefixFits(t, item, (DirFacts(t, t[0].dir[m], LocalName(item)); t[t[0].dir[m]].dir[LocalName(item)]))
  }

  /** The modules a lookup whose first item is `item` may start in. */
  ghost function Candidates(t: Links, item: string): set<string>
  {
    var path := LocalName(item);
    if path in t[0].dir && PrefixFits(t, item, (DirFacts(t, 0, path); t[0].dir[path])) then {path}
    else set m | m in t[0].dir && IsCandidate(t, item, m)
  }

  lemma {:induction false} CandidatesAreModules(t: Links, item: string)
    ensures Candidates(t, item) <= t[0].dir.Keys
    ensures forall m | m in t[0].dir :: 0 < t[0].dir[m] < |t| && t[t[0].dir[m]].name == m
                                        && t[t[0].dir[m]].kind.Container? && Up(t, t[0].dir[m]) == 0
  {
    forall m | m in t[0].dir
      ensures 0 < t[0].dir[m] < |t| && t[t[0].dir[m]].name == m
              && t[t[0].dir[m]].kind.Container? && Up(t, t[0].dir[m]) == 0
    {
      DirFacts(t, 0, m);
    }
  }

  /** `FindPossibleModulesForPathElement` at the root: the candidates, best first. */
  method FindPossibleModules(t: Links, item: string) returns (mods: seq<string>)
    ensures Sorted(ModLess, mods) && NoDup(mods)
    ensures forall m :: m in mods <==> m in Candidates(t, item)
  {
    ModLessStrictTotal();
    CandidatesAreModules(t, item);
    var path := LocalName(item);
    if path in t[0].dir && PrefixFits(t, item, t[0].dir[path]) {
      return [path];
    }
    var entries: seq<string> := [];
    var todo := t[0].dir.Keys;
    while todo != {}
      invariant todo <= t[0].dir.Keys
      invariant NoDup(entries)
      invariant forall m :: m in entries <==> (m !in todo && m in Candidates(t, item))
    {
      var m :| m in todo;
      var dir := t[t[0].dir[m]].dir;
      if path in dir {
        DirFacts(t, t[0].dir[m], path);
        if PrefixFits(t, item, dir[path]) { entries := entries + [m]; }
      }
      todo := todo - {m};
    }
    mods := Sort(ModLess, entries);
    SortSorts(ModLess, entries);
    SameMembers(mods, entries);
    SortKeepsDistinct(entries);
  }

  lemma {:induction false} SortKeepsDistinct(s: seq<string>)
    requires NoDup(s)
    ensures NoDup(Sort(ModLess, s))
  {
    ModLessStrictTotal();
    var all := Elements(s);
    SortOfSet(ModLess, s, all);
    SortedSetSorted(ModLess, all);
  }

  /** The candidate modules in which the whole path resolves. */
  ghost function Hits(t: Links, mods: set<string>, pe: seq<string>): set<string>
    requires mods <= t[0].dir.Keys
  {
    CandidatesAreModules(t, "");
    set m | m in mods && Descend(t, t[0].dir[m], pe).Some?
  }

  /** The modules from which `GetEntry` may answer a path. */
  ghost function CandidateHits(t: Links, pe: seq<string>): set<string>
    requires pe != []
  {
    CandidatesAreModules(t, pe[0]);
    Hits(t, Candidates(t, pe[0]), pe)
  }

  /** What `GetEntry` means: the path in the best module that has it, or a lone module name. */
  ghost function Resolve(t: Links, pe: seq<string>): (r: Option<Id>)
  {
    if pe == [] then Some(0)
    else
      CandidatesAreModules(t, pe[0]);
      var mods := Candidates(t, pe[0]);
      var hits := Hits(t, mods, pe);
      if hits != {} then Descend(t, t[0].dir[Best(hits)], pe)
      else if |pe| == 1 && mods == {pe[0]} then Some(t[0].dir[pe[0]])
      else None
  }

  /** `GetEntry`: its answer does not depend on how any map is walked. */
  method GetEntry(t: Tree, pe: seq<string>) returns (r: Option<Id>)
    ensures r == Resolve(t, pe)
    ensures pe == [] ==> r == Some(0)
  {
    if pe == [] { return Some(0); }
    CandidatesAreModules(t, pe[0]);
    hide Descend, Candidates, Linked, NamesUnique, Sorted;
    var mods := FindPossibleModules(t, pe[0]);
    ghost var hits := Hits(t, Candidates(t, pe[0]), pe);
    FirstHitIsLeast(mods, hits);
    for i := 0 to |mods|
      invariant forall k | 0 <= k < i :: mods[k] !in hits
    {
      assert mods[i] in mods;
      var e := GetEntryFrom(t, t[0].dir[mods[i]], pe);
      if e.Some? {
        assert FirstHit(mods, hits) == i;
        LeastUnique(mods[i], Best(hits), hits);
        return e;
      }
    }
    assert FirstHit(mods, hits) == |mods|;
    if Candidates(t, pe[0]) == {pe[0]} { OnlyOne(mods, pe[0]); }
    if |mods| == 1 && |pe| == 1 && mods[0] == pe[0] {
      assert Candidates(t, pe[0]) == {mods[0]};
      return Some(t[0].dir[mods[0]]);
    }
    r := None;
  }

  lemma {:induction false} OnlyOne(s: seq<string>, x: string)
    requires NoDup(s) && forall y :: y in s <==> y == x
    ensures s == [x]
  {
    NoDupMultiset(s, [x]);
    assert |s| == |multiset(s)| == 1;
    assert s == [s[0]] && s[0] in s;
  }

  // ----- upward paths

  /** The names of the data nodes from the module down to `e`. */
  ghost function PathOf(t: Links, e: Id): (p: seq<string>)
    requires e < |t|
    ensures p != [] && p[|p| - 1] == t[e].name
    decreases e
  {
    if e == 0 || (UpFacts(t, e); Up(t, e) == 0) then [t[e].name]
    else PathOf(t, DataParent(t, e)) + [t[e].name]
  }

  ghost function ModuleOf(t: Links, e: Id): (m: Id)
    requires 0 < e < |t|
    ensures 0 < m < |t| && Up(t, m) == 0 && IsData(t, m)
    decreases e
  {
    UpFacts(t, e);
    if Up(t, e) == 0 then e else ModuleOf(t, Up(t, e))
  }

  lemma {:induction false} DataParentKeepsModule(t: Links, e: Id)
    requires 0 < e < |t| && Up(t, e) != 0
    ensures DataParent(t, e) != 0 && ModuleOf(t, DataParent(t, e)) == ModuleOf(t, e)
    decreases e
  {
    UpFacts(t, e);
    if !IsData(t, Up(t, e)) {
      UpFacts(t, Up(t, e));
      DataParentKeepsModule(t, Up(t, e));
    }
  }

  function Reversed<T>(s: seq<T>): (r: seq<T>)
    ensures |r| == |s| && forall i | 0 <= i < |s| :: r[i] == s[|s| - 1 - i]
  {
    if s == [] then [] else Reversed(s[1..]) + [s[0]]
  }

  lemma {:induction false} ReversedLast<T>(s: seq<T>)
    requires s != []
    ensures Reversed(s) == [s[|s| - 1]] + Reversed(s[..|s| - 1])
  {
  }

  /** `reverse`, in place. */
  method Reverse(arr: array<string>)
    modifies arr
    ensures arr[..] == Reversed(old(arr[..]))
  {
    var n := arr.Length;
    for i := 0 to n / 2
      invariant forall k | 0 <= k < i :: arr[k] == old(arr[n - 1 - k]) && arr[n - 1 - k] == old(arr[k])
      invariant forall k | i <= k < n - i :: arr[k] == old(arr[k])
    {
      arr[i], arr[n - i - 1] := arr[n - i - 1], arr[i];
    }
  }

  /** Climbing from `e0` has reached the data node `at` and collected the names `rs` on the way. */
  ghost predicate Climbed(t: Links, e0: Id, at: Id, rs: seq<string>)
    requires e0 < |t| && at < |t|
  {
    rs != [] && rs[|rs| - 1] == t[at].name && PathOf(t, e0) == PathOf(t, at) + Reversed(rs[..|rs| - 1])
  }

  lemma {:induction false} ClimbOn(t: Links, e0: Id, at: Id, rs: seq<string>)
    requires e0 < |t| && 0 < at < |t| && Up(t, at) != 0 && Climbed(t, e0, at, rs)
    ensures Climbed(t, e0, DataParent(t, at), rs + [t[DataParent(t, at)].name])
  {
    var p := DataParent(t, at);
    SnocParts(rs, t[p].name);
    ReversedLast(rs);
    Assoc(PathOf(t, p), [t[at].name], Reversed(rs[..|rs| - 1]));
  }

  lemma {:induction false} ClimbDone(t: Links, e0: Id, at: Id, rs: seq<string>)
    requires e0 < |t| && at < |t| && (at == 0 || Up(t, at) == 0) && Climbed(t, e0, at, rs)
    ensures PathOf(t, e0) == Reversed(rs)
  {
    ReversedLast(rs);
  }

  method ReverseNames(names: seq<string>) returns (r: seq<string>)
    ensures r == Reversed(names)
  {
    var arr := new string[|names|](i requires 0 <= i < |names| => names[i]);
    assert arr[..] == names;
    Reverse(arr);
    r := arr[..];
  }

  /** The links a climbing loop reads at `e`, and what they say about being at the top. */
  lemma {:induction false} TopFacts(t: Links, e: Id)
    requires e < |t|
    ensures t[e].parent.Some? ==> e > 0 && t[e].parent.value == Up(t, e) < e
    ensures (t[e].parent == None || t[t[e].parent.value].name == ROOT_NAME) <==> (e == 0 || Up(t, e) == 0)
    ensures e > 0 && Up(t, e) > 0 && !IsData(t, Up(t, e)) ==> Up(t, Up(t, e)) > 0
  {
    if e > 0 {
      UpFacts(t, e);
      if Up(t, e) > 0 { UpFacts(t, Up(t, e)); }
    }
  }

  /** `getEntryPath`: climb to the module, skipping choice and case, then reverse. */
  method GetEntryPath(t: Links, e0: Id) returns (rs: seq<string>)
    requires e0 < |t|
    ensures rs == PathOf(t, e0)
  {
    var e := e0;
    rs := [t[e].name];
    while true
      invariant e < |t| && Climbed(t, e0, e, rs)
      decreases e
    {
      TopFacts(t, e);
      if t[e].parent == None || t[t[e].parent.value].name == ROOT_NAME { break; }
      ghost var at := e;
      while t[t[e].parent.value].kind.IsFlat()
        invariant 0 < e <= at && t[e].parent.Some? && t[e].parent.value == Up(t, e) < e && Up(t, e) > 0
        invariant DataParent(t, e) == DataParent(t, at)
        decreases e
      {
        TopFacts(t, e);
        e := t[e].parent.value;
        TopFacts(t, e);
      }
      ClimbOn(t, e0, at, rs);
      e := t[e].parent.value;
      rs := rs + [t[e].name];
    }
    ClimbDone(t, e0, e, rs);
    rs := ReverseNames(rs);
  }

  /** `getParent`: none for a module. */
  function GetParent(t: RawTree, e: Id): Option<Id>
    requires e < |t| && (t[e].parent.Some? ==> t[e].parent.value < |t|)
  {
    if t[e].parent.Some? && t[t[e].parent.value].name == ROOT_NAME then None else t[e].parent
  }

  /** The names of `buildPathUpFromEntry`: it climbs node by node instead of run by run. */
  method BuildPathUpFromEntry(t: Links, e: Id) returns (p: seq<string>)
    requires e < |t|
    ensures p == PathOf(t, e)
  {
    p := [t[e].name];
    var pce: Id := e;
    ghost var at: Id := e;
    while true
      invariant pce <= at < |t| && Climbed(t, e, at, p)
      invariant pce < at ==> 0 < pce && Up(t, pce) > 0 && Up(t, at) > 0 && !IsData(t, pce)
                             && DataParent(t, at) == DataParent(t, pce)
      decreases pce
    {
      TopFacts(t, pce);
      var up := GetParent(t, pce);
      if up.None? { break; }
      if t[up.value].kind.IsFlat() {
        pce := up.value;
        continue;
      }
      pce := up.value;
      ClimbOn(t, e, at, p);
      at := pce;
      p := p + [t[pce].name];
    }
    ClimbDone(t, e, at, p);
    p := ReverseNames(p);
  }

  // ----- up and down are inverse

  lemma {:induction false} ChildOfDataParent(t: Tree, e: Id)
    requires 0 < e < |t| && IsData(t, e)
    ensures Child(t, DataParent(t, e), t[e].name) == Some(e)
  {
    UnderData(t, DataParent(t, e), e);
    ChildIs(t, DataParent(t, e), t[e].name, e);
  }

  /** Descending the path that leads up to a node comes back to that node. */
  lemma {:induction false} UpThenDown(t: Tree, e: Id)
    requires 0 < e < |t| && IsData(t, e)
    ensures PathOf(t, e)[0] == t[ModuleOf(t, e)].name
    ensures Descend(t, ModuleOf(t, e), PathOf(t, e)[1..]) == Some(e)
    decreases e
  {
    UpFacts(t, e);
    if Up(t, e) != 0 {
      var p := DataParent(t, e);
      DataParentKeepsModule(t, e);
      UpThenDown(t, p);
      var m := ModuleOf(t, e);
      assert PathOf(t, e)[1..] == PathOf(t, p)[1..] + [t[e].name];
      DescendAppend(t, m, PathOf(t, p)[1..], [t[e].name]);
      ChildOfDataParent(t, e);
      IdentifierIsPlain(t[e].name);
      assert Descend(t, p, [t[e].name]) == Some(e);
    }
  }

  lemma {:induction false} ChildPath(t: Links, e: Id, c: Id)
    requires 0 < e < |t| && IsData(t, e) && Under(t, e, c)
    ensures PathOf(t, c) == PathOf(t, e) + [t[c].name] && ModuleOf(t, c) == ModuleOf(t, e)
  {
    UnderData(t, e, c);
    UpFacts(t, c);
    DataParentKeepsModule(t, c);
  }

  lemma {:induction false} StepDown(t: Links, e: Id, pe: seq<string>) returns (c: Id)
    requires 0 < e < |t| && IsData(t, e) && pe != [] && ':' !in pe[0]
    requires Descend(t, e, pe).Some?
    ensures 0 < c < |t| && IsData(t, c) && Descend(t, c, pe[1..]) == Descend(t, e, pe)
    ensures PathOf(t, c) == PathOf(t, e) + [pe[0]] && ModuleOf(t, c) == ModuleOf(t, e)
  {
    c := Child(t, e, LocalName(pe[0])).value;
    ChildPath(t, e, c);
  }

  /** A node found by descending from a module has exactly that path. */
  lemma {:induction false} DownThenUp(t: Links, e: Id, pe: seq<string>, x: Id)
    requires 0 < e < |t| && IsData(t, e)
    requires Descend(t, e, pe) == Some(x) && forall i | 0 <= i < |pe| :: ':' !in pe[i]
    ensures 0 < x < |t| && IsData(t, x) && PathOf(t, x) == PathOf(t, e) + pe
    ensures ModuleOf(t, x) == ModuleOf(t, e)
    decreases |pe|
  {
    if pe == [] {
      assert PathOf(t, e) + pe == PathOf(t, e);
    } else {
      var c := StepDown(t, e, pe);
      DownThenUp(t, c, pe[1..], x);
      Uncons(PathOf(t, e), pe);
    }
  }

  /** Up and down walks are inverse to each other. */
  lemma {:induction false} UpDownInverse(t: Tree, m: Id, pe: seq<string>, e: Id)
    requires 0 < m < |t| && Up(t, m) == 0
    requires 0 < e < |t| && IsData(t, e) && forall i | 0 <= i < |pe| :: ':' !in pe[i]
    ensures Descend(t, m, pe) == Some(e) <==> PathOf(t, e) == [t[m].name] + pe
  {
    UpFacts(t, m);
    if Descend(t, m, pe) == Some(e) {
      DownThenUp(t, m, pe, e);
    }
    if PathOf(t, e) == [t[m].name] + pe {
      UpThenDown(t, e);
      var m' := ModuleOf(t, e);
      UpFacts(t, m');
      assert m' == m;
      assert PathOf(t, e)[1..] == pe;
    }
  }

  /** No two data nodes have the same path. */
  lemma {:induction false} PathOfInjective(t: Tree, a: Id, b: Id)
    requires a < |t| && b < |t| && IsData(t, a) && IsData(t, b)
    requires PathOf(t, a) == PathOf(t, b)
    ensures a == b
  {
    if a == 0 || b == 0 {
      PathOfHead(t, a);
      PathOfHead(t, b);
    } else {
      UpThenDown(t, a);
      UpThenDown(t, b);
      var ma, mb := ModuleOf(t, a), ModuleOf(t, b);
      UpFacts(t, ma);
      UpFacts(t, mb);
      assert ma == mb;
    }
  }

  /** Descending stays in the module, whatever the names look like. */
  lemma {:induction false} DescendKeepsModule(t: Links, e: Id, pe: seq<string>)
    requires 0 < e < |t| && IsData(t, e) && Descend(t, e, pe).Some?
    ensures var x := Descend(t, e, pe).value;
            0 < x < |t| && ModuleOf(t, x) == ModuleOf(t, e) && e <= x && (pe != [] ==> e < x)
    decreases |pe|
  {
    if pe != [] {
      var c := Child(t, e, LocalName(pe[0])).value;
      ChildPath(t, e, c);
      UnderOrder(t, e, c);
      DescendKeepsModule(t, c, pe[1..]);
    }
  }

  lemma {:induction false} ModulesApart(t: Links, a: string, b: string, pe: seq<string>)
    requires a in t[0].dir && b in t[0].dir && a != b && pe != []
    ensures 0 < t[0].dir[a] < |t| && 0 < t[0].dir[b] < |t|
    ensures Descend(t, t[0].dir[a], pe).Some? ==>
              Descend(t, t[0].dir[a], pe) != Descend(t, t[0].dir[b], pe) && Descend(t, t[0].dir[a], pe) != Some(t[0].dir[b])
  {
    CandidatesAreModules(t, "");
    var x, y := t[0].dir[a], t[0].dir[b];
    if Descend(t, x, pe).Some? { DescendKeepsModule(t, x, pe); }
    if Descend(t, y, pe).Some? { DescendKeepsModule(t, y, pe); }
  }

  lemma {:induction false} NotModuleItself(t: Links, m: string, pe: seq<string>)
    requires m in t[0].dir && pe != []
    ensures 0 < t[0].dir[m] < |t| && Descend(t, t[0].dir[m], pe) != Some(t[0].dir[m])
  {
    CandidatesAreModules(t, "");
    if Descend(t, t[0].dir[m], pe).Some? { DescendKeepsModule(t, t[0].dir[m], pe); }
  }

  /** When `GetEntry` answers from a given module: a path that the module has is answered with
      the module's node exactly when the module is the best candidate that has the path; one it
      does not have is refused exactly when no candidate has it and it is no lone module name. */
  lemma {:induction false} ResolveInModule(t: Links, m: string, pe: seq<string>)
    requires m in t[0].dir && pe != []
    ensures t[0].dir[m] < |t|
    ensures var d, hits := t[0].dir[m], CandidateHits(t, pe);
            if Descend(t, d, pe).Some? then Resolve(t, pe) == Descend(t, d, pe) <==> IsLeast(ModLess, m, hits)
            else Resolve(t, pe) == None <==> hits == {} && !(|pe| == 1 && Candidates(t, pe[0]) == {pe[0]})
  {
    CandidatesAreModules(t, pe[0]);
    var d, mods := t[0].dir[m], Candidates(t, pe[0]);
    var hits := CandidateHits(t, pe);
    if hits != {} {
      var b := Best(hits);
      if b != m {
        ModulesApart(t, m, b, pe);
        if IsLeast(ModLess, m, hits) { LeastUnique(m, b, hits); }
      }
    } else if |pe| == 1 && mods == {pe[0]} {
      assert pe[0] in t[0].dir;
      if pe[0] != m { ModulesApart(t, m, pe[0], pe); } else { NotModuleItself(t, m, pe); }
    }
  }

  lemma {:induction false} PathOfHead(t: Links, e: Id)
    requires e < |t|
    ensures PathOf(t, e)[0] == ROOT_NAME <==> e == 0
    decreases e
  {
    if e > 0 {
      UpFacts(t, e);
      if Up(t, e) != 0 {
        DataParentKeepsModule(t, e);
        PathOfHead(t, DataParent(t, e));
      }
    }
  }
}
