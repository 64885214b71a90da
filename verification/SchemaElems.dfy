/** The element stored for an entry: how `containerFromYEntry` classifies children. */
module SchemaElems {
  import opened Text
  import opened YangTree
  import opened Navigation

  datatype LeafInfo = LeafInfo(name: string, isState: bool, description: string)

  datatype SchemaElem =
    | ContainerElem(name: string, isState: bool, description: string,
                    keys: seq<LeafInfo>, fields: seq<LeafInfo>, leaflists: seq<LeafInfo>, children: seq<string>)
    | FieldElem(leaf: LeafInfo)
    | LeafListElem(leaf: LeafInfo)

  function Info(t: Links, c: Id): LeafInfo
    requires c < |t|
  {
    LeafInfo(t[c].name, IsState(t, c), t[c].description)
  }

  /** Leaves among the flattened children that are not keys. */
  ghost predicate IsField(t: Links, e: Id, c: Id)
    requires e < |t|
  {
    Offers(t, e, c) && t[c].kind.Leaf? && t[c].name !in t[e].keys
  }

  ghost predicate IsLeafListChild(t: Links, e: Id, c: Id) {
    Offers(t, e, c) && t[c].kind.LeafList?
  }

  ghost predicate IsDirChild(t: Links, e: Id, c: Id) {
    Offers(t, e, c) && !t[c].kind.IsTerminal()
  }

  ghost function DirChildNames(t: Links, e: Id): set<string> {
    set c: Id | c < |t| && IsDirChild(t, e, c) :: t[c].name
  }

  /** `infos` describes the nodes `ids`, which are exactly those of `s`, each once. */
  ghost predicate Listing(t: Links, infos: seq<LeafInfo>, ids: seq<Id>, s: iset<Id>) {
    && NoDup(ids) && (forall c :: c in ids <==> c in s)
    && |infos| == |ids|
    && forall i | 0 <= i < |ids| :: ids[i] < |t| && infos[i] == Info(t, ids[i])
  }

  ghost predicate Lists(t: Links, infos: seq<LeafInfo>, s: iset<Id>) {
    exists ids :: Listing(t, infos, ids, s)
  }

  ghost function KeyInfos(t: Links, e: Id): (r: seq<LeafInfo>)
    requires e < |t|
    ensures |r| == |t[e].keys|
  {
    if e == 0 then [] else
      assert NodeOk(t, e);
      seq(|t[e].keys|, i requires 0 <= i < |t[e].keys| => KeyInfo(t, e, t[e].keys[i]))
  }

  function KeyInfo(t: Links, e: Id, k: string): LeafInfo
    requires e < |t|
  {
    if k in t[e].dir then DirFacts(t, e, k); Info(t, t[e].dir[k]) else LeafInfo(k, false, "")
  }

  /** `v` describes entry `e`: keys in the order of the key statement, child names sorted,
      leaves and leaf-lists each once in whatever order the maps were walked. */
  ghost predicate IsElemOf(t: Links, e: Id, v: SchemaElem)
    requires e < |t|
  {
    match t[e].kind
    case Leaf => v == FieldElem(Info(t, e))
    case LeafList => v == LeafListElem(Info(t, e))
    case _ =>
      && v.ContainerElem?
      && v.name == t[e].name && v.isState == IsState(t, e) && v.description == t[e].description
      && v.keys == KeyInfos(t, e)
      && Lists(t, v.fields, iset c | IsField(t, e, c))
      && Lists(t, v.leaflists, iset c | IsLeafListChild(t, e, c))
      && v.children == (LexStrictTotal(); SortedSet(LexLess, DirChildNames(t, e)))
  }

  // ----- what an element says, field by field

  ghost predicate LeafSays(t: Links, c: Id, l: LeafInfo)
    requires c < |t|
  {
    l.name == t[c].name && (l.isState <==> UnderConfigFalse(t, c)) && l.description == t[c].description
  }

  /** `infos` lists exactly the leaves (or leaf-lists) whose nearest data ancestor is `e`, keys of
      `e` left out, each once. */
  ghost predicate LeavesOf(t: Links, e: Id, kind: Kind, infos: seq<LeafInfo>)
    requires e < |t|
  {
    exists ids: seq<Id> ::
      && NoDup(ids) && |ids| == |infos| && (forall i | 0 <= i < |ids| :: ids[i] < |t| && LeafSays(t, ids[i], infos[i]))
      && forall c: Id :: c in ids <==>
                         0 < c < |t| && DataParent(t, c) == e && t[c].kind == kind && !(kind.Leaf? && t[c].name in t[e].keys)
  }

  /** `keys` describes the key leaves of list `e` in the order of its key statement. */
  ghost predicate KeysOf(t: Links, e: Id, keys: seq<LeafInfo>)
    requires e < |t|
  {
    |keys| == |t[e].keys| &&
    forall i | 0 <= i < |keys| ::
      t[e].keys[i] in t[e].dir && t[e].dir[t[e].keys[i]] < |t| && LeafSays(t, t[e].dir[t[e].keys[i]], keys[i])
  }

  /** `c` is a container or list whose nearest data ancestor is `e`. */
  ghost predicate DirBelow(t: Links, e: Id, c: Id) {
    0 < c < |t| && DataParent(t, c) == e && (t[c].kind.Container? || t[c].kind.List?)
  }

  /** `names` are those of the containers and lists below `e`, in dictionary order, each once. */
  ghost predicate DirsOf(t: Links, e: Id, names: seq<string>) {
    && (forall i, j | 0 <= i < j < |names| :: Before(names[i], names[j]))
    && forall n :: n in names <==> exists c: Id :: DirBelow(t, e, c) && t[c].name == n
  }

  /** The element says about entry `e` what the schema says. */
  ghost predicate Says(t: Links, e: Id, v: SchemaElem)
    requires e < |t|
  {
    match v
    case FieldElem(l) => t[e].kind.Leaf? && LeafSays(t, e, l)
    case LeafListElem(l) => t[e].kind.LeafList? && LeafSays(t, e, l)
    case ContainerElem(name, isState, description, keys, fields, leaflists, children) =>
      && (t[e].kind.Container? || t[e].kind.List?)
      && name == t[e].name && (isState <==> UnderConfigFalse(t, e)) && description == t[e].description
      && KeysOf(t, e, keys) && LeavesOf(t, e, Leaf, fields) && LeavesOf(t, e, LeafList, leaflists)
      && DirsOf(t, e, children)
  }

  lemma {:induction false} InfoSays(t: Links, c: Id)
    requires c < |t|
    ensures LeafSays(t, c, Info(t, c))
  {
    StateMeans(t, c);
  }

  lemma {:induction false} OffersBelow(t: Links, e: Id, c: Id)
    requires e < |t| && IsData(t, e)
    ensures Offers(t, e, c) <==> 0 < c < |t| && DataParent(t, c) == e && IsData(t, c)
  {
    if 0 < c < |t| { UnderData(t, e, c); }
  }

  lemma {:induction false} ListsSay(t: Links, e: Id, infos: seq<LeafInfo>, kind: Kind)
    requires e < |t| && IsData(t, e) && (kind.Leaf? || kind.LeafList?)
    requires Lists(t, infos, if kind.Leaf? then iset c | IsField(t, e, c) else iset c | IsLeafListChild(t, e, c))
    ensures LeavesOf(t, e, kind, infos)
  {
    hide UnderConfigFalse, LeafSays, Info, Linked, Under, DataParent, Offers;
    var ids :| Listing(t, infos, ids, if kind.Leaf? then iset c | IsField(t, e, c) else iset c | IsLeafListChild(t, e, c));
    forall i | 0 <= i < |ids| ensures LeafSays(t, ids[i], infos[i]) { InfoSays(t, ids[i]); }
    forall c: Id ensures Offers(t, e, c) <==> 0 < c < |t| && DataParent(t, c) == e && IsData(t, c) { OffersBelow(t, e, c); }
  }

  lemma {:induction false} KeysSay(t: Links, e: Id)
    requires e < |t|
    ensures KeysOf(t, e, KeyInfos(t, e))
  {
    forall i | 0 <= i < |t[e].keys|
      ensures var k := t[e].keys[i];
              k in t[e].dir && t[e].dir[k] < |t| && LeafSays(t, t[e].dir[k], KeyInfos(t, e)[i])
    {
      assert t[e].keys[i] in t[e].keys;
      KeyIsChild(t, e, t[e].keys[i]);
      InfoSays(t, t[e].dir[t[e].keys[i]]);
    }
  }

  lemma {:induction false} ChildrenSay(t: Links, e: Id)
    requires e < |t| && IsData(t, e)
    ensures StrictTotal(LexLess) && DirsOf(t, e, SortedSet(LexLess, DirChildNames(t, e)))
  {
    Ascending(DirChildNames(t, e));
    hide Before, LexLess, SortedSet, Linked, Under, DataParent, StrictTotal, IsDirChild;
    forall c: Id ensures IsDirChild(t, e, c) <==> DirBelow(t, e, c) { DirChildBelow(t, e, c); }
  }

  lemma {:induction false} DirChildBelow(t: Links, e: Id, c: Id)
    requires e < |t| && IsData(t, e)
    ensures IsDirChild(t, e, c) <==> DirBelow(t, e, c)
  {
    OffersBelow(t, e, c);
  }

  /** The element of an entry says what the schema says about it, field by field. */
  lemma {:induction false} ElementSays(t: Links, e: Id, v: SchemaElem)
    requires e < |t| && IsData(t, e) && IsElemOf(t, e, v)
    ensures Says(t, e, v)
  {
    hide UnderConfigFalse, Lists, LeavesOf, KeysOf, DirsOf, SortedSet, StrictTotal, DirChildNames, KeyInfos, Linked;
    InfoSays(t, e);
    StateMeans(t, e);
    if v.ContainerElem? {
      ListsSay(t, e, v.fields, Leaf);
      ListsSay(t, e, v.leaflists, LeafList);
      ChildrenSay(t, e);
      KeysSay(t, e);
    }
  }

  // ----- the order of the key statement

  function PositionIn(keys: seq<string>, n: string): (i: nat)
    ensures i <= |keys| && (n in keys <==> i < |keys|) && (i < |keys| ==> keys[i] == n)
    ensures forall j | 0 <= j < i :: keys[j] != n
  {
    if keys == [] || keys[0] == n then 0 else
      var k := PositionIn(keys[1..], n);
      assert forall j | 1 <= j < 1 + k :: keys[j] == keys[1..][j - 1];
      1 + k
  }

  predicate KeyLess(keys: seq<string>, a: string, b: string) {
    PositionIn(keys, a) < PositionIn(keys, b) ||
    (PositionIn(keys, a) == PositionIn(keys, b) && LexLess(a, b))
  }

  function ByStatement(keys: seq<string>): Order {
    (a, b) => KeyLess(keys, a, b)
  }

  lemma {:induction false} ByStatementStrictTotal(keys: seq<string>)
    ensures StrictTotal(ByStatement(keys))
  {
    LexStrictTotal();
    var less := ByStatement(keys);
    forall a ensures !less(a, a) { assert !LexLess(a, a); }
    forall a, b | a != b ensures less(a, b) || less(b, a) { assert LexLess(a, b) || LexLess(b, a); }
    forall a, b, c | less(a, b) && less(b, c) ensures less(a, c) {
      assert LexLess(a, b) && LexLess(b, c) ==> LexLess(a, c);
    }
  }

  /** Sorting the key leaves by their place in the key statement restores the statement. */
  lemma {:induction false} KeySort(keys: seq<string>, found: seq<string>)
    requires NoDup(keys) && NoDup(found) && forall k :: k in found <==> k in keys
    ensures Sort(ByStatement(keys), found) == keys
  {
    var less := ByStatement(keys);
    ByStatementStrictTotal(keys);
    SortSorts(less, found);
    NoDupMultiset(found, keys);
    forall i, j | 0 <= i < j < |keys| ensures !less(keys[j], keys[i]) {
      PositionAt(keys, i);
      PositionAt(keys, j);
    }
    SortedUnique(less, Sort(less, found), keys);
  }

  lemma {:induction false} PositionAt(keys: seq<string>, i: nat)
    requires NoDup(keys) && i < |keys|
    ensures PositionIn(keys, keys[i]) == i
  {
  }

  // ----- building elements

  datatype Role = KeyRole | FieldRole | LeafListRole | DirRole

  function RoleOf(t: Links, e: Id, c: Id): Role
    requires e < |t| && c < |t|
  {
    match t[c].kind
    case Leaf => if t[c].name in t[e].keys then KeyRole else FieldRole
    case LeafList => LeafListRole
    case _ => DirRole
  }

  ghost predicate InRange(t: Links, cs: seq<Id>) {
    forall i | 0 <= i < |cs| :: cs[i] < |t|
  }

  /** The children of one role, in the order in which they came. */
  function Pick(t: Links, e: Id, cs: seq<Id>, r: Role): (ids: seq<Id>)
    requires e < |t| && InRange(t, cs)
    ensures InRange(t, ids)
  {
    if cs == [] then []
    else
      var c := cs[|cs| - 1];
      Pick(t, e, cs[..|cs| - 1], r) + if RoleOf(t, e, c) == r then [c] else []
  }

  lemma {:induction false} PickFacts(t: Links, e: Id, cs: seq<Id>, r: Role)
    requires e < |t| && NoDup(cs) && InRange(t, cs)
    ensures NoDup(Pick(t, e, cs, r))
    ensures forall c :: c in Pick(t, e, cs, r) <==> c in cs && RoleOf(t, e, c) == r
  {
    if cs != [] {
      var init, c := cs[..|cs| - 1], cs[|cs| - 1];
      PickFacts(t, e, init, r);
      assert c !in init;
      NoDupConcat(Pick(t, e, init, r), if RoleOf(t, e, c) == r then [c] else []);
      Unsnoc(cs);
    }
  }

  function NamesOf(t: Links, cs: seq<Id>): (ns: seq<string>)
    requires InRange(t, cs)
    ensures |ns| == |cs| && forall i | 0 <= i < |cs| :: ns[i] == t[cs[i]].name
  {
    seq(|cs|, i requires 0 <= i < |cs| => t[cs[i]].name)
  }

  lemma {:induction false} NameIn(t: Links, cs: seq<Id>, c: Id)
    requires InRange(t, cs) && c in cs
    ensures t[c].name in NamesOf(t, cs)
  {
    var i :| 0 <= i < |cs| && cs[i] == c;
    assert NamesOf(t, cs)[i] == t[c].name;
  }

  lemma {:induction false} NameFrom(t: Links, cs: seq<Id>, n: string) returns (c: Id)
    requires InRange(t, cs) && n in NamesOf(t, cs)
    ensures c in cs && c < |t| && t[c].name == n
  {
    var i :| 0 <= i < |cs| && NamesOf(t, cs)[i] == n;
    c := cs[i];
  }

  function InfosOf(t: Links, cs: seq<Id>): (ns: seq<LeafInfo>)
    requires InRange(t, cs)
    ensures |ns| == |cs| && forall i | 0 <= i < |cs| :: ns[i] == Info(t, cs[i])
  {
    seq(|cs|, i requires 0 <= i < |cs| => Info(t, cs[i]))
  }

  /** The classification loop of `containerFromYEntry`. */
  method Classify(t: Links, e: Id, children: seq<Id>)
    returns (keys: seq<Id>, fields: seq<Id>, leaflists: seq<Id>, dirs: seq<Id>)
    requires e < |t| && InRange(t, children)
    ensures keys == Pick(t, e, children, KeyRole) && fields == Pick(t, e, children, FieldRole)
    ensures leaflists == Pick(t, e, children, LeafListRole) && dirs == Pick(t, e, children, DirRole)
  {
    keys, fields, leaflists, dirs := [], [], [], [];
    for i := 0 to |children|
      invariant keys == Pick(t, e, children[..i], KeyRole) && fields == Pick(t, e, children[..i], FieldRole)
      invariant leaflists == Pick(t, e, children[..i], LeafListRole) && dirs == Pick(t, e, children[..i], DirRole)
    {
      assert children[..i + 1][..i] == children[..i];
      var c := children[i];
      if !t[c].kind.IsTerminal() {
        dirs := dirs + [c];
      } else if t[c].kind.Leaf? {
        if t[c].name in t[e].keys { keys := keys + [c]; } else { fields := fields + [c]; }
      } else {
        leaflists := leaflists + [c];
      }
    }
    assert children[..|children|] == children;
  }

  ghost predicate ChildrenOf(t: Links, e: Id, children: seq<Id>) {
    NoDup(children) && forall c :: c in children <==> Offers(t, e, c)
  }

  lemma {:induction false} NamesDistinct(t: Tree, e: Id, children: seq<Id>, r: Role)
    requires e < |t| && ChildrenOf(t, e, children) && InRange(t, children)
    ensures NoDup(NamesOf(t, Pick(t, e, children, r)))
  {
    PickFacts(t, e, children, r);
    var ids := Pick(t, e, children, r);
    forall i, j | 0 <= i < j < |ids| ensures t[ids[i]].name != t[ids[j]].name {
      assert ids[i] in ids && ids[j] in ids;
      if t[ids[i]].name == t[ids[j]].name { OfferedNamesUnique(t, e, ids[i], ids[j]); }
    }
  }

  lemma {:induction false} KeyIsChild(t: Links, e: Id, k: string)
    requires e < |t| && k in t[e].keys
    ensures k in t[e].dir && HasChild(t, e, k, t[e].dir[k]) && t[t[e].dir[k]].kind.Leaf?
  {
    assert NodeOk(t, e);
    DirFacts(t, e, k);
  }

  lemma {:induction false} KeysFound(t: Tree, e: Id, children: seq<Id>)
    requires e < |t| && ChildrenOf(t, e, children) && InRange(t, children)
    ensures var found := NamesOf(t, Pick(t, e, children, KeyRole));
            NoDup(found) && NoDup(t[e].keys) && Sort(ByStatement(t[e].keys), found) == t[e].keys
  {
    PickFacts(t, e, children, KeyRole);
    NamesDistinct(t, e, children, KeyRole);
    var ids := Pick(t, e, children, KeyRole);
    var found := NamesOf(t, ids);
    forall k | k in t[e].keys ensures k in found {
      KeyIsChild(t, e, k);
      NameIn(t, ids, t[e].dir[k]);
    }
    forall k | k in found ensures k in t[e].keys {
      var c := NameFrom(t, ids, k);
    }
    assert NoDup(t[e].keys) by { if e > 0 { assert NodeOk(t, e); } }
    KeySort(t[e].keys, found);
  }

  lemma {:induction false} DirsFound(t: Tree, e: Id, children: seq<Id>)
    requires e < |t| && ChildrenOf(t, e, children) && InRange(t, children)
    ensures StrictTotal(LexLess)
    ensures Sort(LexLess, NamesOf(t, Pick(t, e, children, DirRole))) == SortedSet(LexLess, DirChildNames(t, e))
  {
    LexStrictTotal();
    PickFacts(t, e, children, DirRole);
    NamesDistinct(t, e, children, DirRole);
    var ids := Pick(t, e, children, DirRole);
    var dirs := NamesOf(t, ids);
    forall n ensures n in dirs <==> n in DirChildNames(t, e) {
      if n in dirs {
        var c := NameFrom(t, ids, n);
        assert IsDirChild(t, e, c);
      }
      if n in DirChildNames(t, e) {
        var c: Id :| c < |t| && IsDirChild(t, e, c) && t[c].name == n;
        NameIn(t, ids, c);
      }
    }
    SortOfSet(LexLess, dirs, DirChildNames(t, e));
  }

  lemma {:induction false} LeavesFound(t: Links, e: Id, children: seq<Id>)
    requires e < |t| && ChildrenOf(t, e, children) && InRange(t, children)
    ensures Lists(t, InfosOf(t, Pick(t, e, children, FieldRole)), iset c | IsField(t, e, c))
    ensures Lists(t, InfosOf(t, Pick(t, e, children, LeafListRole)), iset c | IsLeafListChild(t, e, c))
  {
    PickFacts(t, e, children, FieldRole);
    PickFacts(t, e, children, LeafListRole);
    var fs, ls := Pick(t, e, children, FieldRole), Pick(t, e, children, LeafListRole);
    assert Listing(t, InfosOf(t, fs), fs, iset c | IsField(t, e, c));
    assert Listing(t, InfosOf(t, ls), ls, iset c | IsLeafListChild(t, e, c));
  }

  /** The element of a container or list, put together from its classified children. */
  function Assembled(t: Links, e: Id, keys: seq<Id>, fields: seq<Id>, leaflists: seq<Id>, dirs: seq<Id>): SchemaElem
    requires e < |t| && InRange(t, keys) && InRange(t, fields) && InRange(t, leaflists) && InRange(t, dirs)
  {
    var sorted := Sort(ByStatement(t[e].keys), NamesOf(t, keys));
    ContainerElem(
      t[e].name, IsState(t, e), t[e].description,
      seq(|sorted|, i requires 0 <= i < |sorted| => KeyInfo(t, e, sorted[i])),
      InfosOf(t, fields), InfosOf(t, leaflists), Sort(LexLess, NamesOf(t, dirs)))
  }

  lemma {:induction false} AssembledIsElem(t: Tree, e: Id, children: seq<Id>)
    requires e < |t| && !t[e].kind.IsTerminal() && ChildrenOf(t, e, children) && InRange(t, children)
    ensures IsElemOf(t, e, Assembled(t, e, Pick(t, e, children, KeyRole), Pick(t, e, children, FieldRole),
                                     Pick(t, e, children, LeafListRole), Pick(t, e, children, DirRole)))
  {
    hide Lists, Pick, Sort, SortedSet;
    KeysFound(t, e, children);
    DirsFound(t, e, children);
    LeavesFound(t, e, children);
  }

  /** `SchemaElemFromYEntry`, with descriptions as the store asks for them. */
  method SchemaElemFromEntry(t: Tree, e: Id) returns (v: SchemaElem)
    requires e < |t|
    ensures IsElemOf(t, e, v)
  {
    if t[e].kind.Leaf? { return FieldElem(Info(t, e)); }
    if t[e].kind.LeafList? { return LeafListElem(Info(t, e)); }
    var children := GetChildren(t, e);
    assert forall i | 0 <= i < |children| :: children[i] in children;
    var keys, fields, leaflists, dirs := Classify(t, e, children);
    AssembledIsElem(t, e, children);
    v := Assembled(t, e, keys, fields, leaflists, dirs);
  }

  /** Every entry has an element. */
  lemma {:induction false} ElemExists(t: Tree, e: Id) returns (v: SchemaElem)
    requires e < |t|
    ensures IsElemOf(t, e, v)
  {
    if t[e].kind.Leaf? {
      v := FieldElem(Info(t, e));
    } else if t[e].kind.LeafList? {
      v := LeafListElem(Info(t, e));
    } else {
      var children := Enumerated(set c: Id | c < |t| && Offers(t, e, c));
      assert forall i | 0 <= i < |children| :: children[i] in children;
      AssembledIsElem(t, e, children);
      v := Assembled(t, e, Pick(t, e, children, KeyRole), Pick(t, e, children, FieldRole),
                     Pick(t, e, children, LeafListRole), Pick(t, e, children, DirRole));
    }
  }

  /** The members of a set in some order. */
  ghost function Enumerated(s: set<Id>): (r: seq<Id>)
    ensures NoDup(r) && forall c :: c in r <==> c in s
  {
    if s == {} then []
    else
      var c :| c in s;
      var r := Enumerated(s - {c});
      NoDupConcat(r, [c]);
      r + [c]
  }
}
