/** The schema tree: entries addressed by index, each with its parent link and its `Dir`
    map, as `yang.Entry` pointers form it.  Entry 0 is the synthetic root. */
module YangTree {
  import opened Wrappers
  import opened Text

  const ROOT_NAME := "__root__"

  predicate IdStart(c: char) {
    'a' <= c <= 'z' || 'A' <= c <= 'Z' || c == '_'
  }

  predicate IdChar(c: char) {
    IdStart(c) || '0' <= c <= '9' || c == '-' || c == '.'
  }

  /** A YANG identifier (section 6.2 of RFC 7950). */
  predicate IsIdentifier(s: string) {
    s != [] && IdStart(s[0]) && forall i | 0 <= i < |s| :: IdChar(s[i])
  }

  type Id = nat

  datatype Kind = Container | List | Leaf | LeafList | Choice | Case
  {
    /** Choice and case nodes do not exist in the data tree. */
    predicate IsFlat() { Choice? || Case? }
    predicate IsTerminal() { Leaf? || LeafList? }
  }

  datatype TriState = Unset | ConfigTrue | ConfigFalse

  datatype YangType = Builtin(kind: string) | Leafref(path: string) | Union(members: seq<YangType>)

  datatype Node = Node(
    name: string,
    prefix: string,           // YANG prefix of the defining module
    kind: Kind,
    parent: Option<Id>,
    dir: map<string, Id>,
    keys: seq<string>,        // strings.Fields(e.Key)
    config: TriState,
    ltype: Option<YangType>,
    description: string)

  type RawTree = seq<Node>

  ghost const BARE_ROOT: RawTree := [Node(ROOT_NAME, "", Container, None, map[], [], Unset, None, "")]

  predicate IsData(t: RawTree, c: Id)
    requires c < |t|
  {
    !t[c].kind.IsFlat()
  }

  /** The entry whose `Dir` holds `c`; a module without a parent link hangs below the root. */
  function Up(t: RawTree, c: Id): Id
    requires c < |t|
  {
    if t[c].parent.Some? then t[c].parent.value else 0
  }

  ghost predicate NodeOk(t: RawTree, c: Id) {
    && 0 < c < |t|
    && IsIdentifier(t[c].name) && t[c].name != ROOT_NAME
    && Up(t, c) < c
    && t[c].name in t[Up(t, c)].dir && t[Up(t, c)].dir[t[c].name] == c
    && (t[c].kind.Case? <==> t[Up(t, c)].kind.Choice?)
    && (Up(t, c) == 0 ==> t[c].kind.Container?)
    && (t[c].ltype.Some? <==> t[c].kind.IsTerminal())
    && (t[c].kind.IsTerminal() ==> t[c].dir == map[])
    && KeysOk(t, c)
  }

  /** The keys of a list are distinct leaves directly below it; nothing else has keys. */
  ghost predicate KeysOk(t: RawTree, c: Id)
    requires c < |t|
  {
    && NoDup(t[c].keys)
    && (!t[c].kind.List? ==> t[c].keys == [])
    && forall k | k in t[c].keys ::
         k in t[c].dir && t[c].dir[k] < |t| && t[t[c].dir[k]].kind.Leaf?
  }

  ghost predicate DirOk(t: RawTree, p: Id, n: string)
    requires p < |t| && n in t[p].dir
  {
    var c := t[p].dir[n];
    p < c < |t| && t[c].name == n && Up(t, c) == p
  }

  /** Parent links and `Dir` maps are inverse to each other, and kinds nest as YANG allows. */
  ghost predicate Linked(t: RawTree) {
    && 0 < |t|
    && t[0].name == ROOT_NAME && t[0].kind == Container && t[0].parent == None
    && t[0].keys == [] && t[0].ltype == None && t[0].config != ConfigFalse
    && (forall c :: 0 < c < |t| ==> NodeOk(t, c))
    && (forall p, n {:trigger DirOk(t, p, n)} :: 0 <= p < |t| && n in t[p].dir ==> DirOk(t, p, n))
  }

  type Links = t: RawTree | Linked(t) ghost witness BARE_ROOT

  lemma {:induction false} UpFacts(t: Links, c: Id)
    requires 0 < c < |t|
    ensures NodeOk(t, c) && Up(t, c) < c
    ensures !IsData(t, c) ==> Up(t, c) != 0
    ensures !IsData(t, Up(t, c)) ==> Up(t, c) != 0
    ensures Up(t, c) != 0 ==> t[c].parent == Some(Up(t, c))
  {
    assert NodeOk(t, c);
  }

  lemma {:induction false} DirFacts(t: Links, p: Id, n: string)
    requires p < |t| && n in t[p].dir
    ensures DirOk(t, p, n) && NodeOk(t, t[p].dir[n])
  {
    assert DirOk(t, p, n);
    assert NodeOk(t, t[p].dir[n]);
  }

  lemma {:induction false} KeysOnlyInLists(t: Links, e: Id)
    requires e < |t|
    ensures !t[e].kind.List? ==> t[e].keys == []
  {
    if e != 0 { assert NodeOk(t, e); }
  }

  /** The nearest ancestor that is a data node. */
  ghost function DataParent(t: Links, c: Id): (p: Id)
    requires 0 < c < |t|
    ensures p < c && IsData(t, p)
    ensures Up(t, c) < |t|
    ensures IsData(t, Up(t, c)) ==> p == Up(t, c)
    decreases c
  {
    UpFacts(t, c);
    if IsData(t, Up(t, c)) then Up(t, c) else DataParent(t, Up(t, c))
  }

  /** Nodes that share the identifier namespace of their data parent: everything but cases. */
  ghost predicate Scoped(t: RawTree, a: Id) {
    0 < a < |t| && !t[a].kind.Case?
  }

  /** Section 6.2.1 of RFC 7950: names are unique among the nodes of one scope, and a case
      is transparent. */
  ghost predicate NamesUnique(t: Links) {
    forall a: Id, b: Id {:trigger Scoped(t, a), Scoped(t, b)} ::
      Scoped(t, a) && Scoped(t, b) && t[a].name == t[b].name && DataParent(t, a) == DataParent(t, b)
      ==> a == b
  }

  /** The schema trees the server works on. */
  type Tree = t: Links | NamesUnique(t) ghost witness BARE_ROOT

  lemma {:induction false} SameScope(t: Tree, a: Id, b: Id)
    requires Scoped(t, a) && Scoped(t, b)
    requires t[a].name == t[b].name && DataParent(t, a) == DataParent(t, b)
    ensures a == b
  {
  }

  /** `isState`: the node or an ancestor says `config false`. */
  predicate IsState(t: Links, c: Id)
    requires c < |t|
    decreases c
  {
    t[c].config == ConfigFalse ||
    (t[c].parent.Some? && c != 0 && (UpFacts(t, c); IsState(t, t[c].parent.value)))
  }

  /** Parent links lead along `up` to an entry that says `config false`. */
  ghost predicate LeadsToConfigFalse(t: RawTree, up: seq<Id>) {
    && up != [] && (forall i | 0 <= i < |up| :: up[i] < |t|)
    && (forall i | 0 <= i < |up| - 1 :: t[up[i]].parent == Some(up[i + 1]))
    && t[up[|up| - 1]].config == ConfigFalse
  }

  /** The entry or one above it says `config false`. */
  ghost predicate UnderConfigFalse(t: RawTree, c: Id) {
    exists up :: LeadsToConfigFalse(t, up) && up[0] == c
  }

  /** Nothing but `config false` on the way up makes an entry state. */
  lemma {:induction false} StateMeans(t: Links, c: Id)
    requires c < |t|
    ensures IsState(t, c) <==> UnderConfigFalse(t, c)
    decreases c
  {
    if t[c].config == ConfigFalse { assert LeadsToConfigFalse(t, [c]); }
    if c > 0 && t[c].parent.Some? {
      UpFacts(t, c);
      var p := t[c].parent.value;
      StateMeans(t, p);
      if up :| LeadsToConfigFalse(t, up) && up[0] == p {
        var longer := [c] + up;
        forall i | 0 <= i < |longer| - 1 ensures t[longer[i]].parent == Some(longer[i + 1]) {
          if i > 0 { assert longer[i] == up[i - 1] && longer[i + 1] == up[i]; }
        }
        assert LeadsToConfigFalse(t, longer);
      }
    }
    if up :| LeadsToConfigFalse(t, up) && up[0] == c && t[c].config != ConfigFalse {
      assert t[up[0]].parent == Some(up[1]);
      var rest := up[1..];
      forall i | 0 <= i < |rest| - 1 ensures t[rest[i]].parent == Some(rest[i + 1]) {
        assert t[up[i + 1]].parent == Some(up[i + 2]);
      }
      assert LeadsToConfigFalse(t, rest);
    }
  }

  /** `d` is `e` or lies anywhere below it. */
  ghost predicate InSubtree(t: Links, e: Id, d: Id)
    requires d < |t|
    decreases d
  {
    d == e || (d > e && (UpFacts(t, d); InSubtree(t, e, Up(t, d))))
  }

  lemma {:induction false} AllBelowRoot(t: Links, d: Id)
    requires d < |t|
    ensures InSubtree(t, 0, d)
    decreases d
  {
    if d > 0 {
      UpFacts(t, d);
      AllBelowRoot(t, Up(t, d));
    }
  }

  lemma {:induction false} SubtreeTransitive(t: Links, a: Id, b: Id, c: Id)
    requires b < |t| && c < |t|
    requires InSubtree(t, a, b) && InSubtree(t, b, c)
    ensures InSubtree(t, a, c) && a <= b <= c
    decreases c
  {
    SubtreeOrder(t, a, b);
    SubtreeOrder(t, b, c);
    if b != c {
      UpFacts(t, c);
      SubtreeTransitive(t, a, b, Up(t, c));
    }
  }

  lemma {:induction false} SubtreeOrder(t: Links, e: Id, d: Id)
    requires d < |t|
    ensures InSubtree(t, e, d) ==> e <= d
    decreases d
  {
  }

  /** Every proper descendant lies below exactly one entry of `Dir`: the one on the way to it. */
  lemma {:induction false} FirstStep(t: Links, e: Id, d: Id) returns (n: string)
    requires d < |t| && InSubtree(t, e, d) && d != e
    ensures n in t[e].dir && InSubtree(t, t[e].dir[n], d)
    decreases d
  {
    UpFacts(t, d);
    if Up(t, d) == e {
      n := t[d].name;
    } else {
      n := FirstStep(t, e, Up(t, d));
      DirFacts(t, e, n);
      SubtreeOrder(t, t[e].dir[n], Up(t, d));
    }
  }

  lemma {:induction false} StepUnique(t: Links, e: Id, n1: string, n2: string, d: Id)
    requires e < |t| && d < |t| && n1 in t[e].dir && n2 in t[e].dir
    requires InSubtree(t, t[e].dir[n1], d) && InSubtree(t, t[e].dir[n2], d)
    ensures n1 == n2
    decreases d
  {
    DirFacts(t, e, n1);
    DirFacts(t, e, n2);
    var c1, c2 := t[e].dir[n1], t[e].dir[n2];
    SubtreeOrder(t, c1, e);
    SubtreeOrder(t, c2, e);
    if c1 != d && c2 != d {
      UpFacts(t, d);
      StepUnique(t, e, n1, n2, Up(t, d));
    }
  }

  /** State is inherited by the whole subtree. */
  lemma {:induction false} StateInherited(t: Links, e: Id, d: Id)
    requires d < |t| && InSubtree(t, e, d) && IsState(t, e)
    ensures IsState(t, d)
    decreases d
  {
    SubtreeOrder(t, e, d);
    assert !IsState(t, 0);
    if d != e {
      UpFacts(t, d);
      StateInherited(t, e, Up(t, d));
    }
  }

  /** The part of a path item after its module prefix, if it has one. */
  function LocalName(s: string): (r: string)
    ensures ':' !in s ==> r == s
  {
    var i := IndexOf(s, ':');
    if i < |s| then s[i + 1..] else s
  }

  /** An item of a path: a name, with or without a prefix. */
  datatype Item = Item(prefix: Option<string>, name: string)
  {
    /** Read from text: the prefix ends at the first colon. */
    predicate Ok() {
      if prefix.Some? then ':' !in prefix.value else ':' !in name
    }

    function Text(): string {
      if prefix.Some? then prefix.value + ":" + name else name
    }
  }

  lemma {:induction false} LocalOfItem(item: Item)
    requires item.Ok()
    ensures LocalName(item.Text()) == item.name
    ensures ':' in item.Text() <==> item.prefix.Some?
    ensures item.prefix.Some? ==> item.Text()[..IndexOf(item.Text(), ':')] == item.prefix.value
  {
    if item.prefix.Some? { FirstOccurrence(item.prefix.value, ':', item.name); }
  }

  function Written(items: seq<Item>): (r: seq<string>)
    ensures |r| == |items| && forall i | 0 <= i < |items| :: r[i] == items[i].Text()
  {
    seq(|items|, i requires 0 <= i < |items| => items[i].Text())
  }

  function Spelled(items: seq<Item>): (r: seq<string>)
    ensures |r| == |items| && forall i | 0 <= i < |items| :: r[i] == items[i].name
  {
    seq(|items|, i requires 0 <= i < |items| => items[i].name)
  }

  predicate AllOk(items: seq<Item>) {
    forall i | 0 <= i < |items| :: items[i].Ok()
  }

  lemma {:induction false} ItemsTail(items: seq<Item>)
    requires items != [] && AllOk(items)
    ensures AllOk(items[1..]) && Written(items)[1..] == Written(items[1..])
    ensures Spelled(items) == [items[0].name] + Spelled(items[1..])
    ensures LocalName(Written(items)[0]) == items[0].name
  {
    LocalOfItem(items[0]);
  }

  predicate Plain(s: string) {
    ':' !in s && '/' !in s
  }

  lemma {:induction false} IdentifierIsPlain(s: string)
    requires IsIdentifier(s)
    ensures Plain(s) && s != "" && '@' !in s && '[' !in s && ']' !in s && '=' !in s
    ensures '\0' !in s && '\\' !in s && s != ".."
  {
    forall c | c in s ensures IdChar(c) {
      var i :| 0 <= i < |s| && s[i] == c;
    }
  }
}
