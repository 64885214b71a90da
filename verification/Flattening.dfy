/** When flattening what `buildPath` accepted gives the items back: exactly, for all items. */
module Flattening {
  import opened Wrappers
  import opened Text
  import opened XPath
  import opened YangTree
  import opened SchemaPaths
  import opened PathBuilder
  import opened OwnNames

  /** How many items after its name an entry takes for values before it looks for the next name. */
  function ValuesTaken(t: Links, e: Id, pe: seq<string>): (n: nat)
    requires e < |t| && pe != []
    ensures n < |pe|
  {
    if t[e].kind.List? then (if |t[e].keys| < |pe| - 1 then |t[e].keys| else |pe| - 1) else 0
  }

  /** The entry is entered by its name, the first item.  It must not be a container with a data
      child of its own name; behind a choice of its own name the next entry is read late. */
  ghost predicate ReadBack(t: Links, pe: seq<string>, e: Id)
    requires e < |t| && pe != []
    decreases |t| - e
  {
    if HasOwn(t, e) then
      && OwnChoice(t, e)
      && (|pe| == 1 ||
          (var x := FindInChoice(t, Own(t, e), pe[1]);
           x.Some? && (FoundBelow(t, Own(t, e), pe[1]); ReadLate(t, pe[2..], x.value))))
    else if t[e].kind.IsTerminal() then true
    else
      var n := ValuesTaken(t, e, pe);
      |pe| == n + 1 || (Next(t, e, pe[n + 1]).Some? && ReadBack(t, pe[n + 1..], Next(t, e, pe[n + 1]).value))
  }

  /** The entry's name was used up before it was entered, and `q` are the items after it.  They
      must have run out, or the next one names a child in its `Dir`; otherwise that name is lost
      as well, and only a repetition of the item after it makes up for it. */
  ghost predicate ReadLate(t: Links, q: seq<string>, x: Id)
    requires x < |t|
    decreases |t| - x
  {
    q == [] ||
    match t[x].kind
    case Choice =>
      var y := FindInChoice(t, x, q[0]);
      y.Some? && (FoundBelow(t, x, q[0]); ReadLate(t, q[1..], y.value))
    case Container =>
      if q[0] in t[x].dir then
        DirFacts(t, x, q[0]);
        !t[t[x].dir[q[0]]].kind.Choice? && ReadBack(t, q, t[x].dir[q[0]])
      else
        |q| > 1 && q[0] == q[1] && Next(t, x, q[1]).Some? && ReadLate(t, q[1..], Next(t, x, q[1]).value)
    case List =>
      var n := ValuesTaken(t, x, q);
      |q| > n + 1 && (forall i | 0 <= i <= n :: q[i] == q[n + 1])
      && Next(t, x, q[n + 1]).Some? && ReadLate(t, q[n + 1..], Next(t, x, q[n + 1]).value)
    case _ => false
  }

  // ----- steps

  lemma {:induction false} FoundBelow(t: Links, ch: Id, n: string)
    requires FindInChoice(t, ch, n).Some?
    ensures ch < FindInChoice(t, ch, n).value < |t| && Scoped(t, FindInChoice(t, ch, n).value)
  {
    var x := FindInChoice(t, ch, n).value;
    UpFacts(t, x);
    UpFacts(t, Up(t, x));
  }

  lemma {:induction false} ChoiceStep(t: Links, q: seq<string>, x: Id)
    requires 0 < x < |t| && t[x].kind.Choice? && q != []
    ensures BuildFrom(t, q, x) ==
            if FindInChoice(t, x, q[0]).None? then Err(UnknownElement)
            else (FoundBelow(t, x, q[0]);
                  After([PathElem(t[x].name, map[])], BuildFrom(t, q[1..], FindInChoice(t, x, q[0]).value)))
  {
  }

  /** A container with any next item. */
  lemma {:induction false} AnyContainerStep(t: Links, q: seq<string>, x: Id)
    requires 0 < x < |t| && t[x].kind.Container? && q != []
    ensures q[0] in t[x].dir ==>
              (DirFacts(t, x, q[0]);
               var c := t[x].dir[q[0]];
               BuildFrom(t, q, x) == if t[c].kind.Choice? then BuildFrom(t, q[1..], c)
                                     else After([PathElem(t[x].name, map[])], BuildFrom(t, q, c)))
    ensures q[0] !in t[x].dir ==>
              BuildFrom(t, q, x) ==
              if |q| == 1 then Ok([PathElem(t[x].name, map[])])
              else if Next(t, x, q[1]).None? then Err(UnknownElement)
              else After([PathElem(t[x].name, map[])], BuildFrom(t, q[1..], Next(t, x, q[1]).value))
  {
  }

  /** An element that stands for its name alone. */
  lemma {:induction false} NameThen(name: string, rest: Built)
    ensures var b := After([PathElem(name, map[])], rest);
            b.Ok? <==> rest.Ok?
    ensures rest.Ok? ==>
              Strings(After([PathElem(name, map[])], rest).value, false) == [name] + Strings(rest.value, false)
    ensures Strings([PathElem(name, map[])], false) == [name]
  {
    NoVals();
    if rest.Ok? {
      StringsCons(PathElem(name, map[]), rest.value);
      assert [name] + [] == [name];
    }
    StringsCons(PathElem(name, map[]), []);
    assert [PathElem(name, map[])] + [] == [PathElem(name, map[])];
    assert [name] + [] + [] == [name];
  }

  // ----- lost items of two kinds are never made up for

  ghost predicate Mixed(w: seq<string>) {
    exists i, j | 0 <= i < |w| && 0 <= j < |w| :: w[i] != w[j]
  }

  lemma {:induction false} SplitFirst(w: seq<string>, q: seq<string>, a: string, s: seq<string>)
    requires w != [] && w + q == [a] + s
    ensures w[0] == a && s == w[1..] + q
  {
    assert (w + q)[0] == w[0];
    assert (w + q)[1..] == w[1..] + q;
    ConsParts(a, s);
  }

  /** The first item may leave when it occurs again. */
  lemma {:induction false} StaysMixed(w: seq<string>, r: seq<string>)
    requires Mixed(w) && w[0] in w[1..] + r
    ensures Mixed(w[1..] + r)
  {
    var v := w[1..] + r;
    var i, j :| 0 <= i < |w| && 0 <= j < |w| && w[i] != w[j];
    var k :| 0 <= k < |v| && v[k] == w[0];
    var i', j' := if i == 0 then k else i - 1, if j == 0 then k else j - 1;
    assert v[i'] == w[i] && v[j'] == w[j];
  }

  /** An item among the first `m` of a text that repeats after `p` occurs again among the others. */
  lemma {:induction false} Later(s: seq<string>, p: nat, m: nat, j: nat) returns (k: nat)
    requires 0 < p && 0 < m && |s| == p + m && j < |s|
    requires (forall i | 1 <= i < m :: s[p + i] == s[i]) && (s[p] == s[0] || (p > 1 && s[p - 1] == s[0]))
    ensures m <= k < |s| && s[k] == s[j]
    decreases |s| - j
  {
    if j >= m {
      k := j;
    } else if j > 0 {
      assert s[p + j] == s[j];
      k := Later(s, p, m, p + j);
    } else if s[p] == s[0] {
      k := Later(s, p, m, p);
    } else {
      k := Later(s, p, m, p - 1);
    }
  }

  /** A list that takes `m` items out of `w + q` leaves a mixed rest. */
  lemma {:induction false} ListStaysMixed(w: seq<string>, q: seq<string>, m: nat, a: string, rest: seq<string>)
    requires Mixed(w) && 0 < m <= |q| && (q[0] == a || w[|w| - 1] == a)
    requires w + q == [a] + q[1..m] + rest
    ensures var v := (w + q[..m])[m..]; Mixed(v) && rest == v + q[m..]
  {
    var p, s := |w|, w + q[..m];
    var whole := [a] + q[1..m] + rest;
    assert |[a] + q[1..m]| == m;
    forall i | 1 <= i < m ensures s[p + i] == s[i] {
      assert whole[i] == q[i] && (w + q)[i] == s[i];
    }
    assert whole[0] == a && (w + q)[0] == w[0] == s[0];
    assert s[p] == q[0] && s[p - 1] == w[p - 1];
    assert w + q == s + q[m..] by { assert q == q[..m] + q[m..]; Assoc(w, q[..m], q[m..]); }
    assert rest == whole[m..] == (s + q[m..])[m..] == s[m..] + q[m..];
    var i, j :| 0 <= i < |w| && 0 <= j < |w| && w[i] != w[j];
    var i' := Later(s, p, m, i);
    var j' := Later(s, p, m, j);
    assert s[m..][i' - m] == s[i'] && s[m..][j' - m] == s[j'];
  }

  /** When items of two kinds have been lost, the result never flattens to them and the rest. */
  lemma {:induction false} MixedNever(t: Tree, q: seq<string>, x: Id, w: seq<string>)
    requires Scoped(t, x) && Mixed(w) && ((q != [] && q[0] == t[x].name) || w[|w| - 1] == t[x].name)
    ensures BuildFrom(t, q, x).Ok? ==> Strings(BuildFrom(t, q, x).value, false) != w + q
    decreases |t| - x, 2
  {
    NameThen(t[x].name, Ok([]));
    if q != [] {
      match t[x].kind {
        case Choice => MixedChoice(t, q, x, w);
        case Container => MixedContainer(t, q, x, w);
        case List => MixedList(t, q, x, w);
        case _ => MixedTerminal(t, q, x, w);
      }
    }
  }

  lemma {:induction false} MixedTerminal(t: Tree, q: seq<string>, x: Id, w: seq<string>)
    requires 0 < x < |t| && t[x].kind.IsTerminal() && Mixed(w) && q != []
    ensures BuildFrom(t, q, x).Ok? ==> |Strings(BuildFrom(t, q, x).value, false)| < |w + q|
  {
    TerminalStep(t, q, x);
    NameThen(t[x].name, Ok([]));
    if |q| > 1 {
      LeafListVals(t[x].name, q[1]);
      var elem := PathElem(t[x].name, map[t[x].name := q[1]]);
      StringsCons(elem, []);
      assert [elem] + [] == [elem];
    }
  }

  lemma {:induction false} MixedChoice(t: Tree, q: seq<string>, x: Id, w: seq<string>)
    requires 0 < x < |t| && t[x].kind.Choice? && Mixed(w) && q != [] && (q[0] == t[x].name || w[|w| - 1] == t[x].name)
    ensures BuildFrom(t, q, x).Ok? ==> Strings(BuildFrom(t, q, x).value, false) != w + q
    decreases |t| - x, 0
  {
    ChoiceStep(t, q, x);
    var y := FindInChoice(t, x, q[0]);
    if y.Some? {
      FoundBelow(t, x, q[0]);
      var b := BuildFrom(t, q[1..], y.value);
      NameThen(t[x].name, b);
      if b.Ok? && [t[x].name] + Strings(b.value, false) == w + q {
        SplitFirst(w, q, t[x].name, Strings(b.value, false));
        OnePushed(w, q, t[x].name);
        MixedNever(t, q[1..], y.value, w[1..] + [q[0]]);
      }
    }
  }

  /** One item leaves the lost ones and the next joins them. */
  lemma {:induction false} OnePushed(w: seq<string>, q: seq<string>, a: string)
    requires Mixed(w) && q != [] && w[0] == a && (q[0] == a || w[|w| - 1] == a)
    ensures Mixed(w[1..] + [q[0]]) && w[1..] + q == w[1..] + [q[0]] + q[1..]
    ensures (w[1..] + [q[0]])[|w| - 1] == q[0]
  {
    assert q == [q[0]] + q[1..];
    Assoc(w[1..], [q[0]], q[1..]);
    FirstAgain(w, [q[0]], a);
    StaysMixed(w, [q[0]]);
  }

  lemma {:induction false} TwoPushed(w: seq<string>, q: seq<string>)
    requires Mixed(w) && |q| > 1 && w[0] == q[0]
    ensures var v := w[1..] + [q[0], q[1]]; Mixed(v) && w[1..] + q == v + q[2..] && v[|v| - 1] == q[1]
  {
    var r := [q[0], q[1]];
    assert q == r + q[2..];
    Assoc(w[1..], r, q[2..]);
    assert (w[1..] + r)[|w| - 1] == w[0];
    StaysMixed(w, r);
  }

  lemma {:induction false} FirstAgain(w: seq<string>, r: seq<string>, a: string)
    requires Mixed(w) && w[0] == a && (a in r || w[|w| - 1] == a)
    ensures w[0] in w[1..] + r
  {
    if a !in r { assert w[1..][|w| - 2] == a; }
  }

  lemma {:induction false} MixedContainer(t: Tree, q: seq<string>, x: Id, w: seq<string>)
    requires 0 < x < |t| && t[x].kind.Container? && Mixed(w) && q != [] && (q[0] == t[x].name || w[|w| - 1] == t[x].name)
    ensures BuildFrom(t, q, x).Ok? ==> Strings(BuildFrom(t, q, x).value, false) != w + q
    decreases |t| - x, 1
  {
    if q[0] in t[x].dir {
      DirFacts(t, x, q[0]);
      if t[t[x].dir[q[0]]].kind.Choice? { MixedThroughChoice(t, q, x, w); } else { MixedToChild(t, q, x, w); }
    } else {
      MixedOverChoice(t, q, x, w);
    }
  }

  lemma {:induction false} MixedOverChoice(t: Tree, q: seq<string>, x: Id, w: seq<string>)
    requires 0 < x < |t| && t[x].kind.Container? && Mixed(w) && q != [] && (q[0] == t[x].name || w[|w| - 1] == t[x].name)
    requires q[0] !in t[x].dir
    ensures BuildFrom(t, q, x).Ok? ==> Strings(BuildFrom(t, q, x).value, false) != w + q
    decreases |t| - x, 0
  {
    hide Strings, BuildFrom, Next, Linked;
    AnyContainerStep(t, q, x);
    NameThen(t[x].name, Ok([]));
    if |q| > 1 && Next(t, x, q[1]).Some? {
      var y := Next(t, x, q[1]).value;
      var b := BuildFrom(t, q[1..], y);
      NameThen(t[x].name, b);
      if b.Ok? && [t[x].name] + Strings(b.value, false) == w + q {
        SplitFirst(w, q, t[x].name, Strings(b.value, false));
        OnePushed(w, q, t[x].name);
        NextScoped(t, x, q[1]);
        MixedNever(t, q[1..], y, w[1..] + [q[0]]);
      }
    }
  }

  lemma {:induction false} MixedToChild(t: Tree, q: seq<string>, x: Id, w: seq<string>)
    requires 0 < x < |t| && t[x].kind.Container? && Mixed(w) && q != [] && (q[0] == t[x].name || w[|w| - 1] == t[x].name)
    requires q[0] in t[x].dir && t[x].dir[q[0]] < |t| && !t[t[x].dir[q[0]]].kind.Choice?
    ensures BuildFrom(t, q, x).Ok? ==> Strings(BuildFrom(t, q, x).value, false) != w + q
    decreases |t| - x, 0
  {
    AnyContainerStep(t, q, x);
    DirFacts(t, x, q[0]);
    var c := t[x].dir[q[0]];
    var b := BuildFrom(t, q, c);
    NameThen(t[x].name, b);
    if b.Ok? && [t[x].name] + Strings(b.value, false) == w + q {
      SplitFirst(w, q, t[x].name, Strings(b.value, false));
      NamedFirst(t, q, c);
      FirstString(b.value);
      if w[|w| - 1] != t[x].name { assert w[1] == (w[1..] + q)[0] == w[0]; assert w[1..][0] == w[0]; }
      FirstAgain2(w, t[x].name);
      StaysMixed(w, []);
      assert w[1..] + [] == w[1..];
      MixedNever(t, q, c, w[1..]);
    }
  }

  lemma {:induction false} FirstAgain2(w: seq<string>, a: string)
    requires Mixed(w) && w[0] == a && (w[1] == a || w[|w| - 1] == a)
    ensures w[0] in w[1..] + []
  {
    assert w[1..][0] == w[1] && w[1..][|w| - 2] == w[|w| - 1];
    assert w[1..] + [] == w[1..];
  }

  lemma {:induction false} FirstString(es: seq<PathElem>)
    requires es != []
    ensures Strings(es, false) != [] && Strings(es, false)[0] == es[0].name
  {
  }

  lemma {:induction false} MixedThroughChoice(t: Tree, q: seq<string>, x: Id, w: seq<string>)
    requires 0 < x < |t| && t[x].kind.Container? && Mixed(w) && q != []
    requires q[0] in t[x].dir && t[x].dir[q[0]] < |t| && t[t[x].dir[q[0]]].kind.Choice?
    ensures BuildFrom(t, q, x).Ok? ==> Strings(BuildFrom(t, q, x).value, false) != w + q
    decreases |t| - x, 0
  {
    DirFacts(t, x, q[0]);
    AnyContainerStep(t, q, x);
    hide Strings, BuildFrom, FindInChoice, Linked;
    var ch := t[x].dir[q[0]];
    NameThen(q[0], Ok([]));
    if |q| > 1 {
      ChoiceStep(t, q[1..], ch);
      var y := FindInChoice(t, ch, q[1]);
      if y.Some? {
        FoundBelow(t, ch, q[1]);
        FoundName(t, ch, q[1]);
        assert q[1..][1..] == q[2..];
        var b := BuildFrom(t, q[2..], y.value);
        NameThen(q[0], b);
        if b.Ok? && [q[0]] + Strings(b.value, false) == w + q {
          SplitFirst(w, q, q[0], Strings(b.value, false));
          TwoPushed(w, q);
          MixedNever(t, q[2..], y.value, w[1..] + [q[0], q[1]]);
        }
      }
    }
  }

  lemma {:induction false} MixedList(t: Tree, q: seq<string>, x: Id, w: seq<string>)
    requires 0 < x < |t| && t[x].kind.List? && Mixed(w) && q != [] && (q[0] == t[x].name || w[|w| - 1] == t[x].name)
    ensures BuildFrom(t, q, x).Ok? ==> Strings(BuildFrom(t, q, x).value, false) != w + q
    decreases |t| - x, 1
  {
    hide BuildFrom, Next, SortedVals, SortedElem, Linked;
    var n, elem := ListStep(t, q, x);
    if |q| == n + 1 {
      StringsCons(elem, []);
      assert [elem] + [] == [elem];
      assert |Strings([elem], false)| == |q|;
    } else if Next(t, x, q[n + 1]).Some? {
      var b := BuildFrom(t, q[n + 1..], Next(t, x, q[n + 1]).value);
      if b.Ok? {
        StringsCons(elem, b.value);
        MixedInList(t, q, x, w, n + 1, Strings(b.value, false));
      }
    }
  }

  lemma {:induction false} MixedInList(t: Tree, q: seq<string>, x: Id, w: seq<string>, m: nat, s: seq<string>)
    requires 0 < x < |t| && t[x].kind.List? && Mixed(w) && 0 < m < |q| && (q[0] == t[x].name || w[|w| - 1] == t[x].name)
    requires Next(t, x, q[m]).Some? && BuildFrom(t, q[m..], Next(t, x, q[m]).value).Ok?
    requires s == Strings(BuildFrom(t, q[m..], Next(t, x, q[m]).value).value, false)
    ensures [t[x].name] + q[1..m] + s != w + q
    decreases |t| - x, 0
  {
    hide BuildFrom, Next, Strings, Linked, Mixed;
    if [t[x].name] + q[1..m] + s == w + q {
      ListStaysMixed(w, q, m, t[x].name, s);
      NextScoped(t, x, q[m]);
      MixedNever(t, q[m..], Next(t, x, q[m]).value, (w + q[..m])[m..]);
    }
  }

  // ----- reading back

  lemma {:induction false} ConsSame(a: string, b: string, s: seq<string>, r: seq<string>)
    ensures [a] + s == [b] + r <==> a == b && s == r
  {
    ConsParts(a, s);
    ConsParts(b, r);
  }

  /** Flattening what `buildPath` accepted gives the items back exactly when they are read back. */
  lemma {:induction false} FlattenBack(t: Tree, pe: seq<string>, e: Id)
    requires Scoped(t, e) && pe != [] && pe[0] == t[e].name
    ensures BuildFrom(t, pe, e).Ok? ==> (Strings(BuildFrom(t, pe, e).value, false) == pe <==> ReadBack(t, pe, e))
    decreases |t| - e, 1
  {
    match t[e].kind {
      case Choice => ChoiceNamesNothing(t, e);
      case Container => if HasOwn(t, e) { FlattenOwn(t, pe, e); } else { FlattenContainer(t, pe, e); }
      case List => FlattenList(t, pe, e);
      case _ => FlattenTerminal(t, pe, e);
    }
  }

  lemma {:induction false} FlattenTerminal(t: Tree, pe: seq<string>, e: Id)
    requires 0 < e < |t| && t[e].kind.IsTerminal() && pe != [] && pe[0] == t[e].name
    ensures BuildFrom(t, pe, e).Ok? ==> Strings(BuildFrom(t, pe, e).value, false) == pe
  {
    TerminalStep(t, pe, e);
    NoVals();
    if |pe| == 1 {
      PrependStrings(PathElem(t[e].name, map[]), [], pe, 0);
    } else {
      LeafListVals(t[e].name, pe[1]);
      if |pe| == 2 { PrependStrings(PathElem(t[e].name, map[t[e].name := pe[1]]), [], pe, 1); }
    }
  }

  lemma {:induction false} FlattenOwn(t: Tree, pe: seq<string>, e: Id)
    requires 0 < e < |t| && HasOwn(t, e) && pe != [] && pe[0] == t[e].name
    ensures BuildFrom(t, pe, e).Ok? ==> (Strings(BuildFrom(t, pe, e).value, false) == pe <==> ReadBack(t, pe, e))
    decreases |t| - e, 0
  {
    hide Strings, BuildFrom, FindInChoice;
    OwnStep(t, pe, e);
    NameThen(t[e].name, Ok([]));
    assert pe == [pe[0]] + pe[1..];
    if OwnData(t, e) {
      ExtraNever(t, pe, Own(t, e), 1);
      var b := BuildFrom(t, pe, Own(t, e));
      NameThen(t[e].name, b);
      if b.Ok? { ConsSame(t[e].name, pe[0], Strings(b.value, false), pe[1..]); }
    } else if |pe| > 1 {
      var x := FindInChoice(t, Own(t, e), pe[1]);
      if x.Some? {
        FoundBelow(t, Own(t, e), pe[1]);
        ReadsLate(t, pe[2..], x.value);
        var b := BuildFrom(t, pe[2..], x.value);
        NameThen(t[e].name, b);
        if b.Ok? { ConsSame(t[e].name, pe[0], Strings(b.value, false), pe[1..]); }
        assert pe[1..] == [pe[1]] + pe[2..];
        FoundName(t, Own(t, e), pe[1]);
      }
    }
  }

  lemma {:induction false} FoundName(t: Links, ch: Id, n: string)
    requires FindInChoice(t, ch, n).Some?
    ensures FindInChoice(t, ch, n).value < |t| && t[FindInChoice(t, ch, n).value].name == n
  {
    FoundBelow(t, ch, n);
  }

  lemma {:induction false} FlattenContainer(t: Tree, pe: seq<string>, e: Id)
    requires 0 < e < |t| && t[e].kind.Container? && !HasOwn(t, e) && pe != [] && pe[0] == t[e].name
    ensures BuildFrom(t, pe, e).Ok? ==> (Strings(BuildFrom(t, pe, e).value, false) == pe <==> ReadBack(t, pe, e))
    decreases |t| - e, 0
  {
    hide Strings, BuildFrom, Next;
    ContainerStep(t, pe, e);
    NameThen(t[e].name, Ok([]));
    assert pe == [pe[0]] + pe[1..];
    if |pe| > 1 && Next(t, e, pe[1]).Some? {
      var c := Next(t, e, pe[1]).value;
      NextScoped(t, e, pe[1]);
      FlattenBack(t, pe[1..], c);
      var b := BuildFrom(t, pe[1..], c);
      NameThen(t[e].name, b);
      if b.Ok? { ConsSame(t[e].name, pe[0], Strings(b.value, false), pe[1..]); }
    }
  }

  lemma {:induction false} FlattenList(t: Tree, pe: seq<string>, e: Id)
    requires 0 < e < |t| && t[e].kind.List? && pe != [] && pe[0] == t[e].name
    ensures BuildFrom(t, pe, e).Ok? ==> (Strings(BuildFrom(t, pe, e).value, false) == pe <==> ReadBack(t, pe, e))
    decreases |t| - e, 0
  {
    hide Strings, SortedVals, SortedElem, Next, BuildFrom;
    var n, elem := ListStep(t, pe, e);
    if |pe| == n + 1 {
      PrependStrings(elem, [], pe, n);
    } else {
      var c := Next(t, e, pe[n + 1]);
      if c.Some? {
        NextScoped(t, e, pe[n + 1]);
        FlattenBack(t, pe[n + 1..], c.value);
        var b := BuildFrom(t, pe[n + 1..], c.value);
        if b.Ok? { PrependStrings(elem, b.value, pe, n); }
      }
    }
  }

  /** The same for an entry whose name was used up before. */
  lemma {:induction false} ReadsLate(t: Tree, q: seq<string>, x: Id)
    requires Scoped(t, x)
    ensures BuildFrom(t, q, x).Ok? ==>
              (Strings(BuildFrom(t, q, x).value, false) == [t[x].name] + q <==> ReadLate(t, q, x))
    decreases |t| - x, 1
  {
    if q == [] {
      NameThen(t[x].name, Ok([]));
      assert [t[x].name] + q == [t[x].name];
    } else {
      match t[x].kind {
        case Choice => LateChoice(t, q, x);
        case Container =>
          if q[0] !in t[x].dir {
            LateOverChoice(t, q, x);
          } else {
            DirFacts(t, x, q[0]);
            if t[t[x].dir[q[0]]].kind.Choice? { LateLost(t, q, x); } else { LateToChild(t, q, x); }
          }
        case List => LateInList(t, q, x);
        case _ => LateTerminal(t, q, x);
      }
    }
  }

  lemma {:induction false} LateTerminal(t: Tree, q: seq<string>, x: Id)
    requires 0 < x < |t| && t[x].kind.IsTerminal() && q != []
    ensures BuildFrom(t, q, x).Ok? ==> |Strings(BuildFrom(t, q, x).value, false)| < |[t[x].name] + q|
  {
    TerminalStep(t, q, x);
    NameThen(t[x].name, Ok([]));
    if |q| > 1 {
      LeafListVals(t[x].name, q[1]);
      var elem := PathElem(t[x].name, map[t[x].name := q[1]]);
      StringsCons(elem, []);
      assert [elem] + [] == [elem];
    }
  }

  lemma {:induction false} LateChoice(t: Tree, q: seq<string>, x: Id)
    requires 0 < x < |t| && t[x].kind.Choice? && q != []
    ensures BuildFrom(t, q, x).Ok? ==>
              (Strings(BuildFrom(t, q, x).value, false) == [t[x].name] + q <==> ReadLate(t, q, x))
    decreases |t| - x, 0
  {
    hide Strings, BuildFrom, FindInChoice;
    ChoiceStep(t, q, x);
    var y := FindInChoice(t, x, q[0]);
    if y.Some? {
      FoundBelow(t, x, q[0]);
      FoundName(t, x, q[0]);
      var b := BuildFrom(t, q[1..], y.value);
      NameThen(t[x].name, b);
      ReadsLate(t, q[1..], y.value);
      assert q == [q[0]] + q[1..];
      if b.Ok? { ConsSame(t[x].name, t[x].name, Strings(b.value, false), q); }
    }
  }

  lemma {:induction false} LateToChild(t: Tree, q: seq<string>, x: Id)
    requires 0 < x < |t| && t[x].kind.Container? && q != []
    requires q[0] in t[x].dir && t[x].dir[q[0]] < |t| && !t[t[x].dir[q[0]]].kind.Choice?
    ensures BuildFrom(t, q, x).Ok? ==>
              (Strings(BuildFrom(t, q, x).value, false) == [t[x].name] + q <==> ReadLate(t, q, x))
    decreases |t| - x, 0
  {
    hide Strings, BuildFrom;
    AnyContainerStep(t, q, x);
    DirFacts(t, x, q[0]);
    var b := BuildFrom(t, q, t[x].dir[q[0]]);
    NameThen(t[x].name, b);
    FlattenBack(t, q, t[x].dir[q[0]]);
    if b.Ok? { ConsSame(t[x].name, t[x].name, Strings(b.value, false), q); }
  }

  /** A child that is a choice makes the entry itself disappear. */
  lemma {:induction false} LateLost(t: Tree, q: seq<string>, x: Id)
    requires 0 < x < |t| && t[x].kind.Container? && q != []
    requires q[0] in t[x].dir && t[x].dir[q[0]] < |t| && t[t[x].dir[q[0]]].kind.Choice?
    ensures BuildFrom(t, q, x).Ok? ==> Strings(BuildFrom(t, q, x).value, false) != [t[x].name] + q
  {
    AnyContainerStep(t, q, x);
    DirFacts(t, x, q[0]);
    var ch := t[x].dir[q[0]];
    NameThen(q[0], Ok([]));
    if |q| > 1 {
      ChoiceStep(t, q[1..], ch);
      assert q[1..][1..] == q[2..];
      var y := FindInChoice(t, ch, q[1]);
      if y.Some? {
        FoundBelow(t, ch, q[1]);
        FoundName(t, ch, q[1]);
        ChoiceNamesNothing(t, ch);
        var b := BuildFrom(t, q[2..], y.value);
        NameThen(q[0], b);
        var w := [q[0], q[1]];
        assert w[0] != w[1];
        MixedNever(t, q[2..], y.value, w);
        assert q == w + q[2..];
        if b.Ok? { ConsSame(q[0], t[x].name, Strings(b.value, false), q); }
      }
    }
  }

  lemma {:induction false} LateOverChoice(t: Tree, q: seq<string>, x: Id)
    requires 0 < x < |t| && t[x].kind.Container? && q != [] && q[0] !in t[x].dir
    ensures BuildFrom(t, q, x).Ok? ==>
              (Strings(BuildFrom(t, q, x).value, false) == [t[x].name] + q <==> ReadLate(t, q, x))
    decreases |t| - x, 0
  {
    hide BuildFrom, Next;
    AnyContainerStep(t, q, x);
    NameThen(t[x].name, Ok([]));
    if |q| > 1 && Next(t, x, q[1]).Some? {
      var y := Next(t, x, q[1]).value;
      NextScoped(t, x, q[1]);
      var b := BuildFrom(t, q[1..], y);
      NameThen(t[x].name, b);
      ReadsLate(t, q[1..], y);
      NamedFirst(t, q[1..], y);
      assert q == [q[0]] + q[1..];
      if b.Ok? {
        FirstString(b.value);
        ConsSame(t[x].name, t[x].name, Strings(b.value, false), q);
      }
    }
  }

  lemma {:induction false} LateInList(t: Tree, q: seq<string>, x: Id)
    requires 0 < x < |t| && t[x].kind.List? && q != []
    ensures BuildFrom(t, q, x).Ok? ==>
              (Strings(BuildFrom(t, q, x).value, false) == [t[x].name] + q <==> ReadLate(t, q, x))
    decreases |t| - x, 0
  {
    hide BuildFrom, Next, SortedVals, SortedElem;
    var n, elem := ListStep(t, q, x);
    if |q| == n + 1 {
      StringsCons(elem, []);
      assert [elem] + [] == [elem];
      assert |Strings([elem], false)| == |q|;
    } else if Next(t, x, q[n + 1]).Some? {
      var y := Next(t, x, q[n + 1]).value;
      NextScoped(t, x, q[n + 1]);
      var b := BuildFrom(t, q[n + 1..], y);
      ReadsLate(t, q[n + 1..], y);
      NamedFirst(t, q[n + 1..], y);
      if b.Ok? {
        StringsCons(elem, b.value);
        FirstString(b.value);
        LateValues(t[x].name, q, n + 1, Strings(b.value, false));
      }
    }
  }

  /** Values read one item late are unchanged exactly when they all are the item after them. */
  lemma {:induction false} LateValues(a: string, q: seq<string>, m: nat, s: seq<string>)
    requires 0 < m < |q| && s != [] && s[0] == q[m]
    ensures [a] + q[1..m] + s == [a] + q <==> (forall i | 0 <= i < m :: q[i] == q[m]) && s == [q[m]] + q[m..]
  {
    Assoc([a], q[1..m], s);
    ConsSame(a, a, q[1..m] + s, q);
    var l := q[1..m] + s;
    if l == q {
      forall i | 0 <= i < m ensures q[i] == q[m] { Chain(q, l, m, i); }
      assert s == l[m - 1..] == q[m - 1..];
      assert q[m - 1..] == [q[m - 1]] + q[m..];
    }
    if (forall i | 0 <= i < m :: q[i] == q[m]) && s == [q[m]] + q[m..] {
      assert q[1..m] == q[..m - 1];
      assert q == q[..m - 1] + [q[m - 1]] + q[m..];
      Assoc(q[..m - 1], [q[m]], q[m..]);
    }
  }

  lemma {:induction false} Chain(q: seq<string>, l: seq<string>, m: nat, i: nat)
    requires i < m < |q| && l == q && |l| >= m && (forall j | 0 <= j < m - 1 :: l[j] == q[j + 1]) && l[m - 1] == q[m]
    ensures q[i] == q[m]
    decreases m - i
  {
    if i < m - 1 { Chain(q, l, m, i + 1); }
  }
}
