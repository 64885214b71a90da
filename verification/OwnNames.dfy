/** Containers with a child of their own name, and what such a name does to `buildPath`. */
module OwnNames {
  import opened Wrappers
  import opened XPath
  import opened YangTree
  import opened SchemaPaths
  import opened PathBuilder

  ghost predicate HasOwn(t: Links, e: Id)
    requires e < |t|
  {
    t[e].kind.Container? && t[e].name in t[e].dir
  }

  /** The child of `e` that has the name of `e`. */
  ghost function Own(t: Links, e: Id): (c: Id)
    requires e < |t| && HasOwn(t, e)
    ensures e < c < |t| && t[c].name == t[e].name && Up(t, c) == e && DataParent(t, c) == e && Scoped(t, c)
  {
    DirFacts(t, e, t[e].name);
    t[e].dir[t[e].name]
  }

  /** A container that has a choice of its own name. */
  ghost predicate OwnChoice(t: Links, e: Id)
    requires e < |t|
  {
    HasOwn(t, e) && t[Own(t, e)].kind.Choice?
  }

  /** A container that has a data child of its own name. */
  ghost predicate OwnData(t: Links, e: Id)
    requires e < |t|
  {
    HasOwn(t, e) && !t[Own(t, e)].kind.Choice?
  }

  // ----- one step of `buildPath`

  lemma {:induction false} ChoiceNamesNothing(t: Tree, ch: Id)
    requires 0 < ch < |t| && t[ch].kind.Choice?
    ensures FindInChoice(t, ch, t[ch].name) == None
  {
    var x := FindInChoice(t, ch, t[ch].name);
    if x.Some? {
      InCaseScope(t, ch, x.value);
      assert Scoped(t, ch);
      SameScope(t, ch, x.value);
    }
  }

  lemma {:induction false} NextScoped(t: Links, e: Id, n: string)
    requires e < |t| && IsData(t, e) && Next(t, e, n).Some?
    ensures Scoped(t, Next(t, e, n).value) && DataParent(t, Next(t, e, n).value) == e
  {
    var c := Next(t, e, n).value;
    if n in t[e].dir {
      DirFacts(t, e, n);
    } else {
      OneDeepScope(t, e, c);
    }
  }

  /** How a list takes up the items after its name. */
  lemma {:induction false} ListStep(t: Links, pe: seq<string>, e: Id) returns (n: nat, elem: PathElem)
    requires 0 < e < |t| && t[e].kind.List? && pe != []
    ensures n == if |t[e].keys| < |pe| - 1 then |t[e].keys| else |pe| - 1
    ensures n + 1 <= |pe| && elem.name == t[e].name && SortedVals(elem.key) == pe[1..n + 1]
    ensures elem == SortedElem(t, PathStep(e, pe[1..n + 1]))
    ensures |pe| == n + 1 ==> BuildFrom(t, pe, e) == Ok([elem])
    ensures |pe| > n + 1 ==>
              BuildFrom(t, pe, e) ==
              if Next(t, e, pe[n + 1]).None? then Err(UnknownElement)
              else After([elem], BuildFrom(t, pe[n + 1..], Next(t, e, pe[n + 1]).value))
  {
    hide Zip, SortedVals, SortedKeyNames, Next, After;
    SortedKeyFacts(t, e);
    n := if |t[e].keys| < |pe| - 1 then |t[e].keys| else |pe| - 1;
    elem := SortedElem(t, PathStep(e, pe[1..n + 1]));
    ZipSortedVals(SortedKeyNames(t, e), pe[1..n + 1]);
  }

  /** How a container that has no child of its own name takes up its name. */
  lemma {:induction false} ContainerStep(t: Links, pe: seq<string>, e: Id)
    requires 0 < e < |t| && t[e].kind.Container? && pe != [] && pe[0] == t[e].name && !HasOwn(t, e)
    ensures |pe| == 1 ==> BuildFrom(t, pe, e) == Ok([PathElem(t[e].name, map[])])
    ensures |pe| > 1 ==>
              BuildFrom(t, pe, e) ==
              if Next(t, e, pe[1]).None? then Err(UnknownElement)
              else After([PathElem(t[e].name, map[])], BuildFrom(t, pe[1..], Next(t, e, pe[1]).value))
  {
  }

  /** How a container with a child of its own name does. */
  lemma {:induction false} OwnStep(t: Links, pe: seq<string>, e: Id)
    requires 0 < e < |t| && HasOwn(t, e) && pe != [] && pe[0] == t[e].name
    ensures OwnData(t, e) ==> BuildFrom(t, pe, e) == After([PathElem(t[e].name, map[])], BuildFrom(t, pe, Own(t, e)))
    ensures OwnChoice(t, e) && |pe| == 1 ==> BuildFrom(t, pe, e) == Ok([PathElem(t[e].name, map[])])
    ensures OwnChoice(t, e) && |pe| > 1 ==>
              var x := FindInChoice(t, Own(t, e), pe[1]);
              BuildFrom(t, pe, e) ==
              if x.None? then Err(UnknownElement)
              else After([PathElem(t[e].name, map[])], BuildFrom(t, pe[2..], x.value))
  {
    assert |pe| > 1 ==> pe[1..][1..] == pe[2..];
  }

  lemma {:induction false} TerminalStep(t: Links, pe: seq<string>, e: Id)
    requires 0 < e < |t| && t[e].kind.IsTerminal() && pe != []
    ensures |pe| == 1 ==> BuildFrom(t, pe, e) == Ok([PathElem(t[e].name, map[])])
    ensures |pe| > 1 ==>
              BuildFrom(t, pe, e) ==
              if t[e].kind.LeafList? && |pe| == 2 then Ok([PathElem(t[e].name, map[t[e].name := pe[1]])])
              else Err(UnknownElement)
  {
  }

  /** A case adds no element: it hands the items on to the child the next one names, or to the
      child of its own name. */
  lemma {:induction false} CaseStep(t: Links, pe: seq<string>, e: Id)
    requires 0 < e < |t| && t[e].kind.Case? && pe != []
    ensures pe[0] in t[e].dir ==> (DirFacts(t, e, pe[0]); BuildFrom(t, pe, e) == BuildFrom(t, pe[1..], t[e].dir[pe[0]]))
    ensures pe[0] !in t[e].dir && t[e].name in t[e].dir ==>
              (DirFacts(t, e, t[e].name); BuildFrom(t, pe, e) == BuildFrom(t, pe, t[e].dir[t[e].name]))
    ensures pe[0] !in t[e].dir && t[e].name !in t[e].dir ==> BuildFrom(t, pe, e) == Err(UnknownElement)
  {
  }

  lemma {:induction false} BuiltNotEmpty(t: Links, pe: seq<string>, e: Id)
    requires e < |t|
    ensures BuildFrom(t, pe, e).Ok? ==> BuildFrom(t, pe, e).value != []
    decreases |t| - e
  {
    if pe != [] {
      if t[e].kind.Case? {
        if pe[0] in t[e].dir {
          DirFacts(t, e, pe[0]);
          BuiltNotEmpty(t, pe[1..], t[e].dir[pe[0]]);
        } else if t[e].name in t[e].dir {
          DirFacts(t, e, t[e].name);
          BuiltNotEmpty(t, pe, t[e].dir[t[e].name]);
        }
      } else if t[e].kind.Container? && pe[0] in t[e].dir {
        DirFacts(t, e, pe[0]);
        BuiltNotEmpty(t, pe[1..], t[e].dir[pe[0]]);
      }
    }
  }

  /** An entry reached by its name puts that name first; a choice is never reached so. */
  lemma {:induction false} NamedFirst(t: Tree, pe: seq<string>, e: Id)
    requires Scoped(t, e) && pe != [] && pe[0] == t[e].name
    ensures BuildFrom(t, pe, e).Ok? ==>
              IsData(t, e) && BuildFrom(t, pe, e).value != [] && BuildFrom(t, pe, e).value[0].name == t[e].name
  {
    match t[e].kind {
      case Choice => ChoiceNamesNothing(t, e);
      case Container => if HasOwn(t, e) { OwnStep(t, pe, e); } else { ContainerStep(t, pe, e); }
      case List => var n, elem := ListStep(t, pe, e);
      case _ => TerminalStep(t, pe, e);
    }
  }

  // ----- flattening an element and what follows

  lemma {:induction false} StringsCons(pe: PathElem, rest: seq<PathElem>)
    ensures Strings([pe] + rest, false) == [pe.name] + SortedVals(pe.key) + Strings(rest, false)
  {
    assert ([pe] + rest)[1..] == rest;
  }

  lemma {:induction false} NoVals()
    ensures SortedVals(map[]) == []
  {
  }

  lemma {:induction false} LeafListVals(name: string, v: string)
    ensures SortedVals(map[name := v]) == [v]
  {
    ZipSortedVals([name], [v]);
    assert Zip([name], [v]) == map[][name := v];
  }

  /** An element that takes up the first `n + 1` items flattens to them. */
  lemma {:induction false} PrependStrings(elem: PathElem, rest: seq<PathElem>, pe: seq<string>, n: nat)
    requires n + 1 <= |pe| && elem.name == pe[0] && SortedVals(elem.key) == pe[1..n + 1]
    ensures Strings([elem] + rest, false) == pe[..n + 1] + Strings(rest, false)
    ensures Strings([elem] + rest, false) == pe <==> Strings(rest, false) == pe[n + 1..]
    ensures |pe| == n + 1 ==> Strings([elem], false) == pe
  {
    StringsCons(elem, rest);
    NoStrings();
    hide Strings, SortedVals;
    assert [pe[0]] + pe[1..n + 1] == pe[..n + 1];
    SplitAt(pe, n + 1, Strings(rest, false));
    if |pe| == n + 1 {
      assert [elem] + [] == [elem];
      StringsCons(elem, []);
      assert pe[..n + 1] + [] == pe;
    }
  }

  lemma {:induction false} NoStrings()
    ensures Strings([], false) == []
  {
  }

  lemma {:induction false} SplitAt(pe: seq<string>, n: nat, tail: seq<string>)
    requires n <= |pe|
    ensures pe[..n] + tail == pe <==> tail == pe[n..]
  {
    assert pe == pe[..n] + pe[n..];
    assert (pe[..n] + tail)[n..] == tail;
  }

  // ----- an item too many is never made up for

  /** A text whose shift by `k` starts as the text itself, and whose first `k` items are all
      `n`, goes on with `n`. */
  lemma {:induction false} Period(pe: seq<string>, k: nat, m: nat, n: string, i: nat)
    requires k > 0 && k + m <= |pe| && i < k + m
    requires (forall j | 0 <= j < k :: pe[j] == n) && (forall j | 0 <= j < m :: pe[k + j] == pe[j])
    ensures pe[i] == n
    decreases i
  {
    if i >= k { Period(pe, k, m, n, i - k); }
  }

  /** When the first `k` items repeat the entry's name, the result never flattens to the items
      after them. */
  lemma {:induction false} ExtraNever(t: Tree, pe: seq<string>, e: Id, k: nat)
    requires Scoped(t, e) && 0 < k <= |pe| && forall i | 0 <= i < k :: pe[i] == t[e].name
    ensures BuildFrom(t, pe, e).Ok? ==> Strings(BuildFrom(t, pe, e).value, false) != pe[k..]
    decreases |t| - e
  {
    var b := BuildFrom(t, pe, e);
    if b.Ok? && Strings(b.value, false) == pe[k..] {
      NamedFirst(t, pe, e);
      assert b.value == [b.value[0]] + b.value[1..];
      StringsCons(b.value[0], b.value[1..]);
      assert |pe| > k && pe[k] == t[e].name && pe[1] == t[e].name;
      match t[e].kind {
        case Container => ExtraInContainer(t, pe, e, k);
        case List => ExtraInList(t, pe, e, k);
        case _ => ExtraInTerminal(t, pe, e, k);
      }
    }
  }

  lemma {:induction false} ExtraInTerminal(t: Tree, pe: seq<string>, e: Id, k: nat)
    requires 0 < e < |t| && t[e].kind.IsTerminal() && 0 < k < |pe|
    ensures BuildFrom(t, pe, e).Ok? ==> |Strings(BuildFrom(t, pe, e).value, false)| > |pe| - k
  {
    TerminalStep(t, pe, e);
    LeafListVals(t[e].name, pe[1]);
    var elem := PathElem(t[e].name, map[t[e].name := pe[1]]);
    assert [elem] + [] == [elem];
    StringsCons(elem, []);
  }

  lemma {:induction false} ExtraInContainer(t: Tree, pe: seq<string>, e: Id, k: nat)
    requires 0 < e < |t| && t[e].kind.Container? && 0 < k < |pe| && forall i | 0 <= i <= k :: pe[i] == t[e].name
    ensures BuildFrom(t, pe, e).Ok? ==> Strings(BuildFrom(t, pe, e).value, false) != pe[k..]
    decreases |t| - e, 0
  {
    var cpe := PathElem(t[e].name, map[]);
    NoVals();
    assert pe[1] == t[e].name;
    if HasOwn(t, e) {
      OwnStep(t, pe, e);
      if OwnChoice(t, e) {
        ChoiceNamesNothing(t, Own(t, e));
      } else {
        ExtraNever(t, pe, Own(t, e), k + 1);
        var b := BuildFrom(t, pe, Own(t, e));
        if b.Ok? { PrependStrings(cpe, b.value, pe[k..], 0); }
        assert pe[k..][1..] == pe[k + 1..];
      }
    } else {
      ContainerStep(t, pe, e);
      var c := Next(t, e, pe[1]);
      if c.Some? {
        NextScoped(t, e, pe[1]);
        ExtraNever(t, pe[1..], c.value, k);
        var b := BuildFrom(t, pe[1..], c.value);
        if b.Ok? { PrependStrings(cpe, b.value, pe[k..], 0); }
        assert pe[k..][1..] == pe[1..][k..];
      }
    }
  }

  lemma {:induction false} ExtraInList(t: Tree, pe: seq<string>, e: Id, k: nat)
    requires 0 < e < |t| && t[e].kind.List? && 0 < k < |pe| && forall i | 0 <= i <= k :: pe[i] == t[e].name
    ensures BuildFrom(t, pe, e).Ok? ==> Strings(BuildFrom(t, pe, e).value, false) != pe[k..]
    decreases |t| - e, 0
  {
    var n, elem := ListStep(t, pe, e);
    if |pe| == n + 1 {
      PrependStrings(elem, [], pe, n);
    } else {
      var c := Next(t, e, pe[n + 1]);
      if c.Some? {
        var b := BuildFrom(t, pe[n + 1..], c.value);
        if b.Ok? {
          PrependStrings(elem, b.value, pe, n);
          if Strings([elem] + b.value, false) == pe[k..] {
            ShiftedTail(pe, k, n + 1, t[e].name, Strings(b.value, false));
            NextScoped(t, e, pe[n + 1]);
            ExtraNever(t, pe[n + 1..], c.value, k);
          }
        }
      }
    }
  }

  lemma {:induction false} ShiftedTail(pe: seq<string>, k: nat, m: nat, n: string, rest: seq<string>)
    requires 0 < k && m <= |pe| && k <= |pe| && pe[..m] + rest == pe[k..] && forall j | 0 <= j < k :: pe[j] == n
    ensures m + k <= |pe| && rest == pe[m..][k..] && forall j | 0 <= j < k :: pe[m..][j] == n
  {
    var tail := pe[k..];
    assert |tail| == m + |rest|;
    forall j | 0 <= j < m ensures pe[k + j] == pe[j] { assert tail[j] == (pe[..m] + rest)[j]; }
    forall j | 0 <= j < k ensures pe[m..][j] == n { Period(pe, k, m, n, m + j); }
    assert rest == tail[m..];
    assert pe[m..][k..] == pe[k..][m..];
  }
}
