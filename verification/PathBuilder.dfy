/** `BuildPath`: a flat list of names and key values becomes a keyed path
    (`pkg/schema/object.go`). */
module PathBuilder {
  import opened Wrappers
  import opened Text
  import opened XPath
  import opened YangTree
  import opened SchemaPaths

  datatype BuildError = UnknownElement

  type Built = Outcome<seq<PathElem>, BuildError>

  // ----- nodes inside a choice

  /** `x` sits in a case of the choice `ch`. */
  ghost predicate InCaseOf(t: Links, ch: Id, x: Id) {
    0 < x < |t| && (UpFacts(t, x); Up(t, x) > 0 && t[Up(t, x)].kind.Case? && Up(t, Up(t, x)) == ch)
  }

  /** `x` sits in a case of a choice of `e`. */
  ghost predicate OneDeep(t: Links, e: Id, x: Id) {
    0 < x < |t| &&
    (UpFacts(t, x);
     Up(t, x) > 0 && t[Up(t, x)].kind.Case? &&
     (UpFacts(t, Up(t, x)); UpFacts(t, Up(t, Up(t, x)));
      Up(t, Up(t, Up(t, x))) == e))
  }

  ghost function Named(t: Links, n: string, p: Id -> bool): (r: Option<Id>)
    ensures r.Some? ==> r.value < |t| && t[r.value].name == n && p(r.value)
    ensures r.None? ==> forall x: Id | x < |t| && p(x) :: t[x].name != n
  {
    if exists x: Id :: x < |t| && t[x].name == n && p(x) then
      var x: Id :| x < |t| && t[x].name == n && p(x); Some(x)
    else None
  }

  /** What `findChoiceCase` looks for. */
  ghost function FindOneDeep(t: Links, e: Id, n: string): (r: Option<Id>)
    ensures r.Some? ==> OneDeep(t, e, r.value) && t[r.value].name == n
    ensures r.None? ==> forall x: Id | OneDeep(t, e, x) :: t[x].name != n
  {
    Named(t, n, (x: Id) => OneDeep(t, e, x))
  }

  ghost function FindInChoice(t: Links, ch: Id, n: string): (r: Option<Id>)
    ensures r.Some? ==> InCaseOf(t, ch, r.value) && t[r.value].name == n
    ensures r.None? ==> forall x: Id | InCaseOf(t, ch, x) :: t[x].name != n
  {
    Named(t, n, (x: Id) => InCaseOf(t, ch, x))
  }

  lemma {:induction false} OneDeepScope(t: Links, e: Id, x: Id)
    requires e < |t| && IsData(t, e) && OneDeep(t, e, x)
    ensures Scoped(t, x) && DataParent(t, x) == e && e < x
  {
    UpFacts(t, x);
    UpFacts(t, Up(t, x));
    UpFacts(t, Up(t, Up(t, x)));
  }

  lemma {:induction false} InCaseScope(t: Links, ch: Id, x: Id)
    requires 0 < ch < |t| && t[ch].kind.Choice? && InCaseOf(t, ch, x)
    ensures Scoped(t, x) && DataParent(t, x) == DataParent(t, ch) && ch < x
  {
    UpFacts(t, x);
    UpFacts(t, Up(t, x));
  }

  lemma {:induction false} OneDeepUnique(t: Tree, e: Id, x: Id, y: Id)
    requires e < |t| && IsData(t, e) && OneDeep(t, e, x) && OneDeep(t, e, y) && t[x].name == t[y].name
    ensures x == y
  {
    OneDeepScope(t, e, x);
    OneDeepScope(t, e, y);
    SameScope(t, x, y);
  }

  lemma {:induction false} FoundOneDeep(t: Tree, e: Id, x: Id)
    requires e < |t| && IsData(t, e) && OneDeep(t, e, x)
    ensures FindOneDeep(t, e, t[x].name) == Some(x)
  {
    OneDeepUnique(t, e, x, FindOneDeep(t, e, t[x].name).value);
  }

  lemma {:induction false} FoundInChoice(t: Tree, ch: Id, x: Id)
    requires 0 < ch < |t| && t[ch].kind.Choice? && InCaseOf(t, ch, x)
    ensures FindInChoice(t, ch, t[x].name) == Some(x)
  {
    var y := FindInChoice(t, ch, t[x].name).value;
    InCaseScope(t, ch, x);
    InCaseScope(t, ch, y);
    SameScope(t, x, y);
  }

  ghost function CaseName(t: Links, x: Id): string
    requires 0 < x < |t|
  {
    UpFacts(t, x);
    t[Up(t, x)].name
  }

  ghost function ChoiceName(t: Links, x: Id): string
    requires 0 < x < |t|
  {
    UpFacts(t, x);
    if Up(t, x) == 0 then "" else CaseName(t, Up(t, x))
  }

  /** The loop over the cases of one choice, in any order. */
  method SearchCases(t: Tree, ch: Id, n: string) returns (r: Option<Id>)
    requires 0 < ch < |t| && t[ch].kind.Choice?
    ensures r == FindInChoice(t, ch, n)
  {
    var todo := t[ch].dir.Keys;
    forall x: Id | InCaseOf(t, ch, x) ensures CaseName(t, x) in todo {
      UpFacts(t, x);
      UpFacts(t, Up(t, x));
    }
    while todo != {}
      invariant todo <= t[ch].dir.Keys
      invariant forall x: Id | InCaseOf(t, ch, x) && t[x].name == n :: CaseName(t, x) in todo
    {
      var c :| c in todo;
      var entry := t[ch].dir[c];
      DirFacts(t, ch, c);
      if n in t[entry].dir {
        DirFacts(t, entry, n);
        FoundInChoice(t, ch, t[entry].dir[n]);
        return Some(t[entry].dir[n]);
      }
      forall x: Id | InCaseOf(t, ch, x) && t[x].name == n ensures CaseName(t, x) != c {
        UpFacts(t, x);
        UpFacts(t, Up(t, x));
      }
      todo := todo - {c};
    }
    r := None;
  }

  /** `findChoiceCase`, for every order in which the maps are walked. */
  method FindChoiceCase(t: Tree, e: Id, n: string) returns (r: Option<Id>)
    requires e < |t| && IsData(t, e)
    ensures r == FindOneDeep(t, e, n)
  {
    var todo := t[e].dir.Keys;
    forall x: Id | OneDeep(t, e, x) ensures ChoiceName(t, x) in todo { ChoiceOfOneDeep(t, e, x); }
    while todo != {}
      invariant todo <= t[e].dir.Keys
      invariant forall x: Id | OneDeep(t, e, x) && t[x].name == n :: ChoiceName(t, x) in todo
    {
      var c :| c in todo;
      var ch := t[e].dir[c];
      DirFacts(t, e, c);
      if t[ch].kind.Choice? {
        var hit := SearchCases(t, ch, n);
        if hit.Some? {
          InCaseIsOneDeep(t, e, ch, hit.value);
          FoundOneDeep(t, e, hit.value);
          return hit;
        }
      }
      forall x: Id | OneDeep(t, e, x) && t[x].name == n ensures ChoiceName(t, x) != c {
        ChoiceOfOneDeep(t, e, x);
      }
      todo := todo - {c};
    }
    r := None;
  }

  lemma {:induction false} ChoiceOfOneDeep(t: Links, e: Id, x: Id)
    requires e < |t| && OneDeep(t, e, x)
    ensures Up(t, x) < |t| && Up(t, Up(t, x)) < |t|
    ensures var ch := Up(t, Up(t, x));
            t[ch].kind.Choice? && t[ch].name in t[e].dir && t[e].dir[t[ch].name] == ch && InCaseOf(t, ch, x)
  {
    UpFacts(t, x);
    UpFacts(t, Up(t, x));
    UpFacts(t, Up(t, Up(t, x)));
  }

  lemma {:induction false} InCaseIsOneDeep(t: Links, e: Id, ch: Id, x: Id)
    requires e < |t| && 0 < ch < |t| && Up(t, ch) == e && t[ch].kind.Choice? && InCaseOf(t, ch, x)
    ensures OneDeep(t, e, x)
  {
    UpFacts(t, x);
    UpFacts(t, Up(t, x));
  }

  // ----- buildPath

  /** The child named by the next item, directly in `Dir` or one choice deeper. */
  ghost function Next(t: Links, e: Id, n: string): (r: Option<Id>)
    requires e < |t|
    ensures r.Some? ==> e < r.value < |t| && t[r.value].name == n
  {
    if n in t[e].dir then DirFacts(t, e, n); Some(t[e].dir[n])
    else
      var x := FindOneDeep(t, e, n);
      if x.None? then None
      else
        UpFacts(t, x.value); UpFacts(t, Up(t, x.value)); UpFacts(t, Up(t, Up(t, x.value)));
        x
  }

  /** The elements that `buildPath` appends for the items `pe`, the first of which led to `e`. */
  ghost function BuildFrom(t: Links, pe: seq<string>, e: Id): Built
    requires e < |t|
    decreases |t| - e
  {
    var cpe := PathElem(t[e].name, map[]);
    if pe == [] then Ok([cpe])
    else
      match t[e].kind
      case List =>
        SortedKeyFacts(t, e);
        var keys := SortedKeyNames(t, e);
        var n := if |keys| < |pe| - 1 then |keys| else |pe| - 1;
        var elem := PathElem(t[e].name, Zip(keys, pe[1..n + 1]));
        if |pe| == n + 1 then Ok([elem])
        else
          var nxt := Next(t, e, pe[n + 1]);
          if nxt.None? then Err(UnknownElement) else After([elem], BuildFrom(t, pe[n + 1..], nxt.value))
      case Choice =>
        var x := FindInChoice(t, e, pe[0]);
        if x.None? then Err(UnknownElement)
        else
          UpFacts(t, x.value); UpFacts(t, Up(t, x.value));
          After([cpe], BuildFrom(t, pe[1..], x.value))
      case Case =>
        if pe[0] in t[e].dir then DirFacts(t, e, pe[0]); BuildFrom(t, pe[1..], t[e].dir[pe[0]])
        else if t[e].name in t[e].dir then DirFacts(t, e, t[e].name); BuildFrom(t, pe, t[e].dir[t[e].name])
        else Err(UnknownElement)
      case Container =>
        if pe[0] in t[e].dir then
          DirFacts(t, e, pe[0]);
          var own := t[e].dir[pe[0]];
          if t[own].kind.Choice? then BuildFrom(t, pe[1..], own) else After([cpe], BuildFrom(t, pe, own))
        else if |pe| == 1 then Ok([cpe])
        else
          var nxt := Next(t, e, pe[1]);
          if nxt.None? then Err(UnknownElement) else After([cpe], BuildFrom(t, pe[1..], nxt.value))
      case Leaf => if |pe| != 1 then Err(UnknownElement) else Ok([cpe])
      case LeafList =>
        if |pe| == 1 then Ok([cpe])
        else if |pe| == 2 then Ok([PathElem(t[e].name, map[t[e].name := pe[1]])])
        else Err(UnknownElement)
  }

  function After(first: seq<PathElem>, rest: Built): Built {
    match rest
    case Err(x) => Err(x)
    case Ok(es) => Ok(first + es)
  }

  /** Assign the items that follow a list name to its sorted keys, as far as they go. */
  method AssignKeys(keys: seq<string>, pe: seq<string>) returns (key: map<string, string>, count: nat)
    requires pe != []
    ensures count == (if |keys| < |pe| - 1 then |keys| else |pe| - 1) + 1
    ensures key == Zip(keys, pe[1..count])
  {
    key, count := map[], 1;
    for i := 0 to |keys|
      invariant count == (if i < |pe| - 1 then i else |pe| - 1) + 1
      invariant key == Zip(keys, pe[1..count])
    {
      if i + 1 >= |pe| { break; }
      SliceNext(pe, 1, i + 1);
      assert pe[1..i + 2][..i] == pe[1..i + 1];
      key := key[keys[i] := pe[i + 1]];
      count := count + 1;
    }
  }

  /** `buildPath`. */
  method BuildPathFrom(t: Tree, pe: seq<string>, elems: seq<PathElem>, e: Id) returns (r: Built)
    requires e < |t|
    ensures r == After(elems, BuildFrom(t, pe, e))
    decreases |t| - e
  {
    var cpe := PathElem(t[e].name, map[]);
    if pe == [] { return Ok(elems + [cpe]); }
    match t[e].kind {
      case List =>
        SortedKeyFacts(t, e);
        var key, count := AssignKeys(SortedKeyNames(t, e), pe);
        cpe := PathElem(t[e].name, key);
        if |pe| == count { return Ok(elems + [cpe]); }
        var nxt := FindNext(t, e, pe[count]);
        if nxt.None? { return Err(UnknownElement); }
        r := BuildPathFrom(t, pe[count..], elems + [cpe], nxt.value);
        Appended(elems, cpe, BuildFrom(t, pe[count..], nxt.value));
      case Choice =>
        var nxt := SearchCases(t, e, pe[0]);
        if nxt.None? { return Err(UnknownElement); }
        UpFacts(t, nxt.value);
        UpFacts(t, Up(t, nxt.value));
        r := BuildPathFrom(t, pe[1..], elems + [cpe], nxt.value);
        Appended(elems, cpe, BuildFrom(t, pe[1..], nxt.value));
      case Case =>
        if pe[0] in t[e].dir {
          DirFacts(t, e, pe[0]);
          r := BuildPathFrom(t, pe[1..], elems, t[e].dir[pe[0]]);
        } else if t[e].name in t[e].dir {
          DirFacts(t, e, t[e].name);
          r := BuildPathFrom(t, pe, elems, t[e].dir[t[e].name]);
        } else {
          r := Err(UnknownElement);
        }
      case Container =>
        if pe[0] in t[e].dir {
          DirFacts(t, e, pe[0]);
          var own := t[e].dir[pe[0]];
          if t[own].kind.Choice? {
            r := BuildPathFrom(t, pe[1..], elems, own);
          } else {
            r := BuildPathFrom(t, pe, elems + [cpe], own);
            Appended(elems, cpe, BuildFrom(t, pe, own));
          }
          return;
        }
        if |pe| == 1 { return Ok(elems + [cpe]); }
        var nxt := FindNext(t, e, pe[1]);
        if nxt.None? { return Err(UnknownElement); }
        r := BuildPathFrom(t, pe[1..], elems + [cpe], nxt.value);
        Appended(elems, cpe, BuildFrom(t, pe[1..], nxt.value));
      case Leaf =>
        r := if |pe| != 1 then Err(UnknownElement) else Ok(elems + [cpe]);
      case LeafList =>
        if |pe| == 1 {
          r := Ok(elems + [cpe]);
        } else if |pe| == 2 {
          r := Ok(elems + [PathElem(t[e].name, map[t[e].name := pe[1]])]);
        } else {
          r := Err(UnknownElement);
        }
    }
  }

  lemma {:induction false} Appended(elems: seq<PathElem>, cpe: PathElem, rest: Built)
    ensures After(elems + [cpe], rest) == After(elems, After([cpe], rest))
  {
    if rest.Ok? { Assoc(elems, [cpe], rest.value); }
  }

  method FindNext(t: Tree, e: Id, n: string) returns (r: Option<Id>)
    requires e < |t| && IsData(t, e)
    ensures r == Next(t, e, n)
  {
    if n in t[e].dir { return Some(t[e].dir[n]); }
    r := FindChoiceCase(t, e, n);
  }
}
