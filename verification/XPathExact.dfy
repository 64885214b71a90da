/** What parsing gives for texts that the printer does not write: origins, misplaced brackets
    and malformed predicates. */
module XPathExact {
  import opened Wrappers
  import opened Text
  import opened XPath
  import opened XPathRoundTrip
  import opened XPathScanners

  function WithOrigin(origin: string, r: Outcome<seq<PathElem>, XPathError>): Outcome<Path, XPathError> {
    match r
    case Err(e) => Err(e)
    case Ok(es) => Ok(Path(origin, es))
  }

  // ----- origins

  /** `p` is the origin `o`, a colon, and either nothing more or a slash and what follows. */
  ghost predicate OriginAt(p: string, o: string, rest: string) {
    p == o + ":" + rest && ':' !in o && '/' !in o && (rest == "" || rest[0] == '/')
  }

  /** What follows the colon behind an origin are the elements. */
  lemma {:induction false} ParseOrigin(p: string, o: string, rest: string)
    requires OriginAt(p, o, rest)
    ensures Parse(p) == WithOrigin(o, ParseElems(rest))
  {
    hide ParseElems;
    FirstOccurrence(o, ':', rest);
    assert p == o + [':'] + rest;
    if o != "" { assert p[0] == o[0] && o[0] in o; }
  }

  /** Any other text has no origin. */
  lemma {:induction false} ParseNoOrigin(p: string)
    requires forall o, rest :: !OriginAt(p, o, rest)
    ensures Parse(p) == WithOrigin("", ParseElems(p))
  {
    hide ParseElems;
    if p == "" { ParseNothing(); }
    var i := IndexOf(p, ':');
    if i < |p| {
      var o, rest := p[..i], p[i + 1..];
      assert p == o + ":" + rest && ':' !in o;
      assert rest != "" ==> rest[0] == p[i + 1];
      assert !OriginAt(p, o, rest);
    }
  }

  /** A path behind an origin is recovered together with the origin. */
  lemma {:induction false} OriginPath(o: string, es: seq<PathElem>)
    requires ':' !in o && '/' !in o && forall i | 0 <= i < |es| :: Printable(es[i])
    ensures Parse(o + ":/" + EscapedXPath(es)) == Ok(Path(o, es))
  {
    hide Parse, Printable, ParseElems, EscapedXPath;
    var text := EscapedXPath(es);
    ParseSlash(es);
    Assoc(o + ":", "/", text);
    assert o + ":" + "/" == o + ":/";
    ParseOrigin(o + ":/" + text, o, "/" + text);
  }

  lemma {:induction false} ParseSlash(es: seq<PathElem>)
    requires forall i | 0 <= i < |es| :: Printable(es[i])
    ensures ParseElems("/" + EscapedXPath(es)) == Ok(es)
  {
    hide Printable, ParseElems, Decodes;
    if es == [] {
      NoElements();
    } else {
      DecodesRaws(es);
      assert Raws(es) != [];
      ParseAbsolute(Raws(es));
    }
  }

  lemma {:induction false} NoElements()
    ensures ParseElems("/" + EscapedXPath([])) == Ok([])
  {
    BlankStart();
    BlankSegments();
    assert "/" + EscapedXPath([]) == "/";
  }

  /** Without keys, only the names are printed. */
  lemma {:induction false} NamesPrinted(origin: string, es: seq<PathElem>)
    ensures XPathOf(Path(origin, es), true) ==
            XPathOf(Path(origin, seq(|es|, i requires 0 <= i < |es| => PathElem(es[i].name, map[]))), false)
  {
    var bare := seq(|es|, i requires 0 <= i < |es| => PathElem(es[i].name, map[]));
    NoKeysPrinted(es, bare);
  }

  lemma {:induction false} NoKeysPrinted(es: seq<PathElem>, bare: seq<PathElem>)
    requires |bare| == |es| && forall i | 0 <= i < |es| :: bare[i] == PathElem(es[i].name, map[])
    ensures ElemTexts(es, true) == ElemTexts(bare, false)
  {
    if es != [] {
      var n := |es| - 1;
      NoKeysPrinted(es[..n], bare[..n]);
      BareText(es[n]);
    }
  }

  lemma {:induction false} BareText(pe: PathElem)
    ensures ElemText(pe, true) == ElemText(PathElem(pe.name, map[]), false)
  {
    LexStrictTotal();
    assert SortedKeys(map[]) == [];
  }

  // ----- brackets

  lemma {:induction false} ScannerNests(p: string)
    ensures var st, n := ScanRun(START, p), NestRun(OUTSIDE, p);
            (st.Stuck? <==> n.Broken?) && (st.Scan? ==> st.inKey == n.inKey && st.prev == n.prev)
  {
    if p != [] { ScannerNests(p[..|p| - 1]); }
  }

  /** A text is malformed exactly when its unescaped brackets are not balanced and flat. */
  lemma {:induction false} MalformedExactly(p: string)
    requires NUL !in p
    ensures ParseElems(p) == Err(MalformedXPath) <==> !Balanced(Slashed(p))
  {
    ScannersAgree(p);
    ScannerNests(Slashed(p));
  }

  predicate OpensAt(s: string, i: nat)
    requires i < |s|
  {
    s[i] == '[' && (i == 0 || s[i - 1] != '\\')
  }

  lemma {:induction false} OpenAtIsFirst(s: string, prev: char)
    ensures var i := OpenAt(s, prev);
            && (i < |s| ==> s[i] == '[' && (if i == 0 then prev != '\\' else s[i - 1] != '\\'))
            && forall j | 0 <= j < i :: !(s[j] == '[' && (if j == 0 then prev != '\\' else s[j - 1] != '\\'))
  {
    if s != [] && !(s[0] == '[' && prev != '\\') {
      OpenAtIsFirst(s[1..], s[0]);
      var k := OpenAt(s[1..], s[0]);
      forall j | 0 < j < 1 + k ensures !(s[j] == '[' && s[j - 1] != '\\') {
        assert s[j] == s[1..][j - 1];
        if j > 1 { assert s[j - 1] == s[1..][j - 2]; }
      }
    }
  }

  /** The name of an element ends at its first unescaped bracket; an element that has none, or
      starts with it, is all name. */
  lemma {:induction false} NameEnds(s: string, i: nat)
    requires i < |s| && OpensAt(s, i) && forall j | 0 <= j < i :: !OpensAt(s, j)
    ensures ParseElem(s) ==
            if i == 0 then Ok(PathElem(s, map[]))
            else match ParseKeys(s[i..]) case Err(e) => Err(e) case Ok(kvs) => Ok(PathElem(s[..i], kvs))
  {
    hide ParseKeys;
    OpenAtIsFirst(s, NUL);
    var k := OpenAt(s, NUL);
    assert k < |s| ==> OpensAt(s, k);
  }

  lemma {:induction false} AllName(s: string)
    requires forall j | 0 <= j < |s| :: !OpensAt(s, j)
    ensures ParseElem(s) == Ok(PathElem(s, map[]))
  {
    OpenAtIsFirst(s, NUL);
    var k := OpenAt(s, NUL);
    if k < |s| { assert OpensAt(s, k); }
  }

  // ----- predicates

  /** A key and a value, both non-empty, with the first `=` between them. */
  ghost predicate Splits(body: string, k: string, v: string) {
    k != "" && v != "" && '=' !in k && body == k + "=" + v
  }

  lemma {:induction false} KeyValueExactly(body: string)
    ensures (exists k, v :: Splits(body, k, v)) <==> KeyValue(body).Ok?
    ensures KeyValue(body).Ok? || KeyValue(body) == Err(BadKeyValue)
    ensures forall k, v | Splits(body, k, v) :: KeyValue(body) == Ok((Unescape(k), Unescape(v)))
  {
    hide Unescape;
    var i := IndexOf(body, '=');
    if KeyValue(body).Ok? {
      assert body == body[..i] + "=" + body[i + 1..];
      assert Splits(body, body[..i], body[i + 1..]);
    }
    forall k, v | Splits(body, k, v) ensures KeyValue(body) == Ok((Unescape(k), Unescape(v))) {
      FirstOccurrence(k, '=', v);
      assert body == k + ['='] + v;
    }
  }

  /** What one more predicate does: it sets its key, or makes the whole text malformed. */
  lemma {:induction false} OnePredicate(a: string, body: string)
    requires var st := KeyRun(KEY_START, a); st.KeyScan? && !st.inKey && st.prev != '\\'
    requires Quoted('[', body) && Last('[', body) != '\\'
    ensures forall k, v | Splits(body, k, v) ::
              ParseKeys(a + "[" + body + "]") == Ok(KeyRun(KEY_START, a).kvs[Unescape(k) := Unescape(v)])
    ensures (forall k, v :: !Splits(body, k, v)) ==> ParseKeys(a + "[" + body + "]") == Err(BadKeyValue)
  {
    hide KeyValue, Unescape;
    var st := KeyRun(KEY_START, a);
    KeyAppend(KEY_START, a, "[");
    KeyOne(st, '[');
    var st1 := KeyScan(st.kvs, true, "", '[');
    KeyAppend(KEY_START, a + "[", body);
    KeyInside(st.kvs, "", '[', body);
    assert "" + body == body;
    KeyAppend(KEY_START, a + "[" + body, "]");
    KeyOne(KeyRun(st1, body), ']');
    KeyValueExactly(body);
  }

  /** Text whose brackets are nested or left open is refused. */
  lemma {:induction false} UnbalancedKeys(s: string)
    requires !Balanced(s)
    ensures ParseKeys(s).Err?
  {
    KeysNest(s);
  }

  lemma {:induction false} KeysNest(s: string)
    ensures var ks, n := KeyRun(KEY_START, s), NestRun(OUTSIDE, s);
            ks.Failed? || (n.Nesting? && ks.inKey == n.inKey && ks.prev == n.prev)
  {
    if s != [] { KeysNest(s[..|s| - 1]); }
  }

  /** Text between and after predicates is ignored. */
  lemma {:induction false} TextIgnored(a: string, x: string)
    requires var st := KeyRun(KEY_START, a); st.KeyScan? && !st.inKey
    requires '[' !in x && ']' !in x
    ensures var st := KeyRun(KEY_START, a + x); st.KeyScan? && !st.inKey && st.kvs == KeyRun(KEY_START, a).kvs
    ensures ParseKeys(a + x) == ParseKeys(a)
    decreases |x|
  {
    if x == [] {
      assert a + x == a;
    } else {
      var y, c := x[..|x| - 1], x[|x| - 1];
      TextIgnored(a, y);
      Unsnoc(x);
      Assoc(a, y, [c]);
      KeyAppend(KEY_START, a + y, [c]);
      KeyOne(KeyRun(KEY_START, a + y), c);
      assert c in x;
    }
  }
}
