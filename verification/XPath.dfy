/** XPath text: the two bracket scanners, the key parser and the printer of
    `pkg/utils/path.go`. */
module XPath {
  import opened Wrappers
  import opened Text

  datatype PathElem = PathElem(name: string, key: map<string, string>)

  datatype Path = Path(origin: string, elem: seq<PathElem>)

  /** `errMalformedXPath`, and the two causes of `errMalformedXPathKey`. */
  datatype XPathError = MalformedXPath | BadNesting | BadKeyValue

  const NUL: char := '\0'

  // ----- the outer scanner: slashes outside brackets become NUL

  datatype Scan = Scan(buf: string, inKey: bool, prev: char) | Stuck

  const START: Scan := Scan("", false, NUL)

  function ScanStep(st: Scan, r: char): Scan {
    if st.Stuck? then Stuck
    else if r == '[' && st.prev != '\\' then
      if st.inKey then Stuck else Scan(st.buf + [r], true, r)
    else if r == ']' && st.prev != '\\' then
      if !st.inKey then Stuck else Scan(st.buf + [r], false, r)
    else if r == '/' && !st.inKey then Scan(st.buf + [NUL], false, r)
    else Scan(st.buf + [r], st.inKey, r)
  }

  function ScanRun(st: Scan, s: string): Scan {
    if s == [] then st else ScanStep(ScanRun(st, s[..|s| - 1]), s[|s| - 1])
  }

  lemma {:induction false} ScanAppend(st: Scan, a: string, b: string)
    ensures ScanRun(st, a + b) == ScanRun(ScanRun(st, a), b)
  {
    if b == [] {
      assert a + b == a;
    } else {
      assert (a + b)[..|a + b| - 1] == a + b[..|b| - 1];
      ScanAppend(st, a, b[..|b| - 1]);
    }
  }

  lemma {:induction false} ScanOne(st: Scan, r: char)
    ensures ScanRun(st, [r]) == ScanStep(st, r)
  {
    assert [r][..0] == [];
  }

  /** `strings.Split`. */
  function SplitOn(s: string, c: char): (r: seq<string>)
    ensures r != []
  {
    if s == [] then [""]
    else
      var r := SplitOn(s[..|s| - 1], c);
      var x := s[|s| - 1];
      if x == c then r + [""] else r[..|r| - 1] + [r[|r| - 1] + [x]]
  }

  lemma {:induction false} SplitSnoc(s: string, x: char, c: char)
    ensures var r := SplitOn(s, c);
            SplitOn(s + [x], c) == if x == c then r + [""] else r[..|r| - 1] + [r[|r| - 1] + [x]]
  {
    SnocParts(s, x);
  }

  /** Text without the separator extends the last segment. */
  lemma {:induction false} SplitAppend(s: string, x: string, c: char)
    requires c !in x
    ensures var r := SplitOn(s, c);
            SplitOn(s + x, c) == r[..|r| - 1] + [r[|r| - 1] + x]
  {
    var r := SplitOn(s, c);
    if x == [] {
      assert s + x == s && r[|r| - 1] + x == r[|r| - 1];
    } else {
      var y, z := x[..|x| - 1], x[|x| - 1];
      Unsnoc(x);
      assert c !in y && z != c;
      SplitAppend(s, y, c);
      SplitSnoc(s + y, z, c);
      Assoc(s, y, [z]);
      SnocParts(r[..|r| - 1], r[|r| - 1] + y);
      Assoc(r[|r| - 1], y, [z]);
    }
  }

  // ----- the key parser

  /** `escapedBracketsReplacer`. */
  function Unescape(s: string): string {
    if s == [] then []
    else if |s| >= 2 && s[0] == '\\' && (s[1] == ']' || s[1] == '[') then [s[1]] + Unescape(s[2..])
    else [s[0]] + Unescape(s[1..])
  }

  datatype KeyScan = KeyScan(kvs: map<string, string>, inKey: bool, seg: string, prev: char) | Failed(error: XPathError)

  /** One predicate's text, without its brackets. */
  function KeyValue(seg: string): Outcome<(string, string), XPathError> {
    var eq := IndexOf(seg, '=');
    if eq == |seg| || eq == 0 || eq + 1 == |seg| then Err(BadKeyValue)
    else Ok((Unescape(seg[..eq]), Unescape(seg[eq + 1..])))
  }

  function KeyStep(st: KeyScan, r: char): KeyScan {
    if st.Failed? then st
    else if r == '[' && st.prev != '\\' then
      if st.inKey then Failed(BadNesting) else KeyScan(st.kvs, true, "", r)
    else if r == ']' && st.prev != '\\' then
      if !st.inKey then Failed(BadNesting)
      else
        match KeyValue(st.seg)
        case Err(e) => Failed(e)
        case Ok((k, v)) => KeyScan(st.kvs[k := v], false, "", r)
    else KeyScan(st.kvs, st.inKey, if st.inKey then st.seg + [r] else "", r)
  }

  function KeyRun(st: KeyScan, s: string): KeyScan {
    if s == [] then st else KeyStep(KeyRun(st, s[..|s| - 1]), s[|s| - 1])
  }

  lemma {:induction false} KeyAppend(st: KeyScan, a: string, b: string)
    ensures KeyRun(st, a + b) == KeyRun(KeyRun(st, a), b)
  {
    if b == [] {
      assert a + b == a;
    } else {
      assert (a + b)[..|a + b| - 1] == a + b[..|b| - 1];
      KeyAppend(st, a, b[..|b| - 1]);
    }
  }

  lemma {:induction false} KeyOne(st: KeyScan, r: char)
    ensures KeyRun(st, [r]) == KeyStep(st, r)
  {
    assert [r][..0] == [];
  }

  const KEY_START: KeyScan := KeyScan(map[], false, "", NUL)

  function ParseKeys(s: string): Outcome<map<string, string>, XPathError> {
    var st := KeyRun(KEY_START, s);
    if st.Failed? then Err(st.error)
    else if st.inKey then Err(BadNesting)
    else Ok(st.kvs)
  }

  lemma {:induction false} KeyNext(s: string, i: nat)
    requires i < |s|
    ensures KeyRun(KEY_START, s[..i + 1]) == KeyStep(KeyRun(KEY_START, s[..i]), s[i])
  {
    assert s[..i + 1][..i] == s[..i];
  }

  lemma {:induction false} KeyFails(s: string, i: nat, e: XPathError)
    requires i <= |s| && KeyRun(KEY_START, s[..i]) == Failed(e)
    ensures ParseKeys(s) == Err(e)
  {
    KeyAppend(KEY_START, s[..i], s[i..]);
    StaysFailed(e, s[i..]);
    assert s == s[..i] + s[i..];
  }

  lemma {:induction false} StaysFailed(e: XPathError, s: string)
    ensures KeyRun(Failed(e), s) == Failed(e)
  {
    if s != [] { StaysFailed(e, s[..|s| - 1]); }
  }

  /** `parseXPathKeys`. */
  method ParseXPathKeys(s: string) returns (r: Outcome<map<string, string>, XPathError>)
    ensures r == ParseKeys(s)
  {
    var kvs: map<string, string>, inKey, start, prev := map[], false, 0, NUL;
    for i := 0 to |s|
      invariant 0 <= start <= |s| && (inKey ==> start <= i)
      invariant KeyRun(KEY_START, s[..i]) == KeyScan(kvs, inKey, if inKey then s[start..i] else "", prev)
    {
      KeyNext(s, i);
      if inKey { SliceNext(s, start, i); }
      if s[i] == '[' && prev != '\\' {
        if inKey {
          KeyFails(s, i + 1, BadNesting);
          return Err(BadNesting);
        }
        inKey, start := true, i + 1;
      } else if s[i] == ']' && prev != '\\' {
        if !inKey {
          KeyFails(s, i + 1, BadNesting);
          return Err(BadNesting);
        }
        var kv := KeyValue(s[start..i]);
        if kv.Err? {
          KeyFails(s, i + 1, BadKeyValue);
          return Err(BadKeyValue);
        }
        kvs := kvs[kv.value.0 := kv.value.1];
        inKey := false;
      }
      prev := s[i];
    }
    assert s[..|s|] == s;
    if inKey { return Err(BadNesting); }
    r := Ok(kvs);
  }

  // ----- one element

  /** The position of the first bracket that opens a predicate, or the length. */
  function OpenAt(s: string, prev: char): (i: nat)
    ensures i <= |s|
  {
    if s == [] then 0
    else if s[0] == '[' && prev != '\\' then 0
    else 1 + OpenAt(s[1..], s[0])
  }

  function ParseElem(s: string): Outcome<PathElem, XPathError> {
    var i := OpenAt(s, NUL);
    if 0 < i < |s| then
      match ParseKeys(s[i..])
      case Err(e) => Err(e)
      case Ok(kvs) => Ok(PathElem(s[..i], kvs))
    else Ok(PathElem(s, map[]))
  }

  /** `toPathElem`. */
  method ToPathElem(s: string) returns (r: Outcome<PathElem, XPathError>)
    ensures r == ParseElem(s)
  {
    var idx, prev := |s|, NUL;
    for i := 0 to |s|
      invariant prev == if i == 0 then NUL else s[i - 1]
      invariant idx == |s|
      invariant OpenAt(s, NUL) == i + OpenAt(s[i..], prev)
    {
      if s[i] == '[' && prev != '\\' {
        idx := i;
        break;
      }
      assert s[i..][1..] == s[i + 1..];
      prev := s[i];
    }
    if 0 < idx < |s| {
      var kvs := ParseXPathKeys(s[idx..]);
      if kvs.Err? { return Err(kvs.error); }
      return Ok(PathElem(s[..idx], kvs.value));
    }
    r := Ok(PathElem(s, map[]));
  }

  function ParseAll(segs: seq<string>): Outcome<seq<PathElem>, XPathError> {
    if segs == [] then Ok([])
    else
      var rest := ParseAll(segs[..|segs| - 1]);
      var s := segs[|segs| - 1];
      if rest.Err? || s == "" then rest
      else
        match ParseElem(s)
        case Err(e) => Err(e)
        case Ok(pe) => Ok(rest.value + [pe])
  }

  function Slashed(p: string): string {
    if p != "" && p[|p| - 1] == '/' then p else p + "/"
  }

  function ParseElems(p: string): Outcome<seq<PathElem>, XPathError> {
    var st := ScanRun(START, Slashed(p));
    if st.Stuck? || st.inKey then Err(MalformedXPath) else ParseAll(SplitOn(st.buf, NUL))
  }

  lemma {:induction false} ParseAllStops(segs: seq<string>, i: nat)
    requires i <= |segs| && ParseAll(segs[..i]).Err?
    ensures ParseAll(segs) == ParseAll(segs[..i])
    decreases |segs|
  {
    if i < |segs| {
      assert segs[..|segs| - 1][..i] == segs[..i];
      ParseAllStops(segs[..|segs| - 1], i);
    } else {
      assert segs[..i] == segs;
    }
  }

  lemma {:induction false} ScanNext(p: string, i: nat)
    requires i < |p|
    ensures ScanRun(START, p[..i + 1]) == ScanStep(ScanRun(START, p[..i]), p[i])
  {
    assert p[..i + 1][..i] == p[..i];
  }

  lemma {:induction false} ScanSticks(p: string, i: nat)
    requires i <= |p| && ScanRun(START, p[..i]) == Stuck
    ensures ScanRun(START, p) == Stuck
  {
    ScanAppend(START, p[..i], p[i..]);
    StaysStuck(p[i..]);
    assert p == p[..i] + p[i..];
  }

  lemma {:induction false} StaysStuck(s: string)
    ensures ScanRun(Stuck, s) == Stuck
  {
    if s != [] { StaysStuck(s[..|s| - 1]); }
  }

  /** The scanning loop of `toPathElems`; nothing comes back from unbalanced text. */
  method ScanSlashes(p: string) returns (buffer: Option<string>)
    ensures var st := ScanRun(START, p);
            buffer == if st.Stuck? || st.inKey then None else Some(st.buf)
  {
    var buf, prevC, inKey := "", NUL, false;
    for i := 0 to |p|
      invariant ScanRun(START, p[..i]) == Scan(buf, inKey, prevC)
    {
      ScanNext(p, i);
      match p[i] {
        case '[' =>
          if inKey && prevC != '\\' {
            ScanSticks(p, i + 1);
            return None;
          }
          if prevC != '\\' { inKey := true; }
        case ']' =>
          if !inKey && prevC != '\\' {
            ScanSticks(p, i + 1);
            return None;
          }
          if prevC != '\\' { inKey := false; }
        case '/' =>
          if !inKey {
            buf, prevC := buf + [NUL], p[i];
            continue;
          }
        case _ =>
      }
      buf, prevC := buf + [p[i]], p[i];
    }
    assert p[..|p|] == p;
    if inKey { return None; }
    buffer := Some(buf);
  }

  /** `toPathElems`. */
  method ToPathElems(path: string) returns (r: Outcome<seq<PathElem>, XPathError>)
    ensures r == ParseElems(path)
  {
    var p := path;
    if p == "" || p[|p| - 1] != '/' { p := p + "/"; }
    var buffer := ScanSlashes(p);
    if buffer.None? { return Err(MalformedXPath); }
    var stringElems := SplitOn(buffer.value, NUL);
    var pElems: seq<PathElem> := [];
    for i := 0 to |stringElems|
      invariant ParseAll(stringElems[..i]) == Ok(pElems)
    {
      assert stringElems[..i + 1][..i] == stringElems[..i];
      if stringElems[i] == "" { continue; }
      var pe := ToPathElem(stringElems[i]);
      if pe.Err? {
        ParseAllStops(stringElems, i + 1);
        return Err(pe.error);
      }
      pElems := pElems + [pe.value];
    }
    assert stringElems[..|stringElems|] == stringElems;
    r := Ok(pElems);
  }

  // ----- the whole path

  /** The text starts with an origin: a colon before any slash, followed by a slash or the end. */
  predicate HasOrigin(p: string) {
    var i := IndexOf(p, ':');
    i < |p| && p[0] != '/' && '/' !in p[..i] && (i + 1 == |p| || p[i + 1] == '/')
  }

  function Parse(p: string): Outcome<Path, XPathError> {
    if p == "" then Ok(Path("", []))
    else
      var i := IndexOf(p, ':');
      var (origin, rest) := if HasOrigin(p) then (p[..i], p[i + 1..]) else ("", p);
      match ParseElems(rest)
      case Err(e) => Err(e)
      case Ok(es) => Ok(Path(origin, es))
  }

  /** `ParsePath`. */
  method ParsePath(path: string) returns (r: Outcome<Path, XPathError>)
    ensures r == Parse(path)
  {
    if |path| == 0 { return Ok(Path("", [])); }
    var origin, p := "", path;
    var idx := IndexOf(p, ':');
    if idx < |p| && p[0] != '/' && '/' !in p[..idx] && ((idx + 1 < |p| && p[idx + 1] == '/') || |p| == idx + 1) {
      origin, p := p[..idx], p[idx + 1..];
    }
    var pes := ToPathElems(p);
    if pes.Err? { return Err(pes.error); }
    r := Ok(Path(origin, pes.value));
  }

  // ----- the printer

  ghost function SortedKeys(m: map<string, string>): seq<string> {
    LexStrictTotal();
    SortedSet(LexLess, m.Keys)
  }

  /** The keys of a map, collected in any order and sorted. */
  method CollectKeys(m: map<string, string>) returns (ks: seq<string>)
    ensures ks == SortedKeys(m)
  {
    LexStrictTotal();
    var todo := m.Keys;
    var q: seq<string> := [];
    while todo != {}
      invariant todo <= m.Keys && NoDup(q)
      invariant forall k :: k in q <==> k in m.Keys && k !in todo
    {
      var k :| k in todo;
      q, todo := q + [k], todo - {k};
    }
    SortOfSet(LexLess, q, m.Keys);
    ks := Sort(LexLess, q);
  }

  function Predicate(k: string, v: string): string {
    "[" + k + "=" + v + "]"
  }

  function Predicates(m: map<string, string>, ks: seq<string>): string
    requires forall k | k in ks :: k in m
  {
    if ks == [] then ""
    else Predicates(m, ks[..|ks| - 1]) + Predicate(ks[|ks| - 1], m[ks[|ks| - 1]])
  }

  ghost function ElemText(pe: PathElem, noKeys: bool): string {
    pe.name + if noKeys then "" else Predicates(pe.key, SortedKeys(pe.key))
  }

  /** Elements separated by slashes. */
  ghost function ElemTexts(es: seq<PathElem>, noKeys: bool): string {
    if es == [] then ""
    else if |es| == 1 then ElemText(es[0], noKeys)
    else ElemTexts(es[..|es| - 1], noKeys) + "/" + ElemText(es[|es| - 1], noKeys)
  }

  ghost function XPathOf(p: Path, noKeys: bool): string {
    (if p.origin != "" then p.origin + ":" else "") + ElemTexts(p.elem, noKeys)
  }

  /** The text after `i` elements, with the separator that the next one needs. */
  ghost function SoFar(es: seq<PathElem>, i: nat, noKeys: bool): string
    requires i <= |es|
  {
    ElemTexts(es[..i], noKeys) + if 0 < i < |es| then "/" else ""
  }

  lemma {:induction false} SoFarNext(es: seq<PathElem>, i: nat, noKeys: bool)
    requires i < |es|
    ensures i + 1 != |es| ==> SoFar(es, i + 1, noKeys) == SoFar(es, i, noKeys) + ElemText(es[i], noKeys) + "/"
    ensures i + 1 == |es| ==> SoFar(es, i + 1, noKeys) == SoFar(es, i, noKeys) + ElemText(es[i], noKeys)
  {
    SliceNext(es, 0, i);
    TextsSnoc(es[..i], es[i], noKeys);
    hide ElemTexts, ElemText;
    NothingAdded(ElemText(es[i], noKeys));
    NothingAdded(ElemTexts(es[..i], noKeys));
    NothingAdded(ElemTexts(es[..i + 1], noKeys));
    if i == 0 { NoTexts(es[..i], noKeys); }
  }

  lemma {:induction false} NothingAdded(s: string)
    ensures s + "" == s && "" + s == s
  {
  }

  lemma {:induction false} NoTexts(es: seq<PathElem>, noKeys: bool)
    requires es == []
    ensures ElemTexts(es, noKeys) == ""
  {
  }

  lemma {:induction false} TextsSnoc(es: seq<PathElem>, e: PathElem, noKeys: bool)
    ensures ElemTexts(es + [e], noKeys) ==
            if es == [] then ElemText(e, noKeys) else ElemTexts(es, noKeys) + "/" + ElemText(e, noKeys)
  {
    SnocParts(es, e);
  }

  lemma {:induction false} NoPredicates(m: map<string, string>, ks: seq<string>)
    requires ks == []
    ensures Predicates(m, ks) == ""
  {
  }

  lemma {:induction false} PredicatesNext(m: map<string, string>, ks: seq<string>, j: nat)
    requires (forall k | k in ks :: k in m) && j < |ks|
    ensures (forall k | k in ks[..j] :: k in m) && (forall k | k in ks[..j + 1] :: k in m)
    ensures Predicates(m, ks[..j + 1]) == Predicates(m, ks[..j]) + Predicate(ks[j], m[ks[j]])
  {
    SliceNext(ks, 0, j);
    SnocParts(ks[..j], ks[j]);
  }

  method PrintPredicates(m: map<string, string>) returns (sb: string)
    ensures sb == Predicates(m, SortedKeys(m))
  {
    hide Predicates;
    var keys := CollectKeys(m);
    sb := "";
    NoPredicates(m, keys[..0]);
    for j := 0 to |keys|
      invariant forall k | k in keys :: k in m
      invariant sb == Predicates(m, keys[..j])
    {
      PredicatesNext(m, keys, j);
      sb := sb + ("[" + keys[j] + "=" + m[keys[j]] + "]");
    }
    assert keys[..|keys|] == keys;
  }

  method PrintElem(pe: PathElem, noKeys: bool) returns (text: string)
    ensures text == ElemText(pe, noKeys)
  {
    text := pe.name;
    if !noKeys {
      var keys := PrintPredicates(pe.key);
      text := text + keys;
    }
  }

  lemma {:induction false} SoFarEnd(es: seq<PathElem>, noKeys: bool)
    ensures SoFar(es, 0, noKeys) == "" && SoFar(es, |es|, noKeys) == ElemTexts(es, noKeys)
  {
    assert es[..|es|] == es;
    assert ElemTexts(es, noKeys) + "" == ElemTexts(es, noKeys);
  }

  /** `ToXPath`. */
  method ToXPath(p: Path, noKeys: bool) returns (sb: string)
    ensures sb == XPathOf(p, noKeys)
  {
    sb := "";
    hide ElemTexts, ElemText, SoFar;
    SoFarEnd(p.elem, noKeys);
    var n := |p.elem|;
    for i := 0 to n
      invariant sb == SoFar(p.elem, i, noKeys)
    {
      SoFarNext(p.elem, i, noKeys);
      var text := PrintElem(p.elem[i], noKeys);
      sb := sb + text;
      if i + 1 != n { sb := sb + "/"; }
    }
    if p.origin != "" { sb := p.origin + ":" + sb; }
  }
}
