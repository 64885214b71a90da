/** The outer scanner and the key parser agree on nesting, and what the printer loses. */
module XPathScanners {
  import opened Wrappers
  import opened Text
  import opened XPath
  import opened XPathRoundTrip

  // ----- brackets alone

  datatype Nesting = Nesting(inKey: bool, prev: char) | Broken

  function NestStep(st: Nesting, r: char): Nesting {
    if st.Broken? then Broken
    else if r == '[' && st.prev != '\\' then if st.inKey then Broken else Nesting(true, r)
    else if r == ']' && st.prev != '\\' then if st.inKey then Nesting(false, r) else Broken
    else Nesting(st.inKey, r)
  }

  function NestRun(st: Nesting, s: string): Nesting {
    if s == [] then st else NestStep(NestRun(st, s[..|s| - 1]), s[|s| - 1])
  }

  const OUTSIDE := Nesting(false, NUL)

  /** A text whose brackets are balanced on their own. */
  predicate Balanced(s: string) {
    var st := NestRun(OUTSIDE, s);
    st.Nesting? && !st.inKey
  }

  lemma {:induction false} NestAppend(st: Nesting, a: string, b: string)
    ensures NestRun(st, a + b) == NestRun(NestRun(st, a), b)
  {
    if b == [] {
      assert a + b == a;
    } else {
      assert (a + b)[..|a + b| - 1] == a + b[..|b| - 1];
      NestAppend(st, a, b[..|b| - 1]);
    }
  }

  lemma {:induction false} NestCons(st: Nesting, c: char, s: string)
    ensures NestRun(st, [c] + s) == NestRun(NestStep(st, c), s)
  {
    NestAppend(st, [c], s);
    assert [c][..0] == [];
  }

  lemma {:induction false} StaysBroken(s: string)
    ensures NestRun(Broken, s) == Broken
  {
    if s != [] { StaysBroken(s[..|s| - 1]); }
  }

  // ----- the outer scanner cuts the text into balanced segments

  ghost predicate SegmentsOf(st: Scan, segs: seq<string>) {
    && st.Scan? && segs != []
    && (forall i | 0 <= i < |segs| - 1 :: Balanced(segs[i]))
    && var last := NestRun(OUTSIDE, segs[|segs| - 1]);
    && last.Nesting? && last.inKey == st.inKey && (last.prev == '\\' <==> st.prev == '\\')
  }

  lemma {:induction false} SegmentGrows(st: Scan, segs: seq<string>, c: char)
    requires SegmentsOf(st, segs) && ScanStep(st, c).Scan?
    requires !(c == '/' && !st.inKey)
    ensures SegmentsOf(ScanStep(st, c), segs[..|segs| - 1] + [segs[|segs| - 1] + [c]])
  {
    var last := segs[|segs| - 1];
    assert (last + [c])[..|last|] == last;
  }

  lemma {:induction false} SegmentEnds(st: Scan, segs: seq<string>)
    requires SegmentsOf(st, segs) && !st.inKey
    ensures SegmentsOf(ScanStep(st, '/'), segs + [""])
  {
    assert forall i | 0 <= i < |segs| :: Balanced(segs[i]);
  }

  lemma {:induction false} SegmentsBalanced(p: string)
    requires NUL !in p && ScanRun(START, p).Scan?
    ensures SegmentsOf(ScanRun(START, p), SplitOn(ScanRun(START, p).buf, NUL))
  {
    if p != [] {
      var y, c := p[..|p| - 1], p[|p| - 1];
      var st := ScanRun(START, y);
      SegmentsBalanced(y);
      var segs := SplitOn(st.buf, NUL);
      SplitSnoc(st.buf, if c == '/' && !st.inKey then NUL else c, NUL);
      assert c in p;
      if c == '/' && !st.inKey { SegmentEnds(st, segs); } else { SegmentGrows(st, segs, c); }
    }
  }

  // ----- the key parser keeps step with the brackets

  lemma {:induction false} KeysKeepStep(st: Nesting, ks: KeyScan, s: string)
    requires st.Nesting? && ks.KeyScan? && ks.inKey == st.inKey && (ks.prev == '\\' <==> st.prev == '\\')
    requires NestRun(st, s).Nesting?
    ensures var r := KeyRun(ks, s);
            r == Failed(BadKeyValue) ||
            (r.KeyScan? && r.inKey == NestRun(st, s).inKey && (r.prev == '\\' <==> NestRun(st, s).prev == '\\'))
  {
    if s != [] {
      var y := s[..|s| - 1];
      KeysKeepStep(st, ks, y);
    }
  }

  lemma {:induction false} BeforeFirstKey(s: string, prev: char)
    requires NestRun(Nesting(false, prev), s).Nesting?
    ensures var i := OpenAt(s, prev);
            && NestRun(Nesting(false, prev), s[..i]) == Nesting(false, Last(prev, s[..i]))
            && (i < |s| ==> s[i] == '[' && Last(prev, s[..i]) != '\\')
    decreases |s|
  {
    var i := OpenAt(s, prev);
    if s != [] && i > 0 {
      var c, rest := s[0], s[1..];
      assert s == [c] + rest;
      NestCons(Nesting(false, prev), c, rest);
      if NestStep(Nesting(false, prev), c).Broken? { StaysBroken(rest); }
      BeforeFirstKey(rest, c);
      var x := rest[..i - 1];
      assert s[..i] == [c] + x;
      NestCons(Nesting(false, prev), c, x);
      assert Last(prev, s[..i]) == Last(c, x);
    }
  }

  lemma {:induction false} BalancedNeverMisnested(s: string)
    requires Balanced(s)
    ensures ParseElem(s).Ok? || ParseElem(s) == Err(BadKeyValue)
  {
    BeforeFirstKey(s, NUL);
    var i := OpenAt(s, NUL);
    NestAppend(OUTSIDE, s[..i], s[i..]);
    assert s == s[..i] + s[i..];
    if i < |s| { KeysKeepStep(NestRun(OUTSIDE, s[..i]), KEY_START, s[i..]); }
  }

  lemma {:induction false} AllBalanced(segs: seq<string>)
    requires forall i | 0 <= i < |segs| :: Balanced(segs[i])
    ensures ParseAll(segs).Ok? || ParseAll(segs) == Err(BadKeyValue)
  {
    if segs != [] {
      AllBalanced(segs[..|segs| - 1]);
      BalancedNeverMisnested(segs[|segs| - 1]);
    }
  }

  /** Once the outer scanner accepts the brackets of a text, the inner one can refuse it only
      for a predicate without `=`, with an empty key or with an empty value. */
  lemma {:induction false} ScannersAgree(p: string)
    requires NUL !in p
    ensures var st := ScanRun(START, Slashed(p));
            if st.Scan? && !st.inKey then ParseElems(p).Ok? || ParseElems(p) == Err(BadKeyValue)
            else ParseElems(p) == Err(MalformedXPath)
  {
    var st := ScanRun(START, Slashed(p));
    if st.Scan? && !st.inKey {
      SegmentsBalanced(Slashed(p));
      AllBalanced(SplitOn(st.buf, NUL));
    }
  }

  // ----- what printing loses

  /** The printer puts no slash after an origin, so the parser finds it again only when the
      path has no elements. */
  lemma {:induction false} OriginRoundTrip(p: Path)
    requires p.origin != "" && ':' !in p.origin && '/' !in p.origin
    requires p.elem != [] ==> p.elem[0].name != "" && p.elem[0].name[0] != '/'
    ensures Parse(XPathOf(p, false)) == Ok(p) <==> p.elem == []
  {
    var text := XPathOf(p, false);
    var rest := ElemTexts(p.elem, false);
    FirstOccurrence(p.origin, ':', rest);
    assert text == p.origin + [':'] + rest;
    if p.elem == [] {
      assert text[..|p.origin|] == p.origin && text[|p.origin| + 1..] == "";
      ParseNothing();
    } else {
      ElemTextsStart(p.elem);
      assert rest[0] == p.elem[0].name[0];
      assert text[|p.origin| + 1] == rest[0];
    }
  }
}
