/** Printing a path and parsing the text gives the path back, with and without escaped
    brackets, and the two scanners never disagree about nesting. */
module XPathRoundTrip {
  import opened Wrappers
  import opened Text
  import opened XPath

  // ----- text inside one predicate

  function Last(prev: char, x: string): char {
    if x == [] then prev else x[|x| - 1]
  }

  /** Every bracket of `x` is escaped; `prev` stands before `x`. */
  predicate Quoted(prev: char, x: string) {
    x == [] ||
    var init, c := x[..|x| - 1], x[|x| - 1];
    Quoted(prev, init) && (c == '[' || c == ']' ==> Last(prev, init) == '\\')
  }

  lemma {:induction false} QuotedConcat(prev: char, a: string, b: string)
    requires Quoted(prev, a) && Quoted(Last(prev, a), b)
    ensures Quoted(prev, a + b)
  {
    if b == [] {
      assert a + b == a;
    } else {
      assert (a + b)[..|a + b| - 1] == a + b[..|b| - 1];
      QuotedConcat(prev, a, b[..|b| - 1]);
    }
  }

  lemma {:induction false} ScanInside(buf: string, prev: char, x: string)
    requires Quoted(prev, x)
    ensures ScanRun(Scan(buf, true, prev), x) == Scan(buf + x, true, Last(prev, x))
  {
    if x == [] {
      assert buf + x == buf;
    } else {
      var y := x[..|x| - 1];
      ScanInside(buf, prev, y);
      assert buf + x == buf + y + [x[|x| - 1]];
    }
  }

  lemma {:induction false} ScanName(buf: string, prev: char, x: string)
    requires '[' !in x && ']' !in x && '/' !in x
    ensures ScanRun(Scan(buf, false, prev), x) == Scan(buf + x, false, Last(prev, x))
  {
    if x == [] {
      assert buf + x == buf;
    } else {
      var y := x[..|x| - 1];
      ScanName(buf, prev, y);
      assert buf + x == buf + y + [x[|x| - 1]];
    }
  }

  lemma {:induction false} KeyInside(kvs: map<string, string>, seg: string, prev: char, x: string)
    requires Quoted(prev, x)
    ensures KeyRun(KeyScan(kvs, true, seg, prev), x) == KeyScan(kvs, true, seg + x, Last(prev, x))
  {
    if x == [] {
      assert seg + x == seg;
    } else {
      var y := x[..|x| - 1];
      KeyInside(kvs, seg, prev, y);
      assert seg + x == seg + y + [x[|x| - 1]];
    }
  }

  /** A predicate as it is written: key and value text. */
  datatype Entry = Entry(k: string, v: string)

  predicate EntryOk(en: Entry) {
    && en.k != "" && en.v != ""
    && Quoted('[', en.k) && Quoted('=', en.v)
    && '=' !in en.k && NUL !in en.k && NUL !in en.v
    && en.v[|en.v| - 1] != '\\'
  }

  function Body(en: Entry): string {
    en.k + "=" + en.v
  }

  lemma {:induction false} BodyQuoted(en: Entry)
    requires EntryOk(en)
    ensures Quoted('[', Body(en)) && Last('[', Body(en)) != '\\'
    ensures KeyValue(Body(en)) == Ok((Unescape(en.k), Unescape(en.v)))
    ensures Predicate(en.k, en.v) == "[" + (Body(en) + "]")
  {
    hide Unescape, KeyValue, Predicate;
    BodyKeyValue(en);
    PredicateText(en);
    QuotedConcat('[', en.k, "=");
    QuotedConcat('[', en.k + "=", en.v);
  }

  lemma {:induction false} BodyKeyValue(en: Entry)
    requires en.k != "" && en.v != "" && '=' !in en.k
    ensures KeyValue(Body(en)) == Ok((Unescape(en.k), Unescape(en.v)))
  {
    hide Unescape;
    FirstOccurrence(en.k, '=', en.v);
    assert Body(en) == en.k + ['='] + en.v;
  }

  lemma {:induction false} PredicateText(en: Entry)
    ensures Predicate(en.k, en.v) == "[" + (Body(en) + "]")
  {
    Assoc("[", en.k, "=");
    Assoc("[", en.k + "=", en.v);
    Assoc("[", en.k + "=" + en.v, "]");
  }

  lemma {:induction false} ScanEntry(buf: string, prev: char, en: Entry)
    requires EntryOk(en) && prev != '\\'
    ensures ScanRun(Scan(buf, false, prev), Predicate(en.k, en.v)) == Scan(buf + Predicate(en.k, en.v), false, ']')
  {
    BodyQuoted(en);
    var st := Scan(buf, false, prev);
    ScanAppend(st, "[", Body(en) + "]");
    ScanOne(st, '[');
    var st1 := Scan(buf + "[", true, '[');
    ScanAppend(st1, Body(en), "]");
    ScanInside(buf + "[", '[', Body(en));
    var st2 := ScanRun(st1, Body(en));
    ScanOne(st2, ']');
    assert buf + "[" + Body(en) + "]" == buf + Predicate(en.k, en.v);
  }

  lemma {:induction false} KeyEntry(kvs: map<string, string>, prev: char, en: Entry)
    requires EntryOk(en) && prev != '\\'
    ensures KeyRun(KeyScan(kvs, false, "", prev), Predicate(en.k, en.v))
         == KeyScan(kvs[Unescape(en.k) := Unescape(en.v)], false, "", ']')
  {
    BodyQuoted(en);
    var st := KeyScan(kvs, false, "", prev);
    KeyAppend(st, "[", Body(en) + "]");
    KeyOne(st, '[');
    var st1 := KeyScan(kvs, true, "", '[');
    KeyAppend(st1, Body(en), "]");
    KeyInside(kvs, "", '[', Body(en));
    assert "" + Body(en) == Body(en);
    var st2 := KeyRun(st1, Body(en));
    KeyOne(st2, ']');
  }

  // ----- all predicates of an element

  function EntriesText(ens: seq<Entry>): string {
    if ens == [] then ""
    else EntriesText(ens[..|ens| - 1]) + Predicate(ens[|ens| - 1].k, ens[|ens| - 1].v)
  }

  function Decoded(ens: seq<Entry>): map<string, string> {
    if ens == [] then map[]
    else Decoded(ens[..|ens| - 1])[Unescape(ens[|ens| - 1].k) := Unescape(ens[|ens| - 1].v)]
  }

  ghost predicate EntriesOk(ens: seq<Entry>) {
    forall i | 0 <= i < |ens| :: EntryOk(ens[i])
  }

  lemma {:induction false} ScanEntries(buf: string, prev: char, ens: seq<Entry>)
    requires EntriesOk(ens) && (ens != [] ==> prev != '\\')
    ensures ScanRun(Scan(buf, false, prev), EntriesText(ens))
         == Scan(buf + EntriesText(ens), false, if ens == [] then prev else ']')
  {
    if ens == [] {
      assert buf + "" == buf;
    } else {
      var init, en := ens[..|ens| - 1], ens[|ens| - 1];
      ScanEntries(buf, prev, init);
      ScanAppend(Scan(buf, false, prev), EntriesText(init), Predicate(en.k, en.v));
      ScanEntry(buf + EntriesText(init), if init == [] then prev else ']', en);
      Assoc(buf, EntriesText(init), Predicate(en.k, en.v));
    }
  }

  lemma {:induction false} KeyEntries(ens: seq<Entry>)
    requires EntriesOk(ens)
    ensures KeyRun(KEY_START, EntriesText(ens))
         == KeyScan(Decoded(ens), false, "", if ens == [] then NUL else ']')
  {
    if ens != [] {
      var init, en := ens[..|ens| - 1], ens[|ens| - 1];
      KeyEntries(init);
      KeyAppend(KEY_START, EntriesText(init), Predicate(en.k, en.v));
      KeyEntry(Decoded(init), if init == [] then NUL else ']', en);
    }
  }

  // ----- elements

  datatype RawElem = RawElem(name: string, ens: seq<Entry>)

  function RawText(e: RawElem): string {
    e.name + EntriesText(e.ens)
  }

  function Decode(e: RawElem): PathElem {
    PathElem(e.name, Decoded(e.ens))
  }

  ghost predicate NameOk(name: string) {
    name != "" && '[' !in name && ']' !in name && '/' !in name && NUL !in name
  }

  ghost predicate RawOk(e: RawElem) {
    NameOk(e.name) && EntriesOk(e.ens) && (e.ens != [] ==> e.name[|e.name| - 1] != '\\')
  }

  lemma {:induction false} ScanElem(buf: string, prev: char, e: RawElem)
    requires RawOk(e)
    ensures ScanRun(Scan(buf, false, prev), RawText(e)) == Scan(buf + RawText(e), false, Last(prev, RawText(e)))
  {
    ScanName(buf, prev, e.name);
    ScanAppend(Scan(buf, false, prev), e.name, EntriesText(e.ens));
    ScanEntries(buf + e.name, Last(prev, e.name), e.ens);
    Assoc(buf, e.name, EntriesText(e.ens));
    if e.ens != [] { assert Last(prev, RawText(e)) == ']'; }
  }

  lemma {:induction false} OpenAtName(name: string, prev: char, rest: string)
    requires '[' !in name
    ensures OpenAt(name + rest, prev) == |name| + OpenAt(rest, Last(prev, name))
    decreases |name|
  {
    if name == [] {
      assert name + rest == rest;
    } else {
      assert (name + rest)[1..] == name[1..] + rest;
      assert Last(prev, name) == Last(name[0], name[1..]);
      OpenAtName(name[1..], name[0], rest);
    }
  }

  lemma {:induction false} EntriesStart(ens: seq<Entry>)
    requires ens != []
    ensures EntriesText(ens) != "" && EntriesText(ens)[0] == '['
  {
    if |ens| > 1 { EntriesStart(ens[..|ens| - 1]); }
  }

  lemma {:induction false} ParseRaw(e: RawElem)
    requires RawOk(e)
    ensures ParseElem(RawText(e)) == Ok(Decode(e))
  {
    OpenAtName(e.name, NUL, EntriesText(e.ens));
    var s := RawText(e);
    if e.ens == [] {
      assert s == e.name;
    } else {
      EntriesStart(e.ens);
      assert s[|e.name|..] == EntriesText(e.ens) && s[..|e.name|] == e.name;
      KeyEntries(e.ens);
    }
  }

  // ----- whole paths

  ghost predicate RawsOk(es: seq<RawElem>) {
    forall i | 0 <= i < |es| :: RawOk(es[i])
  }

  /** Each element followed by `sep`. */
  function Ended(es: seq<RawElem>, sep: char): string {
    if es == [] then "" else Ended(es[..|es| - 1], sep) + (RawText(es[|es| - 1]) + [sep])
  }

  function JoinedTexts(es: seq<RawElem>): string {
    if es == [] then ""
    else if |es| == 1 then RawText(es[0])
    else JoinedTexts(es[..|es| - 1]) + "/" + RawText(es[|es| - 1])
  }

  function Texts(es: seq<RawElem>): seq<string> {
    if es == [] then [] else Texts(es[..|es| - 1]) + [RawText(es[|es| - 1])]
  }

  function Decodes(es: seq<RawElem>): seq<PathElem> {
    if es == [] then [] else Decodes(es[..|es| - 1]) + [Decode(es[|es| - 1])]
  }

  lemma {:induction false} JoinedSlash(es: seq<RawElem>)
    requires es != []
    ensures JoinedTexts(es) + "/" == Ended(es, '/')
  {
    var e := es[|es| - 1];
    if |es| == 1 {
      assert es[..0] == [];
      assert Ended(es, '/') == "" + (RawText(e) + "/");
    } else {
      JoinedSlash(es[..|es| - 1]);
      Assoc(JoinedTexts(es[..|es| - 1]) + "/", RawText(e), "/");
    }
  }

  lemma {:induction false} ScanEnded(buf: string, prev: char, e: RawElem)
    requires RawOk(e)
    ensures ScanRun(Scan(buf, false, prev), RawText(e) + "/") == Scan(buf + (RawText(e) + [NUL]), false, '/')
  {
    var st := Scan(buf, false, prev);
    ScanAppend(st, RawText(e), "/");
    ScanElem(buf, prev, e);
    ScanOne(ScanRun(st, RawText(e)), '/');
    Assoc(buf, RawText(e), [NUL]);
  }

  lemma {:induction false} ScanAll(buf: string, prev: char, es: seq<RawElem>)
    requires RawsOk(es)
    ensures ScanRun(Scan(buf, false, prev), Ended(es, '/'))
         == Scan(buf + Ended(es, NUL), false, if es == [] then prev else '/')
  {
    if es == [] {
      assert buf + "" == buf;
    } else {
      var init, e := es[..|es| - 1], es[|es| - 1];
      ScanAll(buf, prev, init);
      ScanAppend(Scan(buf, false, prev), Ended(init, '/'), RawText(e) + "/");
      ScanEnded(buf + Ended(init, NUL), if init == [] then prev else '/', e);
      Assoc(buf, Ended(init, NUL), RawText(e) + [NUL]);
    }
  }

  lemma {:induction false} RawTextClean(e: RawElem)
    requires RawOk(e)
    ensures NUL !in RawText(e) && RawText(e) != "" && RawText(e)[|RawText(e)| - 1] != '/'
  {
    EntriesClean(e.ens);
    if e.ens != [] {
      var en := e.ens[|e.ens| - 1];
      assert RawText(e)[|RawText(e)| - 1] == ']';
    }
  }

  lemma {:induction false} EntriesClean(ens: seq<Entry>)
    requires EntriesOk(ens)
    ensures NUL !in EntriesText(ens)
    ensures ens != [] ==> EntriesText(ens) != "" && EntriesText(ens)[|EntriesText(ens)| - 1] == ']'
  {
    if ens != [] { EntriesClean(ens[..|ens| - 1]); }
  }

  /** A piece of text and a NUL after a finished segment make one more segment. */
  lemma {:induction false} SplitEnded(s: string, done: seq<string>, x: string)
    requires NUL !in x && SplitOn(s, NUL) == done + [""]
    ensures SplitOn(s + (x + [NUL]), NUL) == done + [x] + [""]
  {
    SplitAppend(s, x, NUL);
    SnocParts(done, "");
    assert "" + x == x;
    Assoc(s, x, [NUL]);
    SplitSnoc(s + x, NUL, NUL);
  }

  lemma {:induction false} SplitAll(buf: string, done: seq<string>, es: seq<RawElem>)
    requires RawsOk(es) && SplitOn(buf, NUL) == done + [""]
    ensures SplitOn(buf + Ended(es, NUL), NUL) == done + Texts(es) + [""]
  {
    if es == [] {
      assert buf + "" == buf && done + [] == done;
    } else {
      var init, e := es[..|es| - 1], es[|es| - 1];
      SplitAll(buf, done, init);
      RawTextClean(e);
      SplitEnded(buf + Ended(init, NUL), done + Texts(init), RawText(e));
      Assoc(buf, Ended(init, NUL), RawText(e) + [NUL]);
      Assoc(done, Texts(init), [RawText(e)]);
    }
  }

  lemma {:induction false} ParseTexts(blanks: seq<string>, es: seq<RawElem>)
    requires RawsOk(es) && ParseAll(blanks) == Ok([])
    ensures ParseAll(blanks + Texts(es)) == Ok(Decodes(es))
    ensures ParseAll(blanks + Texts(es) + [""]) == Ok(Decodes(es))
    decreases |es|
  {
    if es == [] {
      assert blanks + Texts(es) == blanks;
    } else {
      var init, e := es[..|es| - 1], es[|es| - 1];
      ParseTexts(blanks, init);
      ParseRaw(e);
      RawTextClean(e);
      Assoc(blanks, Texts(init), [RawText(e)]);
      SnocParts(blanks + Texts(init), RawText(e));
    }
    SnocParts(blanks + Texts(es), "");
  }

  lemma {:induction false} ParseScanned(buf: string, done: seq<string>, prev: char, es: seq<RawElem>)
    requires RawsOk(es) && es != [] && SplitOn(buf, NUL) == done + [""] && ParseAll(done) == Ok([])
    ensures var st := ScanRun(Scan(buf, false, prev), Ended(es, '/'));
            st.Scan? && !st.inKey && ParseAll(SplitOn(st.buf, NUL)) == Ok(Decodes(es))
  {
    ScanAll(buf, prev, es);
    SplitAll(buf, done, es);
    ParseTexts(done, es);
  }

  lemma {:induction false} JoinedEnd(es: seq<RawElem>)
    requires RawsOk(es) && es != []
    ensures JoinedTexts(es) != "" && JoinedTexts(es)[|JoinedTexts(es)| - 1] != '/'
  {
    RawTextClean(es[|es| - 1]);
  }

  /** The parser recovers written elements. */
  lemma {:induction false} ParseJoined(es: seq<RawElem>)
    requires RawsOk(es) && es != []
    ensures ParseElems(JoinedTexts(es)) == Ok(Decodes(es))
  {
    JoinedSlash(es);
    JoinedEnd(es);
    assert SplitOn("", NUL) == [] + [""];
    ParseScanned("", [], NUL, es);
  }

  lemma {:induction false} BlankSegments()
    ensures ParseAll([""]) == Ok([]) && ParseAll([""] + [""]) == Ok([])
  {
    assert [""][..0] == [];
    assert ([""] + [""])[..1] == [""];
  }

  lemma {:induction false} BlankStart()
    ensures ScanRun(START, "/") == Scan([NUL], false, '/')
    ensures SplitOn([NUL], NUL) == [""] + [""]
  {
    ScanOne(START, '/');
    SplitEnded("", [], "");
    assert "" + ("" + [NUL]) == [NUL] && [] + [""] == [""] && SplitOn("", NUL) == [""];
  }

  /** A leading slash changes nothing. */
  lemma {:induction false} ParseAbsolute(es: seq<RawElem>)
    requires RawsOk(es) && es != []
    ensures ParseElems("/" + JoinedTexts(es)) == Ok(Decodes(es))
  {
    JoinedSlash(es);
    JoinedEnd(es);
    Assoc("/", JoinedTexts(es), "/");
    ScanAppend(START, "/", Ended(es, '/'));
    BlankStart();
    BlankSegments();
    ParseScanned([NUL], [""], '/', es);
  }

  // ----- printed paths

  /** Brackets written with a backslash before them. */
  function Escape(s: string): string {
    if s == [] then []
    else (if s[0] == '[' || s[0] == ']' then ['\\', s[0]] else [s[0]]) + Escape(s[1..])
  }

  lemma {:induction false} EscapeShape(s: string)
    ensures s != "" ==> Escape(s) != "" && Escape(s)[|Escape(s)| - 1] == s[|s| - 1]
    ensures s != "" ==> Escape(s)[0] != '[' && Escape(s)[0] != ']'
    ensures forall c | c != '\\' :: c in Escape(s) <==> c in s
  {
    if s != [] {
      EscapeShape(s[1..]);
      assert s == [s[0]] + s[1..];
    }
  }

  /** The replacer undoes the escaping of brackets, whatever else the text holds. */
  lemma {:induction false} EscapeFacts(s: string)
    ensures Unescape(Escape(s)) == s
  {
    if s != [] {
      EscapeFacts(s[1..]);
      EscapeShape(s[1..]);
      var t := Escape(s[1..]);
      if s[0] == '[' || s[0] == ']' {
        assert Escape(s)[2..] == t;
      } else {
        assert Escape(s)[1..] == t;
      }
    }
  }

  lemma {:induction false} EscapeQuoted(prev: char, s: string)
    ensures Quoted(prev, Escape(s))
    decreases |s|
  {
    if s != [] {
      var c := s[0];
      EscapeQuoted(c, s[1..]);
      if c == '[' || c == ']' {
        assert ['\\', c][..1] == ['\\'] && ['\\'][..0] == [];
        assert Quoted(prev, ['\\']);
        assert Quoted(prev, ['\\', c]);
        QuotedConcat(prev, ['\\', c], Escape(s[1..]));
      } else {
        assert [c][..0] == [];
        QuotedConcat(prev, [c], Escape(s[1..]));
      }
    }
  }

  lemma {:induction false} NoBracketsNoEscape(s: string)
    requires '[' !in s && ']' !in s
    ensures Escape(s) == s
  {
    if s != [] { NoBracketsNoEscape(s[1..]); }
  }

  /** Elements the printer's format can carry when brackets in keys and values are escaped. */
  ghost predicate Printable(pe: PathElem) {
    && NameOk(pe.name)
    && (pe.key != map[] ==> pe.name[|pe.name| - 1] != '\\')
    && forall k | k in pe.key ::
         && k != "" && pe.key[k] != ""
         && '=' !in k && NUL !in k && NUL !in pe.key[k]
         && pe.key[k][|pe.key[k]| - 1] != '\\'
  }

  ghost predicate BracketFree(pe: PathElem) {
    forall k | k in pe.key :: '[' !in k && ']' !in k && '[' !in pe.key[k] && ']' !in pe.key[k]
  }

  ghost function WrittenEntries(m: map<string, string>, ks: seq<string>): seq<Entry>
    requires forall k | k in ks :: k in m
  {
    seq(|ks|, i requires 0 <= i < |ks| => assert ks[i] in ks; Entry(Escape(ks[i]), Escape(m[ks[i]])))
  }

  ghost function Raw(pe: PathElem): RawElem {
    RawElem(pe.name, WrittenEntries(pe.key, SortedKeys(pe.key)))
  }

  ghost function Raws(es: seq<PathElem>): seq<RawElem> {
    seq(|es|, i requires 0 <= i < |es| => Raw(es[i]))
  }

  lemma {:induction false} WrittenDecodes(m: map<string, string>, ks: seq<string>)
    requires NoDup(ks) && forall k | k in ks :: k in m
    ensures Decoded(WrittenEntries(m, ks)) == map k | k in ks :: m[k]
  {
    if ks != [] {
      var init, k := ks[..|ks| - 1], ks[|ks| - 1];
      WrittenDecodes(m, init);
      assert WrittenEntries(m, ks)[..|ks| - 1] == WrittenEntries(m, init);
      EscapeFacts(k);
      EscapeFacts(m[k]);
      assert ks == init + [k];
    }
  }

  lemma {:induction false} WrittenOk(pe: PathElem, ks: seq<string>)
    requires Printable(pe) && forall k | k in ks :: k in pe.key
    ensures EntriesOk(WrittenEntries(pe.key, ks))
  {
    var ens := WrittenEntries(pe.key, ks);
    forall i | 0 <= i < |ens| ensures EntryOk(ens[i]) {
      assert ks[i] in ks;
      EscapeFacts(ks[i]);
      EscapeFacts(pe.key[ks[i]]);
      EscapeShape(ks[i]);
      EscapeShape(pe.key[ks[i]]);
      EscapeQuoted('[', ks[i]);
      EscapeQuoted('=', pe.key[ks[i]]);
    }
  }

  lemma {:induction false} SortedKeysFacts(m: map<string, string>)
    ensures NoDup(SortedKeys(m)) && forall k :: k in SortedKeys(m) <==> k in m
    ensures |SortedKeys(m)| == |m|
  {
    LexStrictTotal();
    SortedSetSorted(LexLess, m.Keys);
  }

  lemma {:induction false} RawPrintable(pe: PathElem)
    requires Printable(pe)
    ensures RawOk(Raw(pe)) && Decode(Raw(pe)) == pe
  {
    hide SortedKeys, Decoded, Unescape, Escape;
    SortedKeysFacts(pe.key);
    WrittenDecodes(pe.key, SortedKeys(pe.key));
    WrittenOk(pe, SortedKeys(pe.key));
  }

  lemma {:induction false} RawsNext(es: seq<PathElem>)
    requires es != []
    ensures Raws(es) == Raws(es[..|es| - 1]) + [Raw(es[|es| - 1])]
    ensures Raws(es)[..|es| - 1] == Raws(es[..|es| - 1])
  {
  }

  lemma {:induction false} DecodesRaws(es: seq<PathElem>)
    requires forall i | 0 <= i < |es| :: Printable(es[i])
    ensures RawsOk(Raws(es)) && Decodes(Raws(es)) == es
  {
    if es != [] {
      DecodesRaws(es[..|es| - 1]);
      RawPrintable(es[|es| - 1]);
      RawsNext(es);
      Unsnoc(es);
    }
  }

  /** The text of a path with brackets in keys and values escaped. */
  ghost function EscapedXPath(es: seq<PathElem>): string {
    JoinedTexts(Raws(es))
  }

  lemma {:induction false} PredicatesAreEntries(m: map<string, string>, ks: seq<string>)
    requires forall k | k in ks :: k in m && '[' !in k && ']' !in k && '[' !in m[k] && ']' !in m[k]
    ensures Predicates(m, ks) == EntriesText(WrittenEntries(m, ks))
  {
    if ks != [] {
      var init, k := ks[..|ks| - 1], ks[|ks| - 1];
      PredicatesAreEntries(m, init);
      assert WrittenEntries(m, ks)[..|ks| - 1] == WrittenEntries(m, init);
      assert k in ks;
      NoBracketsNoEscape(k);
      NoBracketsNoEscape(m[k]);
    }
  }

  /** Without brackets, the printer writes exactly the escaped text. */
  lemma {:induction false} PrinterWrites(es: seq<PathElem>)
    requires forall i | 0 <= i < |es| :: BracketFree(es[i])
    ensures ElemTexts(es, false) == EscapedXPath(es)
  {
    if es != [] {
      var pe := es[|es| - 1];
      PredicatesAreEntries(pe.key, SortedKeys(pe.key));
      if |es| > 1 {
        PrinterWrites(es[..|es| - 1]);
        RawsNext(es);
      }
    }
  }

  lemma {:induction false} JoinedSnoc(es: seq<RawElem>, e: RawElem)
    requires es != []
    ensures JoinedTexts(es + [e]) == JoinedTexts(es) + "/" + RawText(e)
  {
    SnocParts(es, e);
  }

  lemma {:induction false} JoinedStart(es: seq<RawElem>)
    requires es != [] && RawsOk(es)
    ensures JoinedTexts(es) != "" && JoinedTexts(es)[0] == es[0].name[0]
    ensures |es| > 1 ==> JoinedTexts(es) == RawText(es[0]) + "/" + JoinedTexts(es[1..])
  {
    if |es| == 1 {
      assert RawOk(es[0]);
    } else {
      hide RawOk, RawText, JoinedTexts;
      var init, last := es[..|es| - 1], es[|es| - 1];
      JoinedStart(init);
      Unsnoc(es);
      assert es[1..] == init[1..] + [last];
      JoinedSnoc(init, last);
      if |init| > 1 {
        JoinedSnoc(init[1..], last);
        JoinsFirst(RawText(es[0]), JoinedTexts(init[1..]), RawText(last));
      } else {
        assert init == [es[0]] && es[1..] == [last];
        JoinedOne(es[0]);
        JoinedOne(last);
      }
    }
  }

  lemma {:induction false} JoinedOne(e: RawElem)
    ensures JoinedTexts([e]) == RawText(e)
  {
  }

  lemma {:induction false} JoinsFirst(a: string, b: string, c: string)
    ensures a + "/" + b + "/" + c == a + "/" + (b + "/" + c)
  {
    Assoc(a + "/", b, "/");
    Assoc(a + "/", b + "/", c);
  }

  /** Escaped text is parsed back exactly unless it reads as starting with an origin. */
  lemma {:induction false} EscapedRoundTrip(es: seq<PathElem>)
    requires forall i | 0 <= i < |es| :: Printable(es[i])
    ensures Parse(EscapedXPath(es)) == Ok(Path("", es)) <==> !HasOrigin(EscapedXPath(es))
  {
    if es != [] {
      DecodesRaws(es);
      var raws := Raws(es);
      ParseJoined(raws);
      JoinedStart(raws);
      var text := JoinedTexts(raws);
      var i := IndexOf(text, ':');
      if HasOrigin(text) && i == 0 {
        ColonIsFirstName(raws);
      }
    }
  }

  /** What can follow a colon that starts the text. */
  lemma {:induction false} AfterColon(e: RawElem)
    requires RawOk(e) && e.name[0] == ':'
    ensures RawText(e) == ":" || (|RawText(e)| > 1 && RawText(e)[1] != '/')
  {
    if |e.name| == 1 && e.ens != [] { EntriesStart(e.ens); }
    if |e.name| == 1 && e.ens == [] { assert RawText(e) == e.name == ":"; }
  }

  lemma {:induction false} ParseNothing()
    ensures ParseElems("") == Ok([])
  {
    BlankStart();
    BlankSegments();
  }

  lemma {:induction false} AfterLoneColon(es: seq<RawElem>)
    requires es != [] && RawsOk(es) && RawText(es[0]) == ":"
    ensures JoinedTexts(es) != "" && ParseElems(JoinedTexts(es)[1..]) == Ok(Decodes(es[1..]))
  {
    JoinedStart(es);
    if |es| == 1 {
      assert JoinedTexts(es)[1..] == "" && es[1..] == [];
      ParseNothing();
    } else {
      Assoc(":", "/", JoinedTexts(es[1..]));
      ConsParts(':', "/" + JoinedTexts(es[1..]));
      ParseAbsolute(es[1..]);
    }
  }

  lemma {:induction false} DecodesLength(es: seq<RawElem>)
    ensures |Decodes(es)| == |es|
  {
    if es != [] { DecodesLength(es[..|es| - 1]); }
  }

  lemma {:induction false} LoneColonText(es: seq<RawElem>)
    requires es != [] && RawsOk(es) && HasOrigin(JoinedTexts(es)) && JoinedTexts(es)[0] == ':'
    ensures RawText(es[0]) == ":"
  {
    JoinedStart(es);
    AfterColon(es[0]);
    assert IndexOf(JoinedTexts(es), ':') == 0;
  }

  lemma {:induction false} ParseColon(text: string, rest: seq<PathElem>)
    requires text != "" && text[0] == ':' && HasOrigin(text) && ParseElems(text[1..]) == Ok(rest)
    ensures Parse(text) == Ok(Path("", rest))
  {
    assert IndexOf(text, ':') == 0;
    assert text[..0] == "";
  }

  /** When a lone colon is taken for an (empty) origin, the first element is lost. */
  lemma {:induction false} ColonIsFirstName(es: seq<RawElem>)
    requires es != [] && RawsOk(es) && HasOrigin(JoinedTexts(es)) && JoinedTexts(es)[0] == ':'
    ensures Parse(JoinedTexts(es)) != Ok(Path("", Decodes(es)))
  {
    LoneColonText(es);
    AfterLoneColon(es);
    ParseColon(JoinedTexts(es), Decodes(es[1..]));
    DecodesLength(es);
    DecodesLength(es[1..]);
  }

  /** Print, then parse: the identity on paths without origin and brackets, exactly when the
      printed text does not read as starting with an origin. */
  lemma {:induction false} PrintThenParse(p: Path)
    requires p.origin == ""
    requires forall i | 0 <= i < |p.elem| :: Printable(p.elem[i]) && BracketFree(p.elem[i])
    ensures Parse(XPathOf(p, false)) == Ok(p) <==> !HasOrigin(XPathOf(p, false))
  {
    PrinterWrites(p.elem);
    EscapedRoundTrip(p.elem);
    assert XPathOf(p, false) == EscapedXPath(p.elem);
    assert p == Path("", p.elem);
  }

  // ----- when printed text has no origin

  predicate NoColonSlash(s: string) {
    forall i | 0 <= i < |s| - 1 :: !(s[i] == ':' && s[i + 1] == '/')
  }

  lemma {:induction false} NoColonSlashConcat(a: string, b: string)
    requires NoColonSlash(a) && NoColonSlash(b)
    requires a == "" || b == "" || a[|a| - 1] != ':' || b[0] != '/'
    ensures NoColonSlash(a + b)
  {
    var s := a + b;
    forall i | 0 <= i < |s| - 1 ensures !(s[i] == ':' && s[i + 1] == '/') {
      if i >= |a| { assert !(b[i - |a|] == ':' && b[i - |a| + 1] == '/'); }
    }
  }

  /** Names that do not end in a colon, keys and values without `:/`. */
  ghost predicate NoOriginLook(pe: PathElem) {
    && pe.name != "" && pe.name[|pe.name| - 1] != ':'
    && forall k | k in pe.key :: NoColonSlash(k) && NoColonSlash(pe.key[k])
  }

  lemma {:induction false} PredicatesLook(m: map<string, string>, ks: seq<string>)
    requires forall k | k in ks :: k in m && NoColonSlash(k) && NoColonSlash(m[k])
    ensures NoColonSlash(Predicates(m, ks))
    ensures ks != [] ==> Predicates(m, ks) != "" && Predicates(m, ks)[0] == '['
                         && Predicates(m, ks)[|Predicates(m, ks)| - 1] == ']'
  {
    if ks != [] {
      var init, k := ks[..|ks| - 1], ks[|ks| - 1];
      PredicatesLook(m, init);
      assert k in ks;
      NoColonSlashConcat("[", k);
      NoColonSlashConcat("[" + k, "=");
      NoColonSlashConcat("[" + k + "=", m[k]);
      NoColonSlashConcat("[" + k + "=" + m[k], "]");
      NoColonSlashConcat(Predicates(m, init), Predicate(k, m[k]));
    }
  }

  lemma {:induction false} ElemTextLook(pe: PathElem)
    requires NoOriginLook(pe) && '/' !in pe.name
    ensures ElemText(pe, false) != "" && NoColonSlash(ElemText(pe, false))
    ensures ElemText(pe, false)[|ElemText(pe, false)| - 1] != ':'
  {
    PredicatesLook(pe.key, SortedKeys(pe.key));
    assert NoColonSlash(pe.name);
    NoColonSlashConcat(pe.name, Predicates(pe.key, SortedKeys(pe.key)));
    if SortedKeys(pe.key) == [] { assert ElemText(pe, false) == pe.name; }
  }

  lemma {:induction false} ElemTextsStart(es: seq<PathElem>)
    requires es != []
    ensures |es| == 1 ==> ElemTexts(es, false) == ElemText(es[0], false)
    ensures |es| > 1 ==> ElemText(es[0], false) + "/" <= ElemTexts(es, false)
  {
    if |es| == 2 {
      assert es[..1] == [es[0]];
    } else if |es| > 2 {
      ElemTextsStart(es[..|es| - 1]);
    }
  }

  lemma {:induction false} LooksOriginFree(es: seq<PathElem>)
    requires forall i | 0 <= i < |es| :: NoOriginLook(es[i]) && '/' !in es[i].name
    ensures !HasOrigin(ElemTexts(es, false))
  {
    if es != [] {
      var text, first := ElemTexts(es, false), ElemText(es[0], false);
      ElemTextLook(es[0]);
      ElemTextsStart(es);
      hide ElemTexts, ElemText;
      NoOriginStart(text, first);
    }
  }

  lemma {:induction false} NoOriginStart(text: string, first: string)
    requires first != "" && NoColonSlash(first) && first[|first| - 1] != ':'
    requires first <= text && (|text| > |first| ==> text[|first|] == '/')
    ensures !HasOrigin(text)
  {
    var i := IndexOf(text, ':');
    if |text| > |first| && i > |first| {
      assert text[..i][|first|] == '/';
    } else if i + 1 < |first| {
      assert text[i] == first[i] && text[i + 1] == first[i + 1];
    }
  }

  /** Print, then parse: the identity under guards on the parts of the path alone. */
  lemma {:induction false} RoundTrip(p: Path)
    requires p.origin == ""
    requires forall i | 0 <= i < |p.elem| ::
               Printable(p.elem[i]) && BracketFree(p.elem[i]) && NoOriginLook(p.elem[i])
    ensures Parse(XPathOf(p, false)) == Ok(p)
  {
    LooksOriginFree(p.elem);
    assert XPathOf(p, false) == ElemTexts(p.elem, false);
    PrintThenParse(p);
  }
}
