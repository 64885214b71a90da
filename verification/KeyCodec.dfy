/** The byte keys of the persistent store: how schemas and their entries are spelled, and
    what dropping by prefix removes.  Bytes are written as characters. */
module KeyCodec {
  import opened Wrappers
  import opened Text

  datatype SchemaKey = SchemaKey(name: string, vendor: string, version: string)

  const SCHEMAS_PREFIX: char := 1 as char
  const OBJECTS_PREFIX: char := 2 as char

  function KeyString(k: SchemaKey): string {
    k.name + "@" + k.vendor + "@" + k.version
  }

  /** Keys the format can carry: no colon anywhere, no `@` before the version. */
  ghost predicate ValidKey(k: SchemaKey) {
    && ':' !in k.name && ':' !in k.vendor && ':' !in k.version
    && '@' !in k.name && '@' !in k.vendor
  }

  function SchemaRecordKey(k: SchemaKey): string {
    [SCHEMAS_PREFIX] + KeyString(k)
  }

  /** `buildSchemaKey`: the text is shifted up by one byte to make room for the prefix. */
  method BuildSchemaKey(k: SchemaKey) returns (key: string)
    ensures key == SchemaRecordKey(k)
  {
    var text := KeyString(k);
    var buf := new char[|text| + 1](i requires 0 <= i < |text| + 1 => if i < |text| then text[i] else '\0');
    forall i | 1 <= i < buf.Length {
      buf[i] := buf[i - 1];
    }
    buf[0] := SCHEMAS_PREFIX;
    key := buf[..];
    assert forall i | 1 <= i < |key| :: key[i] == text[i - 1];
  }

  function Slashes(pes: seq<string>): string {
    if pes == [] then "" else Slashes(pes[..|pes| - 1]) + ("/" + pes[|pes| - 1])
  }

  /** What all entry keys of a schema start with. */
  function EntryPrefix(k: SchemaKey): string {
    [OBJECTS_PREFIX] + KeyString(k) + ":::"
  }

  function PathText(pes: seq<string>): string
    requires pes != []
  {
    pes[0] + if |pes| == 1 then "" else ":::" + Slashes(pes[1..])
  }

  function EntryKey(k: SchemaKey, pes: seq<string>): string
    requires pes != []
  {
    EntryPrefix(k) + PathText(pes)
  }

  /** `buildEntryKey`. */
  method BuildEntryKey(k: SchemaKey, pes: seq<string>) returns (key: string)
    requires pes != []
    ensures key == EntryKey(k, pes)
  {
    key := [OBJECTS_PREFIX] + KeyString(k) + ":::";
    var tail := pes[0];
    if |pes| > 1 {
      tail := tail + ":::";
      var slashed := "";
      for i := 1 to |pes|
        invariant slashed == Slashes(pes[1..i])
      {
        assert pes[1..i + 1][..i - 1] == pes[1..i];
        slashed := slashed + ("/" + pes[i]);
      }
      assert pes[1..|pes|] == pes[1..];
      tail := pes[0] + (":::" + slashed);
    } else {
      tail := pes[0] + "";
    }
    key := key + tail;
  }

  // ----- injectivity

  lemma {:induction false} CutAt(a1: string, c: char, b1: string, a2: string, b2: string)
    requires c !in a1 && c !in a2 && a1 + [c] + b1 == a2 + [c] + b2
    ensures a1 == a2 && b1 == b2
  {
    FirstOccurrence(a1, c, b1);
    FirstOccurrence(a2, c, b2);
  }

  lemma {:induction false} KeyStringShape(k: SchemaKey)
    ensures KeyString(k) == k.name + ['@'] + (k.vendor + ['@'] + k.version)
    ensures ValidKey(k) ==> ':' !in KeyString(k)
  {
  }

  lemma {:induction false} KeyStringInjective(a: SchemaKey, b: SchemaKey)
    requires ValidKey(a) && ValidKey(b) && KeyString(a) == KeyString(b)
    ensures a == b
  {
    KeyStringShape(a);
    KeyStringShape(b);
    CutAt(a.name, '@', a.vendor + ['@'] + a.version, b.name, b.vendor + ['@'] + b.version);
    CutAt(a.vendor, '@', a.version, b.vendor, b.version);
  }

  lemma {:induction false} SlashesInjective(a: seq<string>, b: seq<string>)
    requires (forall i | 0 <= i < |a| :: '/' !in a[i]) && (forall i | 0 <= i < |b| :: '/' !in b[i])
    requires Slashes(a) == Slashes(b)
    ensures a == b
  {
    if a == [] || b == [] {
      SlashesNonEmpty(a);
      SlashesNonEmpty(b);
    } else {
      var x, y := a[|a| - 1], b[|b| - 1];
      LastSlash(Slashes(a[..|a| - 1]), x, Slashes(b[..|b| - 1]), y);
      SlashesInjective(a[..|a| - 1], b[..|b| - 1]);
      Unsnoc(a);
      Unsnoc(b);
    }
  }

  lemma {:induction false} SlashesNonEmpty(a: seq<string>)
    ensures Slashes(a) == "" <==> a == []
  {
  }

  /** Paths whose first name has no colon and whose other names have no slash. */
  ghost predicate PathOk(pes: seq<string>) {
    pes != [] && ':' !in pes[0] && forall i | 1 <= i < |pes| :: '/' !in pes[i]
  }

  lemma {:induction false} PathTextInjective(p: seq<string>, q: seq<string>)
    requires PathOk(p) && PathOk(q) && PathText(p) == PathText(q)
    ensures p == q
  {
    if |p| == 1 || |q| == 1 {
      ColonMeansLong(p);
      ColonMeansLong(q);
      assert p == [PathText(p)] && q == [PathText(q)];
    } else {
      PathTextShape(p);
      PathTextShape(q);
      CutAt(p[0], ':', "::" + Slashes(p[1..]), q[0], "::" + Slashes(q[1..]));
      assert Slashes(p[1..]) == ("::" + Slashes(p[1..]))[2..];
      assert Slashes(q[1..]) == ("::" + Slashes(q[1..]))[2..];
      SlashesInjective(p[1..], q[1..]);
      assert p == [p[0]] + p[1..] && q == [q[0]] + q[1..];
    }
  }

  lemma {:induction false} PathTextShape(p: seq<string>)
    requires |p| > 1
    ensures PathText(p) == p[0] + [':'] + ("::" + Slashes(p[1..]))
  {
  }

  lemma {:induction false} ColonMeansLong(p: seq<string>)
    requires PathOk(p)
    ensures ':' in PathText(p) <==> |p| > 1
    ensures |p| == 1 ==> p == [PathText(p)]
  {
    if |p| > 1 {
      PathTextShape(p);
    } else {
      assert PathText(p) == p[0];
    }
  }

  /** Entry keys of different schemas never start alike. */
  lemma {:induction false} PrefixIsSchema(a: SchemaKey, b: SchemaKey, rest: string)
    requires ValidKey(a) && ValidKey(b)
    ensures EntryPrefix(a) <= EntryPrefix(b) + rest <==> a == b
  {
    KeyStringShape(a);
    KeyStringShape(b);
    if EntryPrefix(a) <= EntryPrefix(b) + rest {
      var whole := EntryPrefix(b) + rest;
      var more := whole[|EntryPrefix(a)|..];
      assert whole == EntryPrefix(a) + more;
      assert whole[1..] == KeyString(a) + [':'] + ("::" + more);
      assert whole[1..] == KeyString(b) + [':'] + ("::" + rest);
      CutAt(KeyString(a), ':', "::" + more, KeyString(b), "::" + rest);
      KeyStringInjective(a, b);
    }
  }

  /** Distinct (schema, path) pairs have distinct keys. */
  lemma {:induction false} EntryKeyInjective(a: SchemaKey, p: seq<string>, b: SchemaKey, q: seq<string>)
    requires ValidKey(a) && ValidKey(b) && PathOk(p) && PathOk(q)
    requires EntryKey(a, p) == EntryKey(b, q)
    ensures a == b && p == q
  {
    assert EntryPrefix(a) <= EntryKey(a, p);
    PrefixIsSchema(a, b, PathText(q));
    EntryKeySame(a, p, q);
  }

  /** Within one schema, whatever its key, distinct paths have distinct keys. */
  lemma {:induction false} EntryKeySame(k: SchemaKey, p: seq<string>, q: seq<string>)
    requires PathOk(p) && PathOk(q) && EntryKey(k, p) == EntryKey(k, q)
    ensures p == q
  {
    assert EntryKey(k, p)[|EntryPrefix(k)|..] == PathText(p);
    assert EntryKey(k, q)[|EntryPrefix(k)|..] == PathText(q);
    PathTextInjective(p, q);
  }

  // ----- listing

  /** `bytes.SplitN(key, "@", 3)` read as a schema key. */
  function SplitKey(s: string): Option<SchemaKey> {
    var i := IndexOf(s, '@');
    if i == |s| then None
    else
      var rest := s[i + 1..];
      var j := IndexOf(rest, '@');
      if j == |rest| then None else Some(SchemaKey(s[..i], rest[..j], rest[j + 1..]))
  }

  lemma {:induction false} SplitPartsHaveNoSeparator(s: string)
    requires SplitKey(s).Some?
    ensures '@' !in SplitKey(s).value.name && '@' !in SplitKey(s).value.vendor
  {
  }

  lemma {:induction false} SplitBuilt(k: SchemaKey)
    requires '@' !in k.name && '@' !in k.vendor
    ensures SplitKey(KeyString(k)) == Some(k)
  {
    KeyStringShape(k);
    var tail := k.vendor + ['@'] + k.version;
    FirstOccurrence(k.name, '@', tail);
    FirstOccurrence(k.vendor, '@', k.version);
  }

  lemma {:induction false} SplitParts(s: string, k: SchemaKey)
    requires SplitKey(s) == Some(k)
    ensures s == KeyString(k)
  {
    hide KeyString;
    KeyStringShape(k);
    var i := IndexOf(s, '@');
    AroundSeparator(s, i);
    AroundSeparator(s[i + 1..], IndexOf(s[i + 1..], '@'));
  }

  lemma {:induction false} AroundSeparator(s: string, i: nat)
    requires i < |s|
    ensures s == s[..i] + [s[i]] + s[i + 1..]
  {
  }

  /** A text splits into a schema key exactly when it is the key's parts with `@` between them and
      no `@` in name and vendor; the version is all that follows the second `@`. */
  lemma {:induction false} SplitExactly(s: string, k: SchemaKey)
    ensures SplitKey(s) == Some(k) <==>
            s == k.name + "@" + k.vendor + "@" + k.version && '@' !in k.name && '@' !in k.vendor
  {
    if SplitKey(s) == Some(k) {
      SplitPartsHaveNoSeparator(s);
      SplitParts(s, k);
    }
    if s == k.name + "@" + k.vendor + "@" + k.version && '@' !in k.name && '@' !in k.vendor { SplitBuilt(k); }
  }

  /** Listing gives back the key that was stored exactly when neither name nor vendor holds `@`. */
  lemma {:induction false} ListInvertsBuild(k: SchemaKey)
    ensures SplitKey(SchemaRecordKey(k)[1..]) == Some(k) <==> '@' !in k.name && '@' !in k.vendor
  {
    assert SchemaRecordKey(k)[1..] == KeyString(k);
    if '@' !in k.name && '@' !in k.vendor {
      SplitBuilt(k);
    } else if SplitKey(KeyString(k)).Some? {
      SplitPartsHaveNoSeparator(KeyString(k));
    }
  }

  /** The schema keys that record keys split into, those that do not split left out. */
  function SplitAll(keys: seq<string>): seq<SchemaKey>
    requires forall i | 0 <= i < |keys| :: keys[i] != ""
  {
    if keys == [] then []
    else
      var k := SplitKey(keys[|keys| - 1][1..]);
      SplitAll(keys[..|keys| - 1]) + if k.Some? then [k.value] else []
  }

  lemma {:induction false} SplitAllHas(keys: seq<string>, k: SchemaKey)
    requires forall i | 0 <= i < |keys| :: keys[i] != ""
    ensures k in SplitAll(keys) <==> exists key :: key in keys && key != "" && SplitKey(key[1..]) == Some(k)
  {
    if keys != [] {
      SplitAllHas(keys[..|keys| - 1], k);
      Unsnoc(keys);
    }
  }

  lemma {:induction false} SplitAllSnoc(keys: seq<string>, x: string)
    requires (forall i | 0 <= i < |keys| :: keys[i] != "") && x != ""
    ensures SplitAll(keys + [x]) == SplitAll(keys) + if SplitKey(x[1..]).Some? then [SplitKey(x[1..]).value] else []
  {
    hide SplitKey;
    SnocParts(keys, x);
  }

  /** Listing goes through the record keys in the order in which they come. */
  lemma {:induction false} SplitAllAppend(a: seq<string>, b: seq<string>)
    requires (forall i | 0 <= i < |a| :: a[i] != "") && forall i | 0 <= i < |b| :: b[i] != ""
    ensures SplitAll(a + b) == SplitAll(a) + SplitAll(b)
    decreases |b|
  {
    if b == [] {
      assert a + b == a;
    } else {
      hide SplitAll, SplitKey;
      var init, x := b[..|b| - 1], b[|b| - 1];
      Unsnoc(b);
      Assoc(a, init, [x]);
      SplitAllAppend(a, init);
      SplitAllSnoc(a + init, x);
      SplitAllSnoc(init, x);
      Assoc(SplitAll(a), SplitAll(init), if SplitKey(x[1..]).Some? then [SplitKey(x[1..]).value] else []);
    }
  }

  // ----- dropping

  /** `DropPrefix` with one prefix. */
  function Dropped<V>(db: map<string, V>, prefix: string): map<string, V> {
    map key | key in db && !(prefix <= key) :: db[key]
  }

  lemma {:induction false} KeyStringGrows(k: SchemaKey, more: string)
    ensures KeyString(k) + more == KeyString(SchemaKey(k.name, k.vendor, k.version + more))
    ensures KeyString(k) + more == k.name + ['@'] + (k.vendor + ['@'] + (k.version + more))
  {
    KeyStringShape(SchemaKey(k.name, k.vendor, k.version + more));
    Assoc(k.name + "@" + k.vendor + "@", k.version, more);
  }

  /** Dropping a schema's record takes along exactly the records of the same name and vendor
      whose version starts with the dropped version. */
  lemma {:induction false} RecordPrefix(a: SchemaKey, b: SchemaKey)
    requires ValidKey(a) && ValidKey(b)
    ensures SchemaRecordKey(a) <= SchemaRecordKey(b)
       <==> a.name == b.name && a.vendor == b.vendor && a.version <= b.version
  {
    KeyStringShape(a);
    KeyStringShape(b);
    if SchemaRecordKey(a) <= SchemaRecordKey(b) {
      var more := SchemaRecordKey(b)[|SchemaRecordKey(a)|..];
      assert KeyString(b) == SchemaRecordKey(b)[1..] == KeyString(a) + more;
      KeyStringGrows(a, more);
      CutAt(a.name, '@', a.vendor + ['@'] + (a.version + more), b.name, b.vendor + ['@'] + b.version);
      CutAt(a.vendor, '@', a.version + more, b.vendor, b.version);
    }
    if a.name == b.name && a.vendor == b.vendor && a.version <= b.version {
      var more := b.version[|a.version|..];
      assert b.version == a.version + more;
      KeyStringGrows(a, more);
      Assoc([SCHEMAS_PREFIX], KeyString(a), more);
    }
  }

  /** Deleting version 1 also removes the record of version 10. */
  lemma {:induction false} DeletingTakesLongerVersions()
    ensures SchemaRecordKey(SchemaKey("srl", "Nokia", "1")) <= SchemaRecordKey(SchemaKey("srl", "Nokia", "10"))
  {
    RecordPrefix(SchemaKey("srl", "Nokia", "1"), SchemaKey("srl", "Nokia", "10"));
  }
}
