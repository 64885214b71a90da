/** Strings as sequences of code points, their byte order, and sorting.
    Comparing valid UTF-8 byte by byte orders strings as comparing code points does. */
module Text {

  /** The position of the first `c`, or `|s|` when there is none. */
  function IndexOf(s: string, c: char): (i: nat)
    ensures i <= |s|
    ensures c !in s[..i]
    ensures i < |s| ==> s[i] == c
    ensures c in s <==> i < |s|
  {
    if s == [] then 0
    else if s[0] == c then 0
    else
      var k := IndexOf(s[1..], c);
      assert s[..1 + k] == [s[0]] + s[1..][..k];
      1 + k
  }

  /** Strings that differ only after their first `c` agree on where that `c` is. */
  lemma {:induction false} FirstOccurrence(a: string, c: char, b: string)
    requires c !in a
    ensures IndexOf(a + [c] + b, c) == |a|
    ensures (a + [c] + b)[..|a|] == a && (a + [c] + b)[|a| + 1..] == b
  {
    var s := a + [c] + b;
    var i := IndexOf(s, c);
    assert s[|a|] == c;
    assert forall k | 0 <= k < |a| :: s[k] == a[k] && a[k] in a;
    assert forall k | 0 <= k < i :: s[k] == s[..i][k];
  }

  /** The last slash-free stretch of a text is determined by the text. */
  lemma {:induction false} LastSlash(p: string, x: string, q: string, y: string)
    requires '/' !in x && '/' !in y && p + ("/" + x) == q + ("/" + y)
    ensures p == q && x == y
  {
    var s := p + ("/" + x);
    assert s[|p|] == '/' && s[|q|] == '/';
    assert forall i | |p| < i < |s| :: s[i] == x[i - |p| - 1] && s[i] in x;
    assert forall i | |q| < i < |s| :: s[i] == y[i - |q| - 1] && s[i] in y;
    assert |p| == |q|;
    assert p == s[..|p|] && q == s[..|q|];
    assert x == s[|p| + 1..] && y == s[|q| + 1..];
  }

  /** `strings.Contains`. */
  predicate HasSubstring(s: string, sub: string) {
    sub <= s || (s != [] && HasSubstring(s[1..], sub))
  }

  /** `sub` is part of `s`. */
  ghost predicate Occurs(sub: string, s: string) {
    exists a: string, b: string :: s == a + sub + b
  }

  lemma {:induction false} SubstringOccurs(s: string, sub: string)
    ensures HasSubstring(s, sub) <==> Occurs(sub, s)
  {
    if sub <= s { assert s == [] + sub + s[|sub|..]; }
    if s != [] {
      SubstringOccurs(s[1..], sub);
      if a, b :| s[1..] == a + sub + b { assert s == ([s[0]] + a) + sub + b; }
    }
    if a, b :| s == a + sub + b {
      if a == [] { assert s == sub + b; } else { assert s[1..] == a[1..] + sub + b; }
    }
  }

  /** Go's `<` on strings. */
  predicate LexLess(a: string, b: string) {
    b != [] && (a == [] || a[0] < b[0] || (a[0] == b[0] && LexLess(a[1..], b[1..])))
  }

  /** The texts are the same up to a place where `a` ends or has the smaller character. */
  ghost predicate Before(a: string, b: string) {
    exists k | 0 <= k <= |a| && k < |b| :: a[..k] == b[..k] && (k == |a| || a[k] < b[k])
  }

  lemma {:induction false} LexIsBefore(a: string, b: string)
    ensures LexLess(a, b) <==> Before(a, b)
  {
    if a == [] {
      if b != [] { assert a[..0] == b[..0]; }
    } else if b != [] {
      if a[0] < b[0] { assert a[..0] == b[..0]; }
      LexIsBefore(a[1..], b[1..]);
      if k: nat :| 0 < k <= |a| && k < |b| && a[..k] == b[..k] && (k == |a| || a[k] < b[k]) {
        assert a[0] == a[..k][0] == b[0] && a[1..][..k - 1] == a[..k][1..] == b[1..][..k - 1];
      }
      if k: nat :| a[0] == b[0] && k <= |a[1..]| && k < |b[1..]| && a[1..][..k] == b[1..][..k] && (k == |a[1..]| || a[1..][k] < b[1..][k]) {
        assert a[..k + 1] == [a[0]] + a[1..][..k] == b[..k + 1];
      }
    }
  }

  lemma {:induction false} LexIrreflexive(a: string)
    ensures !LexLess(a, a)
  {
    if a != [] { LexIrreflexive(a[1..]); }
  }

  lemma {:induction false} LexConnected(a: string, b: string)
    requires a != b
    ensures LexLess(a, b) || LexLess(b, a)
  {
    if a != [] && b != [] && a[0] == b[0] {
      assert a == [a[0]] + a[1..] && b == [b[0]] + b[1..];
      LexConnected(a[1..], b[1..]);
    }
  }

  lemma {:induction false} LexTransitive(a: string, b: string, c: string)
    requires LexLess(a, b) && LexLess(b, c)
    ensures LexLess(a, c)
  {
    if a != [] && a[0] == b[0] && b[0] == c[0] {
      LexTransitive(a[1..], b[1..], c[1..]);
    }
  }

  type Order = (string, string) -> bool

  /** A strict order that decides between any two distinct strings. */
  ghost predicate StrictTotal(less: Order) {
    && (forall a :: !less(a, a))
    && (forall a, b :: a != b ==> less(a, b) || less(b, a))
    && (forall a, b, c :: less(a, b) && less(b, c) ==> less(a, c))
  }

  lemma {:induction false} LexStrictTotal()
    ensures StrictTotal(LexLess)
  {
    forall a ensures !LexLess(a, a) { LexIrreflexive(a); }
    forall a, b | a != b ensures LexLess(a, b) || LexLess(b, a) { LexConnected(a, b); }
    forall a, b, c | LexLess(a, b) && LexLess(b, c) ensures LexLess(a, c) { LexTransitive(a, b, c); }
  }

  ghost predicate Sorted(less: Order, s: seq<string>) {
    forall i, j | 0 <= i < j < |s| :: !less(s[j], s[i])
  }

  ghost predicate NoDup<T>(s: seq<T>) {
    forall i, j | 0 <= i < j < |s| :: s[i] != s[j]
  }

  ghost function Elements<T>(s: seq<T>): set<T> {
    set x | x in s
  }

  function Insert(less: Order, x: string, s: seq<string>): (r: seq<string>)
    ensures multiset(r) == multiset(s) + multiset{x}
  {
    if s == [] || less(x, s[0]) then [x] + s
    else
      assert s == [s[0]] + s[1..];
      [s[0]] + Insert(less, x, s[1..])
  }

  /** `sort.Strings` and `sort.Slice`: some rearrangement that is in order. */
  function Sort(less: Order, s: seq<string>): (r: seq<string>)
    ensures multiset(r) == multiset(s)
  {
    if s == [] then []
    else
      assert s == [s[0]] + s[1..];
      Insert(less, s[0], Sort(less, s[1..]))
  }

  lemma {:induction false} SameMembers<T>(a: seq<T>, b: seq<T>)
    requires multiset(a) == multiset(b)
    ensures |a| == |b| && forall x :: x in a <==> x in b
  {
    assert |a| == |multiset(a)| && |b| == |multiset(b)|;
    forall x ensures x in a <==> x in b {
      assert x in a <==> x in multiset(a);
      assert x in b <==> x in multiset(b);
    }
  }

  lemma {:induction false} InsertSorted(less: Order, x: string, s: seq<string>)
    requires StrictTotal(less) && Sorted(less, s)
    ensures Sorted(less, Insert(less, x, s))
  {
    var r := Insert(less, x, s);
    if s == [] {
    } else if less(x, s[0]) {
      forall i, j | 0 <= i < j < |r| ensures !less(r[j], r[i]) {
        if i == 0 && j > 1 { assert !less(s[j - 1], s[0]); }
      }
    } else {
      InsertSorted(less, x, s[1..]);
      var tail := Insert(less, x, s[1..]);
      SameMembers(tail, s[1..] + [x]);
      assert r == [s[0]] + tail;
      hide Insert;
      forall y | y in tail ensures !less(y, s[0]) { assert y in s[1..] || y == x; }
      ConsSorted(less, s[0], tail);
    }
  }

  lemma {:induction false} ConsSorted(less: Order, x: string, s: seq<string>)
    requires Sorted(less, s) && forall y | y in s :: !less(y, x)
    ensures Sorted(less, [x] + s)
  {
    var r := [x] + s;
    forall i, j | 0 <= i < j < |r| ensures !less(r[j], r[i]) {
      assert r[j] == s[j - 1] && s[j - 1] in s;
      if i > 0 { assert r[i] == s[i - 1]; }
    }
  }

  lemma {:induction false} SortSorts(less: Order, s: seq<string>)
    requires StrictTotal(less)
    ensures Sorted(less, Sort(less, s))
  {
    if s != [] {
      SortSorts(less, s[1..]);
      InsertSorted(less, s[0], Sort(less, s[1..]));
    }
  }

  lemma {:induction false} SortedHead(less: Order, a: seq<string>, x: string)
    requires StrictTotal(less) && Sorted(less, a) && x in a
    ensures x == a[0] || less(a[0], x)
  {
    var i :| 0 <= i < |a| && a[i] == x;
    if i > 0 { assert !less(a[i], a[0]); }
  }

  lemma {:induction false} WithoutFirst(a: seq<string>)
    requires a != []
    ensures a == [a[0]] + a[1..] && multiset(a[1..]) == multiset(a) - multiset{a[0]}
  {
    assert a == [a[0]] + a[1..];
  }

  /** Only one arrangement of given strings is in order. */
  lemma {:induction false} SortedUnique(less: Order, a: seq<string>, b: seq<string>)
    requires StrictTotal(less) && Sorted(less, a) && Sorted(less, b)
    requires multiset(a) == multiset(b)
    ensures a == b
  {
    SameMembers(a, b);
    if a != [] {
      assert a[0] == b[0] by {
        SortedHead(less, a, b[0]);
        SortedHead(less, b, a[0]);
      }
      WithoutFirst(a);
      WithoutFirst(b);
      SortedUnique(less, a[1..], b[1..]);
    }
  }

  /** What sorting gives does not depend on the order in which a map was walked. */
  lemma {:induction false} SortIgnoresOrder(less: Order, a: seq<string>, b: seq<string>)
    requires StrictTotal(less) && multiset(a) == multiset(b)
    ensures Sort(less, a) == Sort(less, b)
  {
    SortSorts(less, a);
    SortSorts(less, b);
    SortedUnique(less, Sort(less, a), Sort(less, b));
  }

  ghost predicate IsLeast(less: Order, x: string, s: set<string>) {
    x in s && forall y | y in s && y != x :: less(x, y)
  }

  lemma {:induction false} LeastExists(less: Order, s: set<string>) returns (x: string)
    requires StrictTotal(less) && s != {}
    ensures IsLeast(less, x, s)
  {
    var y :| y in s;
    if s == {y} {
      x := y;
    } else {
      assert s - {y} != {};
      var z := LeastExists(less, s - {y});
      x := if less(y, z) then y else z;
      forall w | w in s && w != x ensures less(x, w) {
        assert w == y || w == z || less(z, w);
      }
    }
  }

  /** The members of a set in order. */
  ghost function SortedSet(less: Order, s: set<string>): (r: seq<string>)
    requires StrictTotal(less)
    ensures |r| == |s| && (forall x :: x in r <==> x in s)
  {
    if s == {} then []
    else
      var x := Least(less, s);
      [x] + SortedSet(less, s - {x})
  }

  ghost function Least(less: Order, s: set<string>): (x: string)
    requires StrictTotal(less) && s != {}
    ensures IsLeast(less, x, s)
  {
    assert exists x :: IsLeast(less, x, s) by { var x := LeastExists(less, s); }
    var x :| IsLeast(less, x, s);
    x
  }

  lemma {:induction false} SortedSetSorted(less: Order, s: set<string>)
    requires StrictTotal(less)
    ensures Sorted(less, SortedSet(less, s)) && NoDup(SortedSet(less, s))
  {
    if s != {} {
      var x := Least(less, s);
      SortedSetSorted(less, s - {x});
      var tail := SortedSet(less, s - {x});
      var r := SortedSet(less, s);
      assert r == [x] + tail;
      forall i, j | 0 <= i < j < |r| ensures !less(r[j], r[i]) && r[i] != r[j] {
        assert r[j] == tail[j - 1];
        assert tail[j - 1] in tail;
        if i == 0 { assert less(x, tail[j - 1]); }
      }
    }
  }

  /** The members of a set listed in dictionary order. */
  lemma {:induction false} Ascending(s: set<string>)
    ensures StrictTotal(LexLess)
    ensures var r := SortedSet(LexLess, s); forall i, j | 0 <= i < j < |r| :: Before(r[i], r[j])
  {
    LexStrictTotal();
    SortedSetSorted(LexLess, s);
    var r := SortedSet(LexLess, s);
    hide Before, LexLess, SortedSet;
    forall i, j | 0 <= i < j < |r| ensures Before(r[i], r[j]) {
      LexIsBefore(r[i], r[j]);
      assert !LexLess(r[j], r[i]) && r[i] != r[j];
    }
  }

  lemma {:induction false} Uncons<T>(a: seq<T>, s: seq<T>)
    requires s != []
    ensures (a + [s[0]]) + s[1..] == a + s
  {
  }

  lemma {:induction false} Assoc<T>(a: seq<T>, b: seq<T>, c: seq<T>)
    ensures (a + b) + c == a + (b + c)
  {
  }

  /** A sequence taken apart at its end. */
  lemma {:induction false} Unsnoc<T>(s: seq<T>)
    requires s != []
    ensures s == s[..|s| - 1] + [s[|s| - 1]]
  {
  }

  /** A sequence put together from a front and a last element comes apart the same way. */
  lemma {:induction false} SnocParts<T>(a: seq<T>, x: T)
    ensures |a + [x]| == |a| + 1 && (a + [x])[..|a|] == a && (a + [x])[|a|] == x
  {
  }

  lemma {:induction false} ConsParts<T>(x: T, a: seq<T>)
    ensures ([x] + a)[0] == x && ([x] + a)[1..] == a
  {
  }

  lemma {:induction false} SliceNext<T>(s: seq<T>, a: nat, i: nat)
    requires a <= i < |s|
    ensures s[a..i + 1] == s[a..i] + [s[i]]
  {
  }

  lemma {:induction false} DistinctCount<T>(s: seq<T>)
    requires NoDup(s)
    ensures |Elements(s)| == |s|
  {
    if s != [] {
      var init, x := s[..|s| - 1], s[|s| - 1];
      DistinctCount(init);
      Unsnoc(s);
      assert Elements(s) == Elements(init) + {x};
      assert x !in init;
    }
  }

  lemma {:induction false} SubsetSize<T>(a: set<T>, b: set<T>)
    requires a <= b
    ensures |a| <= |b| && (|a| == |b| <==> a == b)
  {
    if a != {} {
      var x :| x in a;
      SubsetSize(a - {x}, b - {x});
      assert a == (a - {x}) + {x} && b == (b - {x}) + {x};
    }
  }

  lemma {:induction false} NoDupConcat<T>(a: seq<T>, b: seq<T>)
    requires NoDup(a) && NoDup(b) && forall x | x in a :: x !in b
    ensures NoDup(a + b)
  {
    var s := a + b;
    forall i, j | 0 <= i < j < |s| ensures s[i] != s[j] {
      if i < |a| <= j { assert a[i] in a && b[j - |a|] in b; }
    }
  }

  /** A sequence without the element at one position. */
  function Without<T>(s: seq<T>, j: nat): seq<T>
    requires j < |s|
  {
    s[..j] + s[j + 1..]
  }

  lemma {:induction false} Removed<T>(s: seq<T>, j: nat)
    requires j < |s|
    ensures multiset(s) == multiset(Without(s, j)) + multiset{s[j]}
  {
    assert s == s[..j] + [s[j]] + s[j + 1..];
  }

  lemma {:induction false} RemovedDistinct<T>(s: seq<T>, j: nat)
    requires NoDup(s) && j < |s|
    ensures NoDup(Without(s, j)) && forall x :: x in Without(s, j) <==> x in s && x != s[j]
  {
    var r := Without(s, j);
    forall x | x in s && x != s[j] ensures x in r {
      var i :| 0 <= i < |s| && s[i] == x;
      assert r[if i < j then i else i - 1] == x;
    }
    forall i, k | 0 <= i < k < |r| ensures r[i] != r[k] {
      assert r[i] == s[if i < j then i else i + 1] && r[k] == s[if k < j then k else k + 1];
    }
    forall x | x in r ensures x in s && x != s[j] {
      var i :| 0 <= i < |r| && r[i] == x;
      assert r[i] == s[if i < j then i else i + 1];
    }
  }

  lemma {:induction false} NoDupMultiset<T>(a: seq<T>, b: seq<T>)
    requires NoDup(a) && NoDup(b)
    requires forall x :: x in a <==> x in b
    ensures multiset(a) == multiset(b)
    decreases |a|
  {
    assert b != [] ==> b[0] in b;
    if a != [] {
      assert a[0] in b;
      var i :| 0 <= i < |b| && b[i] == a[0];
      RemovedDistinct(a, 0);
      RemovedDistinct(b, i);
      NoDupMultiset(Without(a, 0), Without(b, i));
      Removed(a, 0);
      Removed(b, i);
    }
  }

  /** Sorting distinct strings lists their set in order, however they were collected. */
  lemma {:induction false} SortOfSet(less: Order, q: seq<string>, s: set<string>)
    requires StrictTotal(less) && NoDup(q)
    requires forall x :: x in q <==> x in s
    ensures Sort(less, q) == SortedSet(less, s)
  {
    SortedSetSorted(less, s);
    NoDupMultiset(q, SortedSet(less, s));
    SortSorts(less, q);
    SortedUnique(less, Sort(less, q), SortedSet(less, s));
  }
}
