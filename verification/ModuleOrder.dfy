/** The order in which candidate modules are tried (`SortModulesAB`). */
module ModuleOrder {
  import opened Text

  /** Standards modules come after all others when a lookup has several candidates. */
  const DEPRIORITIZED: seq<string> := ["ietf", "iana"]

  /** Some entry of the list occurs in the name. */
  predicate MatchesAny(name: string, list: seq<string>) {
    exists s | s in list :: HasSubstring(name, s)
  }

  predicate SortModulesAB(a: string, b: string, deprioritized: seq<string>) {
    var inA, inB := MatchesAny(a, deprioritized), MatchesAny(b, deprioritized);
    if inA == inB then LexLess(a, b) else !inA && inB
  }

  function By(deprioritized: seq<string>): Order {
    (a, b) => SortModulesAB(a, b, deprioritized)
  }

  predicate ModLess(a: string, b: string) {
    SortModulesAB(a, b, DEPRIORITIZED)
  }

  /** A module whose name holds `ietf` or `iana`. */
  ghost predicate IsStandard(m: string) {
    Occurs("ietf", m) || Occurs("iana", m)
  }

  /** Module `a` is tried before `b`: other modules before standards modules, and the modules of
      one group in dictionary order. */
  ghost predicate Earlier(a: string, b: string) {
    if IsStandard(a) == IsStandard(b) then Before(a, b) else IsStandard(b)
  }

  lemma {:induction false} ModLessIsEarlier(a: string, b: string)
    ensures ModLess(a, b) <==> Earlier(a, b)
  {
    LexIsBefore(a, b);
    MatchesStandards(a);
    MatchesStandards(b);
  }

  lemma {:induction false} MatchesStandards(m: string)
    ensures MatchesAny(m, DEPRIORITIZED) <==> IsStandard(m)
  {
    SubstringOccurs(m, "ietf");
    SubstringOccurs(m, "iana");
    assert DEPRIORITIZED[0] == "ietf" && DEPRIORITIZED[1] == "iana";
  }

  /** The comparison is a strict total order on names, whatever the list. */
  lemma {:induction false} SortModulesABStrictTotal(deprioritized: seq<string>)
    ensures StrictTotal(By(deprioritized))
  {
    LexStrictTotal();
    var less := By(deprioritized);
    forall a ensures !less(a, a) { assert !LexLess(a, a); }
    forall a, b | a != b ensures less(a, b) || less(b, a) { assert LexLess(a, b) || LexLess(b, a); }
    forall a, b, c | less(a, b) && less(b, c) ensures less(a, c) {
      assert LexLess(a, b) && LexLess(b, c) ==> LexLess(a, c);
    }
  }

  lemma {:induction false} ModLessStrictTotal()
    ensures StrictTotal(ModLess)
  {
    SortModulesABStrictTotal(DEPRIORITIZED);
    var less := By(DEPRIORITIZED);
    assert forall a, b :: ModLess(a, b) == less(a, b);
  }

  /** The two ways the module map can be walked give the same candidates in the same order. */
  lemma {:induction false} CandidatesIgnoreMapOrder(a: seq<string>, b: seq<string>)
    requires NoDup(a) && NoDup(b) && (forall x :: x in a <==> x in b)
    ensures Sort(ModLess, a) == Sort(ModLess, b)
  {
    ModLessStrictTotal();
    NoDupMultiset(a, b);
    SortIgnoresOrder(ModLess, a, b);
  }

  /** The first of `mods` that is a member of `hits`. */
  function FirstHit(mods: seq<string>, hits: set<string>): (k: nat)
    ensures k <= |mods|
    ensures k < |mods| ==> mods[k] in hits
    ensures forall i | 0 <= i < k :: mods[i] !in hits
  {
    if mods == [] || mods[0] in hits then 0 else
      var k := FirstHit(mods[1..], hits);
      assert forall i | 0 < i < 1 + k :: mods[i] == mods[1..][i - 1];
      1 + k
  }

  /** Trying modules in sorted order until one succeeds finds the least one that succeeds. */
  lemma {:induction false} FirstHitIsLeast(mods: seq<string>, hits: set<string>)
    requires Sorted(ModLess, mods) && NoDup(mods) && (forall x | x in hits :: x in mods)
    ensures hits == {} <==> FirstHit(mods, hits) == |mods|
    ensures hits != {} ==> IsLeast(ModLess, mods[FirstHit(mods, hits)], hits)
  {
    ModLessStrictTotal();
    var k := FirstHit(mods, hits);
    forall x | x in hits ensures k < |mods| && (x == mods[k] || ModLess(mods[k], x)) {
      var i :| 0 <= i < |mods| && mods[i] == x;
      assert k <= i;
      if k < i { assert !ModLess(mods[i], mods[k]) && mods[k] != mods[i]; }
    }
    if hits != {} { var x :| x in hits; }
  }

  /** The module that is tried first among `s`. */
  ghost function Best(s: set<string>): (m: string)
    requires s != {}
    ensures IsLeast(ModLess, m, s)
  {
    ModLessStrictTotal();
    Least(ModLess, s)
  }

  lemma {:induction false} LeastUnique(a: string, b: string, s: set<string>)
    requires IsLeast(ModLess, a, s) && IsLeast(ModLess, b, s)
    ensures a == b
  {
    ModLessStrictTotal();
  }
}
