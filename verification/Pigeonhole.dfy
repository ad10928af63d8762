/** Counting: sequences of n numbers below n. */
module Pigeonhole {
  import opened Prelude

  function Below(n: nat): (s: set<nat>)
    ensures |s| == n && forall p: nat :: p in s <==> p < n
  {
    if n == 0 then {} else Below(n - 1) + {n - 1}
  }

  function Elements(s: seq<nat>): (r: set<nat>)
    ensures forall x: nat :: x in r <==> x in s
    ensures |r| <= |s|
  {
    if s == [] then {} else Elements(s[1..]) + {s[0]}
  }

  ghost predicate Distinct(s: seq<nat>) {
    forall i, j | 0 <= i < j < |s| :: s[i] != s[j]
  }

  lemma {:induction false} DistinctCountsOnce(s: seq<nat>, x: nat)
    requires Distinct(s)
    ensures Count(s, x) <= 1 && |Elements(s)| == |s|
  {
    if s != [] {
      DistinctCountsOnce(s[1..], x);
      CountIsMembership(s[1..], x);
      assert s[0] !in s[1..];
    }
  }

  lemma SubsetIsSmaller(a: set<nat>, b: set<nat>)
    requires a <= b
    ensures |a| <= |b|
  {
    assert b == a + (b - a);
  }

  lemma SubsetOfSameSize<T>(a: set<T>, b: set<T>)
    requires a <= b && |a| >= |b|
    ensures a == b
  {
    assert b == a + (b - a);
    assert |b| == |a| + |b - a|;
  }

  /** Without repetitions every number below n occurs, once. */
  lemma DistinctCovers(s: seq<nat>, x: nat)
    requires (forall y <- s :: y < |s|) && Distinct(s) && x < |s|
    ensures Count(s, x) == 1
  {
    DistinctCountsOnce(s, x);
    SubsetOfSameSize(Elements(s), Below(|s|));
    CountIsMembership(s, x);
  }

  lemma {:induction false} RepetitionShrinks(s: seq<nat>, i: nat, j: nat)
    requires i < j < |s| && s[i] == s[j]
    ensures |Elements(s)| < |s|
  {
    if i > 0 {
      RepetitionShrinks(s[1..], i - 1, j - 1);
    } else {
      assert s[0] == s[1..][j - 1];
      assert Elements(s) == Elements(s[1..]);
    }
  }

  /** With a repetition some number below n is missing. */
  lemma RepetitionMisses(s: seq<nat>, i: nat, j: nat) returns (x: nat)
    requires i < j < |s| && s[i] == s[j]
    ensures x < |s| && Count(s, x) == 0
  {
    RepetitionShrinks(s, i, j);
    if Below(|s|) <= Elements(s) {
      SubsetIsSmaller(Below(|s|), Elements(s));
      assert false;
    }
    x :| x in Below(|s|) && x !in Elements(s);
    CountIsMembership(s, x);
  }
}
