/**
 * Reorderings of a table's rows. A sort is described by the sequence of
 * the original positions it puts at each place.
 */
module Permutations {

  /** `perm` lists each of the positions `0 .. n-1` exactly once. */
  predicate IsPermutation(perm: seq<nat>, n: nat)
  {
    && |perm| == n
    && (forall p :: 0 <= p < n ==> perm[p] < n)
    && (forall p, q :: 0 <= p < q < n ==> perm[p] != perm[q])
  }

  function Identity(n: nat): (perm: seq<nat>)
    ensures IsPermutation(perm, n) && forall p :: 0 <= p < n ==> perm[p] == p
  {
    seq(n, p requires 0 <= p < n => p)
  }

  /** The positions `0 .. n-1` as a set. */
  function Range(n: nat): (r: set<nat>)
    ensures forall k: nat :: k in r <==> k < n
    ensures |r| == n
  {
    if n == 0 then {} else Range(n - 1) + {n - 1}
  }

  /** A sequence without repetitions drawn from `vals` is no longer than `vals`. */
  lemma {:induction false} DistinctFits(s: seq<nat>, vals: set<nat>)
    requires forall p, q :: 0 <= p < q < |s| ==> s[p] != s[q]
    requires forall p :: 0 <= p < |s| ==> s[p] in vals
    ensures |s| <= |vals|
    decreases |s|
  {
    if s != [] {
      var last := s[|s| - 1];
      DistinctFits(s[..|s| - 1], vals - {last});
    }
  }

  /** Every position `0 .. n-1` occurs in a permutation: no input row is lost. */
  lemma PermutationCovers(perm: seq<nat>, n: nat, k: nat)
    requires IsPermutation(perm, n) && k < n
    ensures exists p :: 0 <= p < n && perm[p] == k
  {
    if forall p :: 0 <= p < n ==> perm[p] != k {
      DistinctFits(perm, Range(n) - {k});
      assert false;
    }
  }

  /** A row draws its ICD10 value from its own row exactly when the sort left it in place. */
  lemma SecondStepFixed(perm: seq<nat>, n: nat, p: nat)
    requires IsPermutation(perm, n) && p < n
    ensures perm[perm[p]] == perm[p] <==> perm[p] == p
  {
  }
}
