/**
 * `sort_values` on one column. pandas' default sort is not stable, so the
 * model promises only some ascending arrangement of the records, described
 * by the permutation that produced it.
 */
module RowOrder {
  import opened Strings
  import opened Permutations
  import opened ServiceDates
  import opened Frames

  /** What a cell is compared by: a date by its fields, text by its code points. */
  function CellKey(c: Cell): seq<int>
  {
    match c
    case Text(s) => TextKey(s)
    case Stamp(d) => Key(d)
  }

  /** A record's sort key in the given column (empty when it has no such cell). */
  function SortKey(r: Record, column: nat): seq<int>
  {
    if column < |r.cells| then CellKey(r.cells[column]) else []
  }

  /** Each record's key is at most the next one's. */
  predicate Ascending(rs: seq<Record>, column: nat)
  {
    forall i :: 0 <= i < |rs| - 1 ==> LexLe(SortKey(rs[i], column), SortKey(rs[i + 1], column))
  }

  lemma {:induction false} LexLeTransitive(a: seq<int>, b: seq<int>, c: seq<int>)
    requires LexLe(a, b) && LexLe(b, c)
    ensures LexLe(a, c)
    decreases |a|
  {
    if |a| > 0 && a[0] == b[0] && b[0] == c[0] {
      LexLeTransitive(a[1..], b[1..], c[1..]);
    }
  }

  /** Ascending neighbours make every earlier record at most every later one. */
  lemma {:induction false} AscendingPairwise(rs: seq<Record>, column: nat, i: nat, j: nat)
    requires Ascending(rs, column) && i <= j < |rs|
    ensures LexLe(SortKey(rs[i], column), SortKey(rs[j], column))
    decreases j - i
  {
    if i == j {
      LexLeReflexive(SortKey(rs[i], column));
    } else {
      AscendingPairwise(rs, column, i + 1, j);
      LexLeTransitive(SortKey(rs[i], column), SortKey(rs[i + 1], column), SortKey(rs[j], column));
    }
  }

  lemma {:induction false} LexLeReflexive(a: seq<int>)
    ensures LexLe(a, a)
    decreases |a|
  {
    if |a| > 0 {
      LexLeReflexive(a[1..]);
    }
  }

  /** The order of two dates is the order of their key tuples. */
  lemma EarlierDate(d: DateTime, e: DateTime)
    requires d.year < e.year || (d.year == e.year && d.month < e.month)
    ensures LexLe(Key(d), Key(e)) && !LexLe(Key(e), Key(d))
  {
  }

  /**
   * Sorts the records ascending by the given column. `sorted[p]` is the
   * record that stood at `perm[p]`; ties may end up in any order.
   */
  method SortRecords(rs: seq<Record>, column: nat) returns (sorted: seq<Record>, ghost perm: seq<nat>)
    ensures IsPermutation(perm, |rs|)
    ensures |sorted| == |rs| && forall p :: 0 <= p < |rs| ==> sorted[p] == rs[perm[p]]
    ensures Ascending(sorted, column)
  {
    sorted, perm := [], [];
    for i := 0 to |rs|
      invariant IsPermutation(perm, i)
      invariant |sorted| == i && forall p :: 0 <= p < i ==> sorted[p] == rs[perm[p]]
      invariant Ascending(sorted, column)
    {
      var key := SortKey(rs[i], column);
      var k := 0;
      while k < i && LexLe(SortKey(sorted[k], column), key)
        invariant 0 <= k <= i
        invariant k > 0 ==> LexLe(SortKey(sorted[k - 1], column), key)
      {
        k := k + 1;
      }
      if k < i {
        LexLeTotal(SortKey(sorted[k], column), key);
      }
      InsertKeepsAscending(sorted, column, k, rs[i]);
      InsertTracksOrigin(rs, sorted, perm, i, k);
      sorted := sorted[..k] + [rs[i]] + sorted[k..];
      perm := perm[..k] + [i] + perm[k..];
    }
  }

  /** Putting a record between a smaller and a larger neighbour keeps the order. */
  lemma InsertKeepsAscending(rs: seq<Record>, column: nat, k: nat, r: Record)
    requires Ascending(rs, column) && k <= |rs|
    requires k > 0 ==> LexLe(SortKey(rs[k - 1], column), SortKey(r, column))
    requires k < |rs| ==> LexLe(SortKey(r, column), SortKey(rs[k], column))
    ensures Ascending(rs[..k] + [r] + rs[k..], column)
  {
    var out := rs[..k] + [r] + rs[k..];
    forall i | 0 <= i < |out| - 1
      ensures LexLe(SortKey(out[i], column), SortKey(out[i + 1], column))
    {
      if i < k - 1 {
        assert out[i] == rs[i] && out[i + 1] == rs[i + 1];
      } else if i == k - 1 {
        assert out[i] == rs[k - 1] && out[i + 1] == r;
      } else if i == k {
        assert out[i] == r && out[i + 1] == rs[k];
      } else {
        assert out[i] == rs[i - 1] && out[i + 1] == rs[i];
      }
    }
  }

  /**
   * Inserting record `i` at place `k` extends a permutation of `0 .. i-1`
   * to one of `0 .. i`, and every place still holds the record its entry names.
   */
  lemma InsertTracksOrigin<T>(rs: seq<T>, sorted: seq<T>, perm: seq<nat>, i: nat, k: nat)
    requires i < |rs| && k <= i
    requires IsPermutation(perm, i) && |sorted| == i
    requires forall p :: 0 <= p < i ==> sorted[p] == rs[perm[p]]
    ensures IsPermutation(perm[..k] + [i] + perm[k..], i + 1)
    ensures var s := sorted[..k] + [rs[i]] + sorted[k..];
            var q := perm[..k] + [i] + perm[k..];
            |s| == i + 1 && forall p :: 0 <= p < i + 1 ==> s[p] == rs[q[p]]
  {
    var q := perm[..k] + [i] + perm[k..];
    assert forall p :: 0 <= p < i + 1 ==> q[p] == (if p < k then perm[p] else if p == k then i else perm[p - 1]);
  }
}
