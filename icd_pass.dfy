/**
 * The pass that rewrites the ICD10 column after the sort. The loop walks
 * the sorted frame but reads the ICD10 value with `iloc[index]`, where
 * `index` is the record's row number in the upload: that number is used as
 * a position in the sorted frame, so a moved record reads another record's
 * codes.
 */
module IcdPass {
  import opened Strings
  import opened Permutations
  import opened ServiceDates
  import opened IcdCodes
  import opened Frames
  import opened RowOrder

  /** Every row number names a position of the frame, so `iloc` does not fail. */
  predicate OriginsInRange(rs: seq<Record>)
  {
    forall p :: 0 <= p < |rs| ==> rs[p].origin < |rs|
  }

  /** The codes as written: place `p` reads the ICD10 at the position named by its row number. */
  function LookedUpCodes(sorted: seq<Record>): (codes: seq<string>)
    requires AllShaped(sorted) && OriginsInRange(sorted)
    ensures |codes| == |sorted|
  {
    seq(|sorted|, p requires 0 <= p < |sorted| => TruncateCodes(IcdOf(sorted[sorted[p].origin])))
  }

  /** The codes as intended: each record's own ICD10, truncated. */
  function OwnCodes(rs: seq<Record>): (codes: seq<string>)
    requires AllShaped(rs)
    ensures |codes| == |rs|
  {
    seq(|rs|, p requires 0 <= p < |rs| => TruncateCodes(IcdOf(rs[p])))
  }

  /**
   * The loop over the sorted frame collecting `new_ICD_codes`. Every code
   * it collects has at most six comma-separated pieces.
   */
  method NewIcdCodes(sorted: seq<Record>) returns (codes: seq<string>)
    requires AllShaped(sorted) && OriginsInRange(sorted)
    ensures codes == LookedUpCodes(sorted)
    ensures forall p :: 0 <= p < |codes| ==> |Split(codes[p], ',')| <= MAX_CODES
  {
    codes := [];
    for p := 0 to |sorted|
      invariant |codes| == p
      invariant forall q :: 0 <= q < p ==> codes[q] == LookedUpCodes(sorted)[q]
    {
      var source := sorted[p].origin;
      assert LookedUpCodes(sorted)[p] == TruncateCodes(IcdOf(sorted[source]));
      codes := codes + [TruncateCodes(IcdOf(sorted[source]))];
    }
    assert |codes| == |LookedUpCodes(sorted)|;
    forall p | 0 <= p < |codes|
      ensures |Split(codes[p], ',')| <= MAX_CODES
    {
      AtMostSixCodes(IcdOf(sorted[sorted[p].origin]));
    }
  }

  /** The loop as intended: each place reads its own record's ICD10. */
  method OwnIcdCodes(sorted: seq<Record>) returns (codes: seq<string>)
    requires AllShaped(sorted)
    ensures codes == OwnCodes(sorted)
  {
    codes := [];
    for p := 0 to |sorted|
      invariant |codes| == p
      invariant forall q :: 0 <= q < p ==> codes[q] == OwnCodes(sorted)[q]
    {
      codes := codes + [TruncateCodes(IcdOf(sorted[p]))];
    }
  }

  /** A record with a new ICD10 value; its row number and other cells stay. */
  function SetIcd(r: Record, code: string): (w: Record)
    requires Shaped(r)
    ensures Shaped(w) && IcdOf(w) == code && w.origin == r.origin
    ensures forall j :: 0 <= j < |REQUIRED| && j != ICD_COLUMN ==> w.cells[j] == r.cells[j]
  {
    r.(cells := r.cells[ICD_COLUMN := Text(code)])
  }

  /** `filtered_df["ICD10"] = codes`: the column replaced place by place. */
  function AssignIcd(rs: seq<Record>, codes: seq<string>): (out: seq<Record>)
    requires AllShaped(rs) && |codes| == |rs|
    ensures |out| == |rs| && AllShaped(out)
    ensures forall p :: 0 <= p < |rs| ==> out[p] == SetIcd(rs[p], codes[p])
  {
    seq(|rs|, p requires 0 <= p < |rs| => SetIcd(rs[p], codes[p]))
  }

  /** Replacing ICD10 keeps an order on any other column. */
  lemma AssignKeepsOrder(rs: seq<Record>, codes: seq<string>, column: nat)
    requires AllShaped(rs) && |codes| == |rs| && column != ICD_COLUMN
    requires Ascending(rs, column)
    ensures Ascending(AssignIcd(rs, codes), column)
  {
    var out := AssignIcd(rs, codes);
    forall p | 0 <= p < |rs|
      ensures SortKey(out[p], column) == SortKey(rs[p], column)
    {
    }
  }

  /**
   * What the cleaner makes of `rows` (labelled by position): the records
   * in an ascending arrangement `perm` on `column`, every one keeping its
   * cells except ICD10, which at place `p` is the truncated ICD10 of the
   * record at place `perm[p]` of the sorted frame, the input row
   * `perm[perm[p]]`.
   */
  ghost predicate SortedAndRecoded(rows: seq<Record>, out: seq<Record>, perm: seq<nat>, column: nat)
    requires AllShaped(rows)
  {
    && IsPermutation(perm, |rows|)
    && |out| == |rows|
    && Ascending(out, column)
    && forall p :: 0 <= p < |out| ==> out[p] == SetIcd(rows[perm[p]], TruncateCodes(IcdOf(rows[perm[perm[p]]])))
  }

  /** The same with every record keeping its own codes: the rows are only rearranged. */
  ghost predicate SortedWithOwnCodes(rows: seq<Record>, out: seq<Record>, perm: seq<nat>, column: nat)
    requires AllShaped(rows)
  {
    && IsPermutation(perm, |rows|)
    && |out| == |rows|
    && Ascending(out, column)
    && forall p :: 0 <= p < |out| ==> out[p] == SetIcd(rows[perm[p]], TruncateCodes(IcdOf(rows[perm[p]])))
  }

  /** Sorting a frame labelled by position leaves every row number in range. */
  lemma SortedOrigins(rows: seq<Record>, sorted: seq<Record>, perm: seq<nat>)
    requires LabelledByPosition(rows) && IsPermutation(perm, |rows|)
    requires |sorted| == |rows| && forall p :: 0 <= p < |rows| ==> sorted[p] == rows[perm[p]]
    ensures OriginsInRange(sorted)
    ensures forall p :: 0 <= p < |rows| ==> sorted[p].origin == perm[p]
  {
  }

  /** The sort followed by the ICD10 loop and column assignment, as written. */
  lemma RecodeAfterSort(rows: seq<Record>, sorted: seq<Record>, perm: seq<nat>, column: nat)
    requires AllShaped(rows) && LabelledByPosition(rows) && column != ICD_COLUMN
    requires IsPermutation(perm, |rows|) && Ascending(sorted, column)
    requires |sorted| == |rows| && forall p :: 0 <= p < |rows| ==> sorted[p] == rows[perm[p]]
    ensures AllShaped(sorted) && OriginsInRange(sorted)
    ensures SortedAndRecoded(rows, AssignIcd(sorted, LookedUpCodes(sorted)), perm, column)
  {
    SortedOrigins(rows, sorted, perm);
    AssignKeepsOrder(sorted, LookedUpCodes(sorted), column);
  }

  /** The sort followed by the intended ICD10 pass. */
  lemma OwnCodesTravelWithRows(rows: seq<Record>, sorted: seq<Record>, perm: seq<nat>, column: nat)
    requires AllShaped(rows) && column != ICD_COLUMN
    requires IsPermutation(perm, |rows|) && Ascending(sorted, column)
    requires |sorted| == |rows| && forall p :: 0 <= p < |rows| ==> sorted[p] == rows[perm[p]]
    ensures AllShaped(sorted)
    ensures SortedWithOwnCodes(rows, AssignIcd(sorted, OwnCodes(sorted)), perm, column)
  {
    AssignKeepsOrder(sorted, OwnCodes(sorted), column);
  }

  /**
   * Every output ICD10 value has at most six pieces, and every other cell
   * comes from one input row: the non-ICD10 columns are the input rows
   * rearranged by `perm`.
   */
  lemma RecodedShape(rows: seq<Record>, out: seq<Record>, perm: seq<nat>, column: nat, p: nat)
    requires AllShaped(rows) && SortedAndRecoded(rows, out, perm, column) && p < |out|
    ensures |Split(IcdOf(out[p]), ',')| <= MAX_CODES
    ensures forall j :: 0 <= j < |REQUIRED| && j != ICD_COLUMN ==> out[p].cells[j] == rows[perm[p]].cells[j]
  {
    AtMostSixCodes(IcdOf(rows[perm[perm[p]]]));
  }

  /** Every input row appears in the output once more, with only its ICD10 rewritten. */
  lemma NoRowLost(rows: seq<Record>, out: seq<Record>, perm: seq<nat>, column: nat, k: nat)
    requires AllShaped(rows) && SortedAndRecoded(rows, out, perm, column) && k < |rows|
    ensures exists p :: 0 <= p < |out| && out[p].origin == rows[k].origin &&
              (forall j :: 0 <= j < |REQUIRED| && j != ICD_COLUMN ==> out[p].cells[j] == rows[k].cells[j])
  {
    PermutationCovers(perm, |rows|, k);
    var p :| 0 <= p < |rows| && perm[p] == k;
    assert out[p].origin == rows[k].origin;
  }

  /** When the sort moves nothing, every record keeps its own truncated codes. */
  lemma UnmovedKeepsOwnCodes(rows: seq<Record>, out: seq<Record>, perm: seq<nat>, column: nat)
    requires AllShaped(rows) && SortedAndRecoded(rows, out, perm, column)
    requires forall p :: 0 <= p < |perm| ==> perm[p] == p
    ensures SortedWithOwnCodes(rows, out, perm, column)
  {
  }

  /**
   * When the rows' truncated codes are all different, a record keeps its
   * own codes exactly when the sort left it in place.
   */
  lemma OwnCodeIffUnmoved(rows: seq<Record>, out: seq<Record>, perm: seq<nat>, column: nat, p: nat)
    requires AllShaped(rows) && SortedAndRecoded(rows, out, perm, column) && p < |out|
    requires forall i, j :: 0 <= i < j < |rows| ==> TruncateCodes(IcdOf(rows[i])) != TruncateCodes(IcdOf(rows[j]))
    ensures IcdOf(out[p]) == TruncateCodes(IcdOf(rows[perm[p]])) <==> perm[p] == p
  {
    SecondStepFixed(perm, |rows|, p);
  }

  /** The cells of a visit with the given ICD10 and date of service, every other cell empty. */
  function VisitCells(icd: string, d: DateTime): seq<Cell>
  {
    [Text(""), Text(""), Text(""), Text(""), Text(""), Text(icd), Text(""), Text(""), Stamp(d)]
  }

  const FEBRUARY_VISIT := DateTime(2024, 2, 1, 10, 0)
  const JANUARY_VISIT := DateTime(2024, 1, 1, 9, 0)

  /** Two converted rows, the later visit (codes "X") first and the earlier one (codes "Y") second. */
  function TwoVisits(): (rows: seq<Record>)
    ensures AllShaped(rows) && LabelledByPosition(rows)
  {
    [Record(0, VisitCells("X", FEBRUARY_VISIT)), Record(1, VisitCells("Y", JANUARY_VISIT))]
  }

  /**
   * The lookup as written swaps the two visits' codes: the sort must put
   * the January visit first, and that place reads position 1, which after
   * the sort holds the February visit, so the January visit is given "X".
   */
  lemma SwappedCodesExample(out: seq<Record>, perm: seq<nat>)
    requires SortedAndRecoded(TwoVisits(), out, perm, DATE_COLUMN)
    ensures perm == [1, 0]
    ensures out[0].cells[DATE_COLUMN] == Stamp(JANUARY_VISIT) && IcdOf(out[0]) == "X"
    ensures out[1].cells[DATE_COLUMN] == Stamp(FEBRUARY_VISIT) && IcdOf(out[1]) == "Y"
  {
    var rows := TwoVisits();
    EarlierDate(JANUARY_VISIT, FEBRUARY_VISIT);
    assert perm[0] != perm[1];
    SingleCodeUnchanged("X");
    SingleCodeUnchanged("Y");
  }

  /** With the intended lookup the same two visits keep their own codes. */
  lemma OwnCodesExample(out: seq<Record>, perm: seq<nat>)
    requires SortedWithOwnCodes(TwoVisits(), out, perm, DATE_COLUMN)
    ensures out[0].cells[DATE_COLUMN] == Stamp(JANUARY_VISIT) && IcdOf(out[0]) == "Y"
    ensures out[1].cells[DATE_COLUMN] == Stamp(FEBRUARY_VISIT) && IcdOf(out[1]) == "X"
  {
    EarlierDate(JANUARY_VISIT, FEBRUARY_VISIT);
    assert perm[0] != perm[1];
    SingleCodeUnchanged("X");
    SingleCodeUnchanged("Y");
  }
}
