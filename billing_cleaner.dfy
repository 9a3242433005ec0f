/**
 * The desktop cleaner: `clean_billing_csv` and the preview of its result.
 */
module BillingCleaner {
  import opened Wrappers
  import opened Strings
  import opened Permutations
  import opened ServiceDates
  import opened IcdCodes
  import opened Frames
  import opened RowOrder
  import opened IcdPass

  /**
   * Cleans an uploaded billing table. With a required column missing the
   * result is the empty frame; with a date of service that does not parse
   * it is the projected table as uploaded; otherwise it is the projected
   * table with parsed dates, sorted by date, ICD10 rewritten by the lookup
   * described in `IcdPass`.
   */
  method CleanBillingCsv(raw: Upload) returns (out: Frame, ghost perm: seq<nat>)
    ensures MissingColumns(REQUIRED, raw.header) != [] ==> out == EMPTY_FRAME
    ensures MissingColumns(REQUIRED, raw.header) == [] && ConvertDates(Project(raw)).None? ==>
      out == Frame(REQUIRED, Project(raw))
    ensures MissingColumns(REQUIRED, raw.header) == [] && ConvertDates(Project(raw)).Some? ==>
      out.columns == REQUIRED && SortedAndRecoded(ConvertDates(Project(raw)).value, out.records, perm, DATE_COLUMN)
  {
    var missing := MissingColumns(REQUIRED, raw.header);
    if missing != [] {
      return EMPTY_FRAME, [];
    }
    var projected := Project(raw);
    var converted := ConvertDates(projected);
    if converted.None? {
      return Frame(REQUIRED, projected), Identity(|projected|);
    }
    ConvertKeepsLabels(projected);
    var sorted;
    sorted, perm := SortRecords(converted.value, DATE_COLUMN);
    RecodeAfterSort(converted.value, sorted, perm, DATE_COLUMN);
    var codes := NewIcdCodes(sorted);
    out := Frame(REQUIRED, AssignIcd(sorted, codes));
  }

  /**
   * The cleaner with the ICD10 pass reading each record's own value: the
   * same three outcomes, and on success the sorted records carry their own
   * truncated codes.
   */
  method CleanBillingCsvOwnCodes(raw: Upload) returns (out: Frame, ghost perm: seq<nat>)
    ensures MissingColumns(REQUIRED, raw.header) != [] ==> out == EMPTY_FRAME
    ensures MissingColumns(REQUIRED, raw.header) == [] && ConvertDates(Project(raw)).None? ==>
      out == Frame(REQUIRED, Project(raw))
    ensures MissingColumns(REQUIRED, raw.header) == [] && ConvertDates(Project(raw)).Some? ==>
      out.columns == REQUIRED && SortedWithOwnCodes(ConvertDates(Project(raw)).value, out.records, perm, DATE_COLUMN)
  {
    var missing := MissingColumns(REQUIRED, raw.header);
    if missing != [] {
      return EMPTY_FRAME, [];
    }
    var projected := Project(raw);
    var converted := ConvertDates(projected);
    if converted.None? {
      return Frame(REQUIRED, projected), Identity(|projected|);
    }
    var sorted;
    sorted, perm := SortRecords(converted.value, DATE_COLUMN);
    OwnCodesTravelWithRows(converted.value, sorted, perm, DATE_COLUMN);
    var codes := OwnIcdCodes(sorted);
    out := Frame(REQUIRED, AssignIcd(sorted, codes));
  }

  /**
   * A successful clean, traced back to the upload: output place `p` holds
   * upload row `perm[p]` with its date parsed and its other cells as
   * uploaded, except ICD10, which is the truncated ICD10 of upload row
   * `perm[perm[p]]`; the dates are in ascending order.
   */
  lemma CleanedFromUpload(raw: Upload, out: Frame, perm: seq<nat>, p: nat, j: nat)
    requires MissingColumns(REQUIRED, raw.header) == [] && ConvertDates(Project(raw)).Some?
    requires out.columns == REQUIRED && SortedAndRecoded(ConvertDates(Project(raw)).value, out.records, perm, DATE_COLUMN)
    requires p < |out.records| && j < |REQUIRED|
    ensures |out.records| == |raw.rows| && perm[p] < |raw.rows| && perm[perm[p]] < |raw.rows|
    ensures out.records[p].origin == perm[p]
    ensures j == DATE_COLUMN ==>
      out.records[p].cells[j] == Stamp(ParseDate(CellOf(raw.rows[perm[p]], REQUIRED[j])).value)
    ensures j == ICD_COLUMN ==>
      out.records[p].cells[j] == Text(TruncateCodes(CellOf(raw.rows[perm[perm[p]]], REQUIRED[j])))
    ensures j != DATE_COLUMN && j != ICD_COLUMN ==>
      out.records[p].cells[j] == Text(CellOf(raw.rows[perm[p]], REQUIRED[j]))
  {
    var projected := Project(raw);
    var converted := ConvertDates(projected).value;
    var source := converted[perm[p]];
    assert source == WithDate(projected[perm[p]], ParseCell(DateCellOf(projected[perm[p]])).value);
    assert IcdOf(converted[perm[perm[p]]]) == IcdOf(projected[perm[perm[p]]]);
  }

  /** A cleaned table keeps every uploaded row: the row count does not change. */
  lemma CleanKeepsRowCount(raw: Upload, out: Frame, perm: seq<nat>)
    requires MissingColumns(REQUIRED, raw.header) == []
    requires ConvertDates(Project(raw)).None? ==> out == Frame(REQUIRED, Project(raw))
    requires ConvertDates(Project(raw)).Some? ==>
      out.columns == REQUIRED && SortedAndRecoded(ConvertDates(Project(raw)).value, out.records, perm, DATE_COLUMN)
    ensures out.columns == REQUIRED && |out.records| == |raw.rows|
  {
  }

  const PREVIEW_ROWS := 5

  /** `str()` of a Timestamp at minute precision: `YYYY-MM-DD HH:MM:00`. */
  function IsoText(d: DateTime): (t: string)
    requires IsServiceDate(d)
    ensures |t| == 19
  {
    Pad2(d.year / 100) + Pad2(d.year % 100) + "-" + Pad2(d.month) + "-" + Pad2(d.day)
      + " " + Pad2(d.hour) + ":" + Pad2(d.minute) + ":00"
  }

  /**
   * The text is laid out as `YYYY-MM-DD HH:MM:00`, and each digit group
   * reads back the field of `d` it stands for.
   */
  lemma IsoTextLayout(d: DateTime)
    requires IsServiceDate(d)
    ensures var t := IsoText(d);
      && t[4] == '-' && t[7] == '-' && t[10] == ' ' && t[13] == ':' && t[16] == ':' && t[17..] == "00"
      && YearField(t[..4]) == Some(d.year)
      && NumberField(t[5..7], 1, 12) == Some(d.month) && NumberField(t[8..10], 1, 31) == Some(d.day)
      && NumberField(t[11..13], 0, 23) == Some(d.hour) && NumberField(t[14..16], 0, 59) == Some(d.minute)
  {
    var t := IsoText(d);
    assert t[..4] == Pad2(d.year / 100) + Pad2(d.year % 100);
    assert t[5..7] == Pad2(d.month) && t[8..10] == Pad2(d.day);
    assert t[11..13] == Pad2(d.hour) && t[14..16] == Pad2(d.minute);
    YearDigits(d.year);
    Pad2Field(d.month, 1, 12);
    Pad2Field(d.day, 1, 31);
    Pad2Field(d.hour, 0, 23);
    Pad2Field(d.minute, 0, 59);
  }

  /** Every cell of a record is one the preview can show. */
  predicate Showable(r: Record)
  {
    forall j :: 0 <= j < |r.cells| ==> r.cells[j].Stamp? ==> IsServiceDate(r.cells[j].time)
  }

  /** A frame with one cell per column in every record, each one showable. */
  predicate Displayable(f: Frame)
  {
    forall i :: 0 <= i < |f.records| ==> |f.records[i].cells| == |f.columns| && Showable(f.records[i])
  }

  /** The text a preview cell shows. */
  function Show(c: Cell): (t: string)
    requires c.Stamp? ==> IsServiceDate(c.time)
    // text is shown as uploaded; a date as its 19-character `str()`, laid out as IsoTextLayout states
    ensures c.Text? ==> t == c.text
    ensures c.Stamp? ==> |t| == 19
  {
    match c
    case Text(s) => s
    case Stamp(d) => IsoText(d)
  }

  /**
   * The preview table: the first `min(5, n)` rows of an `n`-row frame,
   * every column of each shown as text.
   */
  method PreviewCells(f: Frame) returns (grid: seq<seq<string>>)
    requires Displayable(f)
    ensures |grid| == Min(PREVIEW_ROWS, |f.records|)
    ensures forall i :: 0 <= i < |grid| ==> |grid[i]| == |f.columns|
    ensures forall i, j :: 0 <= i < |grid| && 0 <= j < |f.columns| ==> grid[i][j] == Show(f.records[i].cells[j])
  {
    var rowCount := Min(PREVIEW_ROWS, |f.records|);
    grid := [];
    for i := 0 to rowCount
      invariant |grid| == i
      invariant forall k :: 0 <= k < i ==> |grid[k]| == |f.columns|
      invariant forall k, j :: 0 <= k < i && 0 <= j < |f.columns| ==> grid[k][j] == Show(f.records[k].cells[j])
    {
      var line := PreviewLine(f.records[i]);
      grid := grid + [line];
    }
  }

  /** One row of the preview: every cell of the record, in column order, as text. */
  method PreviewLine(r: Record) returns (line: seq<string>)
    requires Showable(r)
    ensures |line| == |r.cells|
    ensures forall j :: 0 <= j < |r.cells| ==> line[j] == Show(r.cells[j])
  {
    line := [];
    for j := 0 to |r.cells|
      invariant |line| == j
      invariant forall m :: 0 <= m < j ==> line[m] == Show(r.cells[m])
    {
      line := line + [Show(r.cells[j])];
    }
  }

  lemma WithDateShowable(r: Record, d: DateTime)
    requires Shaped(r) && Showable(r) && IsServiceDate(d)
    ensures Showable(WithDate(r, d))
  {
    var w := WithDate(r, d);
    forall j | 0 <= j < |w.cells| && w.cells[j].Stamp?
      ensures IsServiceDate(w.cells[j].time)
    {
      if j != DATE_COLUMN {
        assert w.cells[j] == r.cells[j];
      }
    }
  }

  lemma SetIcdShowable(r: Record, code: string)
    requires Shaped(r) && Showable(r)
    ensures Showable(SetIcd(r, code))
  {
    var w := SetIcd(r, code);
    forall j | 0 <= j < |w.cells| && w.cells[j].Stamp?
      ensures IsServiceDate(w.cells[j].time)
    {
      assert w.cells[j] == r.cells[j];
    }
  }

  lemma ConvertedShowable(rs: seq<Record>)
    requires AllShaped(rs) && forall i :: 0 <= i < |rs| ==> Showable(rs[i])
    requires ConvertDates(rs).Some?
    ensures forall i :: 0 <= i < |rs| ==> Showable(ConvertDates(rs).value[i])
  {
    forall i | 0 <= i < |rs|
      ensures Showable(ConvertDates(rs).value[i])
    {
      WithDateShowable(rs[i], ParseCell(DateCellOf(rs[i])).value);
    }
  }

  lemma RecodedShowable(rows: seq<Record>, out: seq<Record>, perm: seq<nat>, column: nat)
    requires AllShaped(rows) && forall i :: 0 <= i < |rows| ==> Showable(rows[i])
    requires SortedAndRecoded(rows, out, perm, column)
    ensures forall p :: 0 <= p < |out| ==> |out[p].cells| == |REQUIRED| && Showable(out[p])
  {
    forall p | 0 <= p < |out|
      ensures |out[p].cells| == |REQUIRED| && Showable(out[p])
    {
      SetIcdShowable(rows[perm[p]], TruncateCodes(IcdOf(rows[perm[perm[p]]])));
    }
  }

  /** Whatever the cleaner returns can be previewed. */
  lemma CleanedIsDisplayable(raw: Upload, out: Frame, perm: seq<nat>)
    requires MissingColumns(REQUIRED, raw.header) != [] ==> out == EMPTY_FRAME
    requires MissingColumns(REQUIRED, raw.header) == [] && ConvertDates(Project(raw)).None? ==>
      out == Frame(REQUIRED, Project(raw))
    requires MissingColumns(REQUIRED, raw.header) == [] && ConvertDates(Project(raw)).Some? ==>
      out.columns == REQUIRED && SortedAndRecoded(ConvertDates(Project(raw)).value, out.records, perm, DATE_COLUMN)
    ensures Displayable(out)
  {
    var projected := Project(raw);
    assert forall i :: 0 <= i < |projected| ==> Showable(projected[i]);
    if MissingColumns(REQUIRED, raw.header) == [] && ConvertDates(projected).Some? {
      ConvertedShowable(projected);
      RecodedShowable(ConvertDates(projected).value, out.records, perm, DATE_COLUMN);
    }
  }
}
