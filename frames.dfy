/**
 * The billing table as the cleaner sees it: an upload with a header and
 * one row per visit, and the frame the cleaner builds from it, whose
 * records keep the row number they had in the upload (pandas' index label).
 */
module Frames {
  import opened Wrappers
  import opened ServiceDates

  /** A cell: text as uploaded, or a date of service after conversion. */
  datatype Cell = Text(text: string) | Stamp(time: DateTime)

  /** One row of a frame and the row number it had in the upload. */
  datatype Record = Record(origin: nat, cells: seq<Cell>)

  datatype Frame = Frame(columns: seq<string>, records: seq<Record>)

  /** An uploaded table: its header and, for every row, its cells by column name. */
  datatype Upload = Upload(header: seq<string>, rows: seq<map<string, string>>)

  /** The nine columns the cleaner keeps, in the order it keeps them. */
  const REQUIRED: seq<string> := [
    "Provider Name",
    "Patient Name",
    "Patient DOB",
    "Facility Name",
    "Place of Service",
    "ICD10",
    "CPT",
    "Modifiers",
    "Date of Service (Facility Timezone)"
  ]
  const ICD_COLUMN: nat := 5
  const DATE_COLUMN: nat := 8

  /** What `pd.DataFrame()` gives: no columns, no rows. */
  const EMPTY_FRAME := Frame([], [])

  /** A record with one cell per required column, the ICD10 cell holding text. */
  predicate Shaped(r: Record)
  {
    |r.cells| == |REQUIRED| && r.cells[ICD_COLUMN].Text?
  }

  predicate AllShaped(rs: seq<Record>)
  {
    forall i :: 0 <= i < |rs| ==> Shaped(rs[i])
  }

  /** Each record carries its own position as its label, as after `read_csv`. */
  predicate LabelledByPosition(rs: seq<Record>)
  {
    forall i :: 0 <= i < |rs| ==> rs[i].origin == i
  }

  function IcdOf(r: Record): string
    requires Shaped(r)
  {
    r.cells[ICD_COLUMN].text
  }

  /** `a` is `b` with some elements left out, the rest kept in order. */
  predicate IsSubsequence(a: seq<string>, b: seq<string>)
    decreases |b|
  {
    a == [] || (b != [] && if a[0] == b[0] then IsSubsequence(a[1..], b[1..]) else IsSubsequence(a, b[1..]))
  }

  /** The wanted names absent from the header, listed in the order they are wanted. */
  function MissingColumns(wanted: seq<string>, header: seq<string>): (missing: seq<string>)
    ensures forall c :: c in missing <==> c in wanted && c !in header
    ensures IsSubsequence(missing, wanted)
  {
    if wanted == [] then []
    else if wanted[0] in header then MissingColumns(wanted[1..], header)
    else
      var rest := MissingColumns(wanted[1..], header);
      assert ([wanted[0]] + rest)[1..] == rest;
      [wanted[0]] + rest
  }

  /** A row's value under a column name; a row without that name reads as empty. */
  function CellOf(row: map<string, string>, column: string): string
  {
    if column in row then row[column] else ""
  }

  /** `df[REQUIRED]` for one row. */
  function ProjectRow(row: map<string, string>, origin: nat): (r: Record)
    ensures Shaped(r) && r.origin == origin
    ensures forall j :: 0 <= j < |r.cells| ==> r.cells[j].Text?
  {
    Record(origin, seq(|REQUIRED|, j requires 0 <= j < |REQUIRED| => Text(CellOf(row, REQUIRED[j]))))
  }

  /** `df[REQUIRED]`: every row cut down to the required columns, in their order. */
  function Project(t: Upload): (rs: seq<Record>)
    ensures |rs| == |t.rows| && AllShaped(rs) && LabelledByPosition(rs)
  {
    seq(|t.rows|, i requires 0 <= i < |t.rows| => ProjectRow(t.rows[i], i))
  }

  /** The position of the first column called `name`. */
  function IndexOf(names: seq<string>, name: string): (k: nat)
    requires name in names
    ensures k < |names| && names[k] == name
    ensures forall j :: 0 <= j < k ==> names[j] != name
  {
    if names[0] == name then 0 else 1 + IndexOf(names[1..], name)
  }

  /** The cell of a record under a column name, as `df[name].iloc[i]` reads it. */
  function ValueUnder(f: Frame, i: nat, name: string): Cell
    requires i < |f.records| && name in f.columns
    requires IndexOf(f.columns, name) < |f.records[i].cells|
  {
    f.records[i].cells[IndexOf(f.columns, name)]
  }

  /** No required column name occurs twice. */
  lemma RequiredDistinct()
    ensures forall j, k :: 0 <= j < k < |REQUIRED| ==> REQUIRED[j] != REQUIRED[k]
  {
  }

  /**
   * Reading the projected frame by column name gives the uploaded row's
   * value under that name.
   */
  lemma ProjectReadsByName(t: Upload, i: nat, name: string)
    requires i < |t.rows| && name in REQUIRED
    ensures ValueUnder(Frame(REQUIRED, Project(t)), i, name) == Text(CellOf(t.rows[i], name))
  {
  }

  /** A record of nine text cells, as the projection makes them. */
  predicate IsTextRow(r: Record)
  {
    |r.cells| == |REQUIRED| && forall j :: 0 <= j < |r.cells| ==> r.cells[j].Text?
  }

  /** A record written back as an uploaded row: each cell's text under its required name. */
  function RowOf(r: Record): map<string, string>
    requires IsTextRow(r)
  {
    map c | c in REQUIRED :: r.cells[IndexOf(REQUIRED, c)].text
  }

  /** Records written back as an upload whose header is the required names. */
  function Reupload(rs: seq<Record>): Upload
    requires forall i :: 0 <= i < |rs| ==> IsTextRow(rs[i])
  {
    Upload(REQUIRED, seq(|rs|, i requires 0 <= i < |rs| => RowOf(rs[i])))
  }

  /** A written-back record holds each cell's text under that cell's required name. */
  lemma RowOfReads(r: Record, j: nat)
    requires IsTextRow(r) && j < |REQUIRED|
    ensures CellOf(RowOf(r), REQUIRED[j]) == r.cells[j].text
  {
    RequiredDistinct();
    assert IndexOf(REQUIRED, REQUIRED[j]) == j;
  }

  /** Projecting a written-back record gives the record back. */
  lemma ProjectRowOf(r: Record, i: nat)
    requires IsTextRow(r) && r.origin == i
    ensures ProjectRow(RowOf(r), i) == r
  {
    var cells := ProjectRow(RowOf(r), i).cells;
    forall j | 0 <= j < |REQUIRED|
      ensures cells[j] == r.cells[j]
    {
      RowOfReads(r, j);
    }
    assert cells == r.cells;
  }

  /** Projecting a frame that is already nine text columns, labelled by position, gives it back. */
  lemma ReprojectKeeps(rs: seq<Record>)
    requires LabelledByPosition(rs) && forall i :: 0 <= i < |rs| ==> IsTextRow(rs[i])
    ensures Project(Reupload(rs)) == rs
  {
    var u := Reupload(rs);
    forall i | 0 <= i < |rs|
      ensures Project(u)[i] == rs[i]
    {
      assert u.rows[i] == RowOf(rs[i]);
      ProjectRowOf(rs[i], i);
    }
  }

  /** `df[REQUIRED]` is idempotent: projecting the projected table again changes nothing. */
  lemma ProjectIdempotent(t: Upload)
    ensures Project(Reupload(Project(t))) == Project(t)
  {
    ReprojectKeeps(Project(t));
  }

  /**
   * Columns outside the required nine do not matter: two uploads whose
   * rows agree on the required names project to the same records.
   */
  lemma ProjectIgnoresOtherColumns(t: Upload, u: Upload)
    requires |t.rows| == |u.rows|
    requires forall i, c :: 0 <= i < |t.rows| && c in REQUIRED ==> CellOf(t.rows[i], c) == CellOf(u.rows[i], c)
    ensures Project(t) == Project(u)
  {
    forall i | 0 <= i < |t.rows|
      ensures Project(t)[i] == Project(u)[i]
    {
      assert forall j :: 0 <= j < |REQUIRED| ==> REQUIRED[j] in REQUIRED;
    }
  }

  /** A date cell as `pd.to_datetime` reads it: text is parsed, a date stays as it is. */
  function ParseCell(c: Cell): (r: Option<DateTime>)
    ensures r.Some? ==> IsServiceDate(r.value)
  {
    match c
    case Text(s) => ParseDate(s)
    case Stamp(d) => if IsServiceDate(d) then Some(d) else None
  }

  function DateCellOf(r: Record): Cell
    requires Shaped(r)
  {
    r.cells[DATE_COLUMN]
  }

  /** A record with its date of service replaced by the parsed date. */
  function WithDate(r: Record, d: DateTime): (w: Record)
    requires Shaped(r)
    ensures Shaped(w) && w.origin == r.origin && IcdOf(w) == IcdOf(r)
    ensures w.cells[DATE_COLUMN] == Stamp(d)
    ensures forall j :: 0 <= j < |REQUIRED| && j != DATE_COLUMN ==> w.cells[j] == r.cells[j]
  {
    r.(cells := r.cells[DATE_COLUMN := Stamp(d)])
  }

  /**
   * The date column converted all or nothing: every date of service parsed,
   * or no result at all when any one of them fails.
   */
  function ConvertDates(rs: seq<Record>): (out: Option<seq<Record>>)
    requires AllShaped(rs)
    ensures out.Some? <==> forall i :: 0 <= i < |rs| ==> ParseCell(DateCellOf(rs[i])).Some?
    ensures out.Some? ==> |out.value| == |rs| && AllShaped(out.value)
    ensures out.Some? ==> forall i :: 0 <= i < |rs| ==>
      out.value[i] == WithDate(rs[i], ParseCell(DateCellOf(rs[i])).value)
  {
    if rs == [] then Some([])
    else match ParseCell(DateCellOf(rs[0]))
      case None => None
      case Some(d) =>
        match ConvertDates(rs[1..])
        case None => None
        case Some(tail) => Some([WithDate(rs[0], d)] + tail)
  }

  /** Converting keeps each record's label, so row numbers survive the conversion. */
  lemma ConvertKeepsLabels(rs: seq<Record>)
    requires AllShaped(rs) && LabelledByPosition(rs) && ConvertDates(rs).Some?
    ensures LabelledByPosition(ConvertDates(rs).value)
  {
  }

  /** When every wanted name is in the header nothing is missing. */
  lemma {:induction false} NoneMissing(wanted: seq<string>, header: seq<string>)
    requires forall j :: 0 <= j < |wanted| ==> wanted[j] in header
    ensures MissingColumns(wanted, header) == []
    decreases |wanted|
  {
    if wanted != [] {
      NoneMissing(wanted[1..], header);
    }
  }

  /** With one wanted name absent, it alone is reported. */
  lemma {:induction false} OneMissing(wanted: seq<string>, header: seq<string>, k: nat)
    requires k < |wanted| && wanted[k] !in header
    requires forall j :: 0 <= j < |wanted| && j != k ==> wanted[j] in header
    ensures MissingColumns(wanted, header) == [wanted[k]]
    decreases |wanted|
  {
    if k == 0 {
      NoneMissing(wanted[1..], header);
    } else {
      OneMissing(wanted[1..], header, k - 1);
    }
  }

  /** With two wanted names absent, both are reported in the order they are wanted. */
  lemma {:induction false} TwoMissing(wanted: seq<string>, header: seq<string>, j: nat, k: nat)
    requires j < k < |wanted| && wanted[j] !in header && wanted[k] !in header
    requires forall i :: 0 <= i < |wanted| && i != j && i != k ==> wanted[i] in header
    ensures MissingColumns(wanted, header) == [wanted[j], wanted[k]]
    decreases |wanted|
  {
    if j == 0 {
      OneMissing(wanted[1..], header, k - 1);
    } else {
      TwoMissing(wanted[1..], header, j - 1, k - 1);
    }
  }

  /** A header lacking "CPT" and "Provider Name" reports "Provider Name" first. */
  lemma MissingInRequiredOrder(header: seq<string>)
    requires forall c :: c in REQUIRED ==> (c in header <==> c != "CPT" && c != "Provider Name")
    ensures MissingColumns(REQUIRED, header) == ["Provider Name", "CPT"]
  {
    RequiredDistinct();
    TwoMissing(REQUIRED, header, 0, 6);
  }
}
