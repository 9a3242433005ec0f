/**
 * The web front end's copy of the transform: the download file name and
 * the inline projection, sort and ICD10 rewrite. It has no presence check
 * and no date parsing; the dates of service are sorted as text.
 */
module WebApp {
  import opened Wrappers
  import opened Strings
  import opened ServiceDates
  import opened Frames
  import opened RowOrder
  import opened IcdPass

  /** `name.split(".")[0]`: the uploaded file's name up to its first dot. */
  function BaseName(name: string): (base: string)
    ensures base <= name && '.' !in base
    ensures |base| < |name| ==> name[|base|] == '.'
  {
    Split(name, '.')[0]
  }

  /** The name offered for the download. */
  function DownloadName(name: string): (r: string)
    ensures |r| >= 13 && r[..9] == "Filtered_" && r[|r| - 4..] == ".csv"
    // the stem between them holds no dot and opens the uploaded name
    ensures r[9..|r| - 4] <= name && '.' !in r[9..|r| - 4]
  {
    "Filtered_" + BaseName(name) + ".csv"
  }

  /** A name with dots keeps only what stands before the first one. */
  lemma DownloadNameOfDottedName(stem: string, rest: string)
    requires '.' !in stem
    ensures DownloadName(stem + "." + rest) == "Filtered_" + stem + ".csv"
  {
    SplitAtFirst(stem, '.', rest);
  }

  /** A name without a dot is used whole. */
  lemma DownloadNameWithoutDot(name: string)
    requires '.' !in name
    ensures DownloadName(name) == "Filtered_" + name + ".csv"
  {
    SplitWhole(name, '.');
  }

  /** "a.b.csv" gives "Filtered_a.csv". */
  lemma DownloadNameOfDoubleExtension()
    ensures DownloadName("a.b.csv") == "Filtered_a.csv"
  {
    assert "a.b.csv" == "a" + "." + "b.csv";
    DownloadNameOfDottedName("a", "b.csv");
    assert "Filtered_" + "a" + ".csv" == "Filtered_a.csv";
  }

  /** A name that starts with a dot has an empty base: ".csv" gives "Filtered_.csv". */
  lemma DownloadNameOfDotFile()
    ensures DownloadName(".csv") == "Filtered_.csv"
  {
    assert ".csv" == "" + "." + "csv";
    DownloadNameOfDottedName("", "csv");
    assert "Filtered_" + "" + ".csv" == "Filtered_.csv";
  }

  /**
   * The app's transform. Selecting the nine columns fails, as pandas'
   * `KeyError`, when the header lacks any of them, and the error names the
   * missing ones in the required order. Otherwise the projected records are
   * sorted by the text of the date of service and ICD10 is rewritten by
   * the same lookup as in the desktop cleaner.
   */
  method FilterUpload(raw: Upload) returns (result: Result<Frame, seq<string>>, ghost perm: seq<nat>)
    ensures MissingColumns(REQUIRED, raw.header) != [] ==>
      result == Failure(MissingColumns(REQUIRED, raw.header))
    ensures MissingColumns(REQUIRED, raw.header) == [] ==>
      && result.Success? && result.value.columns == REQUIRED
      && SortedAndRecoded(Project(raw), result.value.records, perm, DATE_COLUMN)
  {
    var missing := MissingColumns(REQUIRED, raw.header);
    if missing != [] {
      return Failure(missing), [];
    }
    var projected := Project(raw);
    var sorted;
    sorted, perm := SortRecords(projected, DATE_COLUMN);
    RecodeAfterSort(projected, sorted, perm, DATE_COLUMN);
    var codes := NewIcdCodes(sorted);
    result := Success(Frame(REQUIRED, AssignIcd(sorted, codes)));
  }

  /** In the app the date column stays text, so rows are ordered by the characters of their dates. */
  lemma SortedByDateText(raw: Upload, out: seq<Record>, perm: seq<nat>, p: nat)
    requires SortedAndRecoded(Project(raw), out, perm, DATE_COLUMN) && p + 1 < |out|
    ensures out[p].cells[DATE_COLUMN] == Text(CellOf(raw.rows[perm[p]], REQUIRED[DATE_COLUMN]))
    ensures LexLe(TextKey(CellOf(raw.rows[perm[p]], REQUIRED[DATE_COLUMN])),
                  TextKey(CellOf(raw.rows[perm[p + 1]], REQUIRED[DATE_COLUMN])))
  {
    var projected := Project(raw);
    assert out[p].cells[DATE_COLUMN] == projected[perm[p]].cells[DATE_COLUMN];
    assert out[p + 1].cells[DATE_COLUMN] == projected[perm[p + 1]].cells[DATE_COLUMN];
  }

  const FEBRUARY_2023 := DateTime(2023, 2, 1, 10, 0)
  const JANUARY_2024 := DateTime(2024, 1, 1, 9, 0)

  lemma February2023Pieces()
    ensures "02/01/2023 10:00" == "02" + "/" + "01" + "/" + "2023" + " " + "10" + ":" + "00"
    ensures NumberField("02", 1, 12) == Some(2) && DayField("01") == Some(1) && YearField("2023") == Some(2023)
    ensures NumberField("10", 0, 23) == Some(10) && NumberField("00", 0, 59) == Some(0)
  {
  }

  lemma ReadsFebruary2023()
    ensures ParseDate("02/01/2023 10:00") == Some(FEBRUARY_2023)
  {
    assert IsServiceDate(FEBRUARY_2023);
    February2023Pieces();
    ReadsSpelledDate("02", "01", "2023", " ", "10", "00", FEBRUARY_2023);
  }

  lemma January2024Pieces()
    ensures "01/01/2024 09:00" == "01" + "/" + "01" + "/" + "2024" + " " + "09" + ":" + "00"
    ensures NumberField("01", 1, 12) == Some(1) && DayField("01") == Some(1) && YearField("2024") == Some(2024)
    ensures NumberField("09", 0, 23) == Some(9) && NumberField("00", 0, 59) == Some(0)
  {
  }

  lemma ReadsJanuary2024()
    ensures ParseDate("01/01/2024 09:00") == Some(JANUARY_2024)
  {
    assert IsServiceDate(JANUARY_2024);
    January2024Pieces();
    ReadsSpelledDate("01", "01", "2024", " ", "09", "00", JANUARY_2024);
  }

  /** Two keys that agree in their first element are ordered by their second. */
  lemma DecidedAtSecond(a: seq<int>, b: seq<int>)
    requires |a| > 1 && |b| > 1 && a[0] == b[0] && a[1] < b[1]
    ensures LexLe(a, b) && !LexLe(b, a)
  {
    assert a[1..][0] < b[1..][0];
  }

  lemma JanuaryTextFirst()
    ensures LexLe(TextKey("01/01/2024 09:00"), TextKey("02/01/2023 10:00"))
    ensures !LexLe(TextKey("02/01/2023 10:00"), TextKey("01/01/2024 09:00"))
  {
    var early, late := TextKey("01/01/2024 09:00"), TextKey("02/01/2023 10:00");
    assert early[0] == '0' as int && late[0] == '0' as int;
    assert early[1] == '1' as int && late[1] == '2' as int;
    DecidedAtSecond(early, late);
  }

  /**
   * Text order is not date order: February 2023 is the earlier date, but
   * its text sorts after that of January 2024.
   */
  lemma TextOrderIsNotDateOrder()
    ensures ParseDate("02/01/2023 10:00") == Some(FEBRUARY_2023)
    ensures ParseDate("01/01/2024 09:00") == Some(JANUARY_2024)
    ensures LexLe(Key(FEBRUARY_2023), Key(JANUARY_2024)) && !LexLe(Key(JANUARY_2024), Key(FEBRUARY_2023))
    ensures LexLe(TextKey("01/01/2024 09:00"), TextKey("02/01/2023 10:00"))
    ensures !LexLe(TextKey("02/01/2023 10:00"), TextKey("01/01/2024 09:00"))
  {
    ReadsFebruary2023();
    ReadsJanuary2024();
    EarlierDate(FEBRUARY_2023, JANUARY_2024);
    JanuaryTextFirst();
  }
}
