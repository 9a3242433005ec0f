# Billing table cleaner, modelled in Dafny

The repository offers two front ends for one transform of a medical billing
table. The desktop window calls `clean_billing_csv`; the web page repeats
the same steps inline. Both keep nine fixed columns, parse or keep the date
of service, sort the rows by it, and cut the ICD10 field down to six
comma-separated codes. The desktop window then previews at most five rows.
The web page offers the result for download as `Filtered_<name>.csv`.

This project models that transform on values. It proves what each step
guarantees and how the steps compose.

- `Strings` covers Python's `str.split` and `str.join` for a
  one-character separator, Python's string order (code points compared
  lexicographically), and the characters `\s` matches.
- `Permutations` describes a reordering of rows by the list of original
  positions it puts at each place.
- `ServiceDates` is the parser for `%m/%d/%Y %H:%M` that `pd.to_datetime`
  applies. Its field rules are the ones Python's `_strptime` uses:
  - a month is one or two digits, 1 to 12;
  - a day is one or two digits, or a blank and one digit;
  - a year is exactly four digits;
  - an hour is 0 to 23 and a minute 0 to 59, one or two digits each;
  - any run of whitespace may stand for the blank;
  - the whole text must match.
  
  A parsed date must also exist on the calendar and fit pandas'
  nanosecond `Timestamp`, from 1677-09-21 00:13 to 2262-04-11 23:47 at
  minute precision.
- `IcdCodes` is the ICD10 rewrite `", ".join(s.split(",")[0:6])`.
- `Frames` holds the table model.
  - An `Upload` is a header plus one map per row.
  - A `Frame` is a list of column names plus `Record`s. Each record keeps
    the row number it had in the upload (pandas' index label).
  - The module also has the missing-column check, the projection to the
    nine columns, and the all-or-nothing date conversion.
- `RowOrder` is `sort_values`. pandas' default sort is not stable, so the
  contract admits any ascending arrangement. That arrangement is described
  by a ghost permutation `perm`: `sorted[p]` is input row `perm[p]`.
- `IcdPass` is the ICD10 loop and the column assignment. Like the source,
  the loop reads the ICD10 value with `iloc[index]`, where `index` is the
  record's upload row number. It uses that number as a position in the
  sorted frame, so output place `p` receives the codes of input row
  `perm[perm[p]]` (see Findings). The module also has the loop as evidently
  intended.
- `BillingCleaner` is `clean_billing_csv` and its preview.
- `WebApp` is the web page's file name and its inline transform.

The model follows the code. In particular:
- a missing column gives an empty table, not an error, in the desktop
  cleaner;
- a date that does not parse gives the projected table unsorted, not an
  error;
- the sort is not stable;
- ICD10 is read by row number, not from the current row.

## Model

| member | source | states |
|---|---|---|
| Strings.Split | billing_cleaner.py:166 | `s.split(sep)` has at least one piece; no piece holds the separator; the first piece is the longest separator-free prefix, followed by a separator when shorter than the text |
| Strings.JoinSplit | billing_cleaner.py:166-167 | joining the pieces of a split with the same separator gives the text back |
| Strings.Join | billing_cleaner.py:167 | `sep.join(parts)` opens with the first piece; JoinSplit and IcdCodes.SplitJoined state that joining undoes splitting |
| Strings.SplitAtFirst | billing_cleaner.py:166 | the first separator closes the first piece; the rest splits on its own |
| Strings.SplitWhole | app.py:26 | text without the separator splits into itself alone |
| Strings.LexLeTotal | billing_cleaner.py:162 | any two sort keys are comparable |
| Strings.LexLeAntisymmetric | billing_cleaner.py:162 | two keys each at most the other are equal |
| Strings.TextKeyInjective | app.py:46 | texts are compared by their code points, one per character, so different texts have different keys |
| Strings.TextOrderAntisymmetric | app.py:46 | two date texts each sorted no later than the other are the same text |
| Permutations.PermutationCovers | billing_cleaner.py:162 | every input row occurs at some place of a reordering |
| Permutations.SecondStepFixed | billing_cleaner.py:165-166 | the row reached by two steps of a permutation is the one reached by one step exactly when the place is fixed |
| ServiceDates.ParseDate | billing_cleaner.py:151-155 | every text the conversion accepts yields a date that exists and fits a Timestamp |
| ServiceDates.FieldsOfRead | billing_cleaner.py:151-155 | fields that convert each read as the matching field of the resulting date, and the year is followed by the clock |
| ServiceDates.ClockOfRead | billing_cleaner.py:151-155 | a time of day that converts is a non-empty whitespace run, the hour, ':' and the minutes, nothing more |
| ServiceDates.SpellingOfParsed | billing_cleaner.py:151-155 | every text the conversion accepts is `month/day/year`, a whitespace run and `hour:minute`, each piece accepted by its field's pattern and naming that field of the result |
| ServiceDates.ParseDateExactly | billing_cleaner.py:151-155 | the conversion accepts a text as a date exactly when the text spells that date in `%m/%d/%Y %H:%M` and the date exists and fits a Timestamp |
| ServiceDates.ReadsSpelledDate | billing_cleaner.py:151-155 | fields written in the five accepted forms with any whitespace run between date and time parse exactly when the date they name exists and fits a Timestamp, and then to that date |
| ServiceDates.ParseFormat | billing_cleaner.py:151-155 | every date the conversion can produce is read back from its zero-padded text |
| ServiceDates.RejectsTrailingText | billing_cleaner.py:151-155 | text after a complete date makes the conversion fail |
| ServiceDates.TrailingSlash | billing_cleaner.py:151-155 | a '/' in text after a complete date makes the conversion fail |
| ServiceDates.TrailingWithoutSlash | billing_cleaner.py:151-155 | other text after a complete date leaves the time unreadable, so the conversion fails |
| ServiceDates.RejectsExtraSlash | billing_cleaner.py:151-155 | a third slash makes the conversion fail |
| ServiceDates.ClockRejectsTrailing | billing_cleaner.py:151-155 | text after two minute digits makes the time unreadable |
| ServiceDates.RejectsMonthField | billing_cleaner.py:151-155 | a month outside the month forms makes the conversion fail whatever follows |
| ServiceDates.RejectsOutOfRangeFields | billing_cleaner.py:151-159 | "13/40/2023 99:99" does not parse |
| ServiceDates.ReadsUnpaddedFields | billing_cleaner.py:151-155 | "1/1/2024 9:05" parses to 2024-01-01 09:05 |
| ServiceDates.ReadsBlankPaddedDay | billing_cleaner.py:151-155 | a blank-padded day and a tab among the blanks are accepted |
| ServiceDates.RejectsMissingLeapDay | billing_cleaner.py:151-155 | February 29 of a common year does not parse |
| ServiceDates.RejectsEarlyYear | billing_cleaner.py:151-155 | a year before the first Timestamp does not parse |
| ServiceDates.ReadFields | billing_cleaner.py:151-155 | the fields after the month and day slashes yield only valid service dates |
| ServiceDates.ReadClock | billing_cleaner.py:151-155 | a readable time has an hour 0-23 and a minute 0-59 |
| ServiceDates.SpaceRun | billing_cleaner.py:151-155 | the leading whitespace run is all whitespace and is followed by a non-space |
| IcdCodes.SplitJoinPadded | billing_cleaner.py:166-167 | splitting pieces joined by a separator and a padding gives back the pieces, each after the first carrying the padding |
| IcdCodes.TruncateCodes | billing_cleaner.py:166-167 | the ICD10 rewrite keeps the first code in front, unchanged; TruncatePieces, AtMostSixCodes, FewCodesKeepAll and DropsAfterSixth state the rest (at most six codes, each later one with a blank added, none after the sixth) |
| IcdCodes.TruncatePieces | billing_cleaner.py:166-167 | the rewritten value has min(6, n) comma-separated pieces: the first code as it was and each later code with one added blank |
| IcdCodes.AtMostSixCodes | billing_cleaner.py:166-167 | the rewritten value has at most six comma-separated pieces |
| IcdCodes.SingleCodeUnchanged | billing_cleaner.py:166-167 | a value without a comma, the empty one included, stays as it is |
| IcdCodes.FewCodesKeepAll | billing_cleaner.py:166-167 | with at most six codes every code is kept and each comma is followed by one added blank |
| IcdCodes.SplitJoined | billing_cleaner.py:166-167 | pieces without the separator, joined by it, split back into those pieces |
| IcdCodes.DropsAfterSixth | billing_cleaner.py:166-167 | codes after the sixth are dropped |
| IcdCodes.KeepsExistingBlanks | billing_cleaner.py:166-167 | "A, B" becomes "A,  B" and "" stays "" |
| IcdCodes.DropsSeventhCode | billing_cleaner.py:166-167 | "A,B,C,D,E,F,G" becomes "A, B, C, D, E, F" |
| Frames.MissingColumns | billing_cleaner.py:139 | a name is reported exactly when it is required and absent from the header, and the report keeps the required order |
| Frames.NoneMissing | billing_cleaner.py:139-140 | a header holding every required name reports nothing |
| Frames.OneMissing | billing_cleaner.py:139 | one absent name is reported alone |
| Frames.TwoMissing | billing_cleaner.py:139 | two absent names are reported in the required order |
| Frames.MissingInRequiredOrder | billing_cleaner.py:127-139 | a header lacking "CPT" and "Provider Name" reports ["Provider Name", "CPT"] |
| Frames.RequiredDistinct | billing_cleaner.py:127-137 | no required column name occurs twice |
| Frames.ProjectRow | billing_cleaner.py:147 | a projected row has one text cell per required column and keeps its row number |
| Frames.Project | billing_cleaner.py:147 | the projection keeps every row, labels each with its upload position, and gives each the nine required cells |
| Frames.ProjectReadsByName | billing_cleaner.py:147 | reading the projected frame by a required column name gives the uploaded value under that name |
| Frames.ProjectIgnoresOtherColumns | billing_cleaner.py:147 | uploads that agree on the nine required columns project to the same records, so extra columns are dropped |
| Frames.ReprojectKeeps | billing_cleaner.py:147 | a frame of nine text columns labelled by position, written back as a table with the required header and projected again, is unchanged |
| Frames.ProjectIdempotent | billing_cleaner.py:147 | `df[required_columns]` is idempotent: projecting the projected table again gives the same records |
| Frames.ParseCell | billing_cleaner.py:151-155 | a converted date cell always holds a valid service date |
| Frames.WithDate | billing_cleaner.py:151 | converting a row replaces only its date of service |
| Frames.ConvertDates | billing_cleaner.py:150-159 | conversion succeeds exactly when every date parses, and then each row gets its parsed date and nothing else changes |
| Frames.ConvertKeepsLabels | billing_cleaner.py:151 | conversion keeps row numbers |
| RowOrder.SortRecords | billing_cleaner.py:162 | the result is the input rearranged by a permutation, ascending in the sort column |
| RowOrder.AscendingPairwise | billing_cleaner.py:162 | in an ascending result every earlier row's key is at most every later row's key |
| RowOrder.LexLeTransitive | billing_cleaner.py:162 | the key order is transitive |
| RowOrder.EarlierDate | billing_cleaner.py:162 | an earlier year or month sorts first |
| RowOrder.InsertKeepsAscending | billing_cleaner.py:162 | placing a row between a smaller and a larger neighbour keeps the order |
| RowOrder.InsertTracksOrigin | billing_cleaner.py:162 | inserting a row extends the permutation and keeps every place tied to its input row |
| IcdPass.NewIcdCodes | billing_cleaner.py:164-168 | the loop collects, for each place p, the truncated ICD10 at the place named by p's row number, and every collected value has at most six pieces |
| IcdPass.LookedUpCodes | billing_cleaner.py:165-166 | one code per place of the sorted frame, read at the position named by the place's row number (`iloc[index]`); RecodeAfterSort and SecondStepFixed say which row that is |
| IcdPass.OwnIcdCodes | billing_cleaner.py:164-168 | the intended loop collects each record's own truncated ICD10 |
| IcdPass.SetIcd | billing_cleaner.py:170 | writing ICD10 changes only that cell of the record |
| IcdPass.AssignIcd | billing_cleaner.py:170 | the ICD10 column is replaced place by place and nothing else changes |
| IcdPass.AssignKeepsOrder | billing_cleaner.py:162-170 | replacing ICD10 keeps the date order |
| IcdPass.SortedOrigins | billing_cleaner.py:162-166 | after sorting a frame labelled by position, every row number is a valid position, namely perm[p] |
| IcdPass.RecodeAfterSort | billing_cleaner.py:162-170 | sort, loop and assignment give ascending rows where place p holds input row perm[p] with the truncated ICD10 of input row perm[perm[p]] |
| IcdPass.OwnCodesTravelWithRows | billing_cleaner.py:162-170 | with the intended loop each output row is an input row, with only its own ICD10 truncated |
| IcdPass.RecodedShape | billing_cleaner.py:162-170 | every output ICD10 has at most six pieces, and every other cell comes from input row perm[p] |
| IcdPass.NoRowLost | billing_cleaner.py:162-170 | every input row appears in the output with all non-ICD10 cells |
| IcdPass.UnmovedKeepsOwnCodes | billing_cleaner.py:164-170 | when the sort moves nothing every row keeps its own truncated codes |
| IcdPass.OwnCodeIffUnmoved | billing_cleaner.py:164-170 | with distinct codes, a row gets its own codes exactly when the sort left it in place |
| IcdPass.TwoVisits | billing_cleaner.py:147-155 | the Findings example as the cleaner holds it after conversion: two nine-column rows, dates parsed, labelled by position |
| IcdPass.SwappedCodesExample | billing_cleaner.py:162-170 | for the two-visit example the sort must swap the rows and the codes are exchanged between the visits |
| IcdPass.OwnCodesExample | billing_cleaner.py:162-170 | with the intended loop the two visits keep their own codes |
| BillingCleaner.CleanBillingCsv | billing_cleaner.py:125-171 | a missing column gives the empty frame; a failed conversion gives the projected table in upload order; otherwise the nine columns, sorted ascending by date, ICD10 rewritten by the row-number lookup |
| BillingCleaner.CleanBillingCsvOwnCodes | billing_cleaner.py:125-171 | the same outcomes with every sorted row keeping its own truncated codes |
| BillingCleaner.CleanedFromUpload | billing_cleaner.py:125-171 | each output cell traced to the upload: date parsed from row perm[p], ICD10 truncated from row perm[perm[p]], other cells from row perm[p] unchanged |
| BillingCleaner.CleanKeepsRowCount | billing_cleaner.py:147-171 | with all columns present the result has the nine columns and as many rows as the upload, zero rows included |
| BillingCleaner.IsoText | billing_cleaner.py:186 | a Timestamp is shown as 19 characters |
| BillingCleaner.IsoTextLayout | billing_cleaner.py:186 | a Timestamp is shown as `YYYY-MM-DD HH:MM:00`, each digit group reading back its field of the date |
| BillingCleaner.Show | billing_cleaner.py:186 | a text cell is shown as uploaded; a date cell as its 19-character `str()`, whose `YYYY-MM-DD HH:MM:00` layout IsoTextLayout states |
| BillingCleaner.PreviewCells | billing_cleaner.py:183-186 | the preview shows min(5, n) rows of an n-row frame, every column of each as its text |
| BillingCleaner.PreviewLine | billing_cleaner.py:185-186 | one preview row holds every cell of the record, in column order, each as its text |
| BillingCleaner.WithDateShowable | billing_cleaner.py:151 | a parsed date keeps a record showable |
| BillingCleaner.SetIcdShowable | billing_cleaner.py:170 | new ICD10 text keeps a record showable |
| BillingCleaner.ConvertedShowable | billing_cleaner.py:150-155 | every converted record is showable |
| BillingCleaner.RecodedShowable | billing_cleaner.py:162-170 | every sorted and recoded record has nine showable cells |
| BillingCleaner.CleanedIsDisplayable | billing_cleaner.py:180-186 | every result of the cleaner can be previewed: rectangular, and every date valid |
| WebApp.BaseName | app.py:26 | the base name is the longest dot-free prefix of the file name |
| WebApp.DownloadName | app.py:26-27 | the offered name is "Filtered_", a dot-free stem that opens the uploaded name, then ".csv"; the DownloadNameOf… lemmas give the stem for each kind of name |
| WebApp.DownloadNameOfDottedName | app.py:26-27 | a name with dots becomes "Filtered_" + the part before the first dot + ".csv" |
| WebApp.DownloadNameWithoutDot | app.py:26-27 | a name without a dot is used whole |
| WebApp.DownloadNameOfDoubleExtension | app.py:26-27 | "a.b.csv" gives "Filtered_a.csv" |
| WebApp.DownloadNameOfDotFile | app.py:26-27 | ".csv" gives "Filtered_.csv" |
| WebApp.FilterUpload | app.py:34-56 | a missing column is a failure naming the missing columns in order; otherwise the nine columns, rows ascending by date text, ICD10 rewritten by the row-number lookup |
| WebApp.SortedByDateText | app.py:46 | the app's date cells are the uploaded texts, in ascending code-point order |
| WebApp.DecidedAtSecond | app.py:46 | keys equal in the first element are ordered by the second |
| WebApp.JanuaryTextFirst | app.py:46 | "01/01/2024 09:00" sorts before "02/01/2023 10:00" as text |
| WebApp.ReadsFebruary2023 | billing_cleaner.py:151-155 | "02/01/2023 10:00" parses to 2023-02-01 10:00 |
| WebApp.ReadsJanuary2024 | billing_cleaner.py:151-155 | "01/01/2024 09:00" parses to 2024-01-01 09:00 |
| WebApp.TextOrderIsNotDateOrder | app.py:46 | the earlier date's text sorts after the later date's text |

## Left out

- The Qt window, its widgets and styles, and the Streamlit page (toasts, form and download button): presentation only.
- File dialogs, `pd.read_csv`, `to_csv`, `.format("UTF-8")` and writing to disk: I/O. The model starts from an `Upload` and ends at a `Frame`. In the web app (app.py:59) `to_csv` also writes the index, which is each record's `origin` when the upload has the default index (see IcdPass.NewIcdCodes below). The desktop save writes no index (billing_cleaner.py:206).
- The `print` calls reporting errors, the enabling of the download button after every upload (billing_cleaner.py:196), and the variable holding the last result, which the save handler checks (billing_cleaner.py:200): UI state.
- Frames.CellOf: a cell absent from a row reads as empty text. pandas gives NaN there; `.split` on a NaN ICD10 would raise, and the model does not capture that.
- Frames.ParseCell: an empty date cell fails to parse in the model. pandas turns a NaN date into NaT without failing, and it sorts NaT last. `to_datetime` also reads the texts "NaT", "nat", "NAT" and "NAN" as NaT before it matches the format. `read_csv` leaves these as text by default, so they reach the conversion; pandas then converts, sorts that row last and rewrites the ICD10 codes. The model rejects these texts, so for such an upload `CleanBillingCsv` returns the unsorted projected table instead. None of this is modelled.
- Every cell is text. `read_csv` may infer numbers, which changes how the preview shows them; that inference is not modelled.
- ServiceDates.ParseDate: digits are ASCII `0`-`9`. Python's `\d` also matches other Unicode decimal digits.
- RowOrder.SortRecords: the contract admits any ascending arrangement. Which of them pandas' quicksort produces for equal dates is not modelled.
- IcdPass.NewIcdCodes: requires every row number to be a position of the frame. `read_csv` numbers the rows 0 .. n-1 only when every data row has as many fields as the header. When every data row has one field more (a trailing comma on each line, say), `read_csv` uses the first column as the index. `iloc[index]` then raises TypeError for text labels and IndexError for an integer label out of range; otherwise it silently reads another row. Uploads of that shape are not modelled.
- Duplicate header names, which `read_csv` renames, are not modelled.
- BillingCleaner.PreviewCells: shows cell texts only; column sizing and table visibility are not modelled.

## Findings

| source | as written | input that shows it | evidently intended | confidence | as-written member | corrected member |
|---|---|---|---|---|---|---|
| billing_cleaner.py:165-166 (likewise app.py:51-52) | the loop walks the sorted frame, but it reads ICD10 with `iloc[index]`, where `index` is the row's upload number, and uses it as a position in the sorted frame | two rows: first 02/01/2024 10:00 with ICD10 "X", then 01/01/2024 09:00 with "Y"; after the sort the January visit gets "X" and the February visit "Y" | each row keeps its own truncated ICD10 codes | high; not executed | IcdPass.SwappedCodesExample | BillingCleaner.CleanBillingCsvOwnCodes |
