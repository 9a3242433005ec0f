/**
 * The date of service column as `pd.to_datetime(..., format='%m/%d/%Y %H:%M')`
 * reads it: the strptime field patterns for month, day, four-digit year,
 * hour and minute, one or more whitespace characters for the blank of the
 * format, the whole text consumed, a real calendar day, and a result that
 * fits a nanosecond pandas Timestamp.
 */
module ServiceDates {
  import opened Wrappers
  import opened Strings

  datatype DateTime = DateTime(year: int, month: int, day: int, hour: int, minute: int)

  /** Timestamps order as the tuple (year, month, day, hour, minute). */
  function Key(d: DateTime): seq<int>
  {
    [d.year, d.month, d.day, d.hour, d.minute]
  }

  predicate IsLeapYear(y: int)
  {
    y % 4 == 0 && (y % 100 != 0 || y % 400 == 0)
  }

  function DaysInMonth(y: int, m: int): int
    requires 1 <= m <= 12
  {
    if m == 2 then (if IsLeapYear(y) then 29 else 28)
    else if m == 4 || m == 6 || m == 9 || m == 11 then 30
    else 31
  }

  /** What Python's `datetime` accepts. */
  predicate IsCalendarDate(d: DateTime)
  {
    && 1 <= d.month <= 12
    && 1 <= d.day <= DaysInMonth(d.year, d.month)
    && 0 <= d.hour < 24
    && 0 <= d.minute < 60
  }

  /** First and last minute a nanosecond Timestamp holds (1677-09-21 00:12:43.15 .. 2262-04-11 23:47:16.85). */
  const EARLIEST := DateTime(1677, 9, 21, 0, 13)
  const LATEST := DateTime(2262, 4, 11, 23, 47)

  predicate InTimestampRange(d: DateTime)
  {
    LexLe(Key(EARLIEST), Key(d)) && LexLe(Key(d), Key(LATEST))
  }

  /** A value the conversion can produce. */
  predicate IsServiceDate(d: DateTime)
  {
    IsCalendarDate(d) && InTimestampRange(d)
  }

  /**
   * A field of one digit, or of two digits, whose value lies in `lo .. hi`
   * (every pattern used here has `hi >= 9`): `%m` is `1[0-2]|0[1-9]|[1-9]`,
   * `%H` is `2[0-3]|[0-1]\d|\d`, `%M` is `[0-5]\d|\d`.
   */
  function NumberField(t: string, lo: int, hi: int): (r: Option<int>)
    ensures r.Some? ==> lo <= r.value <= hi
  {
    if |t| == 1 && IsDigit(t[0]) && lo <= DigitValue(t[0]) <= hi then
      Some(DigitValue(t[0]))
    else if |t| == 2 && IsDigit(t[0]) && IsDigit(t[1]) && lo <= 10 * DigitValue(t[0]) + DigitValue(t[1]) <= hi then
      Some(10 * DigitValue(t[0]) + DigitValue(t[1]))
    else None
  }

  /** `%d` is `3[01]|[12]\d|0[1-9]|[1-9]| [1-9]`: it also takes a blank before one digit. */
  function DayField(t: string): (r: Option<int>)
    ensures r.Some? ==> 1 <= r.value <= 31
  {
    if |t| == 2 && t[0] == ' ' then NumberField(t[1..], 1, 9) else NumberField(t, 1, 31)
  }

  /** `%Y` is exactly four digits. */
  function YearField(t: string): (r: Option<int>)
    ensures r.Some? ==> 0 <= r.value <= 9999
  {
    if |t| == 4 && IsDigit(t[0]) && IsDigit(t[1]) && IsDigit(t[2]) && IsDigit(t[3]) then
      Some(1000 * DigitValue(t[0]) + 100 * DigitValue(t[1]) + 10 * DigitValue(t[2]) + DigitValue(t[3]))
    else None
  }

  /** Length of the run of whitespace that opens `t`. */
  function SpaceRun(t: string): (n: nat)
    ensures n <= |t|
    ensures forall i :: 0 <= i < n ==> IsSpace(t[i])
    ensures n < |t| ==> !IsSpace(t[n])
  {
    if |t| > 0 && IsSpace(t[0]) then 1 + SpaceRun(t[1..]) else 0
  }

  /**
   * Reads one date of service. The fields are separated by the two '/',
   * the blank and the ':' of the format, none of which a field may
   * contain, so each field is the text between its separators.
   */
  function ParseDate(s: string): (r: Option<DateTime>)
    ensures r.Some? ==> IsServiceDate(r.value)
  {
    var parts := Split(s, '/');
    if |parts| != 3 then None else ReadFields(parts[0], parts[1], parts[2])
  }

  /** The month text, the day text, and the year with the time of day after it. */
  function ReadFields(month: string, day: string, rest: string): (r: Option<DateTime>)
    ensures r.Some? ==> IsServiceDate(r.value)
  {
    if |rest| < 4 then None
    else
      match (NumberField(month, 1, 12), DayField(day), YearField(rest[..4]), ReadClock(rest[4..]))
      case (Some(mo), Some(d), Some(y), Some((h, mi))) =>
        var dt := DateTime(y, mo, d, h, mi);
        if IsServiceDate(dt) then Some(dt) else None
      case _ => None
  }

  /** Whitespace (at least one character), then `%H:%M`, and nothing after the minutes. */
  function ReadClock(t: string): (r: Option<(int, int)>)
    ensures r.Some? ==> 0 <= r.value.0 <= 23 && 0 <= r.value.1 <= 59
  {
    var gap := SpaceRun(t);
    var clock := Split(t[gap..], ':');
    if gap == 0 || |clock| != 2 then None
    else
      match (NumberField(clock[0], 0, 23), NumberField(clock[1], 0, 59))
      case (Some(h), Some(mi)) => Some((h, mi))
      case _ => None
  }

  /** Two digits, zero padded. */
  function Pad2(v: nat): (t: string)
    requires v < 100
    ensures |t| == 2 && IsDigit(t[0]) && IsDigit(t[1])
  {
    [Digit(v / 10), Digit(v % 10)]
  }

  /** `d` written as `%m/%d/%Y %H:%M` with every field zero padded. */
  function Format(d: DateTime): string
    requires IsServiceDate(d)
  {
    Pad2(d.month) + "/" + Pad2(d.day) + "/" + Pad2(d.year / 100) + Pad2(d.year % 100)
      + " " + Pad2(d.hour) + ":" + Pad2(d.minute)
  }

  lemma Pad2Field(v: nat, lo: int, hi: int)
    requires v < 100 && lo <= v <= hi
    ensures NumberField(Pad2(v), lo, hi) == Some(v)
  {
  }

  lemma YearDigits(y: nat)
    requires y <= 9999
    ensures YearField(Pad2(y / 100) + Pad2(y % 100)) == Some(y)
  {
    var t := Pad2(y / 100) + Pad2(y % 100);
    assert t[..2] == Pad2(y / 100) && t[2..] == Pad2(y % 100);
  }

  /** Three pieces without '/' joined by two '/' split back into those pieces. */
  lemma SplitThree(a: string, b: string, c: string, sep: char)
    requires sep !in a && sep !in b && sep !in c
    ensures Split(a + [sep] + b + [sep] + c, sep) == [a, b, c]
  {
    var tail := b + [sep] + c;
    assert a + [sep] + b + [sep] + c == a + [sep] + tail;
    SplitAtFirst(a, sep, tail);
    SplitAtFirst(b, sep, c);
    SplitWhole(c, sep);
    assert Split(tail, sep) == [b, c];
  }

  /** `blank + h + ":" + mi` reads as the clock `(h, mi)` when the fields are valid. */
  lemma ReadClockOf(blank: string, h: string, mi: string)
    requires 1 <= |blank| && forall i :: 0 <= i < |blank| ==> IsSpace(blank[i])
    requires |h| > 0 && !IsSpace(h[0]) && ':' !in h && ':' !in mi
    ensures ReadClock(blank + h + ":" + mi) ==
      match (NumberField(h, 0, 23), NumberField(mi, 0, 59))
      case (Some(hv), Some(mv)) => Some((hv, mv))
      case _ => None
  {
    var t := blank + h + ":" + mi;
    SpaceRunOf(blank, h + ":" + mi);
    assert t == blank + (h + ":" + mi);
    assert t[|blank|..] == h + [':'] + mi;
    SplitAtFirst(h, ':', mi);
    SplitWhole(mi, ':');
  }

  lemma {:induction false} SpaceRunOf(blank: string, rest: string)
    requires forall i :: 0 <= i < |blank| ==> IsSpace(blank[i])
    requires |rest| > 0 && !IsSpace(rest[0])
    ensures SpaceRun(blank + rest) == |blank|
    decreases |blank|
  {
    if blank != [] {
      assert (blank + rest)[1..] == blank[1..] + rest;
      SpaceRunOf(blank[1..], rest);
    }
  }

  /** A date text with exactly two '/' hands its three pieces to the field readers. */
  lemma ParseDateOf(month: string, day: string, rest: string)
    requires '/' !in month && '/' !in day && '/' !in rest
    ensures ParseDate(month + "/" + day + "/" + rest) == ReadFields(month, day, rest)
  {
    SplitThree(month, day, rest, '/');
  }

  /** The year is the first four characters of the third piece, the clock the rest. */
  lemma ReadFieldsOf(month: string, day: string, year: string, clock: string)
    requires |year| == 4
    ensures ReadFields(month, day, year + clock) ==
      match (NumberField(month, 1, 12), DayField(day), YearField(year), ReadClock(clock))
      case (Some(mo), Some(d), Some(y), Some((h, mi))) =>
        if IsServiceDate(DateTime(y, mo, d, h, mi)) then Some(DateTime(y, mo, d, h, mi)) else None
      case _ => None
  {
    assert (year + clock)[..4] == year && (year + clock)[4..] == clock;
  }

  /** Whitespace never holds a separator of the format. */
  lemma BlankHasNoSeparator(blank: string)
    requires forall i :: 0 <= i < |blank| ==> IsSpace(blank[i])
    ensures '/' !in blank && ':' !in blank
  {
    assert forall i :: 0 <= i < |blank| ==> blank[i] != '/' && blank[i] != ':';
  }

  /** Accepted fields hold digits, and a day may also hold a blank: never a separator of the format. */
  lemma FieldCharacters(month: string, day: string, year: string, hour: string, minute: string)
    requires NumberField(month, 1, 12).Some? && DayField(day).Some? && YearField(year).Some?
    requires NumberField(hour, 0, 23).Some? && NumberField(minute, 0, 59).Some?
    ensures '/' !in month && '/' !in day && '/' !in year && '/' !in hour && '/' !in minute
    ensures ':' !in hour && ':' !in minute && |hour| > 0 && !IsSpace(hour[0])
  {
  }

  /**
   * Any spelling of the fields that their patterns accept, with any run of
   * whitespace before the hour, reads as the date those fields name when
   * that date exists and fits a Timestamp, and fails otherwise.
   */
  lemma ReadsSpelledDate(month: string, day: string, year: string, blank: string, hour: string, minute: string, d: DateTime)
    requires NumberField(month, 1, 12) == Some(d.month) && DayField(day) == Some(d.day)
    requires YearField(year) == Some(d.year)
    requires NumberField(hour, 0, 23) == Some(d.hour) && NumberField(minute, 0, 59) == Some(d.minute)
    requires 1 <= |blank| && forall i :: 0 <= i < |blank| ==> IsSpace(blank[i])
    ensures ParseDate(month + "/" + day + "/" + year + blank + hour + ":" + minute)
      == if IsServiceDate(d) then Some(d) else None
  {
    FieldCharacters(month, day, year, hour, minute);
    BlankHasNoSeparator(blank);
    var clock := blank + hour + ":" + minute;
    assert '/' !in clock;
    assert month + "/" + day + "/" + year + blank + hour + ":" + minute == month + "/" + day + "/" + (year + clock);
    ParseDateOf(month, day, year + clock);
    ReadFieldsOf(month, day, year, clock);
    ReadClockOf(blank, hour, minute);
  }

  /**
   * `s` spells `d` in `%m/%d/%Y %H:%M`: each piece is one its field's
   * pattern accepts and reads as that field of `d`, and the hour follows
   * a non-empty run of whitespace.
   */
  ghost predicate Spells(s: string, d: DateTime, month: string, day: string, year: string,
                         blank: string, hour: string, minute: string)
  {
    && s == month + "/" + day + "/" + year + blank + hour + ":" + minute
    && NumberField(month, 1, 12) == Some(d.month) && DayField(day) == Some(d.day)
    && YearField(year) == Some(d.year)
    && 1 <= |blank| && (forall i :: 0 <= i < |blank| ==> IsSpace(blank[i]))
    && NumberField(hour, 0, 23) == Some(d.hour) && NumberField(minute, 0, 59) == Some(d.minute)
  }

  /** A clock text that reads is a blank run, the hour, ':' and the minutes. */
  lemma ClockOfRead(t: string, h: int, mi: int) returns (blank: string, hour: string, minute: string)
    requires ReadClock(t) == Some((h, mi))
    ensures t == blank + hour + ":" + minute
    ensures 1 <= |blank| && forall i :: 0 <= i < |blank| ==> IsSpace(blank[i])
    ensures NumberField(hour, 0, 23) == Some(h) && NumberField(minute, 0, 59) == Some(mi)
  {
    var gap := SpaceRun(t);
    var clock := Split(t[gap..], ':');
    SplitInTwo(t[gap..], ':');
    blank, hour, minute := t[..gap], clock[0], clock[1];
    assert t == t[..gap] + t[gap..];
  }

  /** Fields that read as a date each read as that date's field. */
  lemma FieldsOfRead(month: string, day: string, rest: string, d: DateTime)
    requires ReadFields(month, day, rest) == Some(d)
    ensures |rest| >= 4
    ensures NumberField(month, 1, 12) == Some(d.month) && DayField(day) == Some(d.day)
    ensures YearField(rest[..4]) == Some(d.year) && ReadClock(rest[4..]) == Some((d.hour, d.minute))
  {
    assert NumberField(month, 1, 12).Some? && DayField(day).Some? && YearField(rest[..4]).Some?;
  }

  /** The three pieces of a date text, with the clock after the year, read piece by piece. */
  lemma Regrouped(s: string, month: string, day: string, rest: string, year: string,
                  blank: string, hour: string, minute: string)
    requires s == month + "/" + day + "/" + rest
    requires rest == year + (blank + hour + ":" + minute)
    ensures s == month + "/" + day + "/" + year + blank + hour + ":" + minute
  {
  }

  /** Every text the reader accepts is a spelling of the date it returns. */
  lemma SpellingOfParsed(s: string, d: DateTime) returns (month: string, day: string, year: string,
                                                        blank: string, hour: string, minute: string)
    requires ParseDate(s) == Some(d)
    ensures Spells(s, d, month, day, year, blank, hour, minute)
  {
    var parts := Split(s, '/');
    SplitInThree(s, '/');
    month, day := parts[0], parts[1];
    var rest := parts[2];
    FieldsOfRead(month, day, rest, d);
    year := rest[..4];
    blank, hour, minute := ClockOfRead(rest[4..], d.hour, d.minute);
    assert rest == year + rest[4..];
    Regrouped(s, month, day, rest, year, blank, hour, minute);
  }

  /**
   * The reader accepts exactly the spellings of `%m/%d/%Y %H:%M` that name
   * a date of service, and reads each as the date it names.
   */
  lemma ParseDateExactly(s: string, d: DateTime)
    ensures ParseDate(s) == Some(d) <==>
      IsServiceDate(d) && exists month, day, year, blank, hour, minute :: Spells(s, d, month, day, year, blank, hour, minute)
  {
    if ParseDate(s) == Some(d) {
      var month, day, year, blank, hour, minute := SpellingOfParsed(s, d);
    }
    if IsServiceDate(d) && exists month, day, year, blank, hour, minute :: Spells(s, d, month, day, year, blank, hour, minute) {
      var month, day, year, blank, hour, minute :| Spells(s, d, month, day, year, blank, hour, minute);
      ReadsSpelledDate(month, day, year, blank, hour, minute, d);
    }
  }

  /** Every date the conversion can produce is read back from its zero-padded text. */
  lemma ParseFormat(d: DateTime)
    requires IsServiceDate(d)
    ensures ParseDate(Format(d)) == Some(d)
  {
    var year := Pad2(d.year / 100) + Pad2(d.year % 100);
    Pad2Field(d.month, 1, 12);
    Pad2Field(d.day, 1, 31);
    Pad2Field(d.hour, 0, 23);
    Pad2Field(d.minute, 0, 59);
    YearDigits(d.year);
    assert Format(d) == Pad2(d.month) + "/" + Pad2(d.day) + "/" + year + " " + Pad2(d.hour) + ":" + Pad2(d.minute);
    ReadsSpelledDate(Pad2(d.month), Pad2(d.day), year, " ", Pad2(d.hour), Pad2(d.minute), d);
  }

  /** After a two-digit minute field, extra text leaves either a third clock piece or a too-long minute. */
  lemma ClockRejectsTrailing(blank: string, hour: string, minute: string, extra: string)
    requires 1 <= |blank| && forall i :: 0 <= i < |blank| ==> IsSpace(blank[i])
    requires NumberField(hour, 0, 23).Some? && NumberField(minute, 0, 59).Some? && |minute| == 2 && extra != []
    ensures ReadClock(blank + hour + ":" + minute + extra) == None
  {
    FieldCharacters("1", "1", "2000", hour, minute);
    var t := blank + hour + ":" + minute + extra;
    assert t == blank + (hour + [':'] + (minute + extra));
    SpaceRunOf(blank, hour + [':'] + (minute + extra));
    assert t[|blank|..] == hour + [':'] + (minute + extra);
    SplitAtFirst(hour, ':', minute + extra);
    if k :| 0 <= k < |minute + extra| && (minute + extra)[k] == ':' {
      SplitAtSeparator(minute + extra, ':', k);
    } else {
      SplitWhole(minute + extra, ':');
    }
  }

  /** A '/' in the third piece gives the text more than three pieces. */
  lemma RejectsExtraSlash(month: string, day: string, third: string, k: nat)
    requires '/' !in month && '/' !in day && k < |third| && third[k] == '/'
    ensures ParseDate(month + "/" + day + "/" + third) == None
  {
    assert month + "/" + day + "/" + third == month + ['/'] + (day + ['/'] + third);
    SplitAtFirst(month, '/', day + ['/'] + third);
    SplitAtFirst(day, '/', third);
    SplitAtSeparator(third, '/', k);
  }

  /** The text of a date followed by more text, cut at its two slashes. */
  lemma FormatPieces(d: DateTime, extra: string)
    requires IsServiceDate(d)
    ensures Format(d) + extra == Pad2(d.month) + "/" + Pad2(d.day) + "/"
      + (Pad2(d.year / 100) + Pad2(d.year % 100) + " " + Pad2(d.hour) + ":" + Pad2(d.minute) + extra)
  {
  }

  lemma TrailingSlash(d: DateTime, extra: string, k: nat)
    requires IsServiceDate(d) && k < |extra| && extra[k] == '/'
    ensures ParseDate(Format(d) + extra) == None
  {
    var year := Pad2(d.year / 100) + Pad2(d.year % 100);
    var third := year + " " + Pad2(d.hour) + ":" + Pad2(d.minute) + extra;
    FormatPieces(d, extra);
    assert third[|third| - |extra| + k] == '/';
    RejectsExtraSlash(Pad2(d.month), Pad2(d.day), third, |third| - |extra| + k);
  }

  /** The third piece of a date's text followed by more text holds no '/' when the extra text holds none. */
  lemma ThirdPieceOf(d: DateTime, extra: string)
    requires IsServiceDate(d) && '/' !in extra
    ensures var third := Pad2(d.year / 100) + Pad2(d.year % 100) + (" " + Pad2(d.hour) + ":" + Pad2(d.minute) + extra);
      && Format(d) + extra == Pad2(d.month) + "/" + Pad2(d.day) + "/" + third
      && '/' !in third && '/' !in Pad2(d.month) && '/' !in Pad2(d.day)
  {
    FormatPieces(d, extra);
  }

  lemma TrailingWithoutSlash(d: DateTime, extra: string)
    requires IsServiceDate(d) && extra != [] && '/' !in extra
    ensures ParseDate(Format(d) + extra) == None
  {
    var mo, dd, hh, mi := Pad2(d.month), Pad2(d.day), Pad2(d.hour), Pad2(d.minute);
    var year := Pad2(d.year / 100) + Pad2(d.year % 100);
    var clock := " " + hh + ":" + mi + extra;
    ThirdPieceOf(d, extra);
    ParseDateOf(mo, dd, year + clock);
    ReadFieldsOf(mo, dd, year, clock);
    Pad2Field(d.hour, 0, 23);
    Pad2Field(d.minute, 0, 59);
    ClockRejectsTrailing(" ", hh, mi, extra);
  }

  /** Nothing may follow the minutes: any extra text makes the conversion fail. */
  lemma RejectsTrailingText(d: DateTime, extra: string)
    requires IsServiceDate(d) && extra != []
    ensures ParseDate(Format(d) + extra) == None
  {
    if k :| 0 <= k < |extra| && extra[k] == '/' {
      TrailingSlash(d, extra, k);
    } else {
      TrailingWithoutSlash(d, extra);
    }
  }

  /** A month the pattern refuses makes the whole date fail. */
  lemma RejectsMonthField(month: string, day: string, rest: string)
    requires '/' !in month && '/' !in day && '/' !in rest
    requires NumberField(month, 1, 12) == None
    ensures ParseDate(month + "/" + day + "/" + rest) == None
  {
    ParseDateOf(month, day, rest);
  }

  /** A date with every field out of range: month 13 fails first. */
  lemma RejectsOutOfRangeFields()
    ensures ParseDate("13/40/2023 99:99") == None
  {
    RejectsMonthField("13", "40", "2023 99:99");
    assert "13/40/2023 99:99" == "13" + "/" + "40" + "/" + "2023 99:99";
  }

  lemma UnpaddedPieces()
    ensures "1/1/2024 9:05" == "1" + "/" + "1" + "/" + "2024" + " " + "9" + ":" + "05"
  {
  }

  lemma UnpaddedFields()
    ensures NumberField("1", 1, 12) == Some(1) && DayField("1") == Some(1) && YearField("2024") == Some(2024)
    ensures NumberField("9", 0, 23) == Some(9) && NumberField("05", 0, 59) == Some(5)
  {
  }

  /** Unpadded fields are accepted. */
  lemma ReadsUnpaddedFields()
    ensures ParseDate("1/1/2024 9:05") == Some(DateTime(2024, 1, 1, 9, 5))
  {
    var d := DateTime(2024, 1, 1, 9, 5);
    assert IsServiceDate(d);
    UnpaddedFields();
    ReadsSpelledDate("1", "1", "2024", " ", "9", "05", d);
    UnpaddedPieces();
  }

  lemma BlankPaddedPieces()
    ensures "01/ 5/2024 \t23:59" == "01" + "/" + " 5" + "/" + "2024" + " \t" + "23" + ":" + "59"
  {
  }

  lemma BlankPaddedFields()
    ensures NumberField("01", 1, 12) == Some(1) && DayField(" 5") == Some(5) && YearField("2024") == Some(2024)
    ensures NumberField("23", 0, 23) == Some(23) && NumberField("59", 0, 59) == Some(59)
    ensures forall i :: 0 <= i < |" \t"| ==> IsSpace(" \t"[i])
  {
  }

  /** A blank before a one-digit day and a tab among the blanks before the hour are accepted. */
  lemma ReadsBlankPaddedDay()
    ensures ParseDate("01/ 5/2024 \t23:59") == Some(DateTime(2024, 1, 5, 23, 59))
  {
    var d := DateTime(2024, 1, 5, 23, 59);
    assert IsServiceDate(d);
    BlankPaddedFields();
    ReadsSpelledDate("01", " 5", "2024", " \t", "23", "59", d);
    BlankPaddedPieces();
  }

  lemma LeapDayPieces()
    ensures "02/29/2023 10:00" == "02" + "/" + "29" + "/" + "2023" + " " + "10" + ":" + "00"
  {
  }

  lemma LeapDayFields()
    ensures NumberField("02", 1, 12) == Some(2) && DayField("29") == Some(29) && YearField("2023") == Some(2023)
    ensures NumberField("10", 0, 23) == Some(10) && NumberField("00", 0, 59) == Some(0)
  {
  }

  /** February 29 exists only in leap years. */
  lemma RejectsMissingLeapDay()
    ensures ParseDate("02/29/2023 10:00") == None
  {
    var d := DateTime(2023, 2, 29, 10, 0);
    assert !IsCalendarDate(d);
    LeapDayFields();
    ReadsSpelledDate("02", "29", "2023", " ", "10", "00", d);
    LeapDayPieces();
  }

  lemma EarlyYearPieces()
    ensures "01/01/1500 00:00" == "01" + "/" + "01" + "/" + "1500" + " " + "00" + ":" + "00"
  {
  }

  lemma EarlyYearFields()
    ensures NumberField("01", 1, 12) == Some(1) && DayField("01") == Some(1) && YearField("1500") == Some(1500)
    ensures NumberField("00", 0, 23) == Some(0) && NumberField("00", 0, 59) == Some(0)
  {
  }

  /** The year 1500 lies before the first Timestamp. */
  lemma RejectsEarlyYear()
    ensures ParseDate("01/01/1500 00:00") == None
  {
    var d := DateTime(1500, 1, 1, 0, 0);
    assert !InTimestampRange(d);
    EarlyYearFields();
    ReadsSpelledDate("01", "01", "1500", " ", "00", "00", d);
    EarlyYearPieces();
  }
}
