/**
 * The ICD10 rewrite both front ends apply: `", ".join(s.split(",")[0:6])`.
 * Pieces are neither trimmed nor dropped when empty.
 */
module IcdCodes {
  import opened Strings

  const MAX_CODES := 6

  /** The first six comma-separated codes of `s`, joined by a comma and a blank. */
  function TruncateCodes(s: string): (r: string)
    // the first code stays in front, unchanged
    ensures Split(s, ',')[0] <= r
  {
    var parts := Split(s, ',');
    Join(parts[..Min(MAX_CODES, |parts|)], ", ")
  }

  /** Each piece with `pad` in front. */
  function Prefixed(pad: string, ps: seq<string>): (qs: seq<string>)
    ensures |qs| == |ps| && forall i :: 0 <= i < |ps| ==> qs[i] == pad + ps[i]
  {
    seq(|ps|, i requires 0 <= i < |ps| => pad + ps[i])
  }

  /** Text in front that holds no separator joins the first piece. */
  lemma {:induction false} SplitPrefix(pad: string, s: string, sep: char)
    requires sep !in pad
    ensures Split(pad + s, sep) == [pad + Split(s, sep)[0]] + Split(s, sep)[1..]
    decreases |pad|
  {
    if pad == [] {
      assert pad + s == s;
      var parts := Split(s, sep);
      assert pad + parts[0] == parts[0];
      assert [parts[0]] + parts[1..] == parts;
    } else {
      SplitPrefix(pad[1..], s, sep);
      PrefixStep(pad[0], pad[1..], s, sep);
      assert [pad[0]] + pad[1..] == pad;
    }
  }

  /** One more character in front of a prefix that already joins the first piece. */
  lemma PrefixStep(x: char, tail: string, s: string, sep: char)
    requires x != sep
    requires Split(tail + s, sep) == [tail + Split(s, sep)[0]] + Split(s, sep)[1..]
    ensures Split([x] + tail + s, sep) == [[x] + tail + Split(s, sep)[0]] + Split(s, sep)[1..]
  {
    var parts := Split(s, sep);
    var inner := Split(tail + s, sep);
    assert [x] + tail + s == [x] + (tail + s);
    SplitCons(x, tail + s, sep);
    assert inner[0] == tail + parts[0] && inner[1..] == parts[1..];
    assert [x] + inner[0] == [x] + tail + parts[0];
  }

  /**
   * Splitting pieces joined by `sep` followed by `pad` gives the pieces back,
   * every one after the first carrying the `pad`.
   */
  lemma {:induction false} SplitJoinPadded(ps: seq<string>, sep: char, pad: string)
    requires |ps| >= 1 && sep !in pad
    requires forall i :: 0 <= i < |ps| ==> sep !in ps[i]
    ensures Split(Join(ps, [sep] + pad), sep) == [ps[0]] + Prefixed(pad, ps[1..])
    decreases |ps|
  {
    if |ps| == 1 {
      SplitWhole(ps[0], sep);
    } else {
      var rest := Join(ps[1..], [sep] + pad);
      SplitJoinPadded(ps[1..], sep, pad);
      assert Join(ps, [sep] + pad) == ps[0] + [sep] + (pad + rest);
      SplitAtFirst(ps[0], sep, pad + rest);
      SplitPrefix(pad, rest, sep);
      assert ps[1..][1..] == ps[2..];
      assert [pad + ps[1]] + Prefixed(pad, ps[2..]) == Prefixed(pad, ps[1..]);
    }
  }

  /**
   * The rewritten value splits into at most six pieces: the first code as it
   * was and each following code with one more blank in front.
   */
  lemma TruncatePieces(s: string)
    ensures var codes := Split(s, ',');
            var pieces := Split(TruncateCodes(s), ',');
            && |pieces| == Min(MAX_CODES, |codes|)
            && pieces[0] == codes[0]
            && forall i :: 1 <= i < |pieces| ==> pieces[i] == " " + codes[i]
  {
    var codes := Split(s, ',');
    var kept := codes[..Min(MAX_CODES, |codes|)];
    SplitJoinPadded(kept, ',', " ");
    assert [','] + " " == ", ";
    var pieces := Split(TruncateCodes(s), ',');
    assert pieces == [kept[0]] + Prefixed(" ", kept[1..]);
    forall i | 1 <= i < |pieces|
      ensures pieces[i] == " " + codes[i]
    {
      assert pieces[i] == Prefixed(" ", kept[1..])[i - 1];
    }
  }

  /** At most six comma-separated pieces remain. */
  lemma AtMostSixCodes(s: string)
    ensures |Split(TruncateCodes(s), ',')| <= MAX_CODES
  {
    TruncatePieces(s);
  }

  /** A value without a comma, the empty one included, is left as it is. */
  lemma SingleCodeUnchanged(s: string)
    requires ',' !in s
    ensures TruncateCodes(s) == s
  {
    SplitWhole(s, ',');
  }

  /** With at most six codes nothing is dropped: the commas only gain a blank. */
  lemma FewCodesKeepAll(s: string)
    requires |Split(s, ',')| <= MAX_CODES
    ensures TruncateCodes(s) == Join(Split(s, ','), ", ")
  {
    var parts := Split(s, ',');
    assert parts[..Min(MAX_CODES, |parts|)] == parts;
  }

  /** Blanks already in the text stay: "A, B" becomes "A,  B". */
  lemma KeepsExistingBlanks()
    ensures TruncateCodes("A, B") == "A,  B"
    ensures TruncateCodes("") == ""
  {
    SplitAtFirst("A", ',', " B");
    assert "A, B" == "A" + [','] + " B";
    SplitWhole(" B", ',');
    var parts := Split("A, B", ',');
    assert parts == ["A", " B"];
    assert parts[..Min(MAX_CODES, |parts|)] == parts;
    assert Join(parts, ", ") == "A" + ", " + " B";
    SingleCodeUnchanged("");
  }

  /** Pieces without the separator, joined by it, split back into themselves. */
  lemma {:induction false} SplitJoined(ps: seq<string>, sep: char)
    requires |ps| >= 1
    requires forall i :: 0 <= i < |ps| ==> sep !in ps[i]
    ensures Split(Join(ps, [sep]), sep) == ps
    decreases |ps|
  {
    if |ps| == 1 {
      SplitWhole(ps[0], sep);
    } else {
      SplitJoined(ps[1..], sep);
      assert Join(ps, [sep]) == ps[0] + [sep] + Join(ps[1..], [sep]);
      SplitAtFirst(ps[0], sep, Join(ps[1..], [sep]));
      assert [ps[0]] + ps[1..] == ps;
    }
  }

  /** Codes after the sixth are dropped, the kept ones joined by a comma and a blank. */
  lemma DropsAfterSixth(ps: seq<string>)
    requires |ps| > MAX_CODES
    requires forall i :: 0 <= i < |ps| ==> ',' !in ps[i]
    ensures TruncateCodes(Join(ps, ",")) == Join(ps[..MAX_CODES], ", ")
  {
    SplitJoined(ps, ',');
    assert [','] == ",";
    assert Min(MAX_CODES, |ps|) == MAX_CODES;
  }

  /** The seven one-letter codes written with plain commas. */
  lemma SevenCodesText()
    ensures Join(["A", "B", "C", "D", "E", "F", "G"], ",") == "A,B,C,D,E,F,G"
  {
    var ps := ["A", "B", "C", "D", "E", "F", "G"];
    assert Join(ps[6..], ",") == "G";
    assert Join(ps[5..], ",") == "F,G";
    assert Join(ps[4..], ",") == "E,F,G";
    assert Join(ps[3..], ",") == "D,E,F,G";
    assert Join(ps[2..], ",") == "C,D,E,F,G";
    assert Join(ps[1..], ",") == "B,C,D,E,F,G";
  }

  /** The first six of them written with a comma and a blank. */
  lemma SixCodesText()
    ensures Join(["A", "B", "C", "D", "E", "F"], ", ") == "A, B, C, D, E, F"
  {
    var ps := ["A", "B", "C", "D", "E", "F"];
    assert Join(ps[5..], ", ") == "F";
    assert Join(ps[4..], ", ") == "E, F";
    assert Join(ps[3..], ", ") == "D, E, F";
    assert Join(ps[2..], ", ") == "C, D, E, F";
    assert Join(ps[1..], ", ") == "B, C, D, E, F";
  }

  /** A seventh code is dropped: "A,B,C,D,E,F,G" becomes "A, B, C, D, E, F". */
  lemma DropsSeventhCode()
    ensures TruncateCodes("A,B,C,D,E,F,G") == "A, B, C, D, E, F"
  {
    var ps := ["A", "B", "C", "D", "E", "F", "G"];
    DropsAfterSixth(ps);
    SevenCodesText();
    SixCodesText();
    assert ps[..MAX_CODES] == ["A", "B", "C", "D", "E", "F"];
  }
}
