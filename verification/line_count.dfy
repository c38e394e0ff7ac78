/**
 * `metrics/line_count.rs`: counting the lines of a text, and the lines-count summary of a
 * folder from the values its entries store.
 */
module LineCount {
  import opened Wrappers
  import opened Text
  import opened LegacyModels

  /** `LinesCountMetric::get_key`. */
  const Key: string := "lines_count"

  /* ---------------------------------------------------------------- */
  /* Counting lines                                                    */

  /** A line with one trailing carriage return removed. */
  function StripCR(line: string): (r: string)
    ensures r == line || line == r + "\r"
  {
    if |line| > 0 && line[|line| - 1] == '\r' then line[..|line| - 1] else line
  }

  /**
   * `str::lines`: the pieces between line feeds; a piece that a line feed ends loses one
   * trailing carriage return, a last piece with no line feed after it keeps its own, and a
   * final line feed does not start another line.
   */
  function Lines(s: string): (r: seq<string>)
    ensures forall i :: 0 <= i < |r| ==> '\n' !in r[i]
  {
    if s == "" then []
    else
      var pieces := Split(s, '\n');
      var kept := if pieces[|pieces| - 1] == "" then pieces[..|pieces| - 1] else pieces;
      seq(|kept|, i requires 0 <= i < |kept| => if i < |pieces| - 1 then StripCR(kept[i]) else kept[i])
  }

  /** `count_lines`: the number of lines, truncated to `u32`. */
  function CountLines(content: string): (r: nat)
    ensures r < U32Modulus
  {
    |Lines(content)| % U32Modulus
  }

  /** A split has one more piece than there are separators. */
  lemma {:induction false} SplitPieces(s: string, c: char)
    ensures |Split(s, c)| == Count(s, c) + 1
    decreases |s|
  {
    if c in s {
      var i := IndexOf(s, c);
      SplitPieces(s[i + 1..], c);
      assert s == s[..i] + [c] + s[i + 1..];
      CountAppend(s[..i] + [c], s[i + 1..], c);
      CountAppend(s[..i], [c], c);
      CountAbsent(s[..i], c);
    } else {
      CountAbsent(s, c);
    }
  }

  lemma {:induction false} CountAbsent(s: string, c: char)
    requires c !in s
    ensures Count(s, c) == 0
  {
    if s != [] {
      CountAbsent(s[1..], c);
    }
  }

  /** Empty, or ending with `c`: the texts whose split ends with an empty piece. */
  predicate EmptyOrEndsWith(s: string, c: char) {
    s == "" || s[|s| - 1] == c
  }

  predicate LastPieceEmpty(pieces: seq<string>)
    requires |pieces| >= 1
  {
    pieces[|pieces| - 1] == ""
  }

  /** The last piece of a split is empty exactly when the text is empty or ends with the separator. */
  lemma {:induction false} SplitLastPiece(s: string, c: char)
    ensures LastPieceEmpty(Split(s, c)) <==> EmptyOrEndsWith(s, c)
    decreases |s|
  {
    if c in s {
      var i := IndexOf(s, c);
      var rest := s[i + 1..];
      SplitLastPiece(rest, c);
      SplitAtFirst(s, c);
      EndsWithAfter(s, c, i);
      LastPieceStep(Split(s, c), Split(rest, c), s[..i]);
    } else {
      SplitWithoutSeparator(s, c);
    }
  }

  lemma SplitWithoutSeparator(s: string, c: char)
    requires c !in s
    ensures LastPieceEmpty(Split(s, c)) <==> EmptyOrEndsWith(s, c)
  {
    assert Split(s, c) == [s];
    if s != "" {
      assert s[|s| - 1] in s;
    }
  }

  /** A first piece put in front does not change which piece is last. */
  lemma LastPieceStep(pieces: seq<string>, restPieces: seq<string>, first: string)
    requires pieces == [first] + restPieces && |restPieces| >= 1
    ensures LastPieceEmpty(pieces) <==> LastPieceEmpty(restPieces)
  {
    assert pieces[|pieces| - 1] == restPieces[|restPieces| - 1];
  }

  /** Text ends with `c` exactly when the part after an occurrence of `c` is empty or does. */
  lemma EndsWithAfter(s: string, c: char, i: nat)
    requires i < |s| && s[i] == c
    ensures EmptyOrEndsWith(s, c) <==> EmptyOrEndsWith(s[i + 1..], c)
  {
    var rest := s[i + 1..];
    if rest == "" {
      assert i == |s| - 1;
    } else {
      assert s[|s| - 1] == rest[|rest| - 1];
    }
  }

  /**
   * The number of lines is the number of line feeds, plus one when the text is not empty and
   * does not end with a line feed.
   */
  lemma LinesCount(s: string)
    ensures |Lines(s)| == Count(s, '\n') + (if s != "" && s[|s| - 1] != '\n' then 1 else 0)
  {
    if s != "" {
      var pieces := Split(s, '\n');
      SplitPieces(s, '\n');
      SplitLastPiece(s, '\n');
      assert |Lines(s)| == if LastPieceEmpty(pieces) then |pieces| - 1 else |pieces|;
    }
  }

  /** A text of `n` line feeds and nothing else counts `n` lines (as a `u32`). */
  lemma CountLinesOfLineFeeds(n: nat)
    ensures CountLines(Repeat("\n", n)) == n % U32Modulus
  {
    LinesCount(Repeat("\n", n));
    RepeatedLineFeeds(n);
  }

  lemma {:induction false} RepeatedLineFeeds(n: nat)
    ensures Count(Repeat("\n", n), '\n') == n
    ensures n > 0 ==> Repeat("\n", n)[n - 1] == '\n'
  {
    if n > 0 {
      RepeatedLineFeeds(n - 1);
      CountAppend(Repeat("\n", n - 1), "\n", '\n');
    }
  }

  /** Lines that hold no line feed, joined by line feeds, are counted one by one. */
  lemma CountLinesOfJoinedLines(lines: seq<string>)
    requires |lines| >= 1 && lines[|lines| - 1] != ""
    requires forall i :: 0 <= i < |lines| ==> '\n' !in lines[i]
    ensures CountLines(Join(lines, '\n')) == |lines| % U32Modulus
  {
    var s := Join(lines, '\n');
    SplitJoin(lines, '\n');
    assert Split(s, '\n') == lines;
    assert Split("", '\n') == [""];
    assert |Lines(s)| == |lines|;
  }

  /**
   * Lines that hold no line feed, joined by line feeds, come back one by one: each line a
   * line feed ends without its trailing carriage return, the last one as it was.
   */
  lemma LinesOfJoinedLines(lines: seq<string>)
    requires |lines| >= 1 && lines[|lines| - 1] != ""
    requires forall i :: 0 <= i < |lines| ==> '\n' !in lines[i]
    ensures |Lines(Join(lines, '\n'))| == |lines|
    ensures forall i :: 0 <= i < |lines| - 1 ==> Lines(Join(lines, '\n'))[i] == StripCR(lines[i])
    ensures Lines(Join(lines, '\n'))[|lines| - 1] == lines[|lines| - 1]
  {
    SplitJoin(lines, '\n');
    assert Split("", '\n') == [""];
    LinesOfUnendedText(Join(lines, '\n'), lines);
  }

  /** The lines of a text whose last line has no line feed after it. */
  lemma LinesOfUnendedText(s: string, pieces: seq<string>)
    requires s != "" && Split(s, '\n') == pieces && pieces[|pieces| - 1] != ""
    ensures |Lines(s)| == |pieces|
    ensures forall i :: 0 <= i < |pieces| - 1 ==> Lines(s)[i] == StripCR(pieces[i])
    ensures Lines(s)[|pieces| - 1] == pieces[|pieces| - 1]
  {
  }

  /** A carriage return before a line feed is dropped; one at the very end is kept. */
  lemma LinesCarriageReturnExample()
    ensures Lines("foo\r\nbaz\r") == ["foo", "baz\r"]
  {
    JoinTwo("foo\r", "baz\r");
    assert "foo\r" + "\n" + "baz\r" == "foo\r\nbaz\r";
    LinesOfJoinedLines(["foo\r", "baz\r"]);
    assert StripCR("foo\r") == "foo";
  }

  /** The cases the unit tests of `count_lines` pin down: an empty text and one line. */
  lemma CountLinesOfOneLineExamples()
    ensures CountLines("") == 0
    ensures CountLines("line1") == 1
  {
    CountLinesOfJoinedLines(["line1"]);
  }

  /** The unit test with two lines. */
  lemma CountLinesOfTwoLinesExample()
    ensures CountLines("line1\nline2") == 2
  {
    JoinTwo("line1", "line2");
    assert "line1" + "\n" + "line2" == "line1\nline2";
    CountLinesOfJoinedLines(["line1", "line2"]);
  }

  /** The unit test with three lines. */
  lemma CountLinesOfThreeLinesExample()
    ensures CountLines("line1\nline2\nline3") == 3
  {
    JoinThree("line1", "line2", "line3");
    assert "line1" + "\n" + "line2" + "\n" + "line3" == "line1\nline2\nline3";
    CountLinesOfJoinedLines(["line1", "line2", "line3"]);
  }

  lemma JoinTwo(a: string, b: string)
    ensures Join([a, b], '\n') == a + "\n" + b
  {
    assert [a, b][1..] == [b];
  }

  lemma JoinThree(a: string, b: string, c: string)
    ensures Join([a, b, c], '\n') == a + "\n" + b + "\n" + c
  {
    assert [a, b, c][1..] == [b, c];
    JoinTwo(b, c);
  }

  /** The cases the unit tests of `count_lines` pin down: "\n" and "\n\n\n". */
  lemma CountLinesOfLineFeedExamples()
    ensures CountLines("\n") == 1
    ensures CountLines("\n\n\n") == 3
  {
    assert Repeat("\n", 1) == "\n";
    CountLinesOfLineFeeds(1);
    assert Repeat("\n", 3) == "\n\n\n";
    CountLinesOfLineFeeds(3);
  }

  /* ---------------------------------------------------------------- */
  /* Folder summary                                                    */

  /** `get_lines_count_value`: the score an entry stores under "lines_count", if any. */
  function GetLinesCountValue(a: Analysis): (r: Option<nat>)
    ensures r.Some? <==> Key in a.metrics && a.metrics[Key].Score?
    ensures r.Some? ==> a.metrics[Key] == Score(r.value)
  {
    if Key in a.metrics then
      match a.metrics[Key]
      case Score(n) => Some(n)
      case Error(_) => None
    else None
  }

  /** The `filter_map` step: the stored scores, in entry order. */
  function StoredValues(contents: seq<Analysis>): seq<nat> {
    if contents == [] then []
    else
      (match GetLinesCountValue(contents[0]) case Some(n) => [n] case None => [])
        + StoredValues(contents[1..])
  }

  /** `Iterator::reduce` with `+`: `None` for no values. */
  function ReduceSum(values: seq<nat>): (r: Option<nat>)
    ensures r.None? <==> values == []
  {
    if values == [] then None
    else if |values| == 1 then Some(values[0])
    else
      var init := ReduceSum(values[..|values| - 1]);
      Some(init.value + values[|values| - 1])
  }

  /** `summary_lines_count_metric`. */
  function SummaryLinesCountMetric(contents: seq<Analysis>): nat {
    match ReduceSum(StoredValues(contents))
    case Some(total) => total
    case None => 0
  }

  /** What one entry contributes to its folder's summary: its stored score, or nothing. */
  function Contribution(a: Analysis): nat {
    match GetLinesCountValue(a)
    case Some(n) => n
    case None => 0
  }

  /** The contributions of the entries, added up. */
  function TotalContribution(contents: seq<Analysis>): nat {
    if contents == [] then 0 else Contribution(contents[0]) + TotalContribution(contents[1..])
  }

  function Sum(values: seq<nat>): nat {
    if values == [] then 0 else values[0] + Sum(values[1..])
  }

  lemma {:induction false} SumSnoc(values: seq<nat>)
    requires values != []
    ensures Sum(values) == Sum(values[..|values| - 1]) + values[|values| - 1]
  {
    if |values| > 1 {
      SumSnoc(values[1..]);
      assert values[1..][..|values| - 2] == values[..|values| - 1][1..];
    }
  }

  lemma {:induction false} ReduceIsSum(values: seq<nat>)
    requires values != []
    ensures ReduceSum(values) == Some(Sum(values))
  {
    SumSnoc(values);
    if |values| > 1 {
      ReduceIsSum(values[..|values| - 1]);
    } else {
      assert values[1..] == [];
    }
  }

  lemma {:induction false} StoredValuesSum(contents: seq<Analysis>)
    ensures Sum(StoredValues(contents)) == TotalContribution(contents)
  {
    if contents != [] {
      StoredValuesSum(contents[1..]);
      var head := match GetLinesCountValue(contents[0]) case Some(n) => [n] case None => [];
      SumAppend(head, StoredValues(contents[1..]));
    }
  }

  lemma {:induction false} SumAppend(a: seq<nat>, b: seq<nat>)
    ensures Sum(a + b) == Sum(a) + Sum(b)
  {
    if a != [] {
      assert (a + b)[1..] == a[1..] + b;
      SumAppend(a[1..], b);
    } else {
      assert a + b == b;
    }
  }

  /**
   * A folder's summary is the sum of the scores its direct entries store under "lines_count";
   * an entry with an error or without the key adds nothing, and no entries give 0.
   */
  lemma SummaryIsTotalContribution(contents: seq<Analysis>)
    ensures SummaryLinesCountMetric(contents) == TotalContribution(contents)
  {
    StoredValuesSum(contents);
    if StoredValues(contents) != [] {
      ReduceIsSum(StoredValues(contents));
    }
  }

  /**
   * The summary does not look inside sub-folders: a sub-folder counts with the score it
   * stores, whatever its own entries hold.
   */
  lemma SummaryIgnoresNestedContent(key: string, metrics: MetricsMap, inner1: seq<Analysis>, inner2: seq<Analysis>)
    ensures SummaryLinesCountMetric([FolderAnalysis(key, metrics, inner1)])
         == SummaryLinesCountMetric([FolderAnalysis(key, metrics, inner2)])
  {
    SummaryIsTotalContribution([FolderAnalysis(key, metrics, inner1)]);
    SummaryIsTotalContribution([FolderAnalysis(key, metrics, inner2)]);
  }
}
