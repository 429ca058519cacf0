/**
 The error localizer of the `check-file` example (`format_error`).

 pest often reports a failure far below the real mistake (an unterminated
 `if` fails at the end of the file). Starting from the reported line, the
 localizer repeatedly drops the candidate line by one, truncates the file to
 the lines above the candidate, and re-parses that prefix as a document. The
 first prefix that parses marks the boundary: the line just after it is
 reported, with the column of the failure that named that line. A failed
 re-parse moves the candidate to the line of the new failure. If the
 candidate reaches line 1 without any prefix parsing, `check-file` panics.
 */
module Localizer {
  import opened Text
  import opened PestError
  import opened Report

  /** How the backward search ends. `Found(length, column)`: the first
      `length` lines parse and line `length + 1` is reported. `Exhausted`:
      the candidate line reached 1 (or started there) with no success. */
  datatype SearchResult =
    | Found(length: nat, column: nat)
    | Exhausted(line: nat, column: nat)

  /** The ways `format_error` aborts instead of returning a message. */
  datatype Panic =
      /** "File cannot be parsed!": no truncation parsed. */
    | CannotBeParsed(line: nat, column: nat)
      /** `last_bad_line - 3` computed on `usize` when `last_bad_line < 3`:
          an overflow panic in a debug build; in a release build the
          difference wraps and slicing from it panics instead. */
    | ContextUnderflow(length: nat)

  datatype Located = Reported(report: Report) | Panicked(panic: Panic)

  /** The program's final word on a failed parse: the printed message, or
      the panic that ends the program. */
  datatype Outcome = Message(text: string) | Aborted(panic: Panic)

  /** pest's guarantee, read on a truncation: a failed re-parse of the first
      `k` lines reports one of those `k` lines. */
  lemma FailureWithinPrefix(parse: Parser, lines: seq<string>, k: nat)
    requires ReportsWithinInput(parse)
    requires NewlineFree(lines)
    requires 1 <= k <= |lines|
    ensures parse(Truncate(lines, k)).Failed? ==> FailureLine(parse(Truncate(lines, k)).location) <= k
  {
    TruncateLines(lines, k);
    assert FailsWithinInput(parse, Truncate(lines, k));
  }

  /** The backward search over the file's `lines` from candidate `line`
      (with the column that came with it). Every prefix it reports is one
      that parses, and it is strictly shorter than the line the search
      started from, so the reported line exists in the file. */
  function Search(parse: Parser, lines: seq<string>, line: nat, column: nat): (r: SearchResult)
    requires ReportsWithinInput(parse)
    requires NewlineFree(lines)
    requires line <= |lines|
    ensures r.Found? ==> 1 <= r.length < line && parse(Truncate(lines, r.length)).Parsed?
    ensures r.Exhausted? ==> r.line <= 1 && r.line <= line
    ensures line <= 1 ==> r == Exhausted(line, column)
    decreases line
  {
    if line <= 1 then Exhausted(line, column)
    else
      var length := line - 1;
      match parse(Truncate(lines, length))
      case Parsed => Found(length, column)
      case Failed(location) =>
        var at := ExtractLineColumn(location);
        FailureWithinPrefix(parse, lines, length);
        Search(parse, lines, at.line, at.column)
  }

  /** The prefix lengths the search re-parses, in the order it tries them. */
  function Tried(parse: Parser, lines: seq<string>, line: nat): (lengths: seq<nat>)
    requires ReportsWithinInput(parse)
    requires NewlineFree(lines)
    requires line <= |lines|
    ensures forall i :: 0 <= i < |lengths| ==> 1 <= lengths[i] < line
    ensures forall i, j :: 0 <= i < j < |lengths| ==> lengths[i] > lengths[j]
    ensures line > 1 <==> |lengths| > 0
    ensures line > 1 ==> lengths[0] == line - 1
    ensures forall i :: 0 <= i < |lengths| - 1 ==> parse(Truncate(lines, lengths[i])).Failed?
    ensures forall i, j :: 0 <= i && j == i + 1 && j < |lengths| ==>
      lengths[j] == FailureLine(parse(Truncate(lines, lengths[i])).location) - 1
    decreases line
  {
    if line <= 1 then []
    else
      var length := line - 1;
      match parse(Truncate(lines, length))
      case Parsed => [length]
      case Failed(location) =>
        var next := FailureLine(location);
        FailureWithinPrefix(parse, lines, length);
        var rest := Tried(parse, lines, next);
        var lengths := [length] + rest;
        assert forall i :: 1 <= i < |lengths| ==> lengths[i] == rest[i - 1];
        lengths
  }

  /** The search stops only when a prefix parses or the candidate line
      reaches 1: when the last try failed, that failure named line 1 (or
      line 0). */
  lemma {:induction false} TriedEndsAtFirstLine(parse: Parser, lines: seq<string>, line: nat)
    requires ReportsWithinInput(parse)
    requires NewlineFree(lines)
    requires line <= |lines|
    ensures var lengths := Tried(parse, lines, line);
      |lengths| > 0 && parse(Truncate(lines, lengths[|lengths| - 1])).Failed? ==>
        FailureLine(parse(Truncate(lines, lengths[|lengths| - 1])).location) <= 1
    decreases line
  {
    if line > 1 {
      var length := line - 1;
      match parse(Truncate(lines, length))
      case Parsed =>
      case Failed(location) =>
        var next := FailureLine(location);
        FailureWithinPrefix(parse, lines, length);
        TriedEndsAtFirstLine(parse, lines, next);
        var rest := Tried(parse, lines, next);
        assert Tried(parse, lines, line) == [length] + rest;
    }
  }

  /** First success wins: the search reports the last length it tried, that
      length is the only one that parsed, and every longer length tried
      before it failed. */
  lemma {:induction false} FirstSuccessWins(parse: Parser, lines: seq<string>, line: nat, column: nat)
    requires ReportsWithinInput(parse)
    requires NewlineFree(lines)
    requires line <= |lines|
    ensures var r := Search(parse, lines, line, column);
      var lengths := Tried(parse, lines, line);
      && (r.Found? <==> |lengths| > 0 && parse(Truncate(lines, lengths[|lengths| - 1])).Parsed?)
      && (r.Found? ==> r.length == lengths[|lengths| - 1])
      && (r.Exhausted? ==> forall i :: 0 <= i < |lengths| ==> parse(Truncate(lines, lengths[i])).Failed?)
      && (r.Exhausted? && |lengths| == 0 ==> r == Exhausted(line, column))
      && (r.Exhausted? && |lengths| > 0 ==>
            LineCol(r.line, r.column) == ExtractLineColumn(parse(Truncate(lines, lengths[|lengths| - 1])).location))
    decreases line
  {
    if line > 1 {
      var length := line - 1;
      match parse(Truncate(lines, length))
      case Parsed =>
        assert Tried(parse, lines, line) == [length];
      case Failed(location) =>
        var at := ExtractLineColumn(location);
        FailureWithinPrefix(parse, lines, length);
        FirstSuccessWins(parse, lines, at.line, at.column);
        var rest := Tried(parse, lines, at.line);
        assert Search(parse, lines, line, column) == Search(parse, lines, at.line, at.column);
        assert Tried(parse, lines, line) == [length] + rest;
    }
  }

  /** The reported line and column are those of the last failure: the
      original one when the first try succeeds, otherwise the failure of the
      re-parse just before the successful one. */
  lemma {:induction false} ReportedPositionIsLastFailure(parse: Parser, lines: seq<string>, line: nat, column: nat)
    requires ReportsWithinInput(parse)
    requires NewlineFree(lines)
    requires line <= |lines|
    ensures var r := Search(parse, lines, line, column);
      var lengths := Tried(parse, lines, line);
      && (r.Found? && |lengths| == 1 ==> LineCol(r.length + 1, r.column) == LineCol(line, column))
      && (r.Found? && |lengths| > 1 ==>
            ExtractLineColumn(parse(Truncate(lines, lengths[|lengths| - 2])).location)
              == LineCol(r.length + 1, r.column))
    decreases line
  {
    if line > 1 {
      var length := line - 1;
      match parse(Truncate(lines, length))
      case Parsed =>
        assert Tried(parse, lines, line) == [length];
      case Failed(location) =>
        var at := ExtractLineColumn(location);
        FailureWithinPrefix(parse, lines, length);
        ReportedPositionIsLastFailure(parse, lines, at.line, at.column);
        var rest := Tried(parse, lines, at.line);
        var lengths := Tried(parse, lines, line);
        assert Search(parse, lines, line, column) == Search(parse, lines, at.line, at.column);
        assert lengths == [length] + rest;
        if Search(parse, lines, at.line, at.column).Found? {
          FirstSuccessWins(parse, lines, at.line, at.column);
          if |rest| == 1 {
            assert lengths[|lengths| - 2] == length;
          } else {
            assert lengths[|lengths| - 2] == rest[|rest| - 2];
          }
        }
    }
  }

  /** `format_error` as written, up to the rendering: the search, then the
      context window `last_bad_line - 3 .. last_bad_line` on `usize`, which
      panics when fewer than three lines precede the offending one. */
  function Locate(parse: Parser, inputFile: string, content: string, error: LineColLocation): (r: Located)
    requires ReportsWithinInput(parse)
    requires FailureLine(error) <= |Split(content)|
    ensures var at := ExtractLineColumn(error);
      var s := Search(parse, Split(content), at.line, at.column);
      && (r.Panicked? && r.panic.CannotBeParsed? <==> s.Exhausted?)
      && (r.Panicked? && r.panic.ContextUnderflow? <==> s.Found? && s.length < 3)
      && (r.Reported? ==> r.report.line == s.length + 1 && r.report.column == s.column)
      && (r.Panicked? ==> r.panic == if s.Exhausted? then CannotBeParsed(s.line, s.column) else ContextUnderflow(s.length))
    ensures r.Reported? ==>
      var lines := Split(content);
      var length := r.report.line - 1;
      && r.report.inputFile == inputFile
      && 4 <= r.report.line <= |lines|
      && r.report.line <= FailureLine(error)
      && parse(Truncate(lines, length)).Parsed?
      && r.report.offending == lines[length]
      && r.report.context == lines[length - 3..length]
      && |r.report.context| == 3
    ensures r.Reported? && '\n' !in inputFile ==> SingleLines(r.report)
  {
    var at := ExtractLineColumn(error);
    match Search(parse, Split(content), at.line, at.column)
    case Exhausted(line, column) => Panicked(CannotBeParsed(line, column))
    case Found(length, column) =>
      var lines := Split(content);
      if length < 3 then Panicked(ContextUnderflow(length))
      else
        var context := lines[length - 3..length];
        assert forall i :: 0 <= i < |context| ==> '\n' !in context[i] by {
          forall i | 0 <= i < |context| ensures '\n' !in context[i] {
            assert context[i] == lines[length - 3 + i];
          }
        }
        Reported(Report(inputFile, length + 1, column, context, lines[length]))
  }

  /** The context window as evidently intended by `cmp::max(0, _)`: up to
      three lines, fewer only when the file has fewer above the offending
      line. */
  function LocateSaturating(parse: Parser, inputFile: string, content: string, error: LineColLocation): (r: Located)
    requires ReportsWithinInput(parse)
    requires FailureLine(error) <= |Split(content)|
    ensures var at := ExtractLineColumn(error);
      var s := Search(parse, Split(content), at.line, at.column);
      && (r.Reported? <==> s.Found?)
      && (r.Panicked? ==> r.panic == CannotBeParsed(s.line, s.column))
      && (r.Reported? ==> r.report.line == s.length + 1 && r.report.column == s.column)
    ensures r.Reported? ==>
      var lines := Split(content);
      var length := r.report.line - 1;
      && r.report.inputFile == inputFile
      && 2 <= r.report.line <= |lines|
      && r.report.line <= FailureLine(error)
      && parse(Truncate(lines, length)).Parsed?
      && r.report.offending == lines[length]
      && var first := if length < 3 then 0 else length - 3;
         r.report.context == lines[first..length]
    ensures r.Reported? && '\n' !in inputFile ==> SingleLines(r.report)
  {
    var at := ExtractLineColumn(error);
    match Search(parse, Split(content), at.line, at.column)
    case Exhausted(line, column) => Panicked(CannotBeParsed(line, column))
    case Found(length, column) =>
      var lines := Split(content);
      var first := if length < 3 then 0 else length - 3;
      var context := lines[first..length];
      assert forall i :: 0 <= i < |context| ==> '\n' !in context[i] by {
        forall i | 0 <= i < |context| ensures '\n' !in context[i] {
          assert context[i] == lines[first + i];
        }
      }
      assert 2 <= length + 1 <= |lines|;
      Reported(Report(inputFile, length + 1, column, context, lines[length]))
  }

  /** The text `format_error` returns or the panic it raises, computed with
      the source's loop. */
  method FormatError(parse: Parser, inputFile: string, content: string, error: LineColLocation)
    returns (out: Outcome)
    requires ReportsWithinInput(parse)
    requires FailureLine(error) <= |Split(content)|
    ensures out.Aborted? <==> Locate(parse, inputFile, content, error).Panicked?
    ensures out.Aborted? ==> out.panic == Locate(parse, inputFile, content, error).panic
    ensures out.Message? ==> out.text == Render(Locate(parse, inputFile, content, error).report)
  {
    var at := ExtractLineColumn(error);
    var lastBadLine: nat, lastBadColumn: nat := at.line, at.column;
    while lastBadLine > 1
      invariant lastBadLine <= |Split(content)|
      invariant Search(parse, Split(content), lastBadLine, lastBadColumn) == Search(parse, Split(content), at.line, at.column)
      decreases lastBadLine
    {
      lastBadLine := lastBadLine - 1;
      var lines := Split(content);
      var truncated := Truncate(lines, lastBadLine);
      match parse(truncated)
      case Parsed =>
        assert Search(parse, lines, lastBadLine + 1, lastBadColumn) == Found(lastBadLine, lastBadColumn);
        if lastBadLine < 3 {
          assert Locate(parse, inputFile, content, error) == Panicked(ContextUnderflow(lastBadLine));
          return Aborted(ContextUnderflow(lastBadLine));
        }
        var report := Report(inputFile, lastBadLine + 1, lastBadColumn,
                             lines[lastBadLine - 3..lastBadLine], lines[lastBadLine]);
        assert Locate(parse, inputFile, content, error) == Reported(report);
        return Message(Render(report));
      case Failed(location) =>
        var next := ExtractLineColumn(location);
        FailureWithinPrefix(parse, lines, lastBadLine);
        lastBadLine, lastBadColumn := next.line, next.column;
    }
    assert Search(parse, Split(content), lastBadLine, lastBadColumn) == Exhausted(lastBadLine, lastBadColumn);
    assert Locate(parse, inputFile, content, error) == Panicked(CannotBeParsed(lastBadLine, lastBadColumn));
    return Aborted(CannotBeParsed(lastBadLine, lastBadColumn));
  }

  /** A parser that accepts exactly the text "ok" and otherwise fails at the
      start of the text's last line. */
  function OnlyOk(text: string): ParseResult
  {
    if text == "ok" then Parsed else Failed(Pos(LineCol(|Split(text)|, 1)))
  }

  lemma OnlyOkWithinInput()
    ensures ReportsWithinInput(OnlyOk)
  {
  }

  /** The window underflow, exhibited: in "ok\nbad" the failure on line 2 is
      localized to line 2, and the source panics where a two-line message
      with one context line was intended. */
  lemma UnderflowExample()
    ensures ReportsWithinInput(OnlyOk)
    ensures Locate(OnlyOk, "post.md", "ok\nbad", Pos(LineCol(2, 1))) == Panicked(ContextUnderflow(1))
    ensures LocateSaturating(OnlyOk, "post.md", "ok\nbad", Pos(LineCol(2, 1)))
      == Reported(Report("post.md", 2, 1, ["ok"], "bad"))
  {
    OnlyOkWithinInput();
    var content := "ok\nbad";
    SplitAroundNewline("ok", "bad");
    SplitSingle("ok");
    SplitSingle("bad");
    assert content == "ok" + "\n" + "bad";
    assert Split(content) == ["ok", "bad"];
    assert Split(content)[..1] == ["ok"];
    assert Truncate(Split(content), 1) == "ok";
  }
}
