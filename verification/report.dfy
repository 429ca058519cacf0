/**
 The plain-text diagnostic `check-file` prints when it has located a parse
 error: a banner, a `-->` header naming file, line and column, up to three
 lines of context, the offending line, and a caret line. Colours are left
 out; every length below is that of the uncoloured text, which is also what
 the source measures when it aligns the caret.
 */
module Report {
  import opened Text
  import opened Decimal

  const Banner: string := "Error: failed to parse input as Liquid"
  const CaretMessage: string := "^ Maybe somewhere around here"

  /** A located error. `line` is 1-based; `context` are the lines shown
      above `offending`, in file order. */
  datatype Report = Report(
    inputFile: string,
    line: nat,
    column: nat,
    context: seq<string>,
    offending: string)

  /** Every piece of text the report quotes is a single line. */
  predicate SingleLines(report: Report)
  {
    && '\n' !in report.inputFile
    && '\n' !in report.offending
    && forall i :: 0 <= i < |report.context| ==> '\n' !in report.context[i]
  }

  function Spaces(n: nat): (r: string)
    ensures |r| == n
    ensures forall i :: 0 <= i < n ==> r[i] == ' '
  {
    seq(n, _ => ' ')
  }

  /** The file location as printed after the arrow: `file:line:column`. */
  function Location(report: Report): string
  {
    report.inputFile + ":" + NatToString(report.line) + ":" + NatToString(report.column)
  }

  /** A `-->` header: `w - 1` spaces, the arrow (which ends one column right
      of the gutter's bar), a space, then the location. */
  predicate HeaderLine(row: string, w: nat, location: string)
  {
    && w >= 1
    && |row| == w + 4 + |location|
    && row[..w + 4] == Spaces(w - 1) + " --> "
    && row[w + 4..] == location
  }

  /** A quoted line: the gutter, then " | ", then the quoted text, so the
      bar is at index `|gutter| + 1` and the text starts at `|gutter| + 3`. */
  predicate QuotedLine(row: string, gutter: string, quoted: string)
  {
    && |row| == |gutter| + 3 + |quoted|
    && row[..|gutter|] == gutter
    && row[|gutter|] == ' ' && row[|gutter| + 1] == '|' && row[|gutter| + 2] == ' '
    && forall j :: |gutter| + 3 <= j < |row| ==> row[j] == quoted[j - (|gutter| + 3)]
  }

  /** A caret line: `offset` spaces, then the caret and its message. */
  predicate CaretLine(row: string, offset: nat)
  {
    && |row| > offset
    && (forall j :: 0 <= j < offset ==> row[j] == ' ')
    && row[offset..] == CaretMessage
  }

  function HeaderRow(w: nat, location: string): (row: string)
    requires w >= 1
    ensures HeaderLine(row, w, location)
    ensures '\n' !in location ==> '\n' !in row
  {
    var row := Spaces(w - 1) + " --> " + location;
    assert row[..w + 4] == Spaces(w - 1) + " --> ";
    assert row[w + 4..] == location;
    assert '\n' !in location ==> '\n' !in row by {
      if '\n' !in location {
        forall i | 0 <= i < |row| ensures row[i] != '\n' {
          if i >= w + 4 {
            assert row[i] == location[i - (w + 4)];
          }
        }
      }
    }
    row
  }

  function QuotedRow(gutter: string, quoted: string): (row: string)
    ensures QuotedLine(row, gutter, quoted)
    ensures '\n' !in gutter && '\n' !in quoted ==> '\n' !in row
  {
    var row := gutter + " | " + quoted;
    assert row[..|gutter|] == gutter;
    assert forall j :: |gutter| + 3 <= j < |row| ==> row[j] == quoted[j - (|gutter| + 3)];
    assert '\n' !in gutter && '\n' !in quoted ==> '\n' !in row by {
      if '\n' !in gutter && '\n' !in quoted {
        forall i | 0 <= i < |row| ensures row[i] != '\n' {
          if i < |gutter| {
            assert row[i] == gutter[i];
          } else if i >= |gutter| + 3 {
            assert row[i] == quoted[i - (|gutter| + 3)];
          }
        }
      }
    }
    row
  }

  function CaretRow(offset: nat): (row: string)
    ensures CaretLine(row, offset)
    ensures '\n' !in row
  {
    var row := Spaces(offset) + CaretMessage;
    assert forall i :: offset <= i < |row| ==> row[i] == CaretMessage[i - offset];
    assert row[offset..] == CaretMessage;
    row
  }

  /** The report as a list of lines.

      With `w` the number of digits of the line number, every quoted line
      sits after a gutter of `w + 3` characters whose bar is at index
      `w + 1`; context lines have a blank gutter and the offending line has
      its line number there. The caret line has `^` after `column + w + 2`
      spaces. */
  function RenderLines(report: Report): (out: seq<string>)
    ensures |out| == |report.context| + 4
    ensures out[0] == Banner
    ensures var w := Width(report.line);
      && HeaderLine(out[1], w, Location(report))
      && (forall i :: 0 <= i < |report.context| ==> QuotedLine(out[2 + i], Spaces(w), report.context[i]))
      && QuotedLine(out[|report.context| + 2], NatToString(report.line), report.offending)
      && CaretLine(out[|report.context| + 3], report.column + w + 2)
  {
    var number := NatToString(report.line);
    var w := |number|;
    var header := HeaderRow(w, Location(report));
    var contextRows := ContextRows(w, report.context);
    var errorRow := QuotedRow(number, report.offending);
    var caretRow := CaretRow(report.column + w + 2);
    var out := [Banner, header] + contextRows + [errorRow, caretRow];
    assert out[0] == Banner && out[1] == header;
    assert out[|report.context| + 2] == errorRow && out[|report.context| + 3] == caretRow;
    assert forall i :: 0 <= i < |report.context| ==> out[2 + i] == contextRows[i];
    out
  }

  /** The context lines, each behind a blank gutter of width `w`. */
  function ContextRows(w: nat, context: seq<string>): (rows: seq<string>)
    ensures |rows| == |context|
    ensures forall i :: 0 <= i < |context| ==>
      && QuotedLine(rows[i], Spaces(w), context[i])
      && ('\n' !in context[i] ==> '\n' !in rows[i])
  {
    assert '\n' !in Spaces(w);
    seq(|context|, i requires 0 <= i < |context| => QuotedRow(Spaces(w), context[i]))
  }

  /** The caret points at the reported column: for a 1-based column inside
      the offending line, the `^` stands exactly under that character. */
  lemma CaretUnderColumn(report: Report)
    requires 1 <= report.column <= |report.offending|
    ensures var out := RenderLines(report);
      var at := report.column + Width(report.line) + 2;
      && |out[|report.context| + 2]| > at
      && |out[|report.context| + 3]| > at
      && out[|report.context| + 3][at] == '^'
      && out[|report.context| + 2][at] == report.offending[report.column - 1]
  {
    var out := RenderLines(report);
    var w := Width(report.line);
    var at := report.column + w + 2;
    assert CaretLine(out[|report.context| + 3], at);
    assert out[|report.context| + 3][at..] == CaretMessage;
    assert QuotedLine(out[|report.context| + 2], NatToString(report.line), report.offending);
  }

  /** A report quoting only single lines renders as single lines. */
  lemma RenderedLinesAreSingle(report: Report)
    requires SingleLines(report)
    ensures forall i :: 0 <= i < |RenderLines(report)| ==> '\n' !in RenderLines(report)[i]
  {
    var number := NatToString(report.line);
    var w := |number|;
    var out := RenderLines(report);
    LocationSingleLine(report);
    assert '\n' !in number;
    assert out[1] == HeaderRow(w, Location(report));
    assert out[|report.context| + 2] == QuotedRow(number, report.offending);
    assert forall i :: 0 <= i < |report.context| ==> out[2 + i] == ContextRows(w, report.context)[i];
  }

  lemma LocationSingleLine(report: Report)
    requires '\n' !in report.inputFile
    ensures '\n' !in Location(report)
  {
    var line := NatToString(report.line);
    var column := NatToString(report.column);
    assert '\n' !in line && '\n' !in column;
    var location := Location(report);
    forall i | 0 <= i < |location| ensures location[i] != '\n' {
      var n := |report.inputFile|;
      if i < n {
        assert location[i] == report.inputFile[i];
      } else if n < i < n + 1 + |line| {
        assert location[i] == line[i - n - 1];
      } else if n + 1 + |line| < i {
        assert location[i] == column[i - n - 2 - |line|];
      }
    }
  }

  /** The report as one string, lines joined with "\n". */
  function Render(report: Report): string
  {
    Join(RenderLines(report))
  }

  /** When every quoted piece is a single line, the printed text has exactly
      the rendered lines. */
  lemma RenderSplitsBack(report: Report)
    requires SingleLines(report)
    ensures Split(Render(report)) == RenderLines(report)
  {
    RenderedLinesAreSingle(report);
    SplitJoin(RenderLines(report));
  }
}
