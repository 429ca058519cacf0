/**
 The parser as `check-file` sees it: an opaque function from text to either
 success or a failure location. The grammar behind it is not part of this
 model; only the shape of pest's error location and the guarantee that the
 reported line lies inside the parsed text are.
 */
module PestError {
  import opened Text

  /** A 1-based (line, column) pair as pest reports it. */
  datatype LineCol = LineCol(line: nat, column: nat)

  /** pest's `LineColLocation`: a single position or a span between two. */
  datatype LineColLocation =
    | Pos(at: LineCol)
    | Span(start: LineCol, end: LineCol)

  /** Outcome of parsing a text as a `document`. The parse tree of a success
      is not needed by the localizer and is left out here. */
  datatype ParseResult = Parsed | Failed(location: LineColLocation)

  /** `LiquidParser::parse(Rule::document, _)`, passed in as a parameter. */
  type Parser = string -> ParseResult

  /** The line and column `check-file` takes from a failure: the position of
      a `Pos`, the start of a `Span`. The end of a span is never consulted. */
  function ExtractLineColumn(location: LineColLocation): (r: LineCol)
    ensures location.Pos? ==> r == location.at
    ensures location.Span? ==> r == location.start
  {
    match location
    case Pos(at) => at
    case Span(start, _) => start
  }

  /** The line a failure is reported on. */
  function FailureLine(location: LineColLocation): nat
  {
    ExtractLineColumn(location).line
  }

  /** A failure on `text`, if any, is reported on a line that exists in
      `text`, counting lines as the segments of `split("\n")`. */
  predicate FailsWithinInput(parse: Parser, text: string)
  {
    parse(text).Failed? ==> FailureLine(parse(text).location) <= |Split(text)|
  }

  /** What the localizer relies on from pest: every failure lies within the
      text that was parsed. */
  ghost predicate ReportsWithinInput(parse: Parser)
  {
    forall text :: FailsWithinInput(parse, text)
  }
}
