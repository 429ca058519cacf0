# liquid-grammar-pest: the `check-file` error localizer and debug printer

`liquid-grammar-pest` is a pest grammar for Markdown documents with Liquid
template tags and optional front matter. Its `check-file` example parses one
file as a `document`. When the parse succeeds, it walks the top-level children
of the document. Front matter and every child of a known kind are printed
between comment markers that name the kind. The end of input prints the
single marker `<!-- End of Input -->`. A child of any other kind makes the
program panic, so it and every later child are not printed. When the
parse fails, it tries to find a more useful error location than pest's and
prints it with some context. This project models that program in Dafny:

- `Text` (`text.dfy`): lines as `split("\n")` yields them, their inverse
  `Join`, and the truncation of a file to its first *k* lines.
- `Decimal` (`decimal.dfy`): the decimal numerals printed for line and column
  numbers.
- `PestError` (`pest_error.dfy`): pest's error location (`Pos` or `Span`), the
  projection to a line and column, and the parser as an opaque function
  `string -> ParseResult`. The only thing assumed about that function is what
  pest guarantees: a failure on a text is reported on a line of that text.
- `Report` (`report.dfy`): the uncoloured diagnostic. This is a banner, a
  `--> file:line:column` header, context lines, the offending line and a
  caret line.
- `Localizer` (`localizer.dfy`): the backward search of `format_error`, both
  as a recursive function and as the source's loop. It also holds the context
  window and the finding described below.
- `Classifier` (`classifier.dfy`): the rule tags, `check_content_or_code`,
  `format_debug_pair`, and the loop in `main` over the parsed document's
  children.

Two behaviours of the source are worth stating up front. When no truncation
parses, `format_error` panics (main.rs:229-232); the model returns
`Panicked(CannotBeParsed(..))`. When fewer than three lines precede the
offending line, computing the context window panics (main.rs:200; see
Findings). The classifier knows sixteen rule tags: four that do not depend
on iteration, five outside iteration and seven within iteration.

## Model

| member | source | states |
|---|---|---|
| PestError.ExtractLineColumn | examples/check-file/main.rs:117-138 | a `Pos` gives its own line and column; a `Span` gives its start, and its end is never used |
| Text.Split | examples/check-file/main.rs:164 | a text always has at least one segment (the empty text has one empty segment); no segment holds a newline |
| Text.JoinSplit | examples/check-file/main.rs:164-165 | joining the segments with "\n" gives back the original text |
| Text.SplitJoin | examples/check-file/main.rs:164-165 | splitting a join of newline-free segments gives back the same segments |
| Text.TruncateLines | examples/check-file/main.rs:164-165 | the text re-parsed for a candidate has exactly the first k lines of the file, so pest's line numbers in it are the file's |
| Text.TruncatePrefix | examples/check-file/main.rs:164-165 | the text re-parsed for a candidate is a prefix of the file |
| Localizer.FailureWithinPrefix | examples/check-file/main.rs:165-166 | a failed re-parse of the first k lines reports a line no later than k, so the new candidate line is still inside the file |
| Localizer.Search | examples/check-file/main.rs:161-227 | the search terminates because the candidate line strictly decreases; a reported prefix length is at least 1, below the starting line, and that prefix parses; an exhausted search ends on a line <= 1, and a search starting on line <= 1 is exhausted at once with the starting position |
| Localizer.Tried | examples/check-file/main.rs:162-226 | the prefix lengths tried form a strictly decreasing sequence below the starting line, starting at line - 1; every try but the last failed, and each next length is the failed parse's error line minus one |
| Localizer.TriedEndsAtFirstLine | examples/check-file/main.rs:162-226 | the search never stops early: when the last length tried failed, that failure named line 1 or 0, so the loop condition `last_bad_line > 1` ended it |
| Localizer.FirstSuccessWins | examples/check-file/main.rs:162-226 | the search succeeds exactly when the last length tried parses, and it reports that length; when the search is exhausted, every try failed, and it carries the starting position if nothing was tried and otherwise the position of the last failure |
| Localizer.ReportedPositionIsLastFailure | examples/check-file/main.rs:161-226 | the reported line and column are those of the starting position when the first try parses, and otherwise those of the failed re-parse just before the successful one |
| Localizer.Locate | examples/check-file/main.rs:156-233 | as written: it panics with "cannot be parsed" exactly when the search is exhausted. It panics with a context underflow exactly when the parsing prefix has fewer than 3 lines. The panic carries the exhausted search's line and column, or the short prefix's length. Otherwise the report's line is one past the prefix the search found and its column is the search's column (so `FirstSuccessWins` and `ReportedPositionIsLastFailure` describe it). The report names the input file and a line between 4 and the file's last line, no later than the first error. The lines above the reported line parse. The offending line is that line of the file, and the context is exactly the 3 lines above it in order. A file name without newlines gives a report of single lines |
| Localizer.LocateSaturating | examples/check-file/main.rs:200-204 | with the window saturating at line 0, a report is produced exactly when the search finds a parsing prefix, at the line after that prefix and with the search's column; the context is the min(3, length) lines immediately above the offending line |
| Localizer.UnderflowExample | examples/check-file/main.rs:200-204 | for "ok\nbad" with a first failure on line 2, the source panics, and the saturating window reports line 2 with one line of context |
| Localizer.FormatError | examples/check-file/main.rs:156-233 | the source's loop aborts exactly when `Locate` panics, with the same panic; otherwise it returns the rendering of `Locate`'s report |
| Report.RenderLines | examples/check-file/main.rs:168-219 | the report has context + 4 lines, and line 0 is the banner; the header is digit-width - 1 spaces, ` --> `, then `file:line:column`; every quoted line sits after a gutter of digit-width + 3 characters with its bar, flanked by single spaces, in one column; context gutters are blank and the offending row's gutter holds the line number; the caret line is column + digit-width + 2 spaces followed by `^ Maybe somewhere around here` |
| Report.CaretUnderColumn | examples/check-file/main.rs:176-216 | for a column inside the offending line, the `^` stands in the same column as that line's column-th character |
| Report.RenderedLinesAreSingle | examples/check-file/main.rs:185-219 | when the file name and every quoted line are single lines, so is every rendered line |
| Report.RenderSplitsBack | examples/check-file/main.rs:221 | when every quoted piece is a single line, splitting the message gives back exactly the rendered lines |
| Decimal.NatToString | examples/check-file/main.rs:169-170 | a numeral has at least one character; every character is a digit; no leading zero except for 0 |
| Decimal.ParseNatToString | examples/check-file/main.rs:169-170 | reading a rendered line number back gives the number |
| Classifier.Label | examples/check-file/main.rs:69-113 | a tag has a label exactly when it is one of the sixteen known tags, and reading that label back gives the same tag, so no two tags share a label |
| Classifier.RuleOfLabel | examples/check-file/main.rs:69-113 | every label it accepts is the label of the known tag it returns |
| Classifier.CheckContentOrCode | examples/check-file/main.rs:63-114 | it returns a value exactly for a known tag, and that value is the callback applied to the node and the tag's label; any other tag, front matter and end of input included, is a panic and never gets a default label |
| Classifier.FormatDebugPair | examples/check-file/main.rs:51-58 | the output starts with the start marker, ends with the end marker, and holds the node's text verbatim between them, with a newline on either side |
| Classifier.DebugPairShape | examples/check-file/main.rs:50-58 | both markers and the wrapped text can be read back from the output; with single-line markers the lines are the start marker, the text's own lines, and the end marker |
| Classifier.DebugPairLines | examples/check-file/main.rs:50-58 | for a single-line label, the printed block's lines are the start marker, the node text's own lines, then the end marker |
| Classifier.DescribeChild | examples/check-file/main.rs:265-277 | front matter is printed under the label "FrontMatter"; end of input prints "<!-- End of Input -->"; a known tag is printed with its label; any other tag panics |
| Classifier.DescribeChildren | examples/check-file/main.rs:265-277 | the output describes the children in order; it panics exactly when some child cannot be described, and then stops at the first such child; otherwise it has one entry per child |

## Left out

- The grammar and parser (`src/lib.rs` derives them from `grammars/liquid.pest`, which is not part of this model). `LiquidParser::parse` is a parameter. The model assumes only that a failure is reported on a line of the parsed text. The rule catalog, break/continue legality and span coverage are not modelled.
- The first error's line must lie within the file (`requires` on `Locate`, `LocateSaturating` and `FormatError`). In the source the error comes from parsing the whole file, so pest's guarantee above provides it; the source itself does not check it.
- Parse trees: a successful parse carries no tree. The children of the document are passed to `DescribeChildren` directly. `pairs.next().unwrap()` cannot fail after a successful `document` parse and is not modelled.
- Rule tags other than the sixteen known ones, `front_matter` and `EOI` are collapsed into `Other(name)`.
- Command-line parsing, shell-completion output, `process::exit`, reading the file, and `println!`/`eprintln!` are not modelled. The printed strings are modelled as values.
- Terminal colours (`cyan`, `red().bold()`) are not modelled. The report is uncoloured, and the source also measures the caret offset on uncoloured text.
- Panic messages are reduced to the `Panic` constructors and their numbers.
- Columns are taken as pest reports them. Whether pest counts characters or bytes is not modelled: strings are sequences of characters.
- Localizer.Locate: it does not say how the report's column relates to the offending line's length. The source does not check this either; a column past the end of the line only moves the caret further right.

## Findings

| source | as written | input that shows it | evidently intended | confidence | as-written member | corrected member |
|---|---|---|---|---|---|---|
| examples/check-file/main.rs:200 | `cmp::max(0, last_bad_line - 3)` subtracts on `usize` before taking the maximum. A debug build panics with an overflow, and a release build panics when slicing from the wrapped value | the file "ok\nbad" with the first failure on line 2, where "ok" alone parses, so `last_bad_line` is 1 (Localizer.UnderflowExample) | the window saturates at line 0 and shows the 0-2 lines above the offending line | high; not executed | Localizer.Locate | Localizer.LocateSaturating |
