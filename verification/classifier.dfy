/**
 Debug output of the `check-file` example for a document that parses: each
 top-level child of the document is printed wrapped in start/end comment
 markers that name what kind of node it is.
 */
module Classifier {
  import opened Text

  /** The rule tags of the grammar that can appear as children of a
      document. The first sixteen are the ones the classifier knows; pest's
      `front_matter` and `EOI` are handled before it; every other tag of the
      grammar is `Other`. */
  datatype Rule =
      // Agnostic to iteration
    | ContentBlock
    | ForBlock
    | CommentBlock
    | RawBlock
      // Outside iteration
    | IfOutsideIteration
    | CaseOutsideIteration
    | TablerowOutsideIteration
    | LiquidTagOutsideIteration
    | CaptureOutsideIteration
      // Within iteration
    | ContinueTag
    | BreakTag
    | IfWithinIteration
    | CaseWithinIteration
    | TablerowWithinIteration
    | LiquidTagWithinIteration
    | CaptureWithinIteration
      // Handled by the dispatch, unknown to the classifier
    | FrontMatter
    | EOI
    | Other(name: string)

  /** A parse-tree node as `check-file` uses it: its rule and matched text. */
  datatype Node = Node(rule: Rule, text: string)

  datatype Option<T> = None | Some(value: T)

  /** The sixteen tags the classifier has a label for: every tag but front
      matter, end of input and the grammar's other rules. */
  predicate Known(rule: Rule)
  {
    !(rule.FrontMatter? || rule.EOI? || rule.Other?)
  }

  /** The label of a known tag; `None` is the classifier's panic on any
      other tag. No two known tags share a label: reading the label back
      gives the tag. */
  function Label(rule: Rule): (r: Option<string>)
    ensures r.Some? <==> Known(rule)
    ensures r.Some? ==> RuleOfLabel(r.value) == Some(rule)
  {
    if Known(rule) then Some(Caption(rule)) else None
  }

  /** The text of each known tag's label. */
  function Caption(rule: Rule): string
    requires Known(rule)
  {
    match rule
    case ContentBlock => "Content"
    case ForBlock => "`for` block"
    case CommentBlock => "`comment` block"
    case RawBlock => "`raw` block"
    case IfOutsideIteration => "`if` block outside iteration"
    case CaseOutsideIteration => "`case` block outside iteration"
    case TablerowOutsideIteration => "`tablerow` block outside iteration"
    case LiquidTagOutsideIteration => "`liquid` tag outside iteration"
    case CaptureOutsideIteration => "`capture` block outside iteration"
    case ContinueTag => "`continue` tag within iteration"
    case BreakTag => "`break` tag within iteration"
    case IfWithinIteration => "`if` block within iteration"
    case CaseWithinIteration => "`case` block within iteration"
    case TablerowWithinIteration => "`tablerow` block within iteration"
    case LiquidTagWithinIteration => "`liquid` tag within iteration"
    case CaptureWithinIteration => "`capture` block within iteration"
  }

  /** The label table read backwards: label text to known tag. */
  const RulesByLabel: map<string, Rule> := map[
      "Content" := ContentBlock,
      "`for` block" := ForBlock,
      "`comment` block" := CommentBlock,
      "`raw` block" := RawBlock,
      "`if` block outside iteration" := IfOutsideIteration,
      "`case` block outside iteration" := CaseOutsideIteration,
      "`tablerow` block outside iteration" := TablerowOutsideIteration,
      "`liquid` tag outside iteration" := LiquidTagOutsideIteration,
      "`capture` block outside iteration" := CaptureOutsideIteration,
      "`continue` tag within iteration" := ContinueTag,
      "`break` tag within iteration" := BreakTag,
      "`if` block within iteration" := IfWithinIteration,
      "`case` block within iteration" := CaseWithinIteration,
      "`tablerow` block within iteration" := TablerowWithinIteration,
      "`liquid` tag within iteration" := LiquidTagWithinIteration,
      "`capture` block within iteration" := CaptureWithinIteration]

  /** The known tag a label belongs to, if any. Every label it accepts is the
      label of the tag it returns. */
  function RuleOfLabel(caption: string): (r: Option<Rule>)
    ensures r.Some? ==> Known(r.value) && Caption(r.value) == caption
  {
    if caption in RulesByLabel then Some(RulesByLabel[caption]) else None
  }

  /** `check_content_or_code`: hands a known node and its label to the
      callback; a node of any other tag is a panic (`None`), never a
      default label. */
  function CheckContentOrCode(node: Node, callback: (Node, string) -> string): (r: Option<string>)
    ensures r.Some? <==> Known(node.rule)
    ensures r.Some? ==> exists caption :: Label(node.rule) == Some(caption) && r.value == callback(node, caption)
  {
    match Label(node.rule)
    case Some(caption) => Some(callback(node, caption))
    case None => None
  }

  function StartMarker(caption: string): string
  {
    "<!-- Start " + caption + " -->"
  }

  function EndMarker(caption: string): string
  {
    "<!-- End " + caption + " -->"
  }

  /** `format_debug_pair`: the node's text, verbatim, on lines of its own
      between a start and an end marker naming the label. */
  function FormatDebugPair(node: Node, caption: string): (r: string)
    ensures |r| == |StartMarker(caption)| + 1 + |node.text| + 1 + |EndMarker(caption)|
    ensures r[..|StartMarker(caption)|] == StartMarker(caption)
    ensures r[|StartMarker(caption)|] == '\n' && r[|r| - |EndMarker(caption)| - 1] == '\n'
    ensures r[|r| - |EndMarker(caption)|..] == EndMarker(caption)
    ensures r[|StartMarker(caption)| + 1..|r| - |EndMarker(caption)| - 1] == node.text
  {
    var r := StartMarker(caption) + "\n" + node.text + "\n" + EndMarker(caption);
    DebugPairShape(StartMarker(caption), node.text, EndMarker(caption));
    r
  }

  /** For a single-line label the printed block's lines are the start
      marker, the node text's own lines, and the end marker. */
  lemma DebugPairLines(node: Node, caption: string)
    requires '\n' !in caption
    ensures Split(FormatDebugPair(node, caption))
      == [StartMarker(caption)] + Split(node.text) + [EndMarker(caption)]
  {
    MarkersSingleLine(caption);
    DebugPairShape(StartMarker(caption), node.text, EndMarker(caption));
  }

  /** The markers are recoverable from the wrapped text, and so are the
      lines of the text when neither marker holds a newline. */
  lemma DebugPairShape(start: string, text: string, end: string)
    ensures var r := start + "\n" + text + "\n" + end;
      && r[..|start|] == start
      && r[|r| - |end|..] == end
      && r[|start| + 1..|r| - |end| - 1] == text
      && ('\n' !in start && '\n' !in end ==> Split(r) == [start] + Split(text) + [end])
  {
    var inner := text + "\n" + end;
    var r := start + "\n" + inner;
    assert r == start + "\n" + text + "\n" + end;
    assert r[..|start|] == start;
    assert r[|start| + 1..] == inner;
    assert inner[..|text|] == text;
    assert r[|r| - |end|..] == inner[|inner| - |end|..] == end;
    assert r[|start| + 1..|r| - |end| - 1] == inner[..|text|];
    if '\n' !in start && '\n' !in end {
      SplitAroundNewline(start, inner);
      SplitAroundNewline(text, end);
      SplitSingle(start);
      SplitSingle(end);
    }
  }

  /** A marker holds a newline only if its label does. */
  lemma MarkersSingleLine(caption: string)
    requires '\n' !in caption
    ensures '\n' !in StartMarker(caption) && '\n' !in EndMarker(caption)
  {
    var start := StartMarker(caption);
    var end := EndMarker(caption);
    assert forall i :: 0 <= i < |start| ==> start[i] != '\n' by {
      forall i | 0 <= i < |start| ensures start[i] != '\n' {
        if 11 <= i < 11 + |caption| {
          assert start[i] == caption[i - 11];
        }
      }
    }
    assert forall i :: 0 <= i < |end| ==> end[i] != '\n' by {
      forall i | 0 <= i < |end| ensures end[i] != '\n' {
        if 9 <= i < 9 + |caption| {
          assert end[i] == caption[i - 9];
        }
      }
    }
  }

  const EndOfInput: string := "<!-- End of Input -->"

  /** What `main` prints for one child of the parsed document (lines
      265-277): front matter under the label "FrontMatter", the end of input
      as a fixed marker, everything else through the classifier. `None` is
      the classifier's panic. */
  function DescribeChild(node: Node): (r: Option<string>)
    ensures r.Some? <==> Known(node.rule) || node.rule == FrontMatter || node.rule == EOI
    ensures node.rule == FrontMatter ==> r == Some(FormatDebugPair(node, "FrontMatter"))
    ensures node.rule == EOI ==> r == Some(EndOfInput)
    ensures Known(node.rule) ==> r == Some(FormatDebugPair(node, Label(node.rule).value))
  {
    match node.rule
    case FrontMatter => Some(FormatDebugPair(node, "FrontMatter"))
    case EOI => Some(EndOfInput)
    case _ => CheckContentOrCode(node, FormatDebugPair)
  }

  /** What `main` has printed after walking the document's children: one
      entry per child, until a child the classifier does not know panics. */
  datatype Printout = Printout(lines: seq<string>, panicked: bool)

  predicate Describable(node: Node)
  {
    Known(node.rule) || node.rule == FrontMatter || node.rule == EOI
  }

  /** The loop over the document's children. The output describes the
      children in order; it stops, with a panic, exactly at the first child
      that cannot be described, and otherwise covers all of them. */
  function DescribeChildren(children: seq<Node>): (p: Printout)
    ensures |p.lines| <= |children|
    ensures forall i :: 0 <= i < |p.lines| ==> DescribeChild(children[i]) == Some(p.lines[i])
    ensures p.panicked <==> exists i :: 0 <= i < |children| && !Describable(children[i])
    ensures p.panicked ==> |p.lines| < |children|
    ensures p.panicked ==> !Describable(children[|p.lines|])
    ensures !p.panicked ==> |p.lines| == |children|
  {
    if |children| == 0 then Printout([], false)
    else if !Describable(children[0]) then Printout([], true)
    else
      var rest := DescribeChildren(children[1..]);
      var p := Printout([DescribeChild(children[0]).value] + rest.lines, rest.panicked);
      DescribeChildrenStep(children, rest, p);
      p
  }

  lemma DescribeChildrenStep(children: seq<Node>, rest: Printout, p: Printout)
    requires |children| > 0 && Describable(children[0])
    requires |rest.lines| <= |children| - 1
    requires forall i :: 0 <= i < |rest.lines| ==> DescribeChild(children[1..][i]) == Some(rest.lines[i])
    requires rest.panicked <==> exists i :: 0 <= i < |children| - 1 && !Describable(children[1..][i])
    requires rest.panicked ==> |rest.lines| < |children| - 1 && !Describable(children[1..][|rest.lines|])
    requires !rest.panicked ==> |rest.lines| == |children| - 1
    requires p == Printout([DescribeChild(children[0]).value] + rest.lines, rest.panicked)
    ensures forall i :: 0 <= i < |p.lines| ==> DescribeChild(children[i]) == Some(p.lines[i])
    ensures p.panicked <==> exists i :: 0 <= i < |children| && !Describable(children[i])
    ensures p.panicked ==> |p.lines| < |children| && !Describable(children[|p.lines|])
  {
    forall i | 0 <= i < |p.lines|
      ensures DescribeChild(children[i]) == Some(p.lines[i])
    {
      if i > 0 {
        assert children[i] == children[1..][i - 1];
        assert p.lines[i] == rest.lines[i - 1];
      }
    }
    if rest.panicked {
      var j :| 0 <= j < |children| - 1 && !Describable(children[1..][j]);
      assert children[j + 1] == children[1..][j];
      assert children[|p.lines|] == children[1..][|rest.lines|];
    } else {
      forall i | 1 <= i < |children|
        ensures Describable(children[i])
      {
        assert children[i] == children[1..][i - 1];
      }
    }
  }
}
