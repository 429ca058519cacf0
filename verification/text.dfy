/**
 Lines of a text as the localizer sees them: the segments produced by
 splitting on "\n" (every segment, including a trailing empty one), the
 inverse operation that rejoins segments with "\n", and the truncation of a
 text to its first k segments.
 */
module Text {

  /** The segments of `s` separated by '\n', as Rust's `str::split("\n")`
      yields them: there is always at least one segment (the empty text has
      one empty segment), a trailing newline leaves an empty last segment,
      and no segment holds a newline. */
  function Split(s: string): (r: seq<string>)
    ensures |r| >= 1
    ensures NewlineFree(r)
  {
    SplitFrom(s, 0)
  }

  /** The segments of `s[i..]`, scanning one character at a time. */
  function SplitFrom(s: string, i: nat): (r: seq<string>)
    requires i <= |s|
    ensures |r| >= 1
    ensures NewlineFree(r)
    decreases |s| - i
  {
    if i == |s| then [""]
    else
      var rest := SplitFrom(s, i + 1);
      if s[i] == '\n' then [""] + rest
      else
        var r := [[s[i]] + rest[0]] + rest[1..];
        assert forall k :: 1 <= k < |r| ==> r[k] == rest[k];
        r
  }

  /** Segments glued back together with "\n" between neighbours. */
  function Join(segments: seq<string>): string
  {
    if |segments| == 0 then ""
    else if |segments| == 1 then segments[0]
    else segments[0] + "\n" + Join(segments[1..])
  }

  /** No segment holds a newline: what `Split` produces. */
  predicate NewlineFree(segments: seq<string>)
  {
    forall i :: 0 <= i < |segments| ==> '\n' !in segments[i]
  }

  /** The first `k` lines rejoined: the text the localizer re-parses. */
  function Truncate(lines: seq<string>, k: nat): string
    requires k <= |lines|
  {
    Join(lines[..k])
  }

  /** A truncation to `k >= 1` newline-free lines has exactly those lines. */
  lemma TruncateLines(lines: seq<string>, k: nat)
    requires NewlineFree(lines)
    requires 1 <= k <= |lines|
    ensures Split(Truncate(lines, k)) == lines[..k]
  {
    SplitJoin(lines[..k]);
  }

  /** Truncating the lines of a text gives a prefix of that text. */
  lemma TruncatePrefix(s: string, k: nat)
    requires k <= |Split(s)|
    ensures Truncate(Split(s), k) <= s
  {
    var segments := Split(s);
    JoinSplit(s);
    if 1 <= k < |segments| {
      JoinAppend(segments[..k], segments[k..]);
      assert segments[..k] + segments[k..] == segments;
    } else if k == |segments| {
      assert segments[..k] == segments;
    }
  }

  /** Splitting and rejoining gives the text back. */
  lemma JoinSplit(s: string)
    ensures Join(Split(s)) == s
  {
    JoinSplitFrom(s, 0);
  }

  lemma {:induction false} JoinSplitFrom(s: string, i: nat)
    requires i <= |s|
    ensures Join(SplitFrom(s, i)) == s[i..]
    decreases |s| - i
  {
    if i < |s| {
      var rest := SplitFrom(s, i + 1);
      JoinSplitFrom(s, i + 1);
      if s[i] == '\n' {
        assert ([""] + rest)[1..] == rest;
      } else {
        JoinExtendFirst([s[i]], rest);
      }
      assert s[i..] == [s[i]] + s[i + 1..];
    }
  }

  /** Extending the first segment extends the joined text at its front. */
  lemma {:induction false} JoinExtendFirst(c: string, segments: seq<string>)
    requires |segments| >= 1
    ensures Join([c + segments[0]] + segments[1..]) == c + Join(segments)
  {
    var extended := [c + segments[0]] + segments[1..];
    if |segments| > 1 {
      assert extended[1..] == segments[1..];
      var tail := Join(segments[1..]);
      assert (c + segments[0]) + "\n" + tail == c + (segments[0] + "\n" + tail);
    }
  }

  /** A text without a newline is a single segment. */
  lemma SplitSingle(s: string)
    requires '\n' !in s
    ensures Split(s) == [s]
  {
    SplitFromSingle(s, 0);
  }

  lemma {:induction false} SplitFromSingle(s: string, i: nat)
    requires i <= |s|
    requires '\n' !in s[i..]
    ensures SplitFrom(s, i) == [s[i..]]
    decreases |s| - i
  {
    if i < |s| {
      assert s[i..] == [s[i]] + s[i + 1..];
      assert s[i] == s[i..][0] && '\n' !in s[i + 1..];
      SplitFromSingle(s, i + 1);
      var rest := SplitFrom(s, i + 1);
      assert rest[1..] == [];
      assert SplitFrom(s, i) == [[s[i]] + rest[0]] + rest[1..];
    } else {
      assert s[i..] == "";
    }
  }

  /** A newline between two texts separates their segment lists. */
  lemma SplitAroundNewline(a: string, b: string)
    ensures Split(a + "\n" + b) == Split(a) + Split(b)
  {
    SplitFromAroundNewline(a, b, 0);
  }

  /** Scanning `a + "\n" + b` from inside `a` yields the rest of `a`'s
      segments, then all of `b`'s. */
  lemma {:induction false} SplitFromAroundNewline(a: string, b: string, i: nat)
    requires i <= |a|
    ensures SplitFrom(a + "\n" + b, i) == SplitFrom(a, i) + SplitFrom(b, 0)
    decreases |a| - i
  {
    if i == |a| {
      SplitFromAtNewline(a, b);
    } else {
      SplitFromAroundNewline(a, b, i + 1);
      SplitFromStep(a, b, i);
    }
  }

  /** The base case: scanning from the separating newline. */
  lemma SplitFromAtNewline(a: string, b: string)
    ensures SplitFrom(a + "\n" + b, |a|) == [""] + SplitFrom(b, 0)
  {
    var t := a + "\n" + b;
    assert t[|a|] == '\n';
    SplitFromShift(a + "\n", b, 0);
  }

  /** The inductive step: one more character of `a` in front. */
  lemma SplitFromStep(a: string, b: string, i: nat)
    requires i < |a|
    requires SplitFrom(a + "\n" + b, i + 1) == SplitFrom(a, i + 1) + SplitFrom(b, 0)
    ensures SplitFrom(a + "\n" + b, i) == SplitFrom(a, i) + SplitFrom(b, 0)
  {
    var t := a + "\n" + b;
    assert t[i] == a[i];
    var front, back := SplitFrom(a, i + 1), SplitFrom(b, 0);
    if a[i] != '\n' {
      assert (front + back)[1..] == front[1..] + back;
    }
  }

  /** Scanning past a prefix `x` is scanning `y` alone. */
  lemma {:induction false} SplitFromShift(x: string, y: string, j: nat)
    requires j <= |y|
    ensures SplitFrom(x + y, |x| + j) == SplitFrom(y, j)
    decreases |y| - j
  {
    if j < |y| {
      assert (x + y)[|x| + j] == y[j];
      SplitFromShift(x, y, j + 1);
    }
  }

  /** Rejoining segments that hold no newline and splitting again gives them back. */
  lemma {:induction false} SplitJoin(segments: seq<string>)
    requires |segments| >= 1
    requires NewlineFree(segments)
    ensures Split(Join(segments)) == segments
  {
    SplitSingle(segments[0]);
    if |segments| > 1 {
      SplitJoin(segments[1..]);
      SplitAroundNewline(segments[0], Join(segments[1..]));
      assert [segments[0]] + segments[1..] == segments;
    }
  }

  /** Joining a concatenation puts one newline between the two joined halves. */
  lemma {:induction false} JoinAppend(xs: seq<string>, ys: seq<string>)
    requires |xs| >= 1 && |ys| >= 1
    ensures Join(xs + ys) == Join(xs) + "\n" + Join(ys)
  {
    if |xs| > 1 {
      JoinAppend(xs[1..], ys);
      assert (xs + ys)[1..] == xs[1..] + ys;
    } else {
      assert (xs + ys)[1..] == ys;
    }
  }
}
