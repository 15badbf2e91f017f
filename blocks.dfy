/**
 * The line-anchored stages of markdown2html: the two heading stages (markdown.py:50, 53)
 * and the two list-block stages (markdown.py:56, 59). Each is proved equal to a
 * reference definition that walks the text line by line instead of character by character.
 */
module Blocks {
  import opened Text
  import opened Patterns
  import opened Substitution

  /** Rules whose pattern starts with `^` under re.M and whose first character is not '\n'. */
  predicate Anchored(r: Rule) {
    r.Heading? || (r.ListBlock? && r.marker != '\n')
  }

  /** An anchored rule never matches inside a line, nor at a newline. */
  lemma AnchoredNoMatch(r: Rule, s: string, j: nat)
    requires Anchored(r) && j < |s|
    requires !AtLineStart(s, j) || s[j] == '\n'
    ensures MatchAt(r, s, j).None?
  {
  }

  /** If an anchored rule does not match at the start of a line, it matches nowhere in that line. */
  lemma AnchoredLineNoMatch(r: Rule, s: string, i: nat)
    requires Anchored(r) && i < |s|
    requires MatchAt(r, s, i).None?
    ensures forall j: nat | i <= j < LineEnd(s, i) :: MatchAt(r, s, j).None?
  {
    var k := LineEnd(s, i);
    forall j: nat | i < j < k ensures MatchAt(r, s, j).None? {
      assert s[j - 1] != '\n';
      AnchoredNoMatch(r, s, j);
    }
  }

  /** Where an anchored rule does not match at the start of a line, the line is copied as it is. */
  lemma AnchoredCopiesLine(r: Rule, s: string, i: nat)
    requires Anchored(r) && i < |s|
    requires MatchAt(r, s, i).None?
    ensures SubAll(r, s, i) == s[i..LineEnd(s, i)] + SubAll(r, s, LineEnd(s, i))
  {
    AnchoredLineNoMatch(r, s, i);
    SubAllCopies(r, s, i, LineEnd(s, i));
  }

  // ---------------------------------------------------------------- headings

  /** `#{n} ` and a non-empty text: the line's heading text is line[n+1..]. */
  predicate HeadingLine(line: string, n: nat) {
    n + 1 < |line| && (forall j :: 0 <= j < n ==> line[j] == '#') && line[n] == ' '
  }

  /**
   * Reference definition of a heading stage, from the line starting at i on: a heading
   * line followed by a non-empty line L becomes <tag>text</tag>, a newline and L, and L
   * goes with it; a heading line that is last or followed by an empty line, and every
   * other line, is copied.
   */
  function HeadingLines(s: string, i: nat, n: nat, tag: string): string
    requires i <= |s|
    decreases |s| - i, 1
  {
    if i == |s| then []
    else
      var k := LineEnd(s, i);
      if k < |s| && HeadingLine(s[i..k], n) && k + 1 < LineEnd(s, k + 1) then
        var m := LineEnd(s, k + 1);
        Tagged(tag, s[i + n + 1..k]) + "\n" + s[k + 1..m] + AfterLine(s, m, n, tag)
      else
        s[i..k] + AfterLine(s, k, n, tag)
  }

  /** What follows the end k of a line: nothing at the end of the text, else the newline and the next lines. */
  function AfterLine(s: string, k: nat, n: nat, tag: string): string
    requires k <= |s|
    decreases |s| - k, 0
  {
    if k < |s| then "\n" + HeadingLines(s, k + 1, n, tag) else []
  }

  /** The line at i is a heading line followed by a non-empty line. */
  predicate HeadingPair(s: string, i: nat, n: nat)
    requires i <= |s|
  {
    var k := LineEnd(s, i);
    k < |s| && HeadingLine(s[i..k], n) && k + 1 < LineEnd(s, k + 1)
  }

  lemma HeadingPairMatches(s: string, i: nat, n: nat, tag: string)
    requires i < |s| && AtLineStart(s, i) && HeadingPair(s, i, n)
    ensures var k := LineEnd(s, i); var m := LineEnd(s, k + 1);
      MatchAt(Heading(n, tag), s, i) == Some(Match(m, Tagged(tag, s[i + n + 1..k]) + "\n" + s[k + 1..m]))
  {
    var k := LineEnd(s, i);
    var m := LineEnd(s, k + 1);
    assert forall j :: i <= j < i + n ==> s[j] == s[i..k][j - i];
    assert HeadingAt(s, i, n, k, m);
  }

  /** Whatever the heading pattern matches is a heading line followed by a non-empty line. */
  lemma HeadingAtPair(s: string, i: nat, n: nat, k: nat, m: nat)
    requires HeadingAt(s, i, n, k, m)
    ensures HeadingPair(s, i, n)
  {
    LineEndUnique(s, i, k);
    LineEndUnique(s, k + 1, m);
    assert forall j :: 0 <= j < n ==> s[i..k][j] == s[i + j];
  }

  lemma HeadingMatchPair(s: string, i: nat, n: nat, tag: string)
    requires i < |s|
    ensures MatchAt(Heading(n, tag), s, i).Some? ==> HeadingPair(s, i, n)
  {
    if MatchAt(Heading(n, tag), s, i).Some? {
      var k: nat, m: nat :| HeadingAt(s, i, n, k, m);
      HeadingAtPair(s, i, n, k, m);
    }
  }

  lemma NoHeadingPairNoMatch(s: string, i: nat, n: nat, tag: string)
    requires i < |s| && !HeadingPair(s, i, n)
    ensures MatchAt(Heading(n, tag), s, i).None?
  {
    HeadingMatchPair(s, i, n, tag);
  }

  lemma HeadingLinesPair(s: string, i: nat, n: nat, tag: string)
    requires i < |s| && HeadingPair(s, i, n)
    ensures var k := LineEnd(s, i); var m := LineEnd(s, k + 1);
      HeadingLines(s, i, n, tag) == Tagged(tag, s[i + n + 1..k]) + "\n" + s[k + 1..m] + AfterLine(s, m, n, tag)
  {
  }

  lemma HeadingLinesOther(s: string, i: nat, n: nat, tag: string)
    requires i < |s| && !HeadingPair(s, i, n)
    ensures HeadingLines(s, i, n, tag) == s[i..LineEnd(s, i)] + AfterLine(s, LineEnd(s, i), n, tag)
  {
  }

  /** A heading stage rewrites the text exactly as the line-by-line reference does. */
  lemma {:induction false} HeadingStage(s: string, i: nat, n: nat, tag: string)
    requires i <= |s| && AtLineStart(s, i)
    ensures SubAll(Heading(n, tag), s, i) == HeadingLines(s, i, n, tag)
    decreases |s| - i, 2
  {
    if i < |s| {
      if HeadingPair(s, i, n) {
        HeadingStagePair(s, i, n, tag);
      } else {
        HeadingStageOther(s, i, n, tag);
      }
    }
  }

  lemma {:induction false} HeadingStagePair(s: string, i: nat, n: nat, tag: string)
    requires i < |s| && AtLineStart(s, i) && HeadingPair(s, i, n)
    ensures SubAll(Heading(n, tag), s, i) == HeadingLines(s, i, n, tag)
    decreases |s| - i, 1
  {
    var m := LineEnd(s, LineEnd(s, i) + 1);
    HeadingPairMatches(s, i, n, tag);
    SubAllAtMatch(Heading(n, tag), s, i);
    HeadingLineEnd(s, m, n, tag);
    HeadingLinesPair(s, i, n, tag);
  }

  lemma {:induction false} HeadingStageOther(s: string, i: nat, n: nat, tag: string)
    requires i < |s| && AtLineStart(s, i) && !HeadingPair(s, i, n)
    ensures SubAll(Heading(n, tag), s, i) == HeadingLines(s, i, n, tag)
    decreases |s| - i, 1
  {
    NoHeadingPairNoMatch(s, i, n, tag);
    AnchoredCopiesLine(Heading(n, tag), s, i);
    HeadingLineEnd(s, LineEnd(s, i), n, tag);
    HeadingLinesOther(s, i, n, tag);
  }

  /** From the end of a line on, the stage and the reference agree as well. */
  lemma {:induction false} HeadingLineEnd(s: string, k: nat, n: nat, tag: string)
    requires k <= |s| && (k == |s| || s[k] == '\n')
    ensures SubAll(Heading(n, tag), s, k) == AfterLine(s, k, n, tag)
    decreases |s| - k, 0
  {
    if k < |s| {
      AnchoredNoMatch(Heading(n, tag), s, k);
      SubAllAtNoMatch(Heading(n, tag), s, k);
      HeadingStage(s, k + 1, n, tag);
    }
  }

  lemma HeadingNoMatchBefore(s: string, i: nat, n: nat, tag: string)
    requires i <= |s|
    requires forall p: nat :: p < i && AtLineStart(s, p) ==> !HeadingPair(s, p, n)
    ensures forall p: nat :: p < i ==> MatchAt(Heading(n, tag), s, p).None?
  {
    forall p: nat | p < i ensures MatchAt(Heading(n, tag), s, p).None? {
      if AtLineStart(s, p) {
        NoHeadingPairNoMatch(s, p, n, tag);
      } else {
        AnchoredNoMatch(Heading(n, tag), s, p);
      }
    }
  }

  /**
   * The first heading line (at a line start) followed by a non-empty line L becomes
   * <tag>text</tag>, a newline and L; everything before it is copied, and the scan goes
   * on after L, so this stage never reads L as a heading itself.
   */
  lemma HeadingStageFirst(s: string, i: nat, n: nat, tag: string)
    requires i < |s| && AtLineStart(s, i) && HeadingPair(s, i, n)
    requires forall p: nat :: p < i && AtLineStart(s, p) ==> !HeadingPair(s, p, n)
    ensures var k := LineEnd(s, i); var m := LineEnd(s, k + 1);
      Sub(Heading(n, tag), s)
      == s[..i] + (Tagged(tag, s[i + n + 1..k]) + "\n" + s[k + 1..m]) + SubAll(Heading(n, tag), s, m)
  {
    var k := LineEnd(s, i);
    var m := LineEnd(s, k + 1);
    HeadingPairMatches(s, i, n, tag);
    HeadingNoMatchBefore(s, i, n, tag);
    SubFirstMatch(Heading(n, tag), s, i, m, Tagged(tag, s[i + n + 1..k]) + "\n" + s[k + 1..m]);
  }

  /** A line of the text, with the newline that ends it, is followed by the rest of the text. */
  lemma LineThenRest(s: string, i: nat, k: nat, rest: string)
    requires i <= k < |s| && s[k] == '\n' && rest == s[k + 1..]
    ensures s[i..] == s[i..k] + ("\n" + rest)
  {
  }

  lemma LastLine(s: string, i: nat, after: string)
    requires i <= |s| && after == []
    ensures s[i..] == s[i..|s|] + after
  {
  }

  /** No line from i on is a heading line followed by a non-empty line. */
  predicate NoHeadingPairs(s: string, i: nat, n: nat)
    requires i <= |s|
  {
    forall p: nat :: i <= p < |s| && AtLineStart(s, p) ==> !HeadingPair(s, p, n)
  }

  lemma {:induction false} HeadingLinesCopy(s: string, i: nat, n: nat, tag: string)
    requires i <= |s| && (i == |s| || AtLineStart(s, i)) && NoHeadingPairs(s, i, n)
    ensures HeadingLines(s, i, n, tag) == s[i..]
    decreases |s| - i
  {
    if i < |s| {
      var k := LineEnd(s, i);
      HeadingLinesOther(s, i, n, tag);
      if k < |s| {
        HeadingLinesCopy(s, k + 1, n, tag);
        LineThenRest(s, i, k, HeadingLines(s, k + 1, n, tag));
      } else {
        LastLine(s, i, AfterLine(s, k, n, tag));
      }
    }
  }

  /** Text in which no heading line is followed by a non-empty line passes through a heading stage unchanged. */
  lemma HeadingStageUnchanged(s: string, n: nat, tag: string)
    requires NoHeadingPairs(s, 0, n)
    ensures Sub(Heading(n, tag), s) == s
  {
    HeadingStage(s, 0, n, tag);
    HeadingLinesCopy(s, 0, n, tag);
  }

  /** `#{n+1}` and more is not a heading line of level n: `##` lines are left to the h5 stage, `###` lines to none. */
  lemma DeeperNotHeading(line: string, n: nat)
    requires n < |line| && forall j :: 0 <= j <= n ==> line[j] == '#'
    ensures !HeadingLine(line, n)
  {
  }

  // ---------------------------------------------------------------- list blocks

  /** What the reference emits before a list line: the opening tag, unless a block is open. */
  function Opener(tag: string, open: bool): string {
    if open then "" else OpenTag(tag)
  }

  function Close(tag: string, open: bool): string {
    if open then CloseTag(tag) else ""
  }

  /**
   * Reference definition of a list-block stage, from the line starting at i on; `open`
   * says whether the line before was a list line. The block opens before the first list
   * line of a run and closes before the first line that is not one, or at the end.
   */
  function ListLines(s: string, i: nat, marker: char, tag: string, open: bool): string
    requires i <= |s|
    decreases |s| - i, 1
  {
    if i == |s| then Close(tag, open)
    else
      var k := LineEnd(s, i);
      if ItemLine(s, i, marker) then Opener(tag, open) + s[i..k] + ListAfter(s, k, marker, tag, true)
      else Close(tag, open) + s[i..k] + ListAfter(s, k, marker, tag, false)
  }

  /** What follows the end k of a line: the newline and the next lines, or the closing tag a block still needs. */
  function ListAfter(s: string, k: nat, marker: char, tag: string, open: bool): string
    requires k <= |s|
    decreases |s| - k, 0
  {
    if k < |s| then "\n" + ListLines(s, k + 1, marker, tag, open) else Close(tag, open)
  }

  lemma ListLinesItem(s: string, p: nat, marker: char, tag: string, open: bool)
    requires p < |s| && ItemLine(s, p, marker)
    ensures ListLines(s, p, marker, tag, open)
         == Opener(tag, open) + s[p..LineEnd(s, p)] + ListAfter(s, LineEnd(s, p), marker, tag, true)
  {
  }

  lemma ListLinesOther(s: string, p: nat, marker: char, tag: string, open: bool)
    requires p < |s| && !ItemLine(s, p, marker)
    ensures ListLines(s, p, marker, tag, open)
         == Close(tag, open) + s[p..LineEnd(s, p)] + ListAfter(s, LineEnd(s, p), marker, tag, false)
  {
  }

  lemma EmptyFront(x: string, e: string, y: string)
    requires e == []
    ensures e + x + y == x + y
  {
  }

  lemma ListLinesOtherClosed(s: string, p: nat, marker: char, tag: string)
    requires p < |s| && !ItemLine(s, p, marker)
    ensures ListLines(s, p, marker, tag, false) == s[p..LineEnd(s, p)] + ListAfter(s, LineEnd(s, p), marker, tag, false)
  {
    ListLinesOther(s, p, marker, tag, false);
    EmptyFront(s[p..LineEnd(s, p)], Close(tag, false), ListAfter(s, LineEnd(s, p), marker, tag, false));
  }

  lemma ListAfterNext(s: string, k: nat, marker: char, tag: string, open: bool)
    requires k < |s|
    ensures ListAfter(s, k, marker, tag, open) == "\n" + ListLines(s, k + 1, marker, tag, open)
  {
  }

  /** After a run, the open block closes before anything else. */
  lemma CloseAfterRun(s: string, e: nat, marker: char, tag: string)
    requires e <= |s|
    requires e == |s| || !ItemLine(s, e, marker)
    ensures ListLines(s, e, marker, tag, true) == CloseTag(tag) + ListLines(s, e, marker, tag, false)
  {
    if e < |s| {
      ListLinesOther(s, e, marker, tag, true);
      ListLinesOther(s, e, marker, tag, false);
    }
  }

  /** The first line of a run ends before the run does, unless it is the last line of the text. */
  lemma RunFirstLine(s: string, p: nat, e: nat, marker: char)
    requires ListRun(s, p, e, marker) && AtLineStart(s, p)
    ensures ItemLine(s, p, marker)
    ensures var k := LineEnd(s, p); (k == |s| && e == |s|) || (k < |s| && k + 1 <= e)
    ensures var k := LineEnd(s, p); k < |s| && k + 1 < e ==> ListRun(s, k + 1, e, marker)
  {
  }

  lemma SplitAtNewline(s: string, p: nat, k: nat, e: nat)
    requires p <= k < e <= |s| && s[k] == '\n'
    ensures s[p..e] == s[p..k] + "\n" + s[k + 1..e]
  {
  }

  lemma Glue(l: string, opener: string, a: string, after: string, b: string, closer: string, m: string, x: string, whole: string)
    requires l == opener + a + after
    requires after == "\n" + m
    requires m == [] + b + closer + x
    requires whole == a + "\n" + b
    ensures l == opener + whole + closer + x
  {
  }

  lemma RunLinesLastLine(s: string, p: nat, e: nat, marker: char, tag: string, open: bool)
    requires ListRun(s, p, e, marker) && AtLineStart(s, p)
    requires LineEnd(s, p) == |s|
    ensures ListLines(s, p, marker, tag, open)
         == Opener(tag, open) + s[p..e] + CloseTag(tag) + ListLines(s, e, marker, tag, false)
  {
    RunFirstLine(s, p, e, marker);
    ListLinesItem(s, p, marker, tag, open);
  }

  lemma RunLinesNext(s: string, p: nat, e: nat, marker: char, tag: string, open: bool)
    requires p < |s| && ItemLine(s, p, marker)
    requires LineEnd(s, p) < e <= |s|
    requires ListLines(s, LineEnd(s, p) + 1, marker, tag, true)
          == Opener(tag, true) + s[LineEnd(s, p) + 1..e] + CloseTag(tag) + ListLines(s, e, marker, tag, false)
    ensures ListLines(s, p, marker, tag, open)
         == Opener(tag, open) + s[p..e] + CloseTag(tag) + ListLines(s, e, marker, tag, false)
  {
    var k := LineEnd(s, p);
    ListLinesItem(s, p, marker, tag, open);
    ListAfterNext(s, k, marker, tag, true);
    SplitAtNewline(s, p, k, e);
    Glue(ListLines(s, p, marker, tag, open), Opener(tag, open), s[p..k], ListAfter(s, k, marker, tag, true),
      s[k + 1..e], CloseTag(tag), ListLines(s, k + 1, marker, tag, true), ListLines(s, e, marker, tag, false), s[p..e]);
  }

  lemma EmptyRest(s: string, e: nat, marker: char, tag: string)
    requires e <= |s| && (e == |s| || !ItemLine(s, e, marker))
    ensures ListLines(s, e, marker, tag, true) == Opener(tag, true) + s[e..e] + CloseTag(tag) + ListLines(s, e, marker, tag, false)
  {
    CloseAfterRun(s, e, marker, tag);
    EmptyFront(CloseTag(tag), s[e..e], ListLines(s, e, marker, tag, false));
    EmptyFront(s[e..e] + CloseTag(tag), Opener(tag, true), ListLines(s, e, marker, tag, false));
  }

  /** Across a run of list lines the reference copies the run and closes the block after it. */
  lemma {:induction false} RunLines(s: string, p: nat, e: nat, marker: char, tag: string, open: bool)
    requires ListRun(s, p, e, marker) && AtLineStart(s, p)
    ensures ListLines(s, p, marker, tag, open)
         == Opener(tag, open) + s[p..e] + CloseTag(tag) + ListLines(s, e, marker, tag, false)
    decreases |s| - p
  {
    var k := LineEnd(s, p);
    RunFirstLine(s, p, e, marker);
    if k == |s| {
      RunLinesLastLine(s, p, e, marker, tag, open);
    } else {
      if k + 1 == e {
        EmptyRest(s, e, marker, tag);
      } else {
        RunLines(s, k + 1, e, marker, tag, true);
      }
      RunLinesNext(s, p, e, marker, tag, open);
    }
  }

  /** A list-block stage rewrites the text exactly as the line-by-line reference does. */
  lemma {:induction false} ListStage(s: string, i: nat, marker: char, tag: string)
    requires i <= |s| && (i == |s| || AtLineStart(s, i)) && marker != '\n'
    ensures SubAll(ListBlock(marker, tag), s, i) == ListLines(s, i, marker, tag, false)
    decreases |s| - i, 2
  {
    if i < |s| {
      if ItemLine(s, i, marker) {
        ListStageRun(s, i, marker, tag);
      } else {
        ListStageOther(s, i, marker, tag);
      }
    }
  }

  lemma {:induction false} ListStageRun(s: string, i: nat, marker: char, tag: string)
    requires i < |s| && AtLineStart(s, i) && marker != '\n' && ItemLine(s, i, marker)
    ensures SubAll(ListBlock(marker, tag), s, i) == ListLines(s, i, marker, tag, false)
    decreases |s| - i, 1
  {
    var e := MatchAt(ListBlock(marker, tag), s, i).value.end;
    SubAllAtMatch(ListBlock(marker, tag), s, i);
    RunLines(s, i, e, marker, tag, false);
    ListStage(s, e, marker, tag);
  }

  lemma {:induction false} ListStageOther(s: string, i: nat, marker: char, tag: string)
    requires i < |s| && AtLineStart(s, i) && marker != '\n' && !ItemLine(s, i, marker)
    ensures SubAll(ListBlock(marker, tag), s, i) == ListLines(s, i, marker, tag, false)
    decreases |s| - i, 1
  {
    AnchoredCopiesLine(ListBlock(marker, tag), s, i);
    ListStageEnd(s, LineEnd(s, i), marker, tag);
    ListLinesOtherClosed(s, i, marker, tag);
  }

  /** From the end of a line on, the stage and the reference agree as well. */
  lemma {:induction false} ListStageEnd(s: string, k: nat, marker: char, tag: string)
    requires k <= |s| && (k == |s| || s[k] == '\n') && marker != '\n'
    ensures SubAll(ListBlock(marker, tag), s, k) == ListAfter(s, k, marker, tag, false)
    decreases |s| - k, 0
  {
    if k < |s| {
      AnchoredNoMatch(ListBlock(marker, tag), s, k);
      SubAllAtNoMatch(ListBlock(marker, tag), s, k);
      ListStage(s, k + 1, marker, tag);
    }
  }

  /** No line from i on is a list line with the given marker. */
  predicate NoItemLines(s: string, i: nat, marker: char)
    requires i <= |s|
  {
    forall p: nat :: i <= p < |s| && AtLineStart(s, p) ==> !ItemLine(s, p, marker)
  }

  lemma {:induction false} ListLinesCopy(s: string, i: nat, marker: char, tag: string)
    requires i <= |s| && (i == |s| || AtLineStart(s, i)) && NoItemLines(s, i, marker)
    ensures ListLines(s, i, marker, tag, false) == s[i..]
    decreases |s| - i
  {
    if i < |s| {
      var k := LineEnd(s, i);
      ListLinesOtherClosed(s, i, marker, tag);
      if k < |s| {
        ListLinesCopy(s, k + 1, marker, tag);
        ListAfterNext(s, k, marker, tag, false);
        LineThenRest(s, i, k, ListLines(s, k + 1, marker, tag, false));
      } else {
        LastLine(s, i, ListAfter(s, k, marker, tag, false));
      }
    }
  }

  /** Text without list lines passes through a list-block stage unchanged: no empty block is opened. */
  lemma ListStageUnchanged(s: string, marker: char, tag: string)
    requires marker != '\n' && NoItemLines(s, 0, marker)
    ensures Sub(ListBlock(marker, tag), s) == s
  {
    ListStage(s, 0, marker, tag);
    ListLinesCopy(s, 0, marker, tag);
  }
}
