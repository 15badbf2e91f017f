/**
 * The line-break stage of markdown2html (markdown.py:83) and the em-dash stage that
 * follows it (markdown.py:86). r"(.+)\n" is not anchored, but `.` cannot cross a newline,
 * so the stage works line by line: a line with text that ends in '\n' loses the newline
 * and gains `<br>`, an empty line keeps its '\n', and a last line without '\n' is copied.
 */
module Breaks {
  import opened Text
  import opened Patterns
  import opened Substitution

  /** Reference definition of the line-break stage, from position i on. */
  function BreakLines(s: string, i: nat): string
    requires i <= |s|
    decreases |s| - i
  {
    var k := LineEnd(s, i);
    if k == |s| then s[i..]
    else if k == i then "\n" + BreakLines(s, k + 1)
    else s[i..k] + "<br>" + BreakLines(s, k + 1)
  }

  lemma LastLineNoMatch(s: string, i: nat, j: nat)
    requires i <= j < |s| && LineEnd(s, i) == |s|
    ensures MatchAt(LineBreak, s, j).None?
  {
    LineEndUnique(s, j, |s|);
  }

  lemma BreakStepLast(s: string, i: nat)
    requires i <= |s| && LineEnd(s, i) == |s|
    ensures SubAll(LineBreak, s, i) == BreakLines(s, i)
  {
    forall j: nat | i <= j < |s| ensures MatchAt(LineBreak, s, j).None? {
      LastLineNoMatch(s, i, j);
    }
    SubAllCopies(LineBreak, s, i, |s|);
    assert SubAll(LineBreak, s, |s|) == [];
  }

  lemma BreakStepEmpty(s: string, i: nat)
    requires i < |s| && s[i] == '\n'
    requires SubAll(LineBreak, s, i + 1) == BreakLines(s, i + 1)
    ensures SubAll(LineBreak, s, i) == BreakLines(s, i)
  {
    SubAllAtNoMatch(LineBreak, s, i);
  }

  lemma BreakStepText(s: string, i: nat)
    requires i < |s| && i < LineEnd(s, i) < |s|
    requires SubAll(LineBreak, s, LineEnd(s, i) + 1) == BreakLines(s, LineEnd(s, i) + 1)
    ensures SubAll(LineBreak, s, i) == BreakLines(s, i)
  {
    BreakTextMatch(s, i);
    SubAllAtMatch(LineBreak, s, i);
    BreakLinesText(s, i);
  }

  lemma BreakTextMatch(s: string, i: nat)
    requires i < |s| && i < LineEnd(s, i) < |s|
    ensures MatchAt(LineBreak, s, i) == Some(Match(LineEnd(s, i) + 1, s[i..LineEnd(s, i)] + "<br>"))
  {
    assert BreakAt(s, i, LineEnd(s, i));
  }

  lemma BreakLinesText(s: string, i: nat)
    requires i < |s| && i < LineEnd(s, i) < |s|
    ensures BreakLines(s, i) == s[i..LineEnd(s, i)] + "<br>" + BreakLines(s, LineEnd(s, i) + 1)
  {
  }

  /** The line-break stage rewrites the text exactly as the line-by-line reference does. */
  lemma {:induction false} BreakStage(s: string, i: nat)
    requires i <= |s|
    ensures SubAll(LineBreak, s, i) == BreakLines(s, i)
    decreases |s| - i
  {
    var k := LineEnd(s, i);
    if k == |s| {
      BreakStepLast(s, i);
    } else {
      BreakStage(s, k + 1);
      if k == i {
        BreakStepEmpty(s, i);
      } else {
        BreakStepText(s, i);
      }
    }
  }

  /** No line of s, the first included, is empty unless it is the last one. */
  predicate NoEmptyLines(s: string)
  {
    forall k :: 0 <= k < |s| && s[k] == '\n' ==> !AtLineStart(s, k)
  }

  lemma {:induction false} BreakLinesNoNewline(s: string, i: nat)
    requires i <= |s| && AtLineStart(s, i) && NoEmptyLines(s)
    ensures '\n' !in BreakLines(s, i)
    decreases |s| - i
  {
    var k := LineEnd(s, i);
    if k < |s| {
      BreakLinesNoNewline(s, k + 1);
      assert k != i;
    } else {
      assert NoNewlineIn(s, i, k);
    }
  }

  /**
   * A newline survives the line-break stage only where it ends an empty line: when no
   * line but the last is empty, the stage leaves no newline at all.
   */
  lemma BreakRemovesNewlines(s: string)
    requires NoEmptyLines(s)
    ensures '\n' !in Sub(LineBreak, s)
  {
    BreakStage(s, 0);
    BreakLinesNoNewline(s, 0);
  }

  /** Every empty line keeps its newline through the stage. */
  lemma {:induction false} BreakKeepsEmptyLines(s: string, i: nat)
    requires i <= |s| && AtLineStart(s, i)
    ensures (exists k :: i <= k < |s| && s[k] == '\n' && AtLineStart(s, k)) ==> '\n' in BreakLines(s, i)
    decreases |s| - i
  {
    var k := LineEnd(s, i);
    if k < |s| {
      BreakKeepsEmptyLines(s, k + 1);
    }
  }

  /** The output of the line-break stage holds a newline exactly when the input has an empty line. */
  lemma BreakNewlinesAreEmptyLines(s: string)
    ensures '\n' in Sub(LineBreak, s) <==> !NoEmptyLines(s)
  {
    BreakStage(s, 0);
    if NoEmptyLines(s) {
      BreakLinesNoNewline(s, 0);
    } else {
      BreakKeepsEmptyLines(s, 0);
    }
  }

  // ---------------------------------------------------------------- em-dash pairs

  /**
   * The em-dash stage runs after the line-break stage. In a text without empty lines the
   * newlines are gone by then, so a match opens at any `---` that a later `---` follows,
   * even where the two were on different lines of the input.
   */
  lemma MdashAcrossLines(s: string, i: nat, j: nat)
    requires NoEmptyLines(s)
    requires var t := Sub(LineBreak, s); i + 3 < j && OpensAt(t, i, "---") && OpensAt(t, j, "---")
    ensures MatchAt(MdashRule, Sub(LineBreak, s), i).Some?
  {
    var t := Sub(LineBreak, s);
    BreakRemovesNewlines(s);
    assert IsStop(t, i + 3, "---", j);
    assert SpanAt(t, i, "---", j);
  }
}
