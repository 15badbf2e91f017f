/**
 * Worked inputs, each followed stage by stage through markdown2html: two small
 * snippets, the em-dash sentence of markdown.py's docstring, and a list item that
 * carries a second marker. Each stage is one lemma: it either finds none of its
 * trigger characters, or rewrites where the stage-level lemmas say it does.
 */
module Examples {
  import opened Text
  import opened Patterns
  import opened Substitution
  import opened Escaping
  import opened Inline
  import opened Breaks
  import opened Markdown

  lemma {:induction false} EscapeCharsNoSpecial(raw: string)
    requires FreeFrom(raw, 0, {'&', '<', '>', '"'})
    ensures EscapeChars(raw) == raw
  {
    if raw != [] {
      EscapeCharsNoSpecial(raw[1..]);
    }
  }

  /** Text with no `&`, `<`, `>` or `"` comes out of escaping as it went in. */
  lemma EscapeNoSpecial(raw: string)
    requires FreeFrom(raw, 0, {'&', '<', '>', '"'})
    ensures Escape(raw) == raw
  {
    EscapeIsCharwise(raw);
    EscapeCharsNoSpecial(raw);
  }

  /** The middle piece of a text made of three pieces. */
  lemma Middle(t: string, a: string, b: string, c: string)
    requires t == a + b + c
    ensures t[|a|..|a| + |b|] == b
  {
    assert forall i :: 0 <= i < |b| ==> t[|a| + i] == b[i];
  }

  /** A two-line text with non-empty lines: the break stage puts `<br>` in place of the newline. */
  lemma TwoLineBreak(s: string, k: nat)
    requires 0 < k < |s| && s[k] == '\n'
    requires NoNewlineIn(s, 0, k) && NoNewlineIn(s, k + 1, |s|)
    ensures Sub(LineBreak, s) == s[..k] + "<br>" + s[k + 1..]
  {
    LineEndUnique(s, 0, k);
    LineEndUnique(s, k + 1, |s|);
    BreakStage(s, 0);
    assert BreakLines(s, k + 1) == s[k + 1..];
    assert s[0..k] == s[..k];
  }

  /** Text with no `*`, `~`, backtick or `[` passes through the six inline stages unchanged. */
  lemma InlineUnchanged(t: string)
    requires forall i :: 0 <= i < |t| ==> t[i] != '*' && t[i] != '~' && t[i] != '`' && t[i] != '['
    ensures Sub(StrongEmRule, t) == t && Sub(StrongRule, t) == t && Sub(EmRule, t) == t
    ensures Sub(StrikeRule, t) == t && Sub(CodeRule, t) == t && Sub(Link, t) == t
  {
    TriggerFreeUnchanged(StrongEmRule, t);
    TriggerFreeUnchanged(StrongRule, t);
    TriggerFreeUnchanged(EmRule, t);
    TriggerFreeUnchanged(StrikeRule, t);
    TriggerFreeUnchanged(CodeRule, t);
    TriggerFreeUnchanged(Link, t);
  }

  // ---------------------------------------------------------------- *hello*

  lemma EmphasisBlockStages(s: string)
    requires s == "*hello*"
    ensures Escape(s) == s
    ensures Sub(H4Rule, s) == s && Sub(H5Rule, s) == s && Sub(OrderedRule, s) == s
  {
    EscapeNoSpecial(s);
    TriggerFreeUnchanged(H4Rule, s);
    TriggerFreeUnchanged(H5Rule, s);
    TriggerFreeUnchanged(OrderedRule, s);
  }

  lemma EmphasisListStages(s: string)
    requires s == "*hello*"
    ensures Sub(BulletRule, s) == s && Sub(ListItem, s) == s
  {
    forall i: nat | i < |s| ensures MatchAt(BulletRule, s, i).None? && MatchAt(ListItem, s, i).None? {
      assert s[i] != ' ';
    }
    SubUnchanged(BulletRule, s);
    SubUnchanged(ListItem, s);
  }

  /** A text with no two adjacent `*` passes unchanged through a stage whose delimiter starts with `**`. */
  lemma NoDoubleStarUnchanged(s: string, d: string, open: string, close: string)
    requires 2 <= |d| && d[0] == '*' && d[1] == '*'
    requires forall i :: 0 <= i && i + 1 < |s| ==> s[i] != '*' || s[i + 1] != '*'
    ensures Sub(Span(d, open, close), s) == s
  {
    forall i: nat, j: nat ensures !SpanAt(s, i, d, j) {
      if OpensAt(s, i, d) {
        assert false;
      }
    }
    SpanStageUnchanged(s, d, open, close);
  }

  lemma EmphasisStrongStages(s: string)
    requires s == "*hello*"
    ensures Sub(StrongEmRule, s) == s && Sub(StrongRule, s) == s
  {
    assert forall i :: 0 <= i && i + 1 < |s| ==> s[i] != '*' || s[i + 1] != '*';
    NoDoubleStarUnchanged(s, "***", "<strong><em>", "</strong></em>");
    NoDoubleStarUnchanged(s, "**", "<strong>", "</strong>");
  }

  lemma EmphasisEmStage(s: string)
    requires s == "*hello*"
    ensures Sub(EmRule, s) == "<em>hello</em>"
  {
    forall j: nat | SpanAt(s, 0, "*", j) ensures 6 <= j {
      assert s[j..j + 1][0] == s[j];
    }
    SpanStageFirst(s, "*", "<em>", "</em>", 0, 6);
    assert s[..0] == [];
    assert s[1..6] == "hello";
  }

  lemma EmphasisLateStages(t: string)
    requires t == "<em>hello</em>"
    ensures Sub(StrikeRule, t) == t && Sub(CodeRule, t) == t && Sub(Link, t) == t
    ensures Sub(LineBreak, t) == t && Sub(MdashRule, t) == t
  {
    assert forall i :: 0 <= i < |t| ==> t[i] != '~' && t[i] != '`' && t[i] != '[' && t[i] != '\n' && t[i] != '-';
    TriggerFreeUnchanged(StrikeRule, t);
    TriggerFreeUnchanged(CodeRule, t);
    TriggerFreeUnchanged(Link, t);
    TriggerFreeUnchanged(LineBreak, t);
    TriggerFreeUnchanged(MdashRule, t);
  }

  /** A line without a newline gets no `<br>`: `*hello*` becomes `<em>hello</em>` and nothing more. */
  lemma EmphasisExample()
    ensures Render("*hello*") == "<em>hello</em>"
  {
    EmphasisBlockStages("*hello*");
    EmphasisListStages("*hello*");
    EmphasisStrongStages("*hello*");
    EmphasisEmStage("*hello*");
    EmphasisLateStages("<em>hello</em>");
  }

  // ---------------------------------------------------------------- a marker inside an item

  /** The list-item stage keeps everything after the first marker, a second marker included. */
  lemma NestedItemStage(s: string)
    requires s == "   *    * a*"
    ensures Sub(ListItem, s) == "<li>   * a*</li>"
  {
    assert NoNewlineIn(s, 5, 12);
    assert ListItemAt(s, 0, 3, 12);
    ListItemStageFirst(s, 0, 3, 12);
    assert s[..0] == [] && s[5..12] == "   * a*";
  }

  /** No `*` opens a span at position i of t. */
  lemma NoStarAt(t: string, i: nat)
    requires i < |t| && t[i] != '*'
    ensures forall j: nat :: !SpanAt(t, i, "*", j)
  {
    if OpensAt(t, i, "*") {
      assert false;
    }
  }

  lemma NestedEmShortest(t: string)
    requires t == "<li>   * a*</li>"
    ensures ShortestSpanAt(t, 7, "*", 10)
    ensures forall i': nat, j': nat :: i' < 7 ==> !SpanAt(t, i', "*", j')
  {
    assert SpanAt(t, 7, "*", 10);
    forall j: nat | SpanAt(t, 7, "*", j) ensures 10 <= j {
      assert t[j..j + 1][0] == t[j];
    }
    forall i': nat, j': nat | i' < 7 ensures !SpanAt(t, i', "*", j') {
      NoStarAt(t, i');
    }
  }

  lemma NestedEmTail(t: string)
    requires t == "<li>   * a*</li>"
    ensures SubAll(EmRule, t, 11) == "</li>"
  {
    forall j: nat | 11 <= j < |t| ensures MatchAt(EmRule, t, j).None? {
      NoStarAt(t, j);
      SpanNoMatch(t, "*", "<em>", "</em>", j);
    }
    SubAllCopies(EmRule, t, 11, |t|);
    assert t[11..|t|] == "</li>";
  }

  /** The `*` that the list-item stage left inside the item opens an emphasis span. */
  lemma NestedItemEmphasis(t: string)
    requires t == "<li>   * a*</li>"
    ensures Sub(EmRule, t) == "<li>   <em> a</em></li>"
  {
    NestedEmShortest(t);
    SpanStageFirst(t, "*", "<em>", "</em>", 7, 10);
    NestedEmTail(t);
    assert t[..7] == "<li>   " && t[8..10] == " a";
  }

  // ---------------------------------------------------------------- # Title\nBody

  lemma TitleMatch(s: string)
    requires s == "# Title\nBody"
    ensures MatchAt(H4Rule, s, 0) == Some(Match(12, Tagged("h4", "Title") + "\n" + "Body"))
  {
    assert HeadingAt(s, 0, 1, 7, 12);
    assert s[2..7] == "Title" && s[8..12] == "Body";
  }

  lemma TitleTagged()
    ensures Tagged("h4", "Title") + "\n" + "Body" == "<h4>Title</h4>\nBody"
  {
    var t := Tagged("h4", "Title") + "\n" + "Body";
    assert forall i :: 0 <= i < |t| ==> t[i] == "<h4>Title</h4>\nBody"[i];
  }

  lemma TitleHeadingStage(s: string)
    requires s == "# Title\nBody"
    ensures Escape(s) == s
    ensures Sub(H4Rule, s) == "<h4>Title</h4>\nBody"
  {
    EscapeNoSpecial(s);
    TitleMatch(s);
    TitleTagged();
    SubFirstMatch(H4Rule, s, 0, 12, "<h4>Title</h4>\nBody");
    assert s[..0] == [];
  }

  lemma TitleBlockStages(t: string)
    requires t == "<h4>Title</h4>\nBody"
    ensures Sub(H5Rule, t) == t && Sub(BulletRule, t) == t && Sub(OrderedRule, t) == t && Sub(ListItem, t) == t
    ensures Sub(StrongEmRule, t) == t && Sub(StrongRule, t) == t && Sub(EmRule, t) == t
    ensures Sub(StrikeRule, t) == t && Sub(CodeRule, t) == t && Sub(Link, t) == t
  {
    assert forall i :: 0 <= i < |t| ==> t[i] != '#' && t[i] != '*' && t[i] != '~' && t[i] != '`' && t[i] != '[';
    TriggerFreeUnchanged(H5Rule, t);
    TriggerFreeUnchanged(BulletRule, t);
    TriggerFreeUnchanged(OrderedRule, t);
    TriggerFreeUnchanged(ListItem, t);
    InlineUnchanged(t);
  }

  lemma TitleLastStage(t: string)
    requires t == "<h4>Title</h4><br>Body"
    ensures Sub(MdashRule, t) == t
  {
    assert forall i :: 0 <= i < |t| ==> t[i] != '-';
    TriggerFreeUnchanged(MdashRule, t);
  }

  lemma TitleBreakStage(t: string)
    requires t == "<h4>Title</h4>\nBody"
    ensures Sub(LineBreak, t) == "<h4>Title</h4><br>Body"
  {
    assert forall i :: 0 <= i < |t| && i != 14 ==> t[i] != '\n';
    TwoLineBreak(t, 14);
    var r := t[..14] + "<br>" + t[15..];
    assert forall i :: 0 <= i < |r| ==> r[i] == "<h4>Title</h4><br>Body"[i];
  }

  /**
   * A heading line takes the line under it along: `# Title\\nBody` becomes
   * `<h4>Title</h4><br>Body`, the newline the heading stage keeps turned into `<br>`.
   */
  lemma HeadingExample()
    ensures Render("# Title\nBody") == "<h4>Title</h4><br>Body"
  {
    TitleHeadingStage("# Title\nBody");
    TitleBlockStages("<h4>Title</h4>\nBody");
    TitleBreakStage("<h4>Title</h4>\nBody");
    TitleLastStage("<h4>Title</h4><br>Body");
  }

  // ---------------------------------------------------------------- The rain---not the reign---in\nSpain.

  lemma RainEscape(s: string)
    requires s == "The rain---not the reign---in\nSpain."
    ensures Escape(s) == s
  {
    assert forall i :: 0 <= i < |s| ==> s[i] != '&' && s[i] != '<' && s[i] != '>' && s[i] != '"';
    EscapeNoSpecial(s);
  }

  lemma RainEarlyStages(s: string)
    requires s == "The rain---not the reign---in\nSpain."
    ensures Sub(H4Rule, s) == s && Sub(H5Rule, s) == s && Sub(BulletRule, s) == s && Sub(OrderedRule, s) == s
    ensures Sub(ListItem, s) == s
    ensures Sub(StrongEmRule, s) == s && Sub(StrongRule, s) == s && Sub(EmRule, s) == s
    ensures Sub(StrikeRule, s) == s && Sub(CodeRule, s) == s && Sub(Link, s) == s
  {
    assert forall i :: 0 <= i < |s| ==> s[i] != '#' && s[i] != '*' && s[i] != '~' && s[i] != '`' && s[i] != '[';
    TriggerFreeUnchanged(H4Rule, s);
    TriggerFreeUnchanged(H5Rule, s);
    TriggerFreeUnchanged(BulletRule, s);
    TriggerFreeUnchanged(OrderedRule, s);
    TriggerFreeUnchanged(ListItem, s);
    InlineUnchanged(s);
  }

  lemma RainBreakStage(s: string)
    requires s == "The rain---not the reign---in\nSpain."
    ensures Sub(LineBreak, s) == "The rain---not the reign---in<br>Spain."
  {
    assert forall i :: 0 <= i < |s| && i != 29 ==> s[i] != '\n';
    TwoLineBreak(s, 29);
    var r := s[..29] + "<br>" + s[30..];
    assert forall i :: 0 <= i < |r| ==> r[i] == "The rain---not the reign---in<br>Spain."[i];
  }

  lemma Dashes(t: string, i: nat)
    requires i + 3 <= |t| && t[i] == '-' && t[i + 1] == '-' && t[i + 2] == '-'
    ensures OpensAt(t, i, "---")
  {
    assert forall k :: 0 <= k < 3 ==> t[i..i + 3][k] == "---"[k];
  }

  lemma RainSpan(t: string)
    requires t == "The rain---not the reign---in<br>Spain."
    ensures SpanAt(t, 8, "---", 24)
  {
    Dashes(t, 8);
    Dashes(t, 24);
    assert forall i :: 11 <= i < 24 ==> t[i] != '\n';
  }

  lemma RainFirstStop(t: string)
    requires t == "The rain---not the reign---in<br>Spain."
    ensures forall j: nat :: SpanAt(t, 8, "---", j) ==> 24 <= j
  {
    assert forall i :: 11 <= i < 24 ==> t[i] != '-';
    forall j: nat | SpanAt(t, 8, "---", j) ensures 24 <= j {
      assert t[j..j + 3][0] == t[j];
    }
  }

  lemma RainMdashShortest(t: string)
    requires t == "The rain---not the reign---in<br>Spain."
    ensures ShortestSpanAt(t, 8, "---", 24)
  {
    RainSpan(t);
    RainFirstStop(t);
  }

  lemma RainMdashLeftmost(t: string)
    requires t == "The rain---not the reign---in<br>Spain."
    ensures forall i: nat, j: nat :: i < 8 ==> !SpanAt(t, i, "---", j)
  {
    assert forall i :: 0 <= i < 8 ==> t[i] != '-';
    forall i: nat, j: nat | i < 8 ensures !SpanAt(t, i, "---", j) {
      if i + 3 <= |t| {
        assert t[i..i + 3][0] == t[i];
      }
    }
  }

  lemma RainMdashTail(t: string)
    requires t == "The rain---not the reign---in<br>Spain."
    ensures SubAll(MdashRule, t, 27) == "in<br>Spain."
  {
    assert forall i :: 27 <= i < |t| ==> t[i] != '-';
    TriggerFreeCopied(MdashRule, t, 27);
  }

  lemma RainPieces(t: string)
    requires t == "The rain---not the reign---in<br>Spain."
    ensures t[..8] == "The rain" && t[11..24] == "not the reign"
  {
    Middle(t, "The rain---", "not the reign", "---in<br>Spain.");
  }

  lemma RainJoined()
    ensures "The rain" + ("&mdash;" + "not the reign" + "&mdash;") + "in<br>Spain."
         == "The rain&mdash;not the reign&mdash;in<br>Spain."
  {
    var x := "The rain" + ("&mdash;" + "not the reign" + "&mdash;") + "in<br>Spain.";
    assert forall i :: 0 <= i < |x| ==> x[i] == "The rain&mdash;not the reign&mdash;in<br>Spain."[i];
  }

  lemma RainMdashStage(t: string)
    requires t == "The rain---not the reign---in<br>Spain."
    ensures Sub(MdashRule, t) == "The rain&mdash;not the reign&mdash;in<br>Spain."
  {
    RainMdashShortest(t);
    RainMdashLeftmost(t);
    RainMdashTail(t);
    SpanStageFirst(t, "---", "&mdash;", "&mdash;", 8, 24);
    RainPieces(t);
    RainJoined();
  }

  /**
   * The docstring's em-dash sentence: both `---` are on its first line, and the newline
   * before `Spain.` becomes `<br>`.
   */
  lemma MdashExample()
    ensures Render("The rain---not the reign---in\nSpain.") == "The rain&mdash;not the reign&mdash;in<br>Spain."
  {
    RainEscape("The rain---not the reign---in\nSpain.");
    RainEarlyStages("The rain---not the reign---in\nSpain.");
    RainBreakStage("The rain---not the reign---in\nSpain.");
    RainMdashStage("The rain---not the reign---in<br>Spain.");
  }
}
