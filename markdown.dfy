/**
 * markdown2html (markdown.py:8-88): the fourteen stages applied one after the other,
 * each to the output of the one before, and what the whole chain does.
 */
module Markdown {
  import opened Text
  import opened Patterns
  import opened Substitution
  import opened Escaping
  import opened Blocks
  import opened Breaks

  /** The stages in the order markdown2html applies them, each named as in markdown.py. */
  function Render(rawPost: string): string {
    var quoteSwap := Escape(rawPost);
    var headerSwap := Sub(H4Rule, quoteSwap);
    var subheaderSwap := Sub(H5Rule, headerSwap);
    var bulletSwap := Sub(BulletRule, subheaderSwap);
    var orderedSwap := Sub(OrderedRule, bulletSwap);
    var liSwap := Sub(ListItem, orderedSwap);
    var boldItalSwap := Sub(StrongEmRule, liSwap);
    var boldSwap := Sub(StrongRule, boldItalSwap);
    var italSwap := Sub(EmRule, boldSwap);
    var strikethroughSwap := Sub(StrikeRule, italSwap);
    var monospaceSwap := Sub(CodeRule, strikethroughSwap);
    var linkSwap := Sub(Link, monospaceSwap);
    var brSwap := Sub(LineBreak, linkSwap);
    Sub(MdashRule, brSwap)
  }

  /** The inline stages between the list-item stage and the line-break stage. */
  function InlineStages(liSwap: string): string {
    var boldItalSwap := Sub(StrongEmRule, liSwap);
    var boldSwap := Sub(StrongRule, boldItalSwap);
    var italSwap := Sub(EmRule, boldSwap);
    var strikethroughSwap := Sub(StrikeRule, italSwap);
    var monospaceSwap := Sub(CodeRule, strikethroughSwap);
    Sub(Link, monospaceSwap)
  }

  /**
   * The chain read through the reference definitions: character-wise escaping, the two
   * line-by-line heading passes, the two line-by-line list-block passes, the list-item
   * and inline stages, the line-by-line break pass and the em-dash stage.
   */
  lemma RenderByReference(rawPost: string)
    ensures var escaped := EscapeChars(rawPost);
      var headed := HeadingLines(HeadingLines(escaped, 0, 1, "h4"), 0, 2, "h5");
      var listed := ListLines(ListLines(headed, 0, '*', "ul", false), 0, '#', "ol", false);
      Render(rawPost) == Sub(MdashRule, BreakLines(InlineStages(Sub(ListItem, listed)), 0))
  {
    var escaped := EscapeChars(rawPost);
    EscapeIsCharwise(rawPost);
    HeadingStage(escaped, 0, 1, "h4");
    var h4 := HeadingLines(escaped, 0, 1, "h4");
    HeadingStage(h4, 0, 2, "h5");
    var headed := HeadingLines(h4, 0, 2, "h5");
    ListStage(headed, 0, '*', "ul");
    var ul := ListLines(headed, 0, '*', "ul", false);
    ListStage(ul, 0, '#', "ol");
    var listed := ListLines(ul, 0, '#', "ol", false);
    BreakStage(InlineStages(Sub(ListItem, listed)), 0);
  }

  // ---------------------------------------------------------------- characters a stage needs

  /**
   * The characters a rule cannot match without: every match attempt at i needs one of
   * them at i or after it (empty where the rule's pattern needs none).
   */
  function Trigger(r: Rule): set<char> {
    match r
    case Swap(c, _) => {c}
    case Heading(n, _) => if n > 0 then {'#'} else {}
    case ListBlock(marker, _) => {marker}
    case ListItem => ItemMarkers
    case Span(d, _, _) => if |d| > 0 then {d[0]} else {}
    case Link => {'['}
    case LineBreak => {'\n'}
  }

  /** No character of s from i on is one of cs. */
  predicate FreeFrom(s: string, i: nat, cs: set<char>)
  {
    forall j :: i <= j < |s| ==> s[j] !in cs
  }

  lemma TriggerNeeded(r: Rule, s: string, i: nat)
    requires Trigger(r) != {} && i < |s| && FreeFrom(s, i, Trigger(r))
    ensures MatchAt(r, s, i).None?
  {
    match r
    case Swap(c, entity) =>
    case Heading(n, tag) =>
      assert s[i] !in Trigger(r);
    case ListBlock(marker, tag) =>
    case ListItem =>
    case Span(d, open, close) =>
      assert i + |d| <= |s| ==> s[i..i + |d|][0] == s[i];
    case Link =>
    case LineBreak =>
  }

  /** From the last trigger character on, a stage copies the text. */
  lemma TriggerFreeCopied(r: Rule, s: string, i: nat)
    requires Trigger(r) != {} && i <= |s| && FreeFrom(s, i, Trigger(r))
    ensures SubAll(r, s, i) == s[i..]
  {
    forall j: nat | i <= j < |s| ensures MatchAt(r, s, j).None? {
      TriggerNeeded(r, s, j);
    }
    SubAllCopies(r, s, i, |s|);
  }

  /** A text without the rule's trigger characters passes through the stage unchanged. */
  lemma TriggerFreeUnchanged(r: Rule, s: string)
    requires Trigger(r) != {} && FreeFrom(s, 0, Trigger(r))
    ensures Sub(r, s) == s
  {
    TriggerFreeCopied(r, s, 0);
  }

  // ---------------------------------------------------------------- text without markup

  /** The characters any stage after escaping needs before it rewrites anything. */
  const MarkupChars: set<char> := {'#', '*', '~', '`', '[', '-', '\n'}

  predicate Plain(s: string) {
    FreeFrom(s, 0, MarkupChars)
  }

  lemma PlainUnchanged(r: Rule, s: string)
    requires Trigger(r) != {} && Trigger(r) <= MarkupChars && Plain(s)
    ensures Sub(r, s) == s
  {
    TriggerFreeUnchanged(r, s);
  }

  lemma {:induction false} EscapeCharsPlain(raw: string)
    requires Plain(raw)
    ensures Plain(EscapeChars(raw))
  {
    if raw != [] {
      EscapeCharsPlain(raw[1..]);
      var e := Entity(raw[0]);
      assert Plain(e);
    }
  }

  /**
   * Text without markup characters only goes through escaping: markdown2html returns it
   * escaped character by character, and decoding the entities gives it back.
   */
  lemma RenderPlain(rawPost: string)
    requires Plain(rawPost)
    ensures Render(rawPost) == EscapeChars(rawPost)
    ensures Unescape(Render(rawPost)) == rawPost
  {
    var t := Escape(rawPost);
    EscapeIsCharwise(rawPost);
    EscapeCharsPlain(rawPost);
    PlainUnchanged(H4Rule, t);
    PlainUnchanged(H5Rule, t);
    PlainUnchanged(BulletRule, t);
    PlainUnchanged(OrderedRule, t);
    PlainUnchanged(ListItem, t);
    PlainUnchanged(StrongEmRule, t);
    PlainUnchanged(StrongRule, t);
    PlainUnchanged(EmRule, t);
    PlainUnchanged(StrikeRule, t);
    PlainUnchanged(CodeRule, t);
    PlainUnchanged(Link, t);
    PlainUnchanged(LineBreak, t);
    PlainUnchanged(MdashRule, t);
    UnescapeEscape(rawPost);
  }
}
