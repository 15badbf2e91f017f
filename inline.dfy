/**
 * The inline stages of markdown2html: the five paired-delimiter stages
 * (markdown.py:65-77), the link stage (markdown.py:80), the em-dash stage
 * (markdown.py:86) and the unanchored list-item stage (markdown.py:62), stated at the
 * level of a whole stage: where the first rewrite happens, what it emits, and that text
 * the pattern does not match passes through.
 */
module Inline {
  import opened Text
  import opened Patterns
  import opened Substitution

  // ---------------------------------------------------------------- paired delimiters

  /** s[i..] opens a span with delimiter d whose inner text is the shortest possible, s[i+|d|..j]. */
  ghost predicate ShortestSpanAt(s: string, i: nat, d: string, j: nat)
  {
    SpanAt(s, i, d, j) && forall j': nat :: SpanAt(s, i, d, j') ==> j <= j'
  }

  /** Where a span opens at i, the stage's match is the shortest span. */
  lemma SpanShortestMatch(s: string, d: string, open: string, close: string, i: nat, j: nat)
    requires ShortestSpanAt(s, i, d, j)
    ensures i < |s| && i + |d| < j && j + |d| <= |s|
    ensures MatchAt(Span(d, open, close), s, i) == Some(Match(j + |d|, open + s[i + |d|..j] + close))
  {
  }

  lemma SpanNoMatch(s: string, d: string, open: string, close: string, i: nat)
    requires i < |s| && forall j: nat :: !SpanAt(s, i, d, j)
    ensures MatchAt(Span(d, open, close), s, i).None?
  {
  }

  lemma SpanNoMatchBefore(s: string, d: string, open: string, close: string, i: nat)
    requires i <= |s|
    requires forall i': nat, j': nat :: i' < i ==> !SpanAt(s, i', d, j')
    ensures forall i': nat :: i' < i ==> MatchAt(Span(d, open, close), s, i').None?
  {
    forall i': nat | i' < i ensures MatchAt(Span(d, open, close), s, i').None? {
      SpanNoMatch(s, d, open, close, i');
    }
  }

  /**
   * A span stage rewrites the leftmost opening delimiter that has a closing one, with the
   * shortest non-empty newline-free inner text, and copies everything before it.
   */
  lemma SpanStageFirst(s: string, d: string, open: string, close: string, i: nat, j: nat)
    requires ShortestSpanAt(s, i, d, j)
    requires forall i': nat, j': nat :: i' < i ==> !SpanAt(s, i', d, j')
    ensures Sub(Span(d, open, close), s)
         == s[..i] + (open + s[i + |d|..j] + close) + SubAll(Span(d, open, close), s, j + |d|)
  {
    SpanShortestMatch(s, d, open, close, i, j);
    SpanNoMatchBefore(s, d, open, close, i);
    SubFirstMatch(Span(d, open, close), s, i, j + |d|, open + s[i + |d|..j] + close);
  }

  /** Text in which no delimiter is closed again on its line passes through a span stage unchanged. */
  lemma SpanStageUnchanged(s: string, d: string, open: string, close: string)
    requires forall i: nat, j: nat :: !SpanAt(s, i, d, j)
    ensures Sub(Span(d, open, close), s) == s
  {
    forall i: nat | i < |s| ensures MatchAt(Span(d, open, close), s, i).None? {
      SpanNoMatch(s, d, open, close, i);
    }
    SubUnchanged(Span(d, open, close), s);
  }

  /** The strong-and-emphasis stage closes its tags in the order it opened them. */
  lemma StrongEmNotReversed(s: string, i: nat, j: nat)
    requires ShortestSpanAt(s, i, "***", j)
    ensures MatchAt(StrongEmRule, s, i) == Some(Match(j + 3, "<strong><em>" + s[i + 3..j] + "</strong></em>"))
  {
    SpanShortestMatch(s, "***", "<strong><em>", "</strong></em>", i, j);
  }

  // ---------------------------------------------------------------- links

  /** The link stage rewrites the leftmost `[label](url)` into an anchor and copies what precedes it. */
  lemma LinkStageFirst(s: string, i: nat, p: nat, q: nat)
    requires FirstLinkAt(s, i, p, q)
    requires forall i': nat, p': nat, q': nat :: i' < i ==> !LinkAt(s, i', p', q')
    ensures Sub(Link, s)
         == s[..i] + ("<a href=\"" + s[p + 2..q] + "\">" + s[i + 1..p] + "</a>") + SubAll(Link, s, q + 1)
  {
    forall i': nat | i' < i ensures MatchAt(Link, s, i').None? {
      LinkMatchSpec(s, i');
    }
    LinkMatchSpec(s, i);
    SubFirstMatch(Link, s, i, q + 1, "<a href=\"" + s[p + 2..q] + "\">" + s[i + 1..p] + "</a>");
  }

  /** Text with no `[label](url)` passes through the link stage unchanged. */
  lemma LinkStageUnchanged(s: string)
    requires forall i: nat, p: nat, q: nat :: !LinkAt(s, i, p, q)
    ensures Sub(Link, s) == s
  {
    forall i: nat | i < |s| ensures MatchAt(Link, s, i).None? {
      LinkMatchSpec(s, i);
    }
    SubUnchanged(Link, s);
  }

  // ---------------------------------------------------------------- list items

  /**
   * The list-item stage is not anchored: the leftmost place where 3 or 4 spaces, a `*` or
   * `#`, a space and a non-empty rest of line occur becomes `<li>rest</li>`, spaces and
   * marker dropped, whether or not it is inside a list block.
   */
  lemma ListItemStageFirst(s: string, i: nat, n: nat, k: nat)
    requires ListItemAt(s, i, n, k)
    requires forall i': nat, n': nat, k': nat :: i' < i ==> !ListItemAt(s, i', n', k')
    ensures Sub(ListItem, s) == s[..i] + Tagged("li", s[i + n + 2..k]) + SubAll(ListItem, s, k)
  {
    forall i': nat | i' < i ensures MatchAt(ListItem, s, i').None? {
    }
    SubFirstMatch(ListItem, s, i, k, Tagged("li", s[i + n + 2..k]));
  }
}
