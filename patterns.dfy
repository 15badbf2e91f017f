/**
 * The fixed patterns of the substitution stages of markdown.py, each as a hand-written
 * matcher. A matcher looks at position i of a stage's input and answers as Python's `re`
 * does for a match attempt starting at i: no match, or where the match ends and what
 * the stage puts in its place. Each matcher is paired with a declarative reading of its
 * regular expression (what a match IS), and its contract ties the two together; for lazy
 * `(.+?)` groups the declarative reading picks the shortest group, as backtracking does.
 */
module Patterns {
  import opened Text

  datatype Option<+T> = None | Some(value: T)

  /** One match: where it ends (exclusive) and the text that replaces it. */
  datatype Match = Match(end: nat, rep: string)

  /** The pattern families used by the stages. */
  datatype Rule =
    | Swap(c: char, entity: string)                     // one literal character, r"&" and friends
    | Heading(hashes: nat, tag: string)                 // r"^#{n} (.+)\n(.+)$" under re.M
    | ListBlock(marker: char, tag: string)              // r"(^ {3,4}\* (.+)\n?)+" under re.M, and with \#
    | ListItem                                          // r" {3,4}[*#]{1} (.+)"
    | Span(delim: string, open: string, close: string)  // r"\*{3}(.+?)\*{3}" and the other paired delimiters
    | Link                                              // r"\[(.+?)\]\((.+?)\)"
    | LineBreak                                         // r"(.+)\n" under re.M

  /** The rules of the stages, in the order markdown2html applies them. */
  const AmpRule := Swap('&', "&amp;")
  const LtRule := Swap('<', "&lt;")
  const GtRule := Swap('>', "&gt;")
  const QuoteRule := Swap('"', "&quot")
  const H4Rule := Heading(1, "h4")
  const H5Rule := Heading(2, "h5")
  const BulletRule := ListBlock('*', "ul")
  const OrderedRule := ListBlock('#', "ol")
  const StrongEmRule := Span("***", "<strong><em>", "</strong></em>")
  const StrongRule := Span("**", "<strong>", "</strong>")
  const EmRule := Span("*", "<em>", "</em>")
  const StrikeRule := Span("~~", "<s>", "</s>")
  const CodeRule := Span("`", "<code>", "</code>")
  const MdashRule := Span("---", "&mdash;", "&mdash;")

  function OpenTag(tag: string): string {
    "<" + tag + ">"
  }

  function CloseTag(tag: string): string {
    "</" + tag + ">"
  }

  /** `<tag>body</tag>`, as the stages' format strings build it. */
  function Tagged(tag: string, body: string): string {
    OpenTag(tag) + body + CloseTag(tag)
  }

  // ---------------------------------------------------------------- single characters

  function SwapMatch(s: string, i: nat, c: char, entity: string): (r: Option<Match>)
    requires i <= |s|
  {
    if i < |s| && s[i] == c then Some(Match(i + 1, entity)) else None
  }

  // ---------------------------------------------------------------- headings

  /** `^#{n} ` at i: a line start, n hashes, one space. */
  predicate HeadingOpener(s: string, i: nat, n: nat)
    requires i <= |s|
  {
    && AtLineStart(s, i)
    && i + n < |s|
    && (forall j :: i <= j < i + n ==> s[j] == '#')
    && s[i + n] == ' '
  }

  /** r"^#{n} (.+)\n(.+)$" matches at i with group 1 = s[i+n+1..k] and group 2 = s[k+1..m]. */
  predicate HeadingAt(s: string, i: nat, n: nat, k: nat, m: nat)
  {
    && i + n + 1 < k < m <= |s|
    && HeadingOpener(s, i, n)
    && NoNewlineIn(s, i + n + 1, k)
    && s[k] == '\n'
    && k + 1 < m
    && NoNewlineIn(s, k + 1, m)
    && (m == |s| || s[m] == '\n')
  }

  function HeadingMatch(s: string, i: nat, n: nat, tag: string): (r: Option<Match>)
    requires i <= |s|
    ensures r.Some? <==> exists k: nat, m: nat :: HeadingAt(s, i, n, k, m)
    ensures forall k: nat, m: nat :: HeadingAt(s, i, n, k, m) ==>
              r == Some(Match(m, Tagged(tag, s[i + n + 1..k]) + "\n" + s[k + 1..m]))
  {
    if HeadingOpener(s, i, n) then
      var k := LineEnd(s, i + n + 1);
      if i + n + 1 < k < |s| then
        var m := LineEnd(s, k + 1);
        if k + 1 < m then
          assert HeadingAt(s, i, n, k, m);
          Some(Match(m, Tagged(tag, s[i + n + 1..k]) + "\n" + s[k + 1..m]))
        else None
      else None
    else None
  }

  // ---------------------------------------------------------------- list lines

  /** r" {n}", a marker from `markers`, a space and a non-empty rest of line, at i. */
  predicate ItemAt(s: string, i: nat, n: nat, markers: set<char>)
  {
    && (n == 3 || n == 4)
    && i + n + 2 < |s|
    && (forall j :: i <= j < i + n ==> s[j] == ' ')
    && s[i + n] in markers
    && s[i + n + 1] == ' '
    && s[i + n + 2] != '\n'
  }

  /**
   * r" {3,4}[markers] " followed by at least one character of the line: where the
   * text after the marker starts. ` {3,4}` is greedy, so four spaces are tried first.
   */
  function ItemBody(s: string, i: nat, markers: set<char>): (r: Option<nat>)
    ensures r.Some? <==> ItemAt(s, i, 3, markers) || ItemAt(s, i, 4, markers)
    ensures r == Some(i + 6) <==> ItemAt(s, i, 4, markers)
    ensures r == Some(i + 5) <==> ItemAt(s, i, 3, markers) && !ItemAt(s, i, 4, markers)
  {
    if ItemAt(s, i, 4, markers) then Some(i + 6)
    else if ItemAt(s, i, 3, markers) then Some(i + 5)
    else None
  }

  /**
   * With markers that are not spaces, the text itself fixes how many spaces precede the
   * marker, so the greedy order of ` {3,4}` never changes which lines match.
   */
  lemma ItemSpacesFixed(s: string, i: nat, markers: set<char>)
    requires ' ' !in markers
    ensures !(ItemAt(s, i, 3, markers) && ItemAt(s, i, 4, markers))
  {
  }

  /** The line at p is a list line of a block with the given marker. */
  predicate ItemLine(s: string, p: nat, marker: char)
  {
    ItemAt(s, p, 3, {marker}) || ItemAt(s, p, 4, {marker})
  }

  /**
   * The end of the run of list lines that continues after the list line ending at k
   * (k is that line's '\n' or the end of the text): `\n?` takes the newline, and another
   * repetition of the group follows as long as the next line is a list line.
   */
  function RunEnd(s: string, k: nat, marker: char): (e: nat)
    requires k <= |s|
    requires k == |s| || s[k] == '\n'
    ensures k <= e <= |s|
    ensures k < |s| ==> k < e
    ensures e == |s| || (s[e - 1] == '\n' && !ItemLine(s, e, marker))
    ensures marker != '\n' ==> forall p: nat :: k < p < e && AtLineStart(s, p) ==> ItemLine(s, p, marker)
    decreases |s| - k
  {
    if k == |s| then k
    else
      match ItemBody(s, k + 1, {marker})
      case None => k + 1
      case Some(b) =>
        var k' := LineEnd(s, b);
        var e := RunEnd(s, k', marker);
        assert marker != '\n' ==> NoNewlineIn(s, k + 1, k');
        e
  }

  /** r"(^ {3,4}<marker> (.+)\n?)+" matches at i and ends at e: a maximal run of list lines. */
  predicate ListRun(s: string, i: nat, e: nat, marker: char)
  {
    && i < e <= |s|
    && (forall p: nat :: i <= p < e && AtLineStart(s, p) ==> ItemLine(s, p, marker))
    && (e == |s| || (s[e - 1] == '\n' && !ItemLine(s, e, marker)))
  }

  function ListBlockMatch(s: string, i: nat, marker: char, tag: string): (r: Option<Match>)
    requires i <= |s|
    ensures r.Some? <==> AtLineStart(s, i) && ItemLine(s, i, marker)
    ensures r.Some? ==> i < r.value.end <= |s|
    ensures r.Some? ==> r.value.rep == Tagged(tag, s[i..r.value.end])
    ensures r.Some? && marker != '\n' ==> ListRun(s, i, r.value.end, marker)
  {
    if AtLineStart(s, i) then
      match ItemBody(s, i, {marker})
      case None => None
      case Some(b) =>
        var k := LineEnd(s, b);
        var e := RunEnd(s, k, marker);
        assert marker != '\n' ==> NoNewlineIn(s, i, k);
        Some(Match(e, Tagged(tag, s[i..e])))
    else None
  }

  /** A run of list lines starting at i has only one possible end. */
  lemma ListRunUnique(s: string, i: nat, e1: nat, e2: nat, marker: char)
    requires ListRun(s, i, e1, marker) && ListRun(s, i, e2, marker)
    ensures e1 == e2
  {
    if e1 < e2 {
      assert AtLineStart(s, e1);
    } else if e2 < e1 {
      assert AtLineStart(s, e2);
    }
  }

  // ---------------------------------------------------------------- list items

  const ItemMarkers: set<char> := {'*', '#'}

  /** r" {3,4}[*#]{1} (.+)" at i with n spaces, the group s[i+n+2..k] running to the end of the line. */
  predicate ListItemAt(s: string, i: nat, n: nat, k: nat)
  {
    && ItemAt(s, i, n, ItemMarkers)
    && i + n + 2 < k <= |s|
    && NoNewlineIn(s, i + n + 2, k)
    && (k == |s| || s[k] == '\n')
  }

  function ListItemMatch(s: string, i: nat): (r: Option<Match>)
    requires i <= |s|
    ensures r.Some? <==> exists n: nat, k: nat :: ListItemAt(s, i, n, k)
    ensures forall n: nat, k: nat :: ListItemAt(s, i, n, k) ==> r == Some(Match(k, Tagged("li", s[i + n + 2..k])))
  {
    match ItemBody(s, i, ItemMarkers)
    case None => None
    case Some(b) =>
      var k := LineEnd(s, b);
      assert ListItemAt(s, i, b - i - 2, k);
      Some(Match(k, Tagged("li", s[b..k])))
  }

  // ---------------------------------------------------------------- lazy groups

  /** A lazy group `(.+?)` started at a can stop at j, where `d` follows: s[a..j] is non-empty and newline-free. */
  predicate IsStop(s: string, a: nat, d: string, j: nat)
  {
    a < j && j + |d| <= |s| && s[j..j + |d|] == d && NoNewlineIn(s, a, j)
  }

  function LazyFrom(s: string, a: nat, d: string, j: nat): (r: Option<nat>)
    requires a < j <= |s|
    requires NoNewlineIn(s, a, j - 1)
    ensures r.Some? ==> j <= r.value && IsStop(s, a, d, r.value)
    ensures forall t: nat :: j <= t && IsStop(s, a, d, t) ==> r.Some? && r.value <= t
    decreases |s| - j
  {
    if s[j - 1] == '\n' then None
    else if j + |d| <= |s| && s[j..j + |d|] == d then Some(j)
    else if j == |s| then None
    else LazyFrom(s, a, d, j + 1)
  }

  /** Where a lazy group started at a stops: the least stop, if there is one. */
  function LazyUntil(s: string, a: nat, d: string): (r: Option<nat>)
    requires a <= |s|
    ensures r.Some? ==> IsStop(s, a, d, r.value)
    ensures forall t: nat :: IsStop(s, a, d, t) ==> r.Some? && r.value <= t
  {
    if a == |s| then None else LazyFrom(s, a, d, a + 1)
  }

  // ---------------------------------------------------------------- paired delimiters

  predicate OpensAt(s: string, i: nat, d: string)
  {
    i + |d| <= |s| && s[i..i + |d|] == d
  }

  /** r"<d>(.+?)<d>" matches at i with the group s[i+|d|..j]. */
  predicate SpanAt(s: string, i: nat, d: string, j: nat)
  {
    OpensAt(s, i, d) && IsStop(s, i + |d|, d, j)
  }

  function SpanMatch(s: string, i: nat, d: string, open: string, close: string): (r: Option<Match>)
    requires i <= |s|
    ensures r.Some? ==> i + |d| < r.value.end - |d| && SpanAt(s, i, d, r.value.end - |d|)
    ensures r.Some? ==> r.value.rep == open + s[i + |d|..r.value.end - |d|] + close
    ensures forall j: nat :: SpanAt(s, i, d, j) ==> r.Some? && r.value.end <= j + |d|
  {
    if OpensAt(s, i, d) then
      match LazyUntil(s, i + |d|, d)
      case None => None
      case Some(j) =>
        assert SpanAt(s, i, d, j);
        Some(Match(j + |d|, open + s[i + |d|..j] + close))
    else None
  }

  // ---------------------------------------------------------------- links

  /** r"\[(.+?)\]\((.+?)\)" matches at i with label s[i+1..p] and url s[p+2..q]. */
  predicate LinkAt(s: string, i: nat, p: nat, q: nat)
  {
    i < |s| && s[i] == '[' && IsStop(s, i + 1, "](", p) && IsStop(s, p + 2, ")", q)
  }

  /** The link that backtracking prefers at i: the shortest label, then the shortest url. */
  ghost predicate FirstLinkAt(s: string, i: nat, p: nat, q: nat)
  {
    LinkAt(s, i, p, q) && forall p': nat, q': nat :: LinkAt(s, i, p', q') ==> p < p' || (p == p' && q <= q')
  }

  function LinkMatch(s: string, i: nat): (r: Option<Match>)
    requires i <= |s|
  {
    if i < |s| && s[i] == '[' then
      match LazyUntil(s, i + 1, "](")
      case None => None
      case Some(p) =>
        match LazyUntil(s, p + 2, ")")
        case None => None
        case Some(q) => Some(Match(q + 1, "<a href=\"" + s[p + 2..q] + "\">" + s[i + 1..p] + "</a>"))
    else None
  }

  /**
   * The link matcher finds a match exactly when the pattern matches, and then the one
   * backtracking prefers: the shortest label, then the shortest url. A longer label never
   * rescues a failed url, since the url of the longer label also closes the shorter one.
   */
  lemma {:induction false} LinkMatchSpec(s: string, i: nat)
    requires i <= |s|
    ensures LinkMatch(s, i).Some? <==> exists p: nat, q: nat :: LinkAt(s, i, p, q)
    ensures forall p: nat, q: nat :: FirstLinkAt(s, i, p, q) ==>
              LinkMatch(s, i) == Some(Match(q + 1, "<a href=\"" + s[p + 2..q] + "\">" + s[i + 1..p] + "</a>"))
  {
    if i < |s| && s[i] == '[' && LazyUntil(s, i + 1, "](").Some? {
      var p0 := LazyUntil(s, i + 1, "](").value;
      if LazyUntil(s, p0 + 2, ")").Some? {
        var q0 := LazyUntil(s, p0 + 2, ")").value;
        LinkMatchLeast(s, i, p0, q0);
        assert LinkMatch(s, i) == Some(Match(q0 + 1, "<a href=\"" + s[p0 + 2..q0] + "\">" + s[i + 1..p0] + "</a>"));
        forall p: nat, q: nat | FirstLinkAt(s, i, p, q) ensures p == p0 && q == q0 {
        }
      } else {
        LinkMatchNoUrl(s, i, p0);
      }
    }
  }

  /**
   * The stops the matcher finds make a link, and no link has a shorter label or, with
   * the same label, a shorter url.
   */
  lemma LinkMatchLeast(s: string, i: nat, p0: nat, q0: nat)
    requires i < |s| && s[i] == '['
    requires LazyUntil(s, i + 1, "](") == Some(p0) && LazyUntil(s, p0 + 2, ")") == Some(q0)
    ensures LinkAt(s, i, p0, q0)
    ensures forall p: nat, q: nat :: LinkAt(s, i, p, q) ==> p0 <= p && (p == p0 ==> q0 <= q)
  {
  }

  /** When no url closes after the shortest label, no link opens at i at all. */
  lemma LinkMatchNoUrl(s: string, i: nat, p0: nat)
    requires i < |s| && s[i] == '['
    requires LazyUntil(s, i + 1, "](") == Some(p0) && LazyUntil(s, p0 + 2, ")").None?
    ensures forall p: nat, q: nat :: !LinkAt(s, i, p, q)
  {
    forall p: nat, q: nat | LinkAt(s, i, p, q) ensures false {
      UrlOfLongerLabel(s, i, p0, p, q);
    }
  }

  /** The url that closes a link with label s[i+1..p] also closes one with a shorter label s[i+1..p0]. */
  lemma UrlOfLongerLabel(s: string, i: nat, p0: nat, p: nat, q: nat)
    requires IsStop(s, i + 1, "](", p0) && p0 <= p
    requires LinkAt(s, i, p, q)
    ensures IsStop(s, p0 + 2, ")", q)
  {
    forall j | p0 + 2 <= j < q ensures s[j] != '\n' {
      if p <= j < p + 2 {
        assert s[p..p + 2][j - p] == s[j];
      }
    }
  }

  // ---------------------------------------------------------------- line breaks

  /** r"(.+)\n" matches at i with the group s[i..k]. */
  predicate BreakAt(s: string, i: nat, k: nat)
  {
    i < k < |s| && s[k] == '\n' && NoNewlineIn(s, i, k)
  }

  function LineBreakMatch(s: string, i: nat): (r: Option<Match>)
    requires i <= |s|
    ensures r.Some? <==> exists k: nat :: BreakAt(s, i, k)
    ensures forall k: nat :: BreakAt(s, i, k) ==> r == Some(Match(k + 1, s[i..k] + "<br>"))
  {
    var k := LineEnd(s, i);
    if i < k < |s| then
      assert BreakAt(s, i, k);
      Some(Match(k + 1, s[i..k] + "<br>"))
    else None
  }

  // ---------------------------------------------------------------- dispatch

  /** The match attempt of rule r at position i; a match always makes progress. */
  function MatchAt(r: Rule, s: string, i: nat): (m: Option<Match>)
    requires i < |s|
    ensures m.Some? ==> i < m.value.end <= |s|
  {
    match r
    case Swap(c, entity) => SwapMatch(s, i, c, entity)
    case Heading(n, tag) => HeadingMatch(s, i, n, tag)
    case ListBlock(marker, tag) => ListBlockMatch(s, i, marker, tag)
    case ListItem => ListItemMatch(s, i)
    case Span(d, open, close) => SpanMatch(s, i, d, open, close)
    case Link => LinkMatch(s, i)
    case LineBreak => LineBreakMatch(s, i)
  }
}
