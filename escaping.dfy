/**
 * The escaping stages of markdown2html (markdown.py:42-47): four passes that replace
 * `&`, `<`, `>` and `"` in that order. The quote becomes `&quot` with no semicolon.
 */
module Escaping {
  import opened Patterns
  import opened Substitution

  /** The four escaping passes, one after the other. */
  function Escape(raw: string): string {
    var ampersandSwap := Sub(AmpRule, raw);
    var openTagSwap := Sub(LtRule, ampersandSwap);
    var closeTagSwap := Sub(GtRule, openTagSwap);
    Sub(QuoteRule, closeTagSwap)
  }

  /** What one raw character becomes once all four passes are done. */
  function Entity(c: char): string {
    match c
    case '&' => "&amp;"
    case '<' => "&lt;"
    case '>' => "&gt;"
    case '"' => "&quot"
    case _ => [c]
  }

  /** Reference definition: escaping character by character. */
  function EscapeChars(raw: string): string {
    if raw == [] then [] else Entity(raw[0]) + EscapeChars(raw[1..])
  }

  /** One pass over a character: the character, or its entity. */
  function Replace(s: string, c: char, entity: string): string {
    if s == [] then [] else (if s[0] == c then entity else [s[0]]) + Replace(s[1..], c, entity)
  }

  lemma {:induction false} SwapIsReplace(c: char, entity: string, s: string, i: nat)
    requires i <= |s|
    ensures SubAll(Swap(c, entity), s, i) == Replace(s[i..], c, entity)
    decreases |s| - i
  {
    if i < |s| {
      SwapIsReplace(c, entity, s, i + 1);
      assert s[i..][1..] == s[i + 1..];
    }
  }

  lemma {:induction false} ReplaceAppend(a: string, b: string, c: char, entity: string)
    ensures Replace(a + b, c, entity) == Replace(a, c, entity) + Replace(b, c, entity)
  {
    if a != [] {
      ReplaceAppend(a[1..], b, c, entity);
      assert (a + b)[0] == a[0];
      assert (a + b)[1..] == a[1..] + b;
    } else {
      assert a + b == b;
    }
  }

  function Passes(s: string): string {
    Replace(Replace(Replace(Replace(s, '&', "&amp;"), '<', "&lt;"), '>', "&gt;"), '"', "&quot")
  }

  lemma ReplaceSingle(d: char, c: char, entity: string)
    ensures Replace([d], c, entity) == if d == c then entity else [d]
  {
    assert [d][1..] == [];
    assert Replace([], c, entity) == [];
  }

  lemma PassesAmp()
    ensures Passes("&") == "&amp;"
  {
    assert Replace("&", '&', "&amp;") == "&amp;";
    assert Replace("&amp;", '<', "&lt;") == "&amp;";
    assert Replace("&amp;", '>', "&gt;") == "&amp;";
  }

  lemma PassesLt()
    ensures Passes("<") == "&lt;"
  {
    assert Replace("<", '&', "&amp;") == "<";
    assert Replace("<", '<', "&lt;") == "&lt;";
    assert Replace("&lt;", '>', "&gt;") == "&lt;";
  }

  lemma PassesGt()
    ensures Passes(">") == "&gt;"
  {
    assert Replace(">", '&', "&amp;") == ">";
    assert Replace(">", '<', "&lt;") == ">";
  }

  lemma PassesQuote()
    ensures Passes("\"") == "&quot"
  {
  }

  lemma PassesOther(c: char)
    requires c != '&' && c != '<' && c != '>' && c != '"'
    ensures Passes([c]) == [c]
  {
    ReplaceSingle(c, '&', "&amp;");
    ReplaceSingle(c, '<', "&lt;");
    ReplaceSingle(c, '>', "&gt;");
    ReplaceSingle(c, '"', "&quot");
  }

  /** The later passes leave the entities of the earlier ones alone. */
  lemma PassesChar(c: char)
    ensures Passes([c]) == Entity(c)
  {
    match c
    case '&' => PassesAmp();
    case '<' => PassesLt();
    case '>' => PassesGt();
    case '"' => PassesQuote();
    case _ => PassesOther(c);
  }

  lemma {:induction false} PassesCharwise(raw: string)
    ensures Passes(raw) == EscapeChars(raw)
  {
    if raw != [] {
      var c, rest := raw[0], raw[1..];
      assert raw == [c] + rest;
      var a1, b1 := Replace([c], '&', "&amp;"), Replace(rest, '&', "&amp;");
      ReplaceAppend([c], rest, '&', "&amp;");
      var a2, b2 := Replace(a1, '<', "&lt;"), Replace(b1, '<', "&lt;");
      ReplaceAppend(a1, b1, '<', "&lt;");
      var a3, b3 := Replace(a2, '>', "&gt;"), Replace(b2, '>', "&gt;");
      ReplaceAppend(a2, b2, '>', "&gt;");
      ReplaceAppend(a3, b3, '"', "&quot");
      PassesChar(c);
      PassesCharwise(rest);
    }
  }

  /** The four passes together escape the text character by character. */
  lemma EscapeIsCharwise(raw: string)
    ensures Escape(raw) == EscapeChars(raw)
  {
    var s1 := Sub(AmpRule, raw);
    SwapIsReplace('&', "&amp;", raw, 0);
    assert raw[0..] == raw;
    SwapIsReplace('<', "&lt;", s1, 0);
    assert s1[0..] == s1;
    var s2 := Sub(LtRule, s1);
    SwapIsReplace('>', "&gt;", s2, 0);
    assert s2[0..] == s2;
    var s3 := Sub(GtRule, s2);
    SwapIsReplace('"', "&quot", s3, 0);
    assert s3[0..] == s3;
    PassesCharwise(raw);
  }

  // ---------------------------------------------------------------- what escaped text looks like

  /** An `&` at k starts one of the four entity tokens. */
  predicate EntityAt(t: string, k: nat)
    requires k <= |t|
  {
    "&amp;" <= t[k..] || "&lt;" <= t[k..] || "&gt;" <= t[k..] || "&quot" <= t[k..]
  }

  /** No `<`, `>` or `"` is left, and every `&` begins an entity. */
  predicate WellEscaped(t: string) {
    && (forall k :: 0 <= k < |t| ==> t[k] != '<' && t[k] != '>' && t[k] != '"')
    && (forall k: nat :: k < |t| && t[k] == '&' ==> EntityAt(t, k))
  }

  /** An entity contains no `<`, `>` or `"`, and its only `&` is its first character. */
  lemma EntityShape(c: char)
    ensures forall k :: 0 <= k < |Entity(c)| ==> Entity(c)[k] != '<' && Entity(c)[k] != '>' && Entity(c)[k] != '"'
    ensures forall k :: 0 < k < |Entity(c)| ==> Entity(c)[k] != '&'
  {
  }

  lemma EntityFront(c: char, rest: string)
    requires Entity(c)[0] == '&'
    ensures EntityAt(Entity(c) + rest, 0)
  {
    var e, t := Entity(c), Entity(c) + rest;
    assert t[0..] == t;
    assert t[..|e|] == e;
  }

  lemma EntityShift(e: string, rest: string, k: nat)
    requires |e| <= k < |e| + |rest|
    ensures EntityAt(e + rest, k) == EntityAt(rest, k - |e|)
  {
    assert (e + rest)[k..] == rest[k - |e|..];
  }

  lemma WellEscapedPrepend(c: char, rest: string)
    requires WellEscaped(rest)
    ensures WellEscaped(Entity(c) + rest)
  {
    var e, t := Entity(c), Entity(c) + rest;
    EntityShape(c);
    forall k | 0 <= k < |t| ensures t[k] != '<' && t[k] != '>' && t[k] != '"' {
      if k >= |e| {
        assert t[k] == rest[k - |e|];
      }
    }
    forall k: nat | k < |t| && t[k] == '&' ensures EntityAt(t, k) {
      if k < |e| {
        EntityFront(c, rest);
      } else {
        assert t[k] == rest[k - |e|];
        EntityShift(e, rest, k);
      }
    }
  }

  lemma {:induction false} EscapeCharsWellEscaped(raw: string)
    ensures WellEscaped(EscapeChars(raw))
  {
    if raw != [] {
      EscapeCharsWellEscaped(raw[1..]);
      WellEscapedPrepend(raw[0], EscapeChars(raw[1..]));
    }
  }

  /** After the escaping stages the text holds no `<`, `>` or `"`, and every `&` begins an entity. */
  lemma EscapeWellEscaped(raw: string)
    ensures WellEscaped(Escape(raw))
  {
    EscapeIsCharwise(raw);
    EscapeCharsWellEscaped(raw);
  }

  // ---------------------------------------------------------------- decoding

  /** Reading the entities back, left to right. */
  function Unescape(t: string): string
    decreases |t|
  {
    if t == [] then []
    else if "&amp;" <= t then ['&'] + Unescape(t[5..])
    else if "&lt;" <= t then ['<'] + Unescape(t[4..])
    else if "&gt;" <= t then ['>'] + Unescape(t[4..])
    else if "&quot" <= t then ['"'] + Unescape(t[5..])
    else [t[0]] + Unescape(t[1..])
  }

  /** An entity of length n at the front of t is read back as c. */
  lemma UnescapeFront(t: string, e: string, rest: string, c: char)
    requires t == e + rest && 4 <= |e|
    requires Unescape(t) == [c] + Unescape(t[|e|..])
    ensures Unescape(t) == [c] + Unescape(rest)
  {
    assert t[|e|..] == rest;
  }

  lemma UnescapeEntity(c: char, rest: string)
    ensures Unescape(Entity(c) + rest) == [c] + Unescape(rest)
  {
    var t := Entity(c) + rest;
    match c
    case '&' =>
      assert "&amp;" <= t;
      UnescapeFront(t, "&amp;", rest, c);
    case '<' =>
      assert t[1] == 'l' && "&lt;" <= t;
      UnescapeFront(t, "&lt;", rest, c);
    case '>' =>
      assert t[1] == 'g' && "&gt;" <= t;
      UnescapeFront(t, "&gt;", rest, c);
    case '"' =>
      assert t[1] == 'q' && "&quot" <= t;
      UnescapeFront(t, "&quot", rest, c);
    case _ =>
      assert t[0] == c && t[1..] == rest;
  }

  lemma {:induction false} UnescapeEscapeChars(raw: string)
    ensures Unescape(EscapeChars(raw)) == raw
  {
    if raw != [] {
      UnescapeEntity(raw[0], EscapeChars(raw[1..]));
      UnescapeEscapeChars(raw[1..]);
    }
  }

  /** Decoding the entities gives the raw input back: escaping loses nothing. */
  lemma UnescapeEscape(raw: string)
    ensures Unescape(Escape(raw)) == raw
  {
    EscapeIsCharwise(raw);
    UnescapeEscapeChars(raw);
  }
}
