/**
 * `re.sub(pattern, repl, s)` for one fixed rule: scan left to right; where the rule
 * matches, emit its replacement and resume after the match, otherwise copy one character.
 * No rule matches the empty string, so every step makes progress.
 */
module Substitution {
  import opened Text
  import opened Patterns

  function SubAll(r: Rule, s: string, i: nat): string
    requires i <= |s|
    decreases |s| - i
  {
    if i == |s| then []
    else
      match MatchAt(r, s, i)
      case Some(m) => m.rep + SubAll(r, s, m.end)
      case None => [s[i]] + SubAll(r, s, i + 1)
  }

  /** One stage of markdown2html: the substitution applied to the whole text. */
  function Sub(r: Rule, s: string): string {
    SubAll(r, s, 0)
  }

  lemma SliceCons(s: string, i: nat, e: nat)
    requires i < e <= |s|
    ensures s[i..e] == [s[i]] + s[i + 1..e]
  {
  }

  lemma EmptyPrefix(s: string, i: nat, x: string)
    requires i <= |s|
    ensures x == s[i..i] + x
  {
  }

  lemma PrependCopied(x: string, c: char, y: string, a: string, z: string, w: string)
    requires x == [c] + y && y == a + z && w == [c] + a
    ensures x == w + z
  {
  }

  /** Where the rule matches nowhere in s[i..e], the scan copies s[i..e] as it is. */
  lemma {:induction false} SubAllCopies(r: Rule, s: string, i: nat, e: nat)
    requires i <= e <= |s|
    requires forall j: nat :: i <= j < e ==> MatchAt(r, s, j).None?
    ensures SubAll(r, s, i) == s[i..e] + SubAll(r, s, e)
    decreases e - i
  {
    if i < e {
      SubAllCopies(r, s, i + 1, e);
      SubAllAtNoMatch(r, s, i);
      SliceCons(s, i, e);
      PrependCopied(SubAll(r, s, i), s[i], SubAll(r, s, i + 1), s[i + 1..e], SubAll(r, s, e), s[i..e]);
    } else {
      EmptyPrefix(s, i, SubAll(r, s, i));
    }
  }

  /** A text in which the rule matches nowhere passes through the stage unchanged. */
  lemma SubUnchanged(r: Rule, s: string)
    requires forall j: nat :: j < |s| ==> MatchAt(r, s, j).None?
    ensures Sub(r, s) == s
  {
    SubAllCopies(r, s, 0, |s|);
  }

  /** Where the rule matches at i, the scan emits the replacement and resumes after the match. */
  lemma SubAllAtMatch(r: Rule, s: string, i: nat)
    requires i < |s| && MatchAt(r, s, i).Some?
    ensures SubAll(r, s, i) == MatchAt(r, s, i).value.rep + SubAll(r, s, MatchAt(r, s, i).value.end)
  {
  }

  /** Where the rule does not match at i, the scan copies s[i] and moves on. */
  lemma SubAllAtNoMatch(r: Rule, s: string, i: nat)
    requires i < |s| && MatchAt(r, s, i).None?
    ensures SubAll(r, s, i) == [s[i]] + SubAll(r, s, i + 1)
  {
  }

  /**
   * Where the rule first matches at i, the stage copies the text before i, emits the
   * replacement and goes on after the match: the leftmost match wins.
   */
  lemma SubFirstMatch(r: Rule, s: string, i: nat, end: nat, rep: string)
    requires i < |s| && MatchAt(r, s, i) == Some(Match(end, rep))
    requires forall j: nat :: j < i ==> MatchAt(r, s, j).None?
    ensures end <= |s|
    ensures Sub(r, s) == s[..i] + rep + SubAll(r, s, end)
  {
    SubAllCopies(r, s, 0, i);
    SubAllAtMatch(r, s, i);
    assert s[0..i] == s[..i];
  }
}
