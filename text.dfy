/** Lines of a text, as Python's `re` sees them under `re.M`: only '\n' ends a line. */
module Text {

  /** `^` under `re.M`: the start of the text, or just after a '\n' of the same text. */
  predicate AtLineStart(s: string, i: nat)
    requires i <= |s|
  {
    i == 0 || s[i - 1] == '\n'
  }

  /** No '\n' in s[a..b]: the span `.` can match character by character. */
  predicate NoNewlineIn(s: string, a: nat, b: nat)
    requires a <= b <= |s|
  {
    forall j :: a <= j < b ==> s[j] != '\n'
  }

  /** Where a greedy `.+` or `.*` started at i stops: the first '\n' at or after i, or the end. */
  function LineEnd(s: string, i: nat): (k: nat)
    requires i <= |s|
    ensures i <= k <= |s|
    ensures k < |s| ==> s[k] == '\n'
    ensures NoNewlineIn(s, i, k)
    decreases |s| - i
  {
    if i == |s| || s[i] == '\n' then i else LineEnd(s, i + 1)
  }

  /** The end of a line is determined by its two defining properties. */
  lemma LineEndUnique(s: string, i: nat, k: nat)
    requires i <= k <= |s|
    requires NoNewlineIn(s, i, k)
    requires k == |s| || s[k] == '\n'
    ensures LineEnd(s, i) == k
  {
  }
}
