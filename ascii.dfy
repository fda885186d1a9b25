/** ASCII character classes of Python's `re` as the two tax-ID patterns use
    them, and the greedy scanners the patterns' repetitions amount to. */
module Ascii {

  /** `\s` on ASCII text: tab, newline, vertical tab, form feed and
      carriage return (codes 9 to 13), and the separators `\x1c` to `\x1f`
      followed by the space (codes 28 to 32), all of which Python's
      `str.isspace` counts as whitespace. */
  predicate IsSpace(c: char) {
    '\t' <= c <= '\r' || 28 as char <= c <= ' '
  }

  /** `[:\s]`, the separator class after each label. */
  predicate IsSep(c: char) {
    c == ':' || IsSpace(c)
  }

  /** `\d` */
  predicate IsDigit(c: char) {
    '0' <= c <= '9'
  }

  predicate IsLetter(c: char) {
    'A' <= c <= 'Z' || 'a' <= c <= 'z'
  }

  /** `[A-Z0-9]` under IGNORECASE. */
  predicate IsAlnum(c: char) {
    IsLetter(c) || IsDigit(c)
  }

  /** `\w`, the class against which `\b` is decided. */
  predicate IsWordChar(c: char) {
    IsAlnum(c) || c == '_'
  }

  function Lower(c: char): char {
    if 'A' <= c <= 'Z' then (c as int + 32) as char else c
  }

  /** `word` occurs at position `i` of `t`, ignoring case. */
  predicate LabelAt(t: string, i: int, word: string) {
    0 <= i && i + |word| <= |t| &&
    forall k :: 0 <= k < |word| ==> Lower(t[i + k]) == Lower(word[k])
  }

  /** A word found at `i` starts with its own first letter, in either case. */
  lemma FirstLetterOfLabel(t: string, i: int, word: string)
    requires LabelAt(t, i, word) && |word| > 0
    ensures Lower(t[i]) == Lower(word[0])
  {
    assert Lower(t[i + 0]) == Lower(word[0]);
  }

  /** `t[a..b]` is a run of separators. */
  predicate Seps(t: string, a: int, b: int) {
    0 <= a <= b <= |t| && forall k :: a <= k < b ==> IsSep(t[k])
  }

  /** `t[a..b]` is all letters and digits. */
  predicate AllAlnum(t: string, a: int, b: int) {
    0 <= a <= b <= |t| && forall k :: a <= k < b ==> IsAlnum(t[k])
  }

  /** `t[a..b]` is all digits. */
  predicate AllDigits(t: string, a: int, b: int) {
    0 <= a <= b <= |t| && forall k :: a <= k < b ==> IsDigit(t[k])
  }

  /** `\b` at position `e`, right after a word character: the text ends
      there or the next character is not a word character. */
  predicate WordEndsAt(t: string, e: int) {
    0 <= e <= |t| && (e == |t| || !IsWordChar(t[e]))
  }

  /** Where the greedy `[:\s]*` starting at `a` stops: the longest run of
      separators from `a`. */
  function SepEnd(t: string, a: nat): (e: nat)
    requires a <= |t|
    ensures Seps(t, a, e)
    ensures e == |t| || !IsSep(t[e])
    decreases |t| - a
  {
    if a < |t| && IsSep(t[a]) then SepEnd(t, a + 1) else a
  }

  /** A separator run that cannot be extended is the one `SepEnd` finds, so
      backtracking into `[:\s]*` can never produce a second match. */
  lemma SepEndUnique(t: string, a: nat, b: int)
    requires a <= |t|
    requires Seps(t, a, b) && (b == |t| || !IsSep(t[b]))
    ensures SepEnd(t, a) == b
  {
  }

  /** How many digits the greedy `\d{..limit}` takes at `k`. */
  function DigitRun(t: string, k: nat, limit: nat): (n: nat)
    requires k <= |t|
    ensures n <= limit && AllDigits(t, k, k + n)
    ensures n == limit || k + n == |t| || !IsDigit(t[k + n])
    decreases limit
  {
    if limit == 0 || k == |t| || !IsDigit(t[k]) then 0 else 1 + DigitRun(t, k + 1, limit - 1)
  }

  /** A digit run that is as long as the limit allows is the one
      `DigitRun` finds. */
  lemma DigitRunUnique(t: string, k: nat, limit: nat, n: nat)
    requires k <= |t|
    requires n <= limit && AllDigits(t, k, k + n)
    requires n == limit || k + n == |t| || !IsDigit(t[k + n])
    ensures DigitRun(t, k, limit) == n
  {
  }
}
