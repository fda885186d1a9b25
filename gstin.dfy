/** The labelled GSTIN pattern `(?i)GSTIN[:\s]*([A-Z0-9]{15})\b` and the
    leftmost-first search `re.search` performs with it, written as a
    hand-made matcher over ASCII text. */
module Gstin {
  import opened PyValues
  import opened Ascii

  const Label := "GSTIN"

  /** Length of the identifier the pattern captures. */
  const IdLength := 15

  /** The span `t[start..end]` of a match, what `group(0)` returns. */
  datatype Span = Span(start: nat, end: nat)

  /** The pattern matches exactly `t[s..e]`: the label in any case, a run of
      `:` and whitespace, fifteen letters or digits ending at `e`, and a word
      boundary at `e`. A match lies within the text and spans at least the
      label and the identifier. */
  predicate IsMatch(t: string, s: int, e: int): (b: bool)
    ensures b ==> 0 <= s && s + |Label| + IdLength <= e <= |t|
  {
    && LabelAt(t, s, Label)
    && Seps(t, s + |Label|, e - IdLength)
    && AllAlnum(t, e - IdLength, e)
    && WordEndsAt(t, e)
  }

  /** No match starts anywhere in `[a, b)`. */
  ghost predicate NoMatchBetween(t: string, a: int, b: int) {
    forall s, e :: a <= s < b ==> !IsMatch(t, s, e)
  }

  /** No match starts at `a` or later. */
  ghost predicate NoMatchFrom(t: string, a: int) {
    forall s, e :: a <= s ==> !IsMatch(t, s, e)
  }

  /** A match from a given start has only one possible end: the separator
      run and the identifier cannot trade characters. */
  lemma MatchEndUnique(t: string, s: int, e1: int, e2: int)
    requires IsMatch(t, s, e1) && IsMatch(t, s, e2)
    ensures e1 == e2
  {
    SepEndUnique(t, s + |Label|, e1 - IdLength);
    SepEndUnique(t, s + |Label|, e2 - IdLength);
  }

  /** The attempt to match at position `s`. */
  function MatchAt(t: string, s: nat): (r: Option<Span>)
    requires s <= |t|
    ensures r.Some? ==> r.val.start == s && IsMatch(t, s, r.val.end)
    ensures r.None? ==> forall e :: !IsMatch(t, s, e)
  {
    if !LabelAt(t, s, Label) then None
    else
      var j := SepEnd(t, s + |Label|);
      if j + IdLength <= |t| && AllAlnum(t, j, j + IdLength) && WordEndsAt(t, j + IdLength) then
        Some(Span(s, j + IdLength))
      else
        NoMatchAfterFailedAttempt(t, s, j);
        None
  }

  /** When the identifier does not follow the greedy separator run, no
      match starts at `s`. */
  lemma NoMatchAfterFailedAttempt(t: string, s: nat, j: nat)
    requires LabelAt(t, s, Label) && j == SepEnd(t, s + |Label|)
    requires !(j + IdLength <= |t| && AllAlnum(t, j, j + IdLength) && WordEndsAt(t, j + IdLength))
    ensures forall e :: !IsMatch(t, s, e)
  {
    forall e | IsMatch(t, s, e)
      ensures false
    {
      SepEndUnique(t, s + |Label|, e - IdLength);
    }
  }

  /** The leftmost match starting at `a` or later. */
  function SearchFrom(t: string, a: nat): (r: Option<Span>)
    requires a <= |t|
    ensures r.Some? ==> a <= r.val.start && IsMatch(t, r.val.start, r.val.end)
                        && NoMatchBetween(t, a, r.val.start)
    ensures r.None? ==> NoMatchFrom(t, a)
    decreases |t| - a
  {
    var m := MatchAt(t, a);
    if m.Some? then m
    else if a == |t| then None
    else
      var r := SearchFrom(t, a + 1);
      if r.Some? then NoMatchBetweenExtended(t, a, r.val.start); r
      else NoMatchFromExtended(t, a); r
  }

  lemma NoMatchBetweenExtended(t: string, a: int, b: int)
    requires forall e :: !IsMatch(t, a, e)
    requires NoMatchBetween(t, a + 1, b)
    ensures NoMatchBetween(t, a, b)
  {
  }

  lemma NoMatchFromExtended(t: string, a: int)
    requires forall e :: !IsMatch(t, a, e)
    requires NoMatchFrom(t, a + 1)
    ensures NoMatchFrom(t, a)
  {
  }

  /** `re.search(gstin_pattern, text)`: the leftmost match, if any. */
  function Search(t: string): (r: Option<Span>)
    ensures r.Some? ==> IsMatch(t, r.val.start, r.val.end) && NoMatchBetween(t, 0, r.val.start)
    ensures r.None? <==> NoMatchFrom(t, 0)
  {
    SearchFrom(t, 0)
  }

  /** `gstin_match.group(0)`: the whole matched text, label included. */
  function Find(t: string): (r: Option<string>)
    ensures r.Some? <==> exists s, e :: IsMatch(t, s, e)
    ensures r.Some? ==> exists s, e :: IsMatch(t, s, e) && NoMatchBetween(t, 0, s) && r.val == t[s..e]
  {
    match Search(t)
    case None => None
    case Some(m) => Some(t[m.start..m.end])
  }

  /** What a match's text looks like: the label in any case, separators,
      then fifteen letters or digits, so at least twenty characters. */
  lemma MatchedTextShape(t: string, s: int, e: int)
    requires IsMatch(t, s, e)
    ensures var g := t[s..e];
      && |g| >= |Label| + IdLength
      && LabelAt(g, 0, Label)
      && Seps(g, |Label|, |g| - IdLength)
      && AllAlnum(g, |g| - IdLength, |g|)
  {
    var g := t[s..e];
    assert forall k :: 0 <= k < |g| ==> g[k] == t[s + k];
  }

  /** The text `Find` returns is never the bare fifteen-character
      identifier: it always starts with the label. */
  lemma FoundIncludesLabel(t: string)
    requires Find(t).Some?
    ensures |Find(t).val| >= |Label| + IdLength && LabelAt(Find(t).val, 0, Label)
    ensures AllAlnum(Find(t).val, |Find(t).val| - IdLength, |Find(t).val|)
  {
    var m := Search(t).val;
    MatchedTextShape(t, m.start, m.end);
  }
}
