/** The HSN pattern `HSN[:\s]*CODE[:\s]*(\d{4,8})|HSN[:\s]*(\d{4,8})`
    under IGNORECASE and the leftmost-first search `re.search` performs
    with it: at each start position the `CODE` alternative is tried before
    the plain one, and `\d{4,8}` takes as many digits as it can. */
module Hsn {
  import opened PyValues
  import opened Ascii

  const Label := "HSN"
  const CodeWord := "CODE"
  const MinDigits := 4
  const MaxDigits := 8

  /** Which alternative matched; `WithCode` records where `CODE` stands. */
  datatype Alt = WithCode(codeAt: nat) | Plain

  /** A match starting at `start` whose captured digits are
      `t[digitsAt..digitsAt + len]`. */
  datatype Match = Match(start: nat, alt: Alt, digitsAt: nat, len: nat)

  /** `\d{4,8}` at `k` takes exactly `n` digits: between four and eight,
      and no more digits follow unless eight were taken. */
  predicate GreedyDigits(t: string, k: int, n: int) {
    && MinDigits <= n <= MaxDigits
    && AllDigits(t, k, k + n)
    && (n == MaxDigits || k + n == |t| || !IsDigit(t[k + n]))
  }

  /** The first alternative matches at `s`, with `CODE` at `j` and the
      digits `t[k..k + n]`; the parts follow one another inside the text. */
  predicate CodeMatch(t: string, s: int, j: int, k: int, n: int): (b: bool)
    ensures b ==> 0 <= s && s + |Label| <= j && j + |CodeWord| <= k && k + n <= |t|
  {
    && LabelAt(t, s, Label)
    && Seps(t, s + |Label|, j)
    && LabelAt(t, j, CodeWord)
    && Seps(t, j + |CodeWord|, k)
    && GreedyDigits(t, k, n)
  }

  /** The second alternative matches at `s`, with the digits `t[k..k + n]`
      following the label inside the text. */
  predicate PlainMatch(t: string, s: int, k: int, n: int): (b: bool)
    ensures b ==> 0 <= s && s + |Label| <= k && k + n <= |t|
  {
    && LabelAt(t, s, Label)
    && Seps(t, s + |Label|, k)
    && GreedyDigits(t, k, n)
  }

  ghost predicate NoCodeMatchAt(t: string, s: int) {
    forall j, k, n :: !CodeMatch(t, s, j, k, n)
  }

  ghost predicate NoPlainMatchAt(t: string, s: int) {
    forall k, n :: !PlainMatch(t, s, k, n)
  }

  /** Neither alternative matches at `s`. */
  ghost predicate NoMatchAt(t: string, s: int) {
    NoCodeMatchAt(t, s) && NoPlainMatchAt(t, s)
  }

  ghost predicate NoMatchBetween(t: string, a: int, b: int) {
    forall s :: a <= s < b ==> NoMatchAt(t, s)
  }

  ghost predicate NoMatchFrom(t: string, a: int) {
    forall s :: a <= s ==> NoMatchAt(t, s)
  }

  /** `m` is the match the pattern reports at `m.start`: the `CODE`
      alternative when it matches there, the plain one only when it does not. */
  ghost predicate IsMatch(t: string, m: Match): (b: bool)
    ensures b ==> m.start + |Label| <= m.digitsAt && m.digitsAt + m.len <= |t|
    ensures b ==> MinDigits <= m.len <= MaxDigits
  {
    match m.alt
    case WithCode(j) => CodeMatch(t, m.start, j, m.digitsAt, m.len)
    case Plain => NoCodeMatchAt(t, m.start) && PlainMatch(t, m.start, m.digitsAt, m.len)
  }

  /** Every part of a `CODE` match is fixed by its start: the greedy
      separator runs and the greedy digit run. */
  lemma CodeMatchDetermined(t: string, s: int, j: int, k: int, n: int)
    requires CodeMatch(t, s, j, k, n)
    ensures j == SepEnd(t, s + |Label|)
    ensures k == SepEnd(t, j + |CodeWord|)
    ensures n == DigitRun(t, k, MaxDigits)
  {
    FirstLetterOfLabel(t, j, CodeWord);
    SepEndUnique(t, s + |Label|, j);
    assert IsDigit(t[k]);
    SepEndUnique(t, j + |CodeWord|, k);
    DigitRunUnique(t, k, MaxDigits, n);
  }

  /** Every part of a plain match is fixed by its start. */
  lemma PlainMatchDetermined(t: string, s: int, k: int, n: int)
    requires PlainMatch(t, s, k, n)
    ensures k == SepEnd(t, s + |Label|)
    ensures n == DigitRun(t, k, MaxDigits)
  {
    assert IsDigit(t[k]);
    SepEndUnique(t, s + |Label|, k);
    DigitRunUnique(t, k, MaxDigits, n);
  }

  /** The two alternatives never both match at one position: after the
      separators comes either `C` or a digit. */
  lemma AlternativesExclusive(t: string, s: int, j: int, k: int, n: int, k2: int, n2: int)
    requires CodeMatch(t, s, j, k, n)
    ensures !PlainMatch(t, s, k2, n2)
  {
    if PlainMatch(t, s, k2, n2) {
      CodeMatchDetermined(t, s, j, k, n);
      PlainMatchDetermined(t, s, k2, n2);
      FirstLetterOfLabel(t, j, CodeWord);
    }
  }

  /** The `CODE` alternative tried at `s`. */
  function CodeAltAt(t: string, s: nat): (r: Option<Match>)
    requires s <= |t|
    ensures r.Some? ==> r.val.start == s && r.val.alt.WithCode?
                        && CodeMatch(t, s, r.val.alt.codeAt, r.val.digitsAt, r.val.len)
    ensures r.None? ==> NoCodeMatchAt(t, s)
  {
    if !LabelAt(t, s, Label) then None
    else
      var j := SepEnd(t, s + |Label|);
      if !LabelAt(t, j, CodeWord) then
        NoCodeMatchWhenAttemptFails(t, s);
        None
      else
        var k := SepEnd(t, j + |CodeWord|);
        var n := DigitRun(t, k, MaxDigits);
        if n < MinDigits then
          NoCodeMatchWhenAttemptFails(t, s);
          None
        else
          Some(Match(s, WithCode(j), k, n))
  }

  lemma NoCodeMatchWhenAttemptFails(t: string, s: nat)
    requires LabelAt(t, s, Label)
    requires var j := SepEnd(t, s + |Label|);
      !LabelAt(t, j, CodeWord) || DigitRun(t, SepEnd(t, j + |CodeWord|), MaxDigits) < MinDigits
    ensures NoCodeMatchAt(t, s)
  {
    forall j, k, n | CodeMatch(t, s, j, k, n)
      ensures false
    {
      CodeMatchDetermined(t, s, j, k, n);
    }
  }

  /** The plain alternative tried at `s`. */
  function PlainAltAt(t: string, s: nat): (r: Option<Match>)
    requires s <= |t|
    ensures r.Some? ==> r.val.start == s && r.val.alt.Plain?
                        && PlainMatch(t, s, r.val.digitsAt, r.val.len)
    ensures r.None? ==> NoPlainMatchAt(t, s)
  {
    if !LabelAt(t, s, Label) then None
    else
      var k := SepEnd(t, s + |Label|);
      var n := DigitRun(t, k, MaxDigits);
      if n < MinDigits then
        NoPlainMatchWhenAttemptFails(t, s);
        None
      else
        Some(Match(s, Plain, k, n))
  }

  lemma NoPlainMatchWhenAttemptFails(t: string, s: nat)
    requires LabelAt(t, s, Label)
    requires DigitRun(t, SepEnd(t, s + |Label|), MaxDigits) < MinDigits
    ensures NoPlainMatchAt(t, s)
  {
    forall k, n | PlainMatch(t, s, k, n)
      ensures false
    {
      PlainMatchDetermined(t, s, k, n);
    }
  }

  /** The pattern tried at `s`: first alternative, then second. */
  function MatchAt(t: string, s: nat): (r: Option<Match>)
    requires s <= |t|
    ensures r.Some? ==> r.val.start == s && IsMatch(t, r.val)
    ensures r.None? ==> NoMatchAt(t, s)
  {
    var code := CodeAltAt(t, s);
    if code.Some? then code else PlainAltAt(t, s)
  }

  /** The leftmost match starting at `a` or later. */
  function SearchFrom(t: string, a: nat): (r: Option<Match>)
    requires a <= |t|
    ensures r.Some? ==> a <= r.val.start && IsMatch(t, r.val) && NoMatchBetween(t, a, r.val.start)
    ensures r.None? ==> NoMatchFrom(t, a)
    decreases |t| - a
  {
    var m := MatchAt(t, a);
    if m.Some? then m
    else if a == |t| then NoMatchPastEnd(t); None
    else
      var r := SearchFrom(t, a + 1);
      if r.Some? then NoMatchBetweenExtended(t, a, r.val.start); r else r
  }

  lemma NoMatchBetweenExtended(t: string, a: int, b: int)
    requires NoMatchAt(t, a) && NoMatchBetween(t, a + 1, b)
    ensures NoMatchBetween(t, a, b)
  {
  }

  /** No match (of either alternative) starts beyond the end of the text. */
  lemma NoMatchPastEnd(t: string)
    ensures forall s :: |t| < s ==> NoMatchAt(t, s)
  {
  }

  /** `re.search(hsn_pattern, text, re.IGNORECASE)`. */
  function Search(t: string): (r: Option<Match>)
    ensures r.Some? ==> IsMatch(t, r.val) && NoMatchBetween(t, 0, r.val.start)
    ensures r.None? <==> NoMatchFrom(t, 0)
  {
    var r := SearchFrom(t, 0);
    if r.Some? then MatchRefutesNoMatch(t, r.val); r else r
  }

  /** A match at a position refutes that nothing matches there. */
  lemma MatchRefutesNoMatch(t: string, m: Match)
    requires IsMatch(t, m)
    ensures !NoMatchAt(t, m.start)
  {
    match m.alt
    case WithCode(j) =>
      assert CodeMatch(t, m.start, j, m.digitsAt, m.len);
    case Plain =>
      assert PlainMatch(t, m.start, m.digitsAt, m.len);
  }

  /** The captured digits of a match: `group(1)` for the `CODE`
      alternative, `group(2)` for the plain one. */
  function Digits(t: string, m: Match): (r: string)
    requires IsMatch(t, m)
    ensures MinDigits <= |r| <= MaxDigits
    ensures forall i :: 0 <= i < |r| ==> IsDigit(r[i])
  {
    t[m.digitsAt..m.digitsAt + m.len]
  }

  /** A `CODE` match is the one the first alternative's attempt reports
      at its start. */
  lemma CodeAltFindsMatch(t: string, s: int, j: int, k: int, n: int)
    requires CodeMatch(t, s, j, k, n)
    ensures 0 <= s <= |t| && CodeAltAt(t, s) == Some(Match(s, WithCode(j), k, n))
  {
    CodeMatchDetermined(t, s, j, k, n);
  }

  /** A plain match is the one the second alternative's attempt reports at
      its start. */
  lemma PlainAltFindsMatch(t: string, s: int, k: int, n: int)
    requires PlainMatch(t, s, k, n)
    ensures 0 <= s <= |t| && PlainAltAt(t, s) == Some(Match(s, Plain, k, n))
  {
    PlainMatchDetermined(t, s, k, n);
  }

  /** The attempt at a position is exact: any match starting there is the
      one `MatchAt` reports. */
  lemma MatchAtFindsEveryMatch(t: string, m: Match)
    requires IsMatch(t, m)
    ensures m.start <= |t| && MatchAt(t, m.start) == Some(m)
  {
    match m.alt
    case WithCode(j) =>
      CodeAltFindsMatch(t, m.start, j, m.digitsAt, m.len);
    case Plain =>
      PlainAltFindsMatch(t, m.start, m.digitsAt, m.len);
      assert CodeAltAt(t, m.start) == None;
  }

  /** Two matches that start at the same position are the same match, so
      the code a match reports is fixed by where it starts. */
  lemma MatchUnique(t: string, m1: Match, m2: Match)
    requires IsMatch(t, m1) && IsMatch(t, m2) && m1.start == m2.start
    ensures m1 == m2
  {
    MatchAtFindsEveryMatch(t, m1);
    MatchAtFindsEveryMatch(t, m2);
  }

  /** `hsn_match.group(1) or hsn_match.group(2)`: the digits captured by
      the leftmost match. */
  function Find(t: string): (r: Option<string>)
    ensures r.Some? <==> exists s :: !NoMatchAt(t, s)
    ensures r.Some? ==> exists m :: IsMatch(t, m) && NoMatchBetween(t, 0, m.start) && r.val == t[m.digitsAt..m.digitsAt + m.len]
    ensures r.Some? ==> MinDigits <= |r.val| <= MaxDigits
    ensures r.Some? ==> forall i :: 0 <= i < |r.val| ==> IsDigit(r.val[i])
  {
    match Search(t)
    case None => None
    case Some(m) => MatchRefutesNoMatch(t, m); Some(Digits(t, m))
  }

  /** The converse of `Search`'s contract: a match with no match before it
      is the one `re.search` reports. */
  lemma SearchFindsLeftmost(t: string, m: Match)
    requires IsMatch(t, m) && NoMatchBetween(t, 0, m.start)
    ensures Search(t) == Some(m)
  {
    MatchRefutesNoMatch(t, m);
    assert Search(t).Some?;
    var r := Search(t).val;
    MatchRefutesNoMatch(t, r);
    assert r.start == m.start;
    MatchUnique(t, m, r);
  }

  /** The captured run is eight digits long exactly when at least eight
      digits follow the separators: a longer run yields its first eight. */
  lemma LongRunTruncated(t: string, m: Match)
    requires IsMatch(t, m)
    ensures m.len == MaxDigits <==> AllDigits(t, m.digitsAt, m.digitsAt + MaxDigits)
  {
  }
}
