/** The roll pattern `(\d*)\s*[dD](\d+)\s*([+-]\s*\d+)?` and Go's
    `FindAllStringSubmatch` over it, written out as a leftmost-first scanner.
    Go's regexp classes are ASCII: `\d` is [0-9] and `\s` is [\t\n\f\r ]. */
module RollScan {
  import opened Wrappers
  import opened RollTypes
  import Strconv

  predicate IsDigit(c: char) { Strconv.IsDigit(c) }
  predicate IsSpace(c: char) { c == '\t' || c == '\n' || c == '\U{0C}' || c == '\r' || c == ' ' }
  predicate IsSign(c: char) { c == '+' || c == '-' }
  predicate IsD(c: char) { c == 'd' || c == 'D' }

  /** Every character of s[i..j] is a digit. */
  predicate Digits(s: string, i: nat, j: nat)
    requires i <= j <= |s|
  {
    forall k {:trigger IsDigit(s[k])} :: i <= k < j ==> IsDigit(s[k])
  }

  /** Every character of s[i..j] is a space. */
  predicate Spaces(s: string, i: nat, j: nat)
    requires i <= j <= |s|
  {
    forall k {:trigger IsSpace(s[k])} :: i <= k < j ==> IsSpace(s[k])
  }

  /** The end of the longest run of digits that starts at `i`. */
  function DigitRun(s: string, i: nat): (j: nat)
    requires i <= |s|
    ensures i <= j <= |s| && Digits(s, i, j)
    ensures j < |s| ==> !IsDigit(s[j])
    decreases |s| - i
  {
    if i < |s| && IsDigit(s[i]) then DigitRun(s, i + 1) else i
  }

  /** The end of the longest run of spaces that starts at `i`. */
  function SpaceRun(s: string, i: nat): (j: nat)
    requires i <= |s|
    ensures i <= j <= |s| && Spaces(s, i, j)
    ensures j < |s| ==> !IsSpace(s[j])
    decreases |s| - i
  {
    if i < |s| && IsSpace(s[i]) then SpaceRun(s, i + 1) else i
  }

  /** A run that cannot be extended is the longest run. */
  lemma {:induction false} DigitRunUnique(s: string, i: nat, j: nat)
    requires i <= j <= |s| && Digits(s, i, j) && (j < |s| ==> !IsDigit(s[j]))
    ensures DigitRun(s, i) == j
    decreases j - i
  {
    if i < j {
      DigitRunUnique(s, i + 1, j);
    }
  }

  lemma {:induction false} SpaceRunUnique(s: string, i: nat, j: nat)
    requires i <= j <= |s| && Spaces(s, i, j) && (j < |s| ==> !IsSpace(s[j]))
    ensures SpaceRun(s, i) == j
    decreases j - i
  {
    if i < j {
      SpaceRunUnique(s, i + 1, j);
    }
  }

  /** The split points of one match in a text: s[start..mulEnd] are the
      multiplier digits, s[mulEnd..dAt] spaces, s[dAt] the d, s[dAt+1..dieEnd]
      the die digits, s[dieEnd..wsEnd] spaces, and s[wsEnd..end] the optional
      modifier group: a sign, spaces up to modDigits, then digits. */
  datatype Match = Match(start: nat, mulEnd: nat, dAt: nat, dieEnd: nat, wsEnd: nat, modDigits: nat, end: nat)

  /** s[m.start..m.end] is a match of the roll pattern, split as `m` says. */
  predicate WellFormed(s: string, m: Match)
  {
    && m.start <= m.mulEnd <= m.dAt && m.dAt + 1 < m.dieEnd <= m.wsEnd <= m.modDigits <= m.end <= |s|
    && Digits(s, m.start, m.mulEnd)
    && Spaces(s, m.mulEnd, m.dAt)
    && IsD(s[m.dAt])
    && Digits(s, m.dAt + 1, m.dieEnd)
    && Spaces(s, m.dieEnd, m.wsEnd)
    && (|| (m.modDigits == m.end == m.wsEnd)
        || (m.wsEnd < m.modDigits < m.end && IsSign(s[m.wsEnd])
            && Spaces(s, m.wsEnd + 1, m.modDigits) && Digits(s, m.modDigits, m.end)))
  }

  /** A modifier group can start at `i`: a sign, spaces, then a digit. */
  predicate GroupAt(s: string, i: nat)
    requires i <= |s|
  {
    i < |s| && IsSign(s[i]) && SpaceRun(s, i + 1) < |s| && IsDigit(s[SpaceRun(s, i + 1)])
  }

  /** Among the matches that start where `m` does, `m` is the one Go's
      leftmost-first matcher picks: every quantifier takes as much as it can, and
      the optional group is taken whenever it can be. */
  predicate Greedy(s: string, m: Match)
    requires WellFormed(s, m)
  {
    && (m.dieEnd < |s| ==> !IsDigit(s[m.dieEnd]))
    && (m.wsEnd < |s| ==> !IsSpace(s[m.wsEnd]))
    && (m.end > m.wsEnd <==> GroupAt(s, m.wsEnd))
    && (m.end > m.wsEnd && m.end < |s| ==> !IsDigit(s[m.end]))
  }

  /** No match of the pattern starts at `p`. */
  ghost predicate NoMatchFrom(s: string, p: nat)
  {
    forall m :: WellFormed(s, m) ==> m.start != p
  }

  /** No match of the pattern starts in [lo, hi). */
  ghost predicate NoMatchBetween(s: string, lo: nat, hi: nat)
  {
    forall m :: WellFormed(s, m) && lo <= m.start ==> hi <= m.start
  }

  /** The match Go picks at position `p`, if any. */
  function MatchAt(s: string, p: nat): (r: Option<Match>)
    requires p <= |s|
    ensures r.Some? ==> r.value.start == p && WellFormed(s, r.value) && Greedy(s, r.value)
    ensures r.None? ==> NoMatchFrom(s, p)
  {
    var mulEnd := DigitRun(s, p);
    var dAt := SpaceRun(s, mulEnd);
    if dAt + 1 < |s| && IsD(s[dAt]) && IsDigit(s[dAt + 1]) then
      Some(MatchFromD(s, p, mulEnd, dAt))
    else
      NoMatchAt(s, p);
      None
  }

  /** The rest of the match once the multiplier and the d are found: the
      longest die digits, the longest spaces, and the modifier group when
      one can start there. */
  function MatchFromD(s: string, p: nat, mulEnd: nat, dAt: nat): (m: Match)
    requires p <= mulEnd <= dAt && dAt + 1 < |s|
    requires Digits(s, p, mulEnd) && Spaces(s, mulEnd, dAt) && IsD(s[dAt]) && IsDigit(s[dAt + 1])
    ensures m.start == p && m.mulEnd == mulEnd && m.dAt == dAt && WellFormed(s, m) && Greedy(s, m)
  {
    var dieEnd := DigitRun(s, dAt + 1);
    var wsEnd := SpaceRun(s, dieEnd);
    if GroupAt(s, wsEnd) then
      var modDigits := SpaceRun(s, wsEnd + 1);
      Match(p, mulEnd, dAt, dieEnd, wsEnd, modDigits, DigitRun(s, modDigits))
    else
      Match(p, mulEnd, dAt, dieEnd, wsEnd, wsEnd, wsEnd)
  }

  /** A match starting at `p` must take the longest digit run and then the
      longest space run before its d, so the scanner finds one when there is one. */
  lemma NoMatchAt(s: string, p: nat)
    requires p <= |s|
    requires var dAt := SpaceRun(s, DigitRun(s, p)); !(dAt + 1 < |s| && IsD(s[dAt]) && IsDigit(s[dAt + 1]))
    ensures NoMatchFrom(s, p)
  {
    forall m | WellFormed(s, m) && m.start == p
      ensures false
    {
      if m.mulEnd < m.dAt {
        assert IsSpace(s[m.mulEnd]);
      }
      DigitRunUnique(s, p, m.mulEnd);
      SpaceRunUnique(s, m.mulEnd, m.dAt);
    }
  }

  /** `ms` is a chain of matches found from `from` on: each one a greedy match
      that starts at or after the end of the one before. */
  predicate Chain(s: string, from: nat, ms: seq<Match>)
    decreases |ms|
  {
    || ms == []
    || (&& WellFormed(s, ms[0]) && Greedy(s, ms[0]) && from <= ms[0].start
        && Chain(s, ms[0].end, ms[1..]))
  }

  /** All non-overlapping matches from position `from` on, leftmost first:
      `FindAllStringSubmatch(s[from..], -1)` with positions kept. */
  function Scan(s: string, from: nat): (ms: seq<Match>)
    requires from <= |s|
    ensures Chain(s, from, ms)
    decreases |s| - from
  {
    if from == |s| then
      []
    else
      match MatchAt(s, from)
      case Some(m) =>
        var rest := Scan(s, m.end);
        assert ([m] + rest)[1..] == rest;
        [m] + rest
      case None => Scan(s, from + 1)
  }

  lemma {:induction false} ChainPointwise(s: string, from: nat, ms: seq<Match>)
    requires Chain(s, from, ms)
    ensures forall i :: 0 <= i < |ms| ==> WellFormed(s, ms[i]) && Greedy(s, ms[i]) && from <= ms[i].start
    ensures forall i :: 0 <= i < |ms| - 1 ==> ms[i].end <= ms[i + 1].start
    decreases |ms|
  {
    if ms != [] {
      var rest := ms[1..];
      ChainPointwise(s, ms[0].end, rest);
      forall i | 0 <= i < |ms|
        ensures WellFormed(s, ms[i]) && Greedy(s, ms[i]) && from <= ms[i].start
      {
        if i > 0 {
          assert ms[i] == rest[i - 1];
        }
      }
      forall i | 0 <= i < |ms| - 1
        ensures ms[i].end <= ms[i + 1].start
      {
        assert ms[i + 1] == rest[i];
        if i > 0 {
          assert ms[i] == rest[i - 1];
        }
      }
    }
  }

  /** Every match the scan finds is a greedy match of the pattern at or after
      `from`, and the matches come in text order without overlapping. */
  lemma ScanSound(s: string, from: nat)
    requires from <= |s|
    ensures var ms := Scan(s, from);
            && (forall i :: 0 <= i < |ms| ==> WellFormed(s, ms[i]) && Greedy(s, ms[i]) && from <= ms[i].start)
            && (forall i :: 0 <= i < |ms| - 1 ==> ms[i].end <= ms[i + 1].start)
  {
    ChainPointwise(s, from, Scan(s, from));
  }

  /** The scan misses nothing at its start: the first match found is the
      leftmost match from `from` on, and finding none means there is none. */
  lemma {:induction false} ScanStartsLeftmost(s: string, from: nat)
    requires from <= |s|
    ensures var ms := Scan(s, from);
            && (ms == [] ==> NoMatchBetween(s, from, |s|))
            && (ms != [] ==> NoMatchBetween(s, from, ms[0].start))
    decreases |s| - from
  {
    if from < |s| {
      match MatchAt(s, from)
      case None =>
        ScanStartsLeftmost(s, from + 1);
        StartsAfterMiss(s, from);
      case Some(m) =>
        StartsAtMatch(s, from, m);
    }
  }

  /** Where no match starts, the scan moves on by one character. */
  lemma ScanSkipsMiss(s: string, from: nat)
    requires from < |s| && MatchAt(s, from).None?
    ensures Scan(s, from) == Scan(s, from + 1)
  {
  }

  /** A match found at `from` is the first one found. */
  lemma StartsAtMatch(s: string, from: nat, m: Match)
    requires from < |s| && MatchAt(s, from) == Some(m)
    ensures var ms := Scan(s, from); ms != [] && ms[0] == m && NoMatchBetween(s, from, ms[0].start)
  {
    assert Scan(s, from) == [m] + Scan(s, m.end);
  }

  /** When no match starts at `from`, the first match found from `from` is
      the first match found from the next position. */
  lemma StartsAfterMiss(s: string, from: nat)
    requires from < |s| && MatchAt(s, from).None?
    requires var ms := Scan(s, from + 1);
             && (ms == [] ==> NoMatchBetween(s, from + 1, |s|))
             && (ms != [] ==> NoMatchBetween(s, from + 1, ms[0].start))
    ensures var ms := Scan(s, from);
            && (ms == [] ==> NoMatchBetween(s, from, |s|))
            && (ms != [] ==> NoMatchBetween(s, from, ms[0].start))
  {
    var ms := Scan(s, from);
    ScanSkipsMiss(s, from);
    var hi := if ms == [] then |s| else ms[0].start;
    forall m | WellFormed(s, m) && from <= m.start
      ensures hi <= m.start
    {
      assert m.start != from;
    }
  }

  /** No match starts after the end of the last of `ms`. */
  ghost predicate NothingAfterLast(s: string, ms: seq<Match>)
  {
    ms != [] ==> NoMatchBetween(s, ms[|ms| - 1].end, |s|)
  }

  /** Nothing matches after the last match found. */
  lemma {:induction false} ScanEndsLeftmost(s: string, from: nat)
    requires from <= |s|
    ensures NothingAfterLast(s, Scan(s, from))
    decreases |s| - from
  {
    if from < |s| {
      match MatchAt(s, from)
      case None =>
        ScanEndsLeftmost(s, from + 1);
        EndsAfterMiss(s, from);
      case Some(m) =>
        ScanEndsLeftmost(s, m.end);
        EndsAfterFirst(s, from, m);
    }
  }

  /** When no match starts at `from`, the last match found from `from` is the
      last match found from the next position. */
  lemma EndsAfterMiss(s: string, from: nat)
    requires from < |s| && MatchAt(s, from).None?
    requires NothingAfterLast(s, Scan(s, from + 1))
    ensures NothingAfterLast(s, Scan(s, from))
  {
    ScanSkipsMiss(s, from);
  }

  /** The last match found after a first match `m` is the last match found
      from its end, or `m` itself when nothing follows it. */
  lemma EndsAfterFirst(s: string, from: nat, m: Match)
    requires from < |s| && MatchAt(s, from) == Some(m)
    requires NothingAfterLast(s, Scan(s, m.end))
    ensures NothingAfterLast(s, Scan(s, from))
  {
    var ms := Scan(s, from);
    var rest := Scan(s, m.end);
    assert ms == [m] + rest;
    if rest == [] {
      ScanStartsLeftmost(s, m.end);
    } else {
      assert ms[|ms| - 1] == rest[|rest| - 1];
    }
  }

  /** Between the end of one match found and the start of the next, no match starts. */
  lemma {:induction false} ScanGapsEmpty(s: string, from: nat)
    requires from <= |s|
    ensures var ms := Scan(s, from);
            forall i :: 0 <= i < |ms| - 1 ==> NoMatchBetween(s, ms[i].end, ms[i + 1].start)
    decreases |s| - from
  {
    if from < |s| {
      match MatchAt(s, from)
      case None =>
        ScanGapsEmpty(s, from + 1);
        ScanSkipsMiss(s, from);
      case Some(m) =>
        ScanGapsEmpty(s, m.end);
        GapsAfterFirst(s, from, m);
    }
  }

  lemma GapsAfterFirst(s: string, from: nat, m: Match)
    requires from < |s| && MatchAt(s, from) == Some(m)
    requires var rest := Scan(s, m.end);
             forall i :: 0 <= i < |rest| - 1 ==> NoMatchBetween(s, rest[i].end, rest[i + 1].start)
    ensures var ms := Scan(s, from);
            forall i :: 0 <= i < |ms| - 1 ==> NoMatchBetween(s, ms[i].end, ms[i + 1].start)
  {
    var rest := Scan(s, m.end);
    ScanStartsLeftmost(s, m.end);
    var ms := Scan(s, from);
    assert ms == [m] + rest;
    forall i | 0 <= i < |ms| - 1
      ensures NoMatchBetween(s, ms[i].end, ms[i + 1].start)
    {
      if i > 0 {
        assert ms[i] == rest[i - 1] && ms[i + 1] == rest[i];
      }
    }
  }

  /** The scan finds something exactly when the pattern occurs in the text. */
  lemma ScanFindsAny(s: string)
    ensures Scan(s, 0) != [] <==> exists m :: WellFormed(s, m)
  {
    var ms := Scan(s, 0);
    if ms == [] {
      ScanStartsLeftmost(s, 0);
    } else {
      assert WellFormed(s, ms[0]);
    }
  }

  /** The three submatches of a match: the multiplier digits, the die digits,
      and the whole modifier group (sign and spaces included; "" when absent). */
  function TokensOf(s: string, m: Match): RollTokens
    requires m.start <= m.mulEnd <= |s| && m.dAt + 1 <= m.dieEnd <= |s| && m.wsEnd <= m.end <= |s|
  {
    RollTokens(s[m.start..m.mulEnd], s[m.dAt + 1..m.dieEnd], s[m.wsEnd..m.end])
  }

  /** The submatches of every match in `msg`, in match order. */
  function FindAllTokens(msg: string): (toks: seq<RollTokens>)
    ensures |toks| == |Scan(msg, 0)|
  {
    var ms := Scan(msg, 0);
    ChainPointwise(msg, 0, ms);
    assert forall i :: 0 <= i < |ms| ==> WellFormed(msg, ms[i]);
    seq(|ms|, i requires 0 <= i < |ms| => TokensOf(msg, ms[i]))
  }
}
