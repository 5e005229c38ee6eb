/** The bot's in-memory response history (`history.go` on `diceBae`): an
    append-only slice and a newest-first, key-filtered, limit-clamped search. */
module History {
  import opened Wrappers
  import opened Baepi
  import opened Seqs

  /** The most entries one search may return, whatever the caller asks for. */
  const MAX_HISTORY_ENTRIES: int := 1000

  predicate AllMatchDefined(h: seq<BaeHistoryEntry>, k: BaeHistoKey)
  {
    forall i :: 0 <= i < |h| ==> MatchDefined(h[i], k)
  }

  /** The entries of `h` that match `k`, the newest (last appended) first. */
  function NewestMatching(h: seq<BaeHistoryEntry>, k: BaeHistoKey): seq<BaeHistoryEntry>
    requires AllMatchDefined(h, k)
    decreases |h|
  {
    if h == [] then []
    else (if Matches(h[|h| - 1], k) then [h[|h| - 1]] else []) + NewestMatching(h[..|h| - 1], k)
  }

  function Min(a: int, b: int): int { if a < b then a else b }

  /** The requested count after clamping to `MAX_HISTORY_ENTRIES`. */
  function Clamp(n: int): int { Min(n, MAX_HISTORY_ENTRIES) }

  /** What `FetchHistory(k, n)` returns: the first `Clamp(n)` matching entries,
      newest first. With a clamped count of zero or less the scan still looks at
      the newest entry before it stops, so it returns that entry if it matches. */
  function FetchSpec(h: seq<BaeHistoryEntry>, k: BaeHistoKey, n: int): seq<BaeHistoryEntry>
    requires AllMatchDefined(h, k)
  {
    var limit := Clamp(n);
    var all := NewestMatching(h, k);
    if limit >= 1 then all[..Min(limit, |all|)]
    else if h != [] && Matches(h[|h| - 1], k) then [h[|h| - 1]]
    else []
  }

  /** The entries of `h`, newest first. */
  function Reverse<T>(h: seq<T>): (r: seq<T>)
    ensures |r| == |h|
    decreases |h|
  {
    if h == [] then [] else [h[|h| - 1]] + Reverse(h[..|h| - 1])
  }

  /** How many entries of `h` match `k`, counted oldest first. */
  function CountMatching(h: seq<BaeHistoryEntry>, k: BaeHistoKey): nat
    requires AllMatchDefined(h, k)
    decreases |h|
  {
    if h == [] then 0 else (if Matches(h[0], k) then 1 else 0) + CountMatching(h[1..], k)
  }

  /** Scanning the concatenation of two histories sees the newer part first. */
  lemma {:induction false} NewestMatchingAppend(x: seq<BaeHistoryEntry>, y: seq<BaeHistoryEntry>, k: BaeHistoKey)
    requires AllMatchDefined(x + y, k)
    ensures AllMatchDefined(x, k) && AllMatchDefined(y, k)
    ensures NewestMatching(x + y, k) == NewestMatching(y, k) + NewestMatching(x, k)
    decreases |y|
  {
    assert forall i :: 0 <= i < |x| ==> x[i] == (x + y)[i];
    assert forall i :: 0 <= i < |y| ==> y[i] == (x + y)[|x| + i];
    if y == [] {
      assert x + y == x;
    } else {
      var y' := y[..|y| - 1];
      var last := y[|y| - 1];
      assert (x + y)[..|x + y| - 1] == x + y';
      assert (x + y)[|x + y| - 1] == last;
      NewestMatchingAppend(x, y', k);
      var p := if Matches(last, k) then [last] else [];
      assert NewestMatching(x + y, k) == p + NewestMatching(x + y', k);
      assert NewestMatching(y, k) == p + NewestMatching(y', k);
    }
  }

  lemma {:induction false} NewestMatchingMembers(h: seq<BaeHistoryEntry>, k: BaeHistoKey)
    requires AllMatchDefined(h, k)
    ensures forall e :: e in NewestMatching(h, k) ==> e in h && MatchDefined(e, k) && Matches(e, k)
    decreases |h|
  {
    if h != [] {
      NewestMatchingMembers(h[..|h| - 1], k);
    }
  }

  lemma {:induction false} NewestMatchingIsSubsequence(h: seq<BaeHistoryEntry>, k: BaeHistoKey)
    requires AllMatchDefined(h, k)
    ensures IsSubsequence(NewestMatching(h, k), Reverse(h))
    decreases |h|
  {
    if h != [] {
      var rest := h[..|h| - 1];
      NewestMatchingIsSubsequence(rest, k);
      var r := Reverse(h);
      assert r[1..] == Reverse(rest);
      if Matches(h[|h| - 1], k) {
        var nm := NewestMatching(h, k);
        assert nm[1..] == NewestMatching(rest, k);
      } else {
        assert NewestMatching(h, k) == NewestMatching(rest, k);
        SubsequenceCons(NewestMatching(rest, k), h[|h| - 1], Reverse(rest));
      }
    }
  }

  lemma {:induction false} NewestMatchingCount(h: seq<BaeHistoryEntry>, k: BaeHistoKey)
    requires AllMatchDefined(h, k)
    ensures |NewestMatching(h, k)| == CountMatching(h, k)
    decreases |h|
  {
    if h != [] {
      NewestMatchingAppend([h[0]], h[1..], k);
      assert [h[0]] + h[1..] == h;
      NewestMatchingCount(h[1..], k);
    }
  }

  /** Every returned entry is a stored entry that matches the key. */
  lemma FetchEntriesMatch(h: seq<BaeHistoryEntry>, k: BaeHistoKey, n: int)
    requires AllMatchDefined(h, k)
    ensures forall e :: e in FetchSpec(h, k, n) ==> e in h && MatchDefined(e, k) && Matches(e, k)
  {
    NewestMatchingMembers(h, k);
    var all := NewestMatching(h, k);
    if Clamp(n) >= 1 {
      forall e | e in all[..Min(Clamp(n), |all|)]
        ensures e in all
      {
      }
    }
  }

  /** The result lists stored entries newest first, leaving some out. */
  lemma FetchIsNewestFirst(h: seq<BaeHistoryEntry>, k: BaeHistoKey, n: int)
    requires AllMatchDefined(h, k)
    ensures IsSubsequence(FetchSpec(h, k, n), Reverse(h))
  {
    var all := NewestMatching(h, k);
    NewestMatchingIsSubsequence(h, k);
    if Clamp(n) >= 1 {
      SubsequencePrefix(all, Reverse(h), Min(Clamp(n), |all|));
    } else if h != [] {
      var r := Reverse(h);
      assert r[0] == h[|h| - 1];
    }
  }

  /** For a positive count, exactly min(n, 1000, number of matches) entries come back. */
  lemma FetchCount(h: seq<BaeHistoryEntry>, k: BaeHistoKey, n: int)
    requires AllMatchDefined(h, k) && n >= 1
    ensures |FetchSpec(h, k, n)| == Min(Clamp(n), CountMatching(h, k))
    ensures |FetchSpec(h, k, n)| <= MAX_HISTORY_ENTRIES
  {
    NewestMatchingCount(h, k);
  }

  /** An empty history answers every search with nothing. */
  lemma FetchEmptyHistory(k: BaeHistoKey, n: int)
    ensures FetchSpec([], k, n) == []
  {
  }

  /** After an append, a search sees the new entry before all older ones. */
  lemma AppendedComesFirst(h: seq<BaeHistoryEntry>, e: BaeHistoryEntry, k: BaeHistoKey)
    requires AllMatchDefined(h, k) && MatchDefined(e, k)
    ensures AllMatchDefined(h + [e], k)
    ensures NewestMatching(h + [e], k) == (if Matches(e, k) then [e] else []) + NewestMatching(h, k)
  {
    assert forall i :: 0 <= i < |h| ==> (h + [e])[i] == h[i];
    assert (h + [e])[|h|] == e;
    NewestMatchingAppend(h, [e], k);
    assert [e][..0] == [];
  }

  /** The just-appended entry, if it matches, is the first one any search returns. */
  lemma AppendedIsNewest(h: seq<BaeHistoryEntry>, e: BaeHistoryEntry, k: BaeHistoKey, n: int)
    requires AllMatchDefined(h, k) && MatchDefined(e, k) && Matches(e, k)
    ensures AllMatchDefined(h + [e], k)
    ensures |FetchSpec(h + [e], k, n)| >= 1 && FetchSpec(h + [e], k, n)[0] == e
  {
    AppendedComesFirst(h, e, k);
  }

  /** One more step of the newest-first scan over the `i` newest entries. */
  lemma NewestMatchingStep(h: seq<BaeHistoryEntry>, k: BaeHistoKey, i: nat)
    requires AllMatchDefined(h, k) && i < |h|
    ensures AllMatchDefined(h[|h| - i..], k) && AllMatchDefined(h[|h| - 1 - i..], k)
    ensures NewestMatching(h[|h| - 1 - i..], k)
            == NewestMatching(h[|h| - i..], k) + (if Matches(h[|h| - 1 - i], k) then [h[|h| - 1 - i]] else [])
  {
    var e := h[|h| - 1 - i];
    assert [e] + h[|h| - i..] == h[|h| - 1 - i..];
    NewestMatchingAppend([e], h[|h| - i..], k);
    assert NewestMatching([e], k) == if Matches(e, k) then [e] else [];
  }

  /** The scan that reached the clamped count after `i` entries returned what `FetchSpec` says. */
  lemma FetchStopsAtLimit(h: seq<BaeHistoryEntry>, k: BaeHistoKey, n: int, i: nat)
    requires AllMatchDefined(h, k) && 1 <= i <= |h|
    requires AllMatchDefined(h[|h| - (i - 1)..], k) && AllMatchDefined(h[|h| - i..], k)
    requires i - 1 > 0 ==> |NewestMatching(h[|h| - (i - 1)..], k)| < Clamp(n)
    requires |NewestMatching(h[|h| - i..], k)| >= Clamp(n)
    requires NewestMatching(h[|h| - i..], k)
             == NewestMatching(h[|h| - (i - 1)..], k) + (if Matches(h[|h| - i], k) then [h[|h| - i]] else [])
    ensures NewestMatching(h[|h| - i..], k) == FetchSpec(h, k, n)
  {
    assert h[..|h| - i] + h[|h| - i..] == h;
    NewestMatchingAppend(h[..|h| - i], h[|h| - i..], k);
    if Clamp(n) < 1 {
      assert i == 1;
      assert h[|h| - (i - 1)..] == [];
    }
  }

  /** The scan that went through the whole history without reaching the count. */
  lemma FetchRunsOut(h: seq<BaeHistoryEntry>, k: BaeHistoKey, n: int, i: nat)
    requires AllMatchDefined(h, k) && i == |h|
    requires AllMatchDefined(h[|h| - i..], k)
    requires i > 0 ==> |NewestMatching(h[|h| - i..], k)| < Clamp(n)
    ensures NewestMatching(h[|h| - i..], k) == FetchSpec(h, k, n)
  {
    assert h[|h| - i..] == h;
  }

  /** The bot's state that the core sees: the response history. */
  class DiceBae {
    var history: seq<BaeHistoryEntry>

    /** `NewBae` starts with an empty history. */
    constructor ()
      ensures history == []
    {
      history := [];
    }

    /** `FetchHistory(k, n)`: scan from the newest entry, keep the matching ones,
        stop once the clamped count is reached. */
    method FetchHistory(k: BaeHistoKey, n: int) returns (ret: seq<BaeHistoryEntry>)
      requires AllMatchDefined(history, k)
      ensures ret == FetchSpec(history, k, n)
    {
      var h := history;
      var limit := n;
      if limit > MAX_HISTORY_ENTRIES {
        limit := MAX_HISTORY_ENTRIES;
      }
      ret := [];
      var i := 0;
      while i < |h|
        invariant 0 <= i <= |h| && limit == Clamp(n)
        invariant AllMatchDefined(h[|h| - i..], k)
        invariant ret == NewestMatching(h[|h| - i..], k)
        invariant i > 0 ==> |ret| < limit
      {
        var e := h[|h| - 1 - i];
        NewestMatchingStep(h, k, i);
        if Matches(e, k) {
          ret := ret + [e];
        }
        i := i + 1;
        if |ret| >= limit {
          FetchStopsAtLimit(h, k, n, i);
          break;
        }
      }
      if |ret| < limit {
        FetchRunsOut(h, k, n, i);
      }
    }

    /** `appendToHistory(he)`: one entry at the end, nothing else changes and
        nothing is evicted. */
    method AppendToHistory(he: BaeHistoryEntry)
      modifies this
      ensures history == old(history) + [he]
    {
      history := history + [he];
    }
  }
}
