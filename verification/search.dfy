/**
  The best-match search: one pass over a frequency-sorted candidate list that
  returns the candidates at the desired frequency, or the candidates at the
  nearest frequencies below and above it.
 */
module Search {
  import opened Clock
  import opened Ordering
  import opened Seqs

  datatype Option<T> = None | Some(value: T)

  /** Frequencies never decrease along the list, as after the tool's full sort. */
  predicate SortedByFreq(s: seq<Candidate>)
  {
    forall i, j :: 0 <= i < j < |s| ==> s[i].freq <= s[j].freq
  }

  /** The test "is at frequency `f`". */
  function FreqIs(f: real): Candidate -> bool
  {
    (c: Candidate) => c.freq == f
  }

  /** The candidates of `s` at frequency `f`, in list order. */
  function AtFreq(s: seq<Candidate>, f: real): seq<Candidate>
  {
    Filter(s, FreqIs(f))
  }

  /** AtFreq keeps exactly the candidates at frequency `f`. */
  lemma AtFreqMembers(s: seq<Candidate>, f: real)
    ensures forall c :: c in AtFreq(s, f) <==> c in s && c.freq == f
  {
    FilterMembers(s, FreqIs(f));
  }

  /**
    In a sorted list, a maximal run of equal frequencies is everything at
    that frequency.
   */
  lemma AtFreqRun(s: seq<Candidate>, f: real, a: int, e: int)
    requires SortedByFreq(s)
    requires 0 <= a <= e <= |s|
    requires forall k :: a <= k < e ==> s[k].freq == f
    requires a == 0 || s[a - 1].freq < f
    requires e == |s| || s[e].freq > f
    ensures AtFreq(s, f) == s[a..e]
  {
    forall k | 0 <= k < |s| ensures FreqIs(f)(s[k]) <==> a <= k < e {
      if k < a {
        assert s[k].freq <= s[a - 1].freq;
      } else if k >= e {
        assert s[e].freq <= s[k].freq;
      }
    }
    FilterSlice(s, FreqIs(f), a, e);
  }

  /** `f` is the largest frequency in `s` strictly below `v`. */
  ghost predicate IsMaxBelow(s: seq<Candidate>, v: real, f: real)
  {
    && f < v
    && (exists i :: 0 <= i < |s| && s[i].freq == f)
    && (forall i :: 0 <= i < |s| && s[i].freq < v ==> s[i].freq <= f)
  }

  /** `f` is the smallest frequency in `s` at or above `v`. */
  ghost predicate IsMinAtOrAbove(s: seq<Candidate>, v: real, f: real)
  {
    && f >= v
    && (exists i :: 0 <= i < |s| && s[i].freq == f)
    && (forall i :: 0 <= i < |s| && s[i].freq >= v ==> f <= s[i].freq)
  }

  /** The largest frequency below `v`, if any. */
  function MaxBelow(s: seq<Candidate>, v: real): (r: Option<real>)
    ensures r.None? <==> forall i :: 0 <= i < |s| ==> s[i].freq >= v
    ensures r.Some? ==> IsMaxBelow(s, v, r.value)
    decreases |s|
  {
    if |s| == 0 then None
    else
      var rest := MaxBelow(s[1..], v);
      assert forall i :: 1 <= i < |s| ==> s[i] == s[1..][i - 1];
      if s[0].freq >= v then rest
      else if rest.Some? && rest.value >= s[0].freq then rest
      else
        assert forall i :: 1 <= i < |s| && s[i].freq < v ==> s[i].freq <= s[0].freq by {
          if rest.Some? {
            forall i | 1 <= i < |s| && s[i].freq < v ensures s[i].freq <= s[0].freq {
              assert s[1..][i - 1].freq <= rest.value;
            }
          }
        }
        Some(s[0].freq)
  }

  /** The smallest frequency at or above `v`, if any. */
  function MinAtOrAbove(s: seq<Candidate>, v: real): (r: Option<real>)
    ensures r.None? <==> forall i :: 0 <= i < |s| ==> s[i].freq < v
    ensures r.Some? ==> IsMinAtOrAbove(s, v, r.value)
    decreases |s|
  {
    if |s| == 0 then None
    else
      var rest := MinAtOrAbove(s[1..], v);
      assert forall i :: 1 <= i < |s| ==> s[i] == s[1..][i - 1];
      if s[0].freq < v then rest
      else if rest.Some? && rest.value <= s[0].freq then rest
      else
        assert forall i :: 1 <= i < |s| && s[i].freq >= v ==> s[0].freq <= s[i].freq by {
          if rest.Some? {
            forall i | 1 <= i < |s| && s[i].freq >= v ensures s[0].freq <= s[i].freq {
              assert rest.value <= s[1..][i - 1].freq;
            }
          }
        }
        Some(s[0].freq)
  }

  /**
    Where a sorted list crosses `v` at index `i`, the nearest frequency below
    is the one just before `i` and the nearest at or above is the one at `i`.
   */
  lemma SplitBounds(s: seq<Candidate>, v: real, i: int)
    requires SortedByFreq(s)
    requires 0 <= i <= |s|
    requires forall k :: 0 <= k < i ==> s[k].freq < v
    requires i == |s| || s[i].freq >= v
    ensures MaxBelow(s, v) == if i == 0 then None else Some(s[i - 1].freq)
    ensures MinAtOrAbove(s, v) == if i == |s| then None else Some(s[i].freq)
  {
    forall j | i <= j < |s| ensures s[j].freq >= v {
      assert s[i].freq <= s[j].freq;
    }
    SplitBelow(s, v, i);
    SplitAbove(s, v, i);
  }

  lemma SplitBelow(s: seq<Candidate>, v: real, i: int)
    requires SortedByFreq(s)
    requires 0 <= i <= |s|
    requires forall k :: 0 <= k < i ==> s[k].freq < v
    requires forall k :: i <= k < |s| ==> s[k].freq >= v
    ensures MaxBelow(s, v) == if i == 0 then None else Some(s[i - 1].freq)
  {
    var lo := MaxBelow(s, v);
    if i > 0 {
      var k :| 0 <= k < |s| && s[k].freq == lo.value;
      assert s[k].freq <= s[i - 1].freq;
    }
  }

  lemma SplitAbove(s: seq<Candidate>, v: real, i: int)
    requires SortedByFreq(s)
    requires 0 <= i <= |s|
    requires forall k :: 0 <= k < i ==> s[k].freq < v
    requires forall k :: i <= k < |s| ==> s[k].freq >= v
    ensures MinAtOrAbove(s, v) == if i == |s| then None else Some(s[i].freq)
  {
    var hi := MinAtOrAbove(s, v);
    if i < |s| {
      assert s[i].freq >= v;
      var k :| 0 <= k < |s| && s[k].freq == hi.value;
      assert i <= k;
      assert s[i].freq <= s[k].freq;
    }
  }

  /** Whatever frequency is selected, the selection is drawn from the list. */
  lemma AtFreqWithin(s: seq<Candidate>)
    ensures forall f, c :: c in AtFreq(s, f) ==> c in s
  {
    forall f ensures forall c :: c in AtFreq(s, f) ==> c in s {
      AtFreqMembers(s, f);
    }
  }

  /**
    A declarative statement of what the search selects before clean-up: the
    candidates at `desired` when there are any; otherwise the first candidate
    when `desired` is below every frequency, the candidates at the nearest
    frequency below when it is above every frequency, and the candidates at
    the nearest frequencies below and above when it lies between them.
   */
  ghost function BestReference(desired: real, clocks: seq<Candidate>): (r: seq<Candidate>)
    requires |clocks| > 0
    ensures forall c :: c in r ==> c in clocks
  {
    var lo, hi := MaxBelow(clocks, desired), MinAtOrAbove(clocks, desired);
    AtFreqWithin(clocks);
    if hi == Some(desired) then AtFreq(clocks, desired)
    else if lo.None? then [clocks[0]]
    else if hi.None? then AtFreq(clocks, lo.value)
    else AtFreq(clocks, lo.value) + AtFreq(clocks, hi.value)
  }

  /** A run that starts with its own first element repeated cleans up to the run's clean-up. */
  lemma NormalizeRepeatedHead(x: Candidate, t: seq<Candidate>)
    requires |t| > 0 && t[0] == x
    ensures Normalize([x] + t) == Normalize(t)
  {
    assert [x] + t == [x, x] + t[1..];
    assert t == [x] + t[1..];
    DedupRepeatedHead(x, t[1..]);
  }

  /**
    The "gather nicely" step: the run at or above `desired` alone when it hits
    `desired` exactly, otherwise the run below followed by the run above,
    unless both start with a candidate at the same frequency (the scan never
    moved past the first candidate, or never reached `desired`).
   */
  function Gather(desired: real, low: seq<Candidate>, high: seq<Candidate>): (r: seq<Candidate>)
    requires |low| > 0 && |high| > 0
    ensures |r| > 0
    ensures forall c :: c in r ==> c in low || c in high
    ensures high[0].freq == desired ==> forall c :: c in r <==> c in high
    ensures high[0].freq != desired ==> forall c :: c in low ==> c in r
    ensures high[0].freq != desired && high[0].freq != low[0].freq ==> forall c :: c in high ==> c in r
    ensures high[0].freq != desired && high[0].freq == low[0].freq ==> forall c :: c in r <==> c in low
    ensures high[0].freq != desired ==> |low| <= |r| && r[..|low|] == low
  {
    if high[0].freq - desired == 0.0 then high
    else if high[0].freq != low[0].freq then low + high
    else low
  }

  /**
    What the scan of `find_best_multipliers` knows when it stops at index `i`:
    every earlier frequency is below `desired`, `low` holds the run ending at
    `i - 1` that starts at `start` (with `s[0]` in front once more when the
    seed frequency 1 matched it), and the run at or above `desired` starts at
    `i` and ends before `stop`.
   */
  ghost predicate ScanOutcome(desired: real, s: seq<Candidate>, i: int, start: int, doubled: bool, stop: int)
  {
    && |s| > 0 && SortedByFreq(s)
    && 0 <= start <= i <= |s|
    && (forall k :: 0 <= k < i ==> s[k].freq < desired)
    && (i < |s| ==> s[i].freq >= desired)
    && (i > 0 ==> start < i && forall k :: start <= k < i ==> s[k].freq == s[i - 1].freq)
    && (start > 0 ==> s[start - 1].freq < s[start].freq)
    && (doubled ==> start == 0 && i > 0)
    && (i < |s| ==> i < stop <= |s| && (forall k :: i <= k < stop ==> s[k].freq == s[i].freq)
                    && (stop == |s| || s[stop].freq > s[i].freq))
  }

  /** The `low` list when the scan stops at `i`. */
  function LowRun(s: seq<Candidate>, i: int, start: int, doubled: bool): seq<Candidate>
    requires 0 <= start <= i <= |s| && |s| > 0
  {
    if i == 0 then [s[0]] else (if doubled then [s[0]] else []) + s[start..i]
  }

  /** The `high` list when the scan stops at `i`. */
  function HighRun(s: seq<Candidate>, i: int, stop: int): seq<Candidate>
    requires 0 <= i <= |s| && |s| > 0
    requires i < |s| ==> i < stop <= |s|
  {
    if i < |s| then s[i..stop] else [s[|s| - 1]]
  }

  /** Exact hit: the gathered list is the run at `desired`, as the reference says. */
  lemma GatherExact(desired: real, s: seq<Candidate>, i: int, start: int, doubled: bool, stop: int)
    requires ScanOutcome(desired, s, i, start, doubled, stop)
    requires i < |s| && s[i].freq == desired
    ensures Gather(desired, LowRun(s, i, start, doubled), HighRun(s, i, stop)) == BestReference(desired, s)
  {
    SplitBounds(s, desired, i);
    AtFreqRun(s, desired, i, stop);
  }

  /** Below every frequency: only the first candidate. */
  lemma GatherBelowAll(desired: real, s: seq<Candidate>, start: int, doubled: bool, stop: int)
    requires ScanOutcome(desired, s, 0, start, doubled, stop)
    requires s[0].freq != desired
    ensures Gather(desired, LowRun(s, 0, start, doubled), HighRun(s, 0, stop)) == BestReference(desired, s)
  {
    SplitBounds(s, desired, 0);
  }

  lemma BracketReference(desired: real, s: seq<Candidate>, i: int, start: int, doubled: bool, stop: int)
    requires ScanOutcome(desired, s, i, start, doubled, stop)
    requires 0 < i < |s| && s[i].freq != desired
    ensures BestReference(desired, s) == s[start..i] + s[i..stop]
  {
    SplitBounds(s, desired, i);
    AtFreqRun(s, s[i - 1].freq, start, i);
    AtFreqRun(s, s[i].freq, i, stop);
  }

  lemma BracketGather(desired: real, s: seq<Candidate>, i: int, start: int, doubled: bool, stop: int)
    requires 0 <= start < i < stop <= |s|
    requires doubled ==> start == 0
    requires s[start].freq < desired < s[i].freq
    ensures Gather(desired, LowRun(s, i, start, doubled), HighRun(s, i, stop)) ==
      (if doubled then [s[0]] else []) + (s[start..i] + s[i..stop])
  {
    var low, high := LowRun(s, i, start, doubled), HighRun(s, i, stop);
    var head: seq<Candidate> := if doubled then [s[0]] else [];
    assert low == head + s[start..i];
    assert high == s[i..stop];
    assert high[0] == s[i];
    assert low[0] == s[start] by {
      if doubled {
        assert low[0] == s[0];
      } else {
        assert low[0] == s[start..i][0];
      }
    }
    assert Gather(desired, low, high) == low + high;
    assert low + high == head + (s[start..i] + s[i..stop]);
  }

  /** Strictly between two frequencies: the run below, then the run above. */
  lemma GatherBracket(desired: real, s: seq<Candidate>, i: int, start: int, doubled: bool, stop: int)
    requires ScanOutcome(desired, s, i, start, doubled, stop)
    requires 0 < i < |s| && s[i].freq != desired
    ensures Normalize(Gather(desired, LowRun(s, i, start, doubled), HighRun(s, i, stop))) ==
      Normalize(BestReference(desired, s))
  {
    BracketReference(desired, s, i, start, doubled, stop);
    BracketGather(desired, s, i, start, doubled, stop);
    var run := s[start..i] + s[i..stop];
    if doubled {
      assert s[start..i][0] == s[0];
      NormalizeRepeatedHead(s[0], run);
    } else {
      assert [] + run == run;
    }
  }

  /** Above every frequency: the run at the largest frequency. */
  lemma GatherAboveAll(desired: real, s: seq<Candidate>, start: int, doubled: bool, stop: int)
    requires ScanOutcome(desired, s, |s|, start, doubled, stop)
    ensures Normalize(Gather(desired, LowRun(s, |s|, start, doubled), HighRun(s, |s|, stop))) ==
      Normalize(BestReference(desired, s))
  {
    var n := |s|;
    SplitBounds(s, desired, n);
    AtFreqRun(s, s[n - 1].freq, start, n);
    var low := LowRun(s, n, start, doubled);
    assert low[0].freq == s[n - 1].freq;
    assert Gather(desired, low, HighRun(s, n, stop)) == low;
    if doubled {
      NormalizeRepeatedHead(s[0], s[start..n]);
    } else {
      assert low == s[start..n];
    }
  }

  /** The gathered list, once cleaned up, is the reference's, whatever the scan ran into. */
  lemma GatherAgrees(desired: real, s: seq<Candidate>, i: int, start: int, doubled: bool, stop: int)
    requires ScanOutcome(desired, s, i, start, doubled, stop)
    ensures Normalize(Gather(desired, LowRun(s, i, start, doubled), HighRun(s, i, stop))) ==
      Normalize(BestReference(desired, s))
  {
    if i < |s| && s[i].freq == desired {
      GatherExact(desired, s, i, start, doubled, stop);
    } else if i == 0 {
      GatherBelowAll(desired, s, start, doubled, stop);
    } else if i < |s| {
      GatherBracket(desired, s, i, start, doubled, stop);
    } else {
      GatherAboveAll(desired, s, start, doubled, stop);
    }
  }

  /** Appending the next candidate to `low` extends its run (and, at index 0, repeats the seed match). */
  lemma LowRunExtend(s: seq<Candidate>, i: int, start: int, doubled: bool)
    requires 0 <= start <= i < |s|
    requires doubled ==> start == 0 && i > 0
    requires i == 0 ==> start == 0
    ensures LowRun(s, i, start, doubled) + [s[i]] == LowRun(s, i + 1, start, doubled || i == 0)
  {
    if i == 0 {
      assert s[0..1] == [s[0]];
    } else {
      assert s[start..i + 1] == s[start..i] + [s[i]];
    }
  }

  /**
    What the scan below `desired` keeps after looking at the first `i`
    candidates: `prev` is the last frequency seen (the seed 1 before any),
    `low` is the run of equal frequencies ending at `i - 1` that starts at
    `start`, with `clocks[0]` in front once more exactly when the seed matched it.
   */
  ghost predicate RunState(clocks: seq<Candidate>, i: int, start: int, doubled: bool, prev: real, low: seq<Candidate>)
  {
    && 0 <= start <= i <= |clocks| && |clocks| > 0
    && prev == (if i == 0 then 1.0 else clocks[i - 1].freq)
    && (doubled <==> start == 0 && i > 0 && clocks[0].freq == 1.0)
    && low == LowRun(clocks, i, start, doubled)
    && (i > 0 ==> start < i && forall k :: start <= k < i ==> clocks[k].freq == prev)
    && (start > 0 ==> clocks[start - 1].freq != clocks[start].freq)
  }

  /** A candidate at the previous frequency (`diff == 0`) extends `low`. */
  lemma RunExtend(clocks: seq<Candidate>, i: int, start: int, doubled: bool, prev: real, low: seq<Candidate>)
    requires RunState(clocks, i, start, doubled, prev, low)
    requires i < |clocks| && clocks[i].freq == prev
    ensures RunState(clocks, i + 1, start, doubled || i == 0, clocks[i].freq, low + [clocks[i]])
  {
    LowRunExtend(clocks, i, start, doubled);
  }

  /** A candidate at any other frequency starts `low` afresh. */
  lemma RunRestart(clocks: seq<Candidate>, i: int, start: int, doubled: bool, prev: real, low: seq<Candidate>)
    requires RunState(clocks, i, start, doubled, prev, low)
    requires i < |clocks| && clocks[i].freq != prev
    ensures RunState(clocks, i + 1, i, false, clocks[i].freq, [clocks[i]])
  {
    assert i == 0 ==> clocks[0].freq != 1.0;
    assert clocks[i..i + 1] == [clocks[i]];
  }

  /**
    The `if` branch of the `for` loop of `find_best_multipliers`, repeated
    while frequencies stay below `desired`: a frequency equal to the previous
    one (`diff == 0`) extends `low`, any other starts it afresh.  `prev` plays
    the part of `clk[0]`, seeded with 1 as `clk = [1, 0, 0]` is, so a first
    candidate at exactly 1 MHz is appended to `low` a second time.
   */
  method ScanBelow(desired: real, clocks: seq<Candidate>)
    returns (i: int, low: seq<Candidate>, ghost start: int, ghost doubled: bool)
    requires |clocks| > 0
    ensures 0 <= start <= i <= |clocks|
    ensures forall k :: 0 <= k < i ==> clocks[k].freq < desired
    ensures i < |clocks| ==> clocks[i].freq >= desired
    ensures doubled <==> start == 0 && i > 0 && clocks[0].freq == 1.0
    ensures low == LowRun(clocks, i, start, doubled)
    ensures i > 0 ==> start < i && forall k :: start <= k < i ==> clocks[k].freq == clocks[i - 1].freq
    ensures start > 0 ==> clocks[start - 1].freq != clocks[start].freq
  {
    var n := |clocks|;
    var prev := 1.0;
    low := [clocks[0]];
    i := 0;
    start := 0;
    doubled := false;
    while i < n && clocks[i].freq < desired
      invariant RunState(clocks, i, start, doubled, prev, low)
      invariant forall k :: 0 <= k < i ==> clocks[k].freq < desired
    {
      var diff := clocks[i].freq - prev;
      if diff == 0.0 {
        RunExtend(clocks, i, start, doubled, prev, low);
        low := low + [clocks[i]];
        doubled := doubled || i == 0;
      } else {
        RunRestart(clocks, i, start, doubled, prev, low);
        low := [clocks[i]];
        start := i;
        doubled := false;
      }
      prev := clocks[i].freq;
      i := i + 1;
    }
  }

  /**
    The `else` branch of the `for` loop: from the first frequency at or above
    `desired`, collect it and every following candidate up to `desired + diff`,
    which is that same frequency.
   */
  method RunAtOrAbove(desired: real, clocks: seq<Candidate>, i: int) returns (high: seq<Candidate>, stop: int)
    requires SortedByFreq(clocks)
    requires 0 <= i < |clocks| && clocks[i].freq >= desired
    ensures i < stop <= |clocks| && high == clocks[i..stop]
    ensures forall k :: i <= k < stop ==> clocks[k].freq == clocks[i].freq
    ensures stop == |clocks| || clocks[stop].freq > clocks[i].freq
  {
    high := [clocks[i]];
    var diff := high[0].freq - desired;
    var j := i + 1;
    while j < |clocks| && clocks[j].freq <= desired + diff
      invariant i < j <= |clocks|
      invariant high == clocks[i..j]
      invariant forall k :: i <= k < j ==> clocks[k].freq == clocks[i].freq
    {
      assert clocks[i].freq <= clocks[j].freq;
      high := high + [clocks[j]];
      j := j + 1;
    }
    stop := j;
  }

  /**
    `find_best_multipliers`: scan up to the first frequency at or above
    `desired`, collect the run there (or keep the seed `clocks[-1]` when no
    such frequency exists), gather, then de-duplicate and sort by mode.
   */
  method FindBestMultipliers(desired: real, clocks: seq<Candidate>) returns (result: seq<Candidate>)
    requires |clocks| > 0 && SortedByFreq(clocks)
    ensures result == Normalize(BestReference(desired, clocks))
    ensures NoDup(result) && ModeSorted(result)
    ensures forall c :: c in result ==> c in clocks
    ensures |result| > 0
  {
    var n := |clocks|;
    var high := [clocks[n - 1]];
    var i, low, start, doubled := ScanBelow(desired, clocks);
    ghost var stop := n;
    if i < n {
      high, stop := RunAtOrAbove(desired, clocks, i);
    }
    if start > 0 {
      assert clocks[start - 1].freq <= clocks[start].freq;
    }
    assert high == HighRun(clocks, i, stop);
    assert ScanOutcome(desired, clocks, i, start, doubled, stop);
    result := Normalize(Gather(desired, low, high));
    GatherAgrees(desired, clocks, i, start, doubled, stop);
    BestNonEmpty(desired, clocks);
  }

  /** There is at most one nearest frequency below `v`. */
  lemma MaxBelowUnique(s: seq<Candidate>, v: real, f: real, g: real)
    requires IsMaxBelow(s, v, f) && IsMaxBelow(s, v, g)
    ensures f == g
  {
    var i :| 0 <= i < |s| && s[i].freq == f;
    var j :| 0 <= j < |s| && s[j].freq == g;
    assert s[i].freq <= g && s[j].freq <= f;
  }

  /** There is at most one nearest frequency at or above `v`. */
  lemma MinAtOrAboveUnique(s: seq<Candidate>, v: real, f: real, g: real)
    requires IsMinAtOrAbove(s, v, f) && IsMinAtOrAbove(s, v, g)
    ensures f == g
  {
    var i :| 0 <= i < |s| && s[i].freq == f;
    var j :| 0 <= j < |s| && s[j].freq == g;
    assert g <= s[i].freq && f <= s[j].freq;
  }

  /** The search always selects something. */
  lemma BestNonEmpty(desired: real, clocks: seq<Candidate>)
    requires |clocks| > 0
    ensures |Normalize(BestReference(desired, clocks))| > 0
  {
    var lo, hi := MaxBelow(clocks, desired), MinAtOrAbove(clocks, desired);
    var f := if hi.Some? then hi.value else lo.value;
    var i :| 0 <= i < |clocks| && clocks[i].freq == f;
    AtFreqMembers(clocks, f);
    assert clocks[i] in AtFreq(clocks, f);
    if lo.None? && hi != Some(desired) {
      assert clocks[0] in BestReference(desired, clocks);
    } else {
      assert clocks[i] in BestReference(desired, clocks);
    }
  }

  /**
    Exact match: when some candidate is at `desired`, the result holds
    exactly the candidates at `desired`, and nothing below or above.
   */
  lemma BestExact(desired: real, clocks: seq<Candidate>)
    requires |clocks| > 0
    requires exists i :: 0 <= i < |clocks| && clocks[i].freq == desired
    ensures forall c :: c in Normalize(BestReference(desired, clocks)) <==> c in clocks && c.freq == desired
  {
    var i :| 0 <= i < |clocks| && clocks[i].freq == desired;
    var hi := MinAtOrAbove(clocks, desired);
    assert hi.value <= clocks[i].freq;
    AtFreqMembers(clocks, desired);
  }

  /** Below every frequency: the result is the first candidate alone. */
  lemma BestBelowAll(desired: real, clocks: seq<Candidate>)
    requires |clocks| > 0
    requires forall i :: 0 <= i < |clocks| ==> clocks[i].freq > desired
    ensures Normalize(BestReference(desired, clocks)) == [clocks[0]]
  {
    var hi := MinAtOrAbove(clocks, desired);
    var j :| 0 <= j < |clocks| && clocks[j].freq == hi.value;
    NormalizeSingle(clocks[0]);
  }

  /** Above every frequency: the result holds exactly the candidates at the largest frequency. */
  lemma BestAboveAll(desired: real, clocks: seq<Candidate>)
    requires |clocks| > 0
    requires forall i :: 0 <= i < |clocks| ==> clocks[i].freq < desired
    ensures forall c :: c in Normalize(BestReference(desired, clocks)) <==>
      c in clocks && forall i :: 0 <= i < |clocks| ==> clocks[i].freq <= c.freq
  {
    var lo := MaxBelow(clocks, desired);
    assert clocks[0].freq < desired;
    AtFreqMembers(clocks, lo.value);
    forall c | c in clocks
      ensures c.freq == lo.value <==> forall i :: 0 <= i < |clocks| ==> clocks[i].freq <= c.freq
    {
      var k :| 0 <= k < |clocks| && clocks[k] == c;
      var m :| 0 <= m < |clocks| && clocks[m].freq == lo.value;
      assert clocks[k].freq <= lo.value;
      assert (forall i :: 0 <= i < |clocks| ==> clocks[i].freq <= c.freq) ==> clocks[m].freq <= c.freq;
    }
  }

  /**
    Strictly between: with no exact match and frequencies on both sides, the
    result holds exactly the candidates at the nearest frequency below and
    those at the nearest frequency above.
   */
  lemma BestBracket(desired: real, clocks: seq<Candidate>)
    requires |clocks| > 0
    requires forall i :: 0 <= i < |clocks| ==> clocks[i].freq != desired
    requires exists i :: 0 <= i < |clocks| && clocks[i].freq < desired
    requires exists i :: 0 <= i < |clocks| && clocks[i].freq > desired
    ensures forall c :: c in Normalize(BestReference(desired, clocks)) <==>
      c in clocks && (IsMaxBelow(clocks, desired, c.freq) || IsMinAtOrAbove(clocks, desired, c.freq))
  {
    var lo, hi := MaxBelow(clocks, desired), MinAtOrAbove(clocks, desired);
    assert lo.Some? && hi.Some?;
    assert hi.value != desired by {
      var j :| 0 <= j < |clocks| && clocks[j].freq == hi.value;
    }
    assert BestReference(desired, clocks) == AtFreq(clocks, lo.value) + AtFreq(clocks, hi.value);
    AtFreqMembers(clocks, lo.value);
    AtFreqMembers(clocks, hi.value);
    forall c | c in clocks
      ensures (c.freq == lo.value || c.freq == hi.value) <==>
        (IsMaxBelow(clocks, desired, c.freq) || IsMinAtOrAbove(clocks, desired, c.freq))
    {
      BracketSide(clocks, desired, c, lo.value, hi.value);
    }
  }

  /** A listed frequency is the nearest below or the nearest above exactly when it equals one of them. */
  lemma BracketSide(s: seq<Candidate>, v: real, c: Candidate, lo: real, hi: real)
    requires c in s
    requires IsMaxBelow(s, v, lo) && IsMinAtOrAbove(s, v, hi)
    ensures (c.freq == lo || c.freq == hi) <==> (IsMaxBelow(s, v, c.freq) || IsMinAtOrAbove(s, v, c.freq))
  {
    var k :| 0 <= k < |s| && s[k] == c;
    if IsMaxBelow(s, v, c.freq) {
      MaxBelowUnique(s, v, lo, c.freq);
    }
    if IsMinAtOrAbove(s, v, c.freq) {
      MinAtOrAboveUnique(s, v, hi, c.freq);
    }
  }
}
