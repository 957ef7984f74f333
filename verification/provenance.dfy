/**
  The provenance lookup: given a frequency and the clock it should have been
  made from, the candidates in a list that match both, de-duplicated and
  ordered by mode.  The lookup as written collects only the first contiguous
  run of matches; a corrected lookup collects every match.
 */
module Provenance {
  import opened Clock
  import opened Seqs
  import opened Generate
  import opened Cascade
  import opened Ordering
  import opened Search

  /** The candidate is at frequency `f` and was made from the clock `base`. */
  predicate Matches(c: Candidate, f: real, base: real)
  {
    c.freq == f && c.source == base
  }

  /** `Matches` as a test on candidates. */
  function MatchTest(f: real, base: real): Candidate -> bool
  {
    (c: Candidate) => Matches(c, f, base)
  }

  /**
    The scan of `find_base_frequency` over `s`, where `found` records that a
    match has been collected: every match is collected, and once one has been,
    the first candidate that does not match ends the scan.
   */
  function ScanRun(s: seq<Candidate>, f: real, base: real, found: bool): (r: seq<Candidate>)
    ensures forall i :: 0 <= i < |r| ==> Matches(r[i], f, base)
    ensures forall c :: c in r ==> c in s
    ensures !found ==> (r == [] <==> forall c :: c in s ==> !Matches(c, f, base))
    decreases |s|
  {
    if |s| == 0 then []
    else if Matches(s[0], f, base) then [s[0]] + ScanRun(s[1..], f, base, true)
    else if found then []
    else
      assert s == [s[0]] + s[1..];
      ScanRun(s[1..], f, base, false)
  }

  /** Once a match has been seen, the scan collects the run of matches at the front of `s`. */
  lemma {:induction false} ScanRunFound(s: seq<Candidate>, f: real, base: real) returns (e: int)
    ensures 0 <= e <= |s|
    ensures forall k :: 0 <= k < e ==> Matches(s[k], f, base)
    ensures e == |s| || !Matches(s[e], f, base)
    ensures ScanRun(s, f, base, true) == s[..e]
    decreases |s|
  {
    if |s| == 0 {
      e := 0;
    } else if Matches(s[0], f, base) {
      var e' := ScanRunFound(s[1..], f, base);
      e := e' + 1;
      assert s[..e] == [s[0]] + s[1..][..e'];
    } else {
      e := 0;
    }
  }

  /**
    From the start, the scan collects exactly the first maximal run of
    matches: nothing before `a` matches, everything from `a` up to `e`
    matches, and `e` ends the list or does not match.  With no match at
    all, `a` and `e` are both the length of the list.
   */
  lemma {:induction false} ScanRunFirst(s: seq<Candidate>, f: real, base: real) returns (a: int, e: int)
    ensures 0 <= a <= e <= |s|
    ensures forall k :: 0 <= k < a ==> !Matches(s[k], f, base)
    ensures a < |s| ==> a < e
    ensures forall k :: a <= k < e ==> Matches(s[k], f, base)
    ensures e == |s| || !Matches(s[e], f, base)
    ensures ScanRun(s, f, base, false) == s[a..e]
    decreases |s|
  {
    if |s| == 0 {
      a, e := 0, 0;
    } else if Matches(s[0], f, base) {
      var e' := ScanRunFound(s[1..], f, base);
      a, e := 0, e' + 1;
      assert s[a..e] == [s[0]] + s[1..][..e'];
    } else {
      var a', e' := ScanRunFirst(s[1..], f, base);
      a, e := a' + 1, e' + 1;
      forall j | 0 <= j < e - a ensures s[a..e][j] == s[1..][a'..e'][j] {
        assert s[a..e][j] == s[a + j] == s[1..][a' + j];
      }
      assert s[a..e] == s[1..][a'..e'];
    }
  }

  /**
    `find_base_frequency` as written: the first contiguous run of candidates
    at `desiredFreq` made from `baseClk`, de-duplicated and ordered by mode.
   */
  function FindBaseFrequency(desiredFreq: real, freqs: seq<Candidate>, baseClk: real): (r: seq<Candidate>)
    ensures NoDup(r) && ModeSorted(r)
    ensures forall c :: c in r ==> c in freqs && Matches(c, desiredFreq, baseClk)
    ensures r == [] <==> forall c :: c in freqs ==> !Matches(c, desiredFreq, baseClk)
  {
    Normalize(ScanRun(freqs, desiredFreq, baseClk, false))
  }

  /** The result of the lookup is the cleaned-up first maximal run of matches. */
  lemma FindBaseFrequencyFirstRun(desiredFreq: real, freqs: seq<Candidate>, baseClk: real) returns (a: int, e: int)
    ensures 0 <= a <= e <= |freqs|
    ensures forall k :: 0 <= k < a ==> !Matches(freqs[k], desiredFreq, baseClk)
    ensures a < |freqs| ==> a < e
    ensures forall k :: a <= k < e ==> Matches(freqs[k], desiredFreq, baseClk)
    ensures e == |freqs| || !Matches(freqs[e], desiredFreq, baseClk)
    ensures FindBaseFrequency(desiredFreq, freqs, baseClk) == Normalize(freqs[a..e])
  {
    a, e := ScanRunFirst(freqs, desiredFreq, baseClk);
  }

  /** The corrected lookup: every candidate at `desiredFreq` made from `baseClk`, cleaned up. */
  function FindBaseFrequencyAll(desiredFreq: real, freqs: seq<Candidate>, baseClk: real): (r: seq<Candidate>)
    ensures NoDup(r) && ModeSorted(r)
    ensures forall c :: c in r <==> c in freqs && Matches(c, desiredFreq, baseClk)
  {
    FilterMembers(freqs, MatchTest(desiredFreq, baseClk));
    Normalize(Filter(freqs, MatchTest(desiredFreq, baseClk)))
  }

  /** No candidate between two matches fails to match. */
  ghost predicate MatchesContiguous(s: seq<Candidate>, f: real, base: real)
  {
    forall i, j, k :: 0 <= i < j < k < |s| && Matches(s[i], f, base) && Matches(s[k], f, base) ==>
      Matches(s[j], f, base)
  }

  /** When the matches form one block, the lookup as written finds all of them. */
  lemma FindBaseAgreesWhenContiguous(desiredFreq: real, freqs: seq<Candidate>, baseClk: real)
    requires MatchesContiguous(freqs, desiredFreq, baseClk)
    ensures FindBaseFrequency(desiredFreq, freqs, baseClk) == FindBaseFrequencyAll(desiredFreq, freqs, baseClk)
  {
    var test := MatchTest(desiredFreq, baseClk);
    var a, e := ScanRunFirst(freqs, desiredFreq, baseClk);
    forall k | 0 <= k < |freqs| ensures test(freqs[k]) <==> a <= k < e {
      if e < k {
        // A match at `k` would make the non-match at `e` lie between two matches.
        assert a < e < k && Matches(freqs[a], desiredFreq, baseClk) && !Matches(freqs[e], desiredFreq, baseClk);
      }
    }
    FilterSlice(freqs, test, a, e);
  }

  /**
    Four candidates at 160 MHz in the order a full sort of the candidate
    lists leaves them (by frequency, then mode name, then description): the
    CLKDV entries of sources 240, 320 and 400 for ratios 1.5, 2 and 2.5, and
    the CLKFX entry 2/4 of source 320.
   */
  function SplitRunExample(): seq<Candidate>
  {
    [DivEntry(240.0, 0, false), DivEntry(320.0, 1, false), DivEntry(400.0, 2, false), FxEntry(320.0, 2, 4)]
  }

  /** All four entries of the example are at 160 MHz; the second and fourth come from 320 MHz. */
  lemma SplitRunFacts()
    ensures forall i :: 0 <= i < |SplitRunExample()| ==> SplitRunExample()[i].freq == 160.0
    ensures Matches(SplitRunExample()[1], 160.0, 320.0) && Matches(SplitRunExample()[3], 160.0, 320.0)
    ensures !Matches(SplitRunExample()[0], 160.0, 320.0) && !Matches(SplitRunExample()[2], 160.0, 320.0)
  {
    assert DivRatio(0) == 1.5 && DivRatio(1) == 2.0 && DivRatio(2) == 2.5;
  }

  /** The scan of the example stops at the source-400 entry, after one match. */
  lemma SplitRunScan()
    ensures ScanRun(SplitRunExample(), 160.0, 320.0, false) == [DivEntry(320.0, 1, false)]
  {
    var s := SplitRunExample();
    SplitRunFacts();
    assert s[1..][1..] == s[2..];
    assert ScanRun(s[2..], 160.0, 320.0, true) == [];
    assert ScanRun(s[1..], 160.0, 320.0, false) == [s[1]];
  }

  /**
    Looking up 160 MHz made from 320 MHz in that list returns only the CLKDV
    entry and misses the CLKFX entry, because a candidate from source 400
    splits the two matches; the corrected lookup returns both.
   */
  lemma FindBaseMissesSplitRun()
    ensures SortedByFreq(SplitRunExample())
    ensures FindBaseFrequency(160.0, SplitRunExample(), 320.0) == [DivEntry(320.0, 1, false)]
    ensures DivEntry(320.0, 1, false) in FindBaseFrequencyAll(160.0, SplitRunExample(), 320.0)
    ensures FxEntry(320.0, 2, 4) in FindBaseFrequencyAll(160.0, SplitRunExample(), 320.0)
    ensures !MatchesContiguous(SplitRunExample(), 160.0, 320.0)
  {
    var s := SplitRunExample();
    SplitRunFacts();
    SplitRunScan();
    NormalizeSingle(s[1]);
    assert s[1] in s && s[3] in s;
  }

  lemma FirstStageListed(clkin: real, c: Candidate)
    requires c in CalcPossibleClocks(clkin)
    ensures c in CalcPossibleTwoLayerClocks(clkin)
  {
    TwoLayerMember(clkin, c);
  }

  /** CLKDV 1.5 of 240 MHz, which is the first-stage CLKFX output 3/4 of 320 MHz. */
  lemma SplitRunFirstListed()
    ensures DivEntry(240.0, 0, false) in CalcPossibleTwoLayerClocks(320.0)
  {
    var d := FxEntry(320.0, 3, 4);
    FxEntryAt(320.0, 3, 4);
    assert d.freq == 240.0;
    DivEntriesAt(240.0, 0);
    TwoLayerHasSecond(320.0, d, DivEntry(240.0, 0, false));
  }

  /** CLKDV 2.5 of 400 MHz, which is the first-stage CLKFX output 5/4 of 320 MHz. */
  lemma SplitRunThirdListed()
    ensures DivEntry(400.0, 2, false) in CalcPossibleTwoLayerClocks(320.0)
  {
    var d := FxEntry(320.0, 5, 4);
    FxEntryAt(320.0, 5, 4);
    assert d.freq == 400.0;
    DivEntriesAt(400.0, 2);
    TwoLayerHasSecond(320.0, d, DivEntry(400.0, 2, false));
  }

  /** All four candidates of the example occur in the two-stage list for a 320 MHz input. */
  lemma SplitRunExampleListed()
    ensures forall c :: c in SplitRunExample() ==> c in CalcPossibleTwoLayerClocks(320.0)
  {
    DivEntriesAt(320.0, 1);
    FirstStageListed(320.0, DivEntry(320.0, 1, false));
    FxEntryAt(320.0, 2, 4);
    FirstStageListed(320.0, FxEntry(320.0, 2, 4));
    SplitRunFirstListed();
    SplitRunThirdListed();
  }
}
