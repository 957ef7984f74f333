/**
  Two DCMs in cascade: the first stage's outputs, followed, for every one of
  them in order, by everything a second DCM can make from that output.
 */
module Cascade {
  import opened Clock
  import opened Seqs
  import opened Generate

  /** One second-stage list per first-stage entry, fed by that entry's frequency. */
  function SecondStages(direct: seq<Candidate>): seq<seq<Candidate>>
  {
    seq(|direct|, k requires 0 <= k < |direct| => CalcPossibleClocks(direct[k].freq))
  }

  /** The first stage's list, then every second stage's list in first-stage order. */
  function CalcPossibleTwoLayerClocks(clkin: real): (r: seq<Candidate>)
    ensures |r| == StageSize * (StageSize + 1)
  {
    var direct := CalcPossibleClocks(clkin);
    SecondStagesUniform(direct);
    FlattenLength(SecondStages(direct), StageSize);
    direct + Flatten(SecondStages(direct))
  }

  lemma SecondStagesUniform(direct: seq<Candidate>)
    ensures Uniform(SecondStages(direct), StageSize)
  {
    forall k | 0 <= k < |direct| ensures |SecondStages(direct)[k]| == StageSize {
      StageParts(direct[k].freq);
    }
  }

  /** The list has 975 * 976 entries and begins with the first stage. */
  lemma TwoLayerPrefix(clkin: real)
    ensures |CalcPossibleTwoLayerClocks(clkin)| == StageSize * (StageSize + 1)
    ensures CalcPossibleTwoLayerClocks(clkin)[..StageSize] == CalcPossibleClocks(clkin)
  {
    var direct := CalcPossibleClocks(clkin);
    StageParts(clkin);
    SecondStagesUniform(direct);
    FlattenLength(SecondStages(direct), StageSize);
  }

  /** Block `k + 1` of 975 entries is the second stage fed by first-stage entry `k`. */
  lemma TwoLayerBlock(clkin: real, k: int)
    requires 0 <= k < StageSize
    ensures |CalcPossibleTwoLayerClocks(clkin)| == StageSize * (StageSize + 1)
    ensures |CalcPossibleClocks(clkin)| == StageSize
    ensures CalcPossibleTwoLayerClocks(clkin)[(k + 1) * StageSize .. (k + 2) * StageSize] ==
      CalcPossibleClocks(CalcPossibleClocks(clkin)[k].freq)
  {
    var direct := CalcPossibleClocks(clkin);
    var stages := SecondStages(direct);
    StageParts(clkin);
    SecondStagesUniform(direct);
    FlattenBlock(stages, StageSize, k);
    var all := CalcPossibleTwoLayerClocks(clkin);
    assert all == direct + Flatten(stages);
    SliceAfter(direct, Flatten(stages), k * StageSize, (k + 1) * StageSize);
    assert (k + 1) * StageSize == |direct| + k * StageSize;
    assert (k + 2) * StageSize == |direct| + (k + 1) * StageSize;
  }

  /** A listed candidate outside the first stage comes from the second stage fed by some first-stage entry. */
  lemma TwoLayerFromSecond(clkin: real, c: Candidate)
    requires c in CalcPossibleTwoLayerClocks(clkin) && c !in CalcPossibleClocks(clkin)
    ensures exists d :: d in CalcPossibleClocks(clkin) && c in CalcPossibleClocks(d.freq)
  {
    var direct := CalcPossibleClocks(clkin);
    var stages := SecondStages(direct);
    assert CalcPossibleTwoLayerClocks(clkin) == direct + Flatten(stages);
    assert c in Flatten(stages);
    FlattenMember(stages, c);
    var k :| 0 <= k < |stages| && c in stages[k];
    assert direct[k] in direct && c in CalcPossibleClocks(direct[k].freq);
  }

  /** Everything the second stage fed by a first-stage entry lists is listed. */
  lemma TwoLayerHasSecond(clkin: real, d: Candidate, c: Candidate)
    requires d in CalcPossibleClocks(clkin) && c in CalcPossibleClocks(d.freq)
    ensures c in CalcPossibleTwoLayerClocks(clkin)
  {
    var direct := CalcPossibleClocks(clkin);
    var k :| 0 <= k < |direct| && direct[k] == d;
    TwoLayerBlock(clkin, k);
    var all := CalcPossibleTwoLayerClocks(clkin);
    assert c in all[(k + 1) * StageSize .. (k + 2) * StageSize];
  }

  /** A candidate is listed iff the first stage lists it or the second stage fed by some first-stage entry does. */
  lemma TwoLayerMember(clkin: real, c: Candidate)
    ensures c in CalcPossibleTwoLayerClocks(clkin) <==>
      c in CalcPossibleClocks(clkin) ||
      exists d :: d in CalcPossibleClocks(clkin) && c in CalcPossibleClocks(d.freq)
  {
    var direct := CalcPossibleClocks(clkin);
    assert CalcPossibleTwoLayerClocks(clkin) == direct + Flatten(SecondStages(direct));
    if c in CalcPossibleTwoLayerClocks(clkin) && c !in direct {
      TwoLayerFromSecond(clkin, c);
    }
    if exists d :: d in direct && c in CalcPossibleClocks(d.freq) {
      var d :| d in direct && c in CalcPossibleClocks(d.freq);
      TwoLayerHasSecond(clkin, d, c);
    }
  }

  /**
    Every listed candidate is realised by its recipe, and its recorded source
    is derived from the input or from some first-stage frequency; conversely,
    everything so realised is listed.
   */
  lemma TwoLayerCharacterised(clkin: real, c: Candidate)
    ensures c in CalcPossibleTwoLayerClocks(clkin) <==>
      Realises(c) &&
      (c.source == RecordedSource(c.how, clkin) ||
       exists d :: d in CalcPossibleClocks(clkin) && c.source == RecordedSource(c.how, d.freq))
  {
    var direct := CalcPossibleClocks(clkin);
    TwoLayerMember(clkin, c);
    StageMember(clkin, c);
    if exists d :: d in direct && c in CalcPossibleClocks(d.freq) {
      var d :| d in direct && c in CalcPossibleClocks(d.freq);
      StageMember(d.freq, c);
    }
    if Realises(c) && exists d :: d in direct && c.source == RecordedSource(c.how, d.freq) {
      var d :| d in direct && c.source == RecordedSource(c.how, d.freq);
      StageMember(d.freq, c);
    }
  }

  /** Dividing at least `lo` by at most `hi` leaves at least `lo / hi`. */
  lemma QuotientBound(x: real, r: real, y: real, lo: real, hi: real)
    requires 0.0 < r <= hi && lo > 0.0 && y >= lo
    requires x * r == y
    ensures x >= lo / hi
  {
    assert x == y / r;
    assert y / r >= lo / r;
    assert lo / r >= lo / hi;
  }

  /** A product of a positive input and a multiplier of at least 1 is at least the input. */
  lemma ScaledUp(clkin: real, m: int)
    requires clkin > 0.0 && m >= 1
    ensures clkin * (m as real) >= clkin
  {
    assert clkin * (m as real) - clkin == clkin * ((m as real) - 1.0);
  }

  /** A quotient by a ratio of at most 16 of something at least half the input. */
  lemma DivBound(clkin: real, f: real, r: real, src: real)
    requires clkin > 0.0 && 0.0 < r <= 16.0 && src >= clkin / 2.0
    requires f * r == src
    ensures f >= clkin / 32.0
  {
    QuotientBound(f, r, src, clkin / 2.0, 16.0);
    assert clkin / 2.0 / 16.0 == clkin / 32.0;
  }

  /** A quotient by a divider of at most 31 of the input times a multiplier of at least 1. */
  lemma FxBound(clkin: real, f: real, m: int, d: int)
    requires clkin > 0.0 && m >= 1 && 1 <= d <= 31
    requires f * (d as real) == clkin * (m as real)
    ensures f >= clkin / 32.0
  {
    ScaledUp(clkin, m);
    QuotientBound(f, d as real, clkin * (m as real), clkin, 31.0);
    assert clkin / 31.0 >= clkin / 32.0;
  }

  /** A CLKDV output of a positive input, halved or not, is at least a 32nd of it. */
  lemma DividedLowerBound(clkin: real, c: Candidate)
    requires clkin > 0.0 && c.how.Divided?
    requires Realises(c) && c.source == RecordedSource(c.how, clkin)
    ensures c.freq >= clkin / 32.0
  {
    var r := c.how.ratio;
    assert 0.0 < r <= 16.0 by {
      var k :| 0 <= k < DivRatioCount && DivRatio(k) == r;
    }
    assert c.freq * r == c.source;
    assert c.source >= clkin / 2.0 by {
      if !c.how.preDivide {
        assert c.source == clkin;
      }
    }
    DivBound(clkin, c.freq, r, c.source);
  }

  /** A CLKFX output of a positive input is at least 2/31 of it. */
  lemma SynthesisedLowerBound(clkin: real, c: Candidate)
    requires clkin > 0.0 && c.how.Synthesised?
    requires Realises(c) && c.source == clkin
    ensures c.freq >= clkin / 32.0
  {
    FxBound(clkin, c.freq, c.how.mul, c.how.div);
  }

  /** No recipe applied to a positive input yields less than a 32nd of it. */
  lemma RealisedLowerBound(clkin: real, c: Candidate)
    requires clkin > 0.0
    requires Realises(c) && c.source == RecordedSource(c.how, clkin)
    ensures c.freq >= clkin / 32.0
  {
    match c.how
    case Doubled =>
    case Divided(_, _) => DividedLowerBound(clkin, c);
    case Synthesised(_, _, _) => SynthesisedLowerBound(clkin, c);
  }

  /** No first-stage output from a positive input is below a 32nd of it. */
  lemma StageFreqLowerBound(clkin: real, c: Candidate)
    requires clkin > 0.0
    requires c in CalcPossibleClocks(clkin)
    ensures c.freq >= clkin / 32.0
  {
    StageMember(clkin, c);
    RealisedLowerBound(clkin, c);
  }

  /**
    The recorded sources are not closed over the input and the first-stage
    frequencies: a CLKIN_DIVIDE_BY_2 recipe in the second stage records half
    of a first-stage frequency, and for the smallest first-stage frequency
    that half is no first-stage frequency at all.
   */
  lemma SourceNotClosed(clkin: real)
    requires clkin > 0.0
    ensures exists c ::
      && c in CalcPossibleTwoLayerClocks(clkin)
      && c.source != clkin
      && (forall d :: d in CalcPossibleClocks(clkin) ==> c.source != d.freq)
  {
    var last := DivRatioCount - 1;
    DivEntriesAt(clkin, last);
    var d := DivEntry(clkin / 2.0, last, true);
    assert d.freq == clkin / 64.0 * 2.0;
    var c := DivEntry(d.freq / 2.0, 0, true);
    DivEntriesAt(d.freq, 0);
    assert c in CalcPossibleClocks(d.freq);
    TwoLayerMember(clkin, c);
    assert c.source == clkin / 64.0;
    forall e | e in CalcPossibleClocks(clkin) ensures c.source != e.freq {
      StageFreqLowerBound(clkin, e);
    }
  }
}
