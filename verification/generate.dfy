/**
  The frequency generator: every output one DCM stage can produce from an
  input clock, in the order the tool lists them (the 2x output, the CLKDV
  divisions of the input and of the pre-divided input, then CLKFX synthesis
  for every multiplier and divider).
 */
module Generate {
  import opened Clock
  import opened Seqs

  /** The CLK2X output of input `clkin`. */
  function DoubleEntry(clkin: real): Candidate
  {
    Candidate(clkin * 2.0, Clk2x, Doubled, clkin)
  }

  /** The CLKDV output of input `src` for the k-th divide ratio. */
  function DivEntry(src: real, k: int, preDivide: bool): Candidate
    requires 0 <= k < DivRatioCount
  {
    Candidate(src / DivRatio(k), ClkDv, Divided(DivRatio(k), preDivide), src)
  }

  /** The CLKFX output of input `clkin` for CLKFX_MULTIPLY `m` and CLKFX_DIVIDE `d`. */
  function FxEntry(clkin: real, m: int, d: int): Candidate
    requires d >= 1
  {
    var f := clkin * (m as real) / (d as real);
    Candidate(f, ClkFx, Synthesised(m, d, TierOf(f)), clkin)
  }

  /**
    The CLKDV outputs of input `clkin`, one per supported divide ratio in list
    order; `preDivide` marks entries whose input was already halved by
    CLKIN_DIVIDE_BY_2.
   */
  function DcmClkDiv(clkin: real, preDivide: bool): (r: seq<Candidate>)
    ensures |r| == DivRatioCount
    ensures forall k :: 0 <= k < |r| ==>
      && r[k].mode == ClkDv && r[k].source == clkin
      && r[k].how == Divided(DivRatio(k), preDivide)
      && Realises(r[k])
  {
    forall k | 0 <= k < DivRatioCount ensures Realises(DivEntry(clkin, k, preDivide)) {
      DivEntryRealises(clkin, k, preDivide);
    }
    seq(DivRatioCount, k requires 0 <= k < DivRatioCount => DivEntry(clkin, k, preDivide))
  }

  /** The CLKFX outputs for multiplier `m`, over dividers 1 to 31. */
  function FxRow(clkin: real, m: int): seq<Candidate>
  {
    seq(31, j requires 0 <= j < 31 => FxEntry(clkin, m, j + 1))
  }

  /** One row per multiplier 2 to 31. */
  function FxRows(clkin: real): seq<seq<Candidate>>
  {
    seq(30, i requires 0 <= i < 30 => FxRow(clkin, i + 2))
  }

  /** Every CLKFX output, by ascending multiplier and then ascending divider. */
  function FxBlock(clkin: real): (r: seq<Candidate>)
    ensures |r| == 30 * 31
  {
    assert Uniform(FxRows(clkin), 31);
    FlattenLength(FxRows(clkin), 31);
    Flatten(FxRows(clkin))
  }

  /** Every output one DCM stage can produce from `clkin`. */
  function CalcPossibleClocks(clkin: real): (r: seq<Candidate>)
    ensures |r| == StageSize
  {
    [DoubleEntry(clkin)] + DcmClkDiv(clkin, false) + DcmClkDiv(clkin / 2.0, true) + FxBlock(clkin)
  }

  /** Number of entries one stage produces: 1 + 2 * 22 + 30 * 31. */
  const StageSize: nat := 975

  // Positions of the blocks inside CalcPossibleClocks.
  const DirectDivStart: nat := 1
  const PreDivStart: nat := 23
  const FxStart: nat := 45

  /** Index of the CLKFX entry for `m` and `d` inside CalcPossibleClocks. */
  function FxIndex(m: int, d: int): int
  {
    FxStart + (m - 2) * 31 + (d - 1)
  }

  lemma FxBlockAt(clkin: real, m: int, d: int)
    requires IsFxSetting(m, d)
    ensures |FxBlock(clkin)| == 930
    ensures FxBlock(clkin)[(m - 2) * 31 + (d - 1)] == FxEntry(clkin, m, d)
  {
    var rows := FxRows(clkin);
    assert Uniform(rows, 31);
    FlattenAt(rows, 31, m - 2, d - 1);
    assert rows[m - 2] == FxRow(clkin, m);
  }

  lemma StageParts(clkin: real)
    ensures |DcmClkDiv(clkin, false)| == |DcmClkDiv(clkin / 2.0, true)| == DivRatioCount
    ensures |FxBlock(clkin)| == 930
    ensures |CalcPossibleClocks(clkin)| == StageSize
    ensures CalcPossibleClocks(clkin)[..FxStart] ==
      [DoubleEntry(clkin)] + DcmClkDiv(clkin, false) + DcmClkDiv(clkin / 2.0, true)
    ensures CalcPossibleClocks(clkin)[FxStart..] == FxBlock(clkin)
  {
    var rows := FxRows(clkin);
    assert Uniform(rows, 31);
    FlattenLength(rows, 31);
  }

  /** The k-th direct and the k-th pre-divided CLKDV entries of a stage. */
  lemma DivEntriesAt(clkin: real, k: int)
    requires 0 <= k < DivRatioCount
    ensures |CalcPossibleClocks(clkin)| == StageSize
    ensures CalcPossibleClocks(clkin)[DirectDivStart + k] == DivEntry(clkin, k, false)
    ensures CalcPossibleClocks(clkin)[PreDivStart + k] == DivEntry(clkin / 2.0, k, true)
  {
    StageParts(clkin);
    var all := CalcPossibleClocks(clkin);
    assert all[DirectDivStart + k] == all[..FxStart][DirectDivStart + k];
    assert all[PreDivStart + k] == all[..FxStart][PreDivStart + k];
  }

  /** The CLKFX entry for `m` and `d` of a stage. */
  lemma FxEntryAt(clkin: real, m: int, d: int)
    requires IsFxSetting(m, d)
    ensures |CalcPossibleClocks(clkin)| == StageSize
    ensures 0 <= FxIndex(m, d) < StageSize
    ensures CalcPossibleClocks(clkin)[FxIndex(m, d)] == FxEntry(clkin, m, d)
  {
    StageParts(clkin);
    FxBlockAt(clkin, m, d);
    var all := CalcPossibleClocks(clkin);
    assert all[FxIndex(m, d)] == all[FxStart..][(m - 2) * 31 + (d - 1)];
  }

  /**
    The layout of one stage: the 2x entry, the 22 direct CLKDV entries, the 22
    pre-divided CLKDV entries (recording the halved input as their source), then
    CLKFX by ascending multiplier and, within it, ascending divider, including
    the unity settings with equal multiplier and divider.
   */
  lemma CalcPossibleClocksLayout(clkin: real)
    ensures |CalcPossibleClocks(clkin)| == StageSize == 1 + 2 * DivRatioCount + 30 * 31
    ensures CalcPossibleClocks(clkin)[0] == DoubleEntry(clkin)
    ensures forall k :: 0 <= k < DivRatioCount ==>
      && CalcPossibleClocks(clkin)[DirectDivStart + k] == DivEntry(clkin, k, false)
      && CalcPossibleClocks(clkin)[PreDivStart + k] == DivEntry(clkin / 2.0, k, true)
    ensures forall m, d :: IsFxSetting(m, d) ==>
      CalcPossibleClocks(clkin)[FxIndex(m, d)] == FxEntry(clkin, m, d)
  {
    StageParts(clkin);
    forall k | 0 <= k < DivRatioCount
      ensures CalcPossibleClocks(clkin)[DirectDivStart + k] == DivEntry(clkin, k, false)
      ensures CalcPossibleClocks(clkin)[PreDivStart + k] == DivEntry(clkin / 2.0, k, true)
    {
      DivEntriesAt(clkin, k);
    }
    forall m, d | IsFxSetting(m, d)
      ensures CalcPossibleClocks(clkin)[FxIndex(m, d)] == FxEntry(clkin, m, d)
    {
      FxEntryAt(clkin, m, d);
    }
  }

  lemma DivEntryRealises(src: real, k: int, preDivide: bool)
    requires 0 <= k < DivRatioCount
    ensures Realises(DivEntry(src, k, preDivide))
  {
    var c := DivEntry(src, k, preDivide);
    assert DivRatio(k) == c.how.ratio;
    assert c.freq * DivRatio(k) == src;
  }

  lemma FxEntryRealises(clkin: real, m: int, d: int)
    requires IsFxSetting(m, d)
    ensures Realises(FxEntry(clkin, m, d))
  {
    var c := FxEntry(clkin, m, d);
    assert c.freq * (d as real) == clkin * (m as real);
  }

  /** Every entry of a stage is explained by its recipe and records the input it used. */
  lemma StageEntrySound(clkin: real, i: int)
    requires 0 <= i < |CalcPossibleClocks(clkin)|
    ensures Realises(CalcPossibleClocks(clkin)[i])
    ensures CalcPossibleClocks(clkin)[i].source == RecordedSource(CalcPossibleClocks(clkin)[i].how, clkin)
  {
    StageParts(clkin);
    if i == 0 {
    } else if i < PreDivStart {
      DivEntriesAt(clkin, i - DirectDivStart);
      DivEntryRealises(clkin, i - DirectDivStart, false);
    } else if i < FxStart {
      DivEntriesAt(clkin, i - PreDivStart);
      DivEntryRealises(clkin / 2.0, i - PreDivStart, true);
    } else {
      var m, d := (i - FxStart) / 31 + 2, (i - FxStart) % 31 + 1;
      assert FxIndex(m, d) == i;
      FxEntryAt(clkin, m, d);
      FxEntryRealises(clkin, m, d);
    }
  }

  lemma ProductToQuotient(x: real, y: real, d: real)
    requires d != 0.0
    requires x * d == y
    ensures x == y / d
  {
  }

  lemma DividedIsEntry(c: Candidate) returns (k: int)
    requires c.how.Divided? && Realises(c)
    ensures 0 <= k < DivRatioCount
    ensures c == DivEntry(c.source, k, c.how.preDivide)
  {
    k :| 0 <= k < DivRatioCount && DivRatio(k) == c.how.ratio;
    ProductToQuotient(c.freq, c.source, c.how.ratio);
  }

  lemma DividedComplete(clkin: real, c: Candidate)
    requires c.how.Divided? && Realises(c) && c.source == RecordedSource(c.how, clkin)
    ensures c in CalcPossibleClocks(clkin)
  {
    var k := DividedIsEntry(c);
    DivEntriesAt(clkin, k);
    if c.how.preDivide {
      assert CalcPossibleClocks(clkin)[PreDivStart + k] == c;
    } else {
      assert CalcPossibleClocks(clkin)[DirectDivStart + k] == c;
    }
  }

  /** A CLKFX candidate whose frequency is the quotient its recipe names is the generator's entry. */
  lemma FxEntryOf(c: Candidate, m: int, d: int)
    requires d >= 1 && c.mode == ClkFx
    requires c.freq == c.source * (m as real) / (d as real)
    requires c.how == Synthesised(m, d, TierOf(c.freq))
    ensures c == FxEntry(c.source, m, d)
  {
  }

  lemma SynthesisedIsEntry(c: Candidate)
    requires c.how.Synthesised? && Realises(c)
    ensures c == FxEntry(c.source, c.how.mul, c.how.div)
  {
    var m, d := c.how.mul, c.how.div;
    assert IsFxSetting(m, d) && c.freq * (d as real) == c.source * (m as real);
    ProductToQuotient(c.freq, c.source * (m as real), d as real);
    FxEntryOf(c, m, d);
  }

  lemma SynthesisedComplete(clkin: real, c: Candidate)
    requires c.how.Synthesised? && Realises(c) && c.source == clkin
    ensures c in CalcPossibleClocks(clkin)
  {
    SynthesisedIsEntry(c);
    FxEntryAt(clkin, c.how.mul, c.how.div);
    assert CalcPossibleClocks(clkin)[FxIndex(c.how.mul, c.how.div)] == c;
  }

  /** Every candidate a recipe explains from `clkin` (or its half, when pre-divided) is listed. */
  lemma StageEntryComplete(clkin: real, c: Candidate)
    requires Realises(c) && c.source == RecordedSource(c.how, clkin)
    ensures c in CalcPossibleClocks(clkin)
  {
    match c.how
    case Doubled =>
      assert c == CalcPossibleClocks(clkin)[0];
    case Divided(_, _) =>
      DividedComplete(clkin, c);
    case Synthesised(_, _, _) =>
      SynthesisedComplete(clkin, c);
  }

  /**
    The stage is exactly the set of candidates whose recipe explains their
    frequency from their source, where the source is `clkin` itself, or
    `clkin / 2` for the pre-divided CLKDV entries.
   */
  lemma StageMember(clkin: real, c: Candidate)
    ensures c in CalcPossibleClocks(clkin) <==> Realises(c) && c.source == RecordedSource(c.how, clkin)
  {
    if c in CalcPossibleClocks(clkin) {
      var i :| 0 <= i < |CalcPossibleClocks(clkin)| && CalcPossibleClocks(clkin)[i] == c;
      StageEntrySound(clkin, i);
    }
    if Realises(c) && c.source == RecordedSource(c.how, clkin) {
      StageEntryComplete(clkin, c);
    }
  }

  /**
    The synthesis loop does not skip equal multiplier and divider: for every
    m the unity setting m/m is listed and reproduces the input frequency.
   */
  lemma UnitySettingsListed(clkin: real, m: int)
    requires 2 <= m <= 31
    ensures FxEntry(clkin, m, m) in CalcPossibleClocks(clkin)
    ensures FxEntry(clkin, m, m).freq == clkin
  {
    FxEntryAt(clkin, m, m);
    var i := FxIndex(m, m);
    assert CalcPossibleClocks(clkin)[i] == FxEntry(clkin, m, m);
    UnityFreq(clkin, m);
  }

  /** Equal multiplier and divider reproduce the input frequency. */
  lemma UnityFreq(clkin: real, m: int)
    requires m >= 1
    ensures FxEntry(clkin, m, m).freq == clkin
  {
    var k := m as real;
    assert FxEntry(clkin, m, m).freq == clkin * k / k;
  }

  /** From 32 MHz, CLKFX 25/8 gives exactly 100 MHz without a speed-grade warning. */
  lemma HundredFromThirtyTwo()
    ensures FxEntry(32.0, 25, 8) in CalcPossibleClocks(32.0)
    ensures FxEntry(32.0, 25, 8).freq == 100.0
    ensures FxEntry(32.0, 25, 8).how.tier == Unflagged
  {
    FxEntryAt(32.0, 25, 8);
  }

  /**
    Dividing by 4 and pre-dividing then dividing by 2 give the same frequency
    as two different, both listed, candidates.
   */
  lemma SameFrequencyTwoRecipes(clkin: real)
    ensures DivEntry(clkin, 5, false) in CalcPossibleClocks(clkin)
    ensures DivEntry(clkin / 2.0, 1, true) in CalcPossibleClocks(clkin)
    ensures DivEntry(clkin, 5, false).freq == DivEntry(clkin / 2.0, 1, true).freq == clkin / 4.0
    ensures DivEntry(clkin, 5, false) != DivEntry(clkin / 2.0, 1, true)
  {
    DivEntriesAt(clkin, 5);
    DivEntriesAt(clkin, 1);
    assert DivRatio(5) == 4.0 && DivRatio(1) == 2.0;
  }
}
