/**
  The vocabulary of the Papilio clock helper: the outputs of one Spartan-6
  digital clock manager (DCM), the recipe that configures each output, and the
  candidate record that ties a frequency to the recipe and the input it came from.
  Frequencies are MHz as exact rationals.
 */
module Clock {

  /** The output path of the DCM that carries a candidate frequency. */
  datatype Mode = Clk2x | ClkDv | ClkFx

  /** Position of a mode in the order the tool presents results. */
  function Rank(m: Mode): nat
  {
    match m
    case Clk2x => 0
    case ClkDv => 1
    case ClkFx => 2
  }

  /** The output-pin names the tool prints for each mode; results are sorted by these strings. */
  function Label(m: Mode): string
  {
    match m
    case Clk2x => "CLK2X,CLK2X180"
    case ClkDv => "CLKDV"
    case ClkFx => "CLKFX, CLKFX180"
  }

  /** Code-point lexicographic order on strings, as Python compares `str` values. */
  predicate LexLess(a: string, b: string)
  {
    if |a| == 0 then |b| > 0
    else if |b| == 0 then false
    else if a[0] != b[0] then a[0] < b[0]
    else LexLess(a[1..], b[1..])
  }

  /** A common prefix does not change the lexicographic order. */
  lemma {:induction false} LexLessCommonPrefix(p: string, a: string, b: string)
    ensures LexLess(p + a, p + b) == LexLess(a, b)
    decreases |p|
  {
    if |p| == 0 {
      assert p + a == a && p + b == b;
    } else {
      assert (p + a)[0] == p[0] == (p + b)[0];
      assert (p + a)[1..] == p[1..] + a;
      assert (p + b)[1..] == p[1..] + b;
      LexLessCommonPrefix(p[1..], a, b);
    }
  }

  /** No string is lexicographically below itself. */
  lemma {:induction false} LexLessIrreflexive(a: string)
    ensures !LexLess(a, a)
    decreases |a|
  {
    if |a| > 0 {
      LexLessIrreflexive(a[1..]);
    }
  }

  /** A label without its common "CLK" prefix. */
  function LabelTail(m: Mode): string
  {
    match m
    case Clk2x => "2X,CLK2X180"
    case ClkDv => "DV"
    case ClkFx => "FX, CLKFX180"
  }

  lemma LabelSplit(m: Mode)
    ensures Label(m) == "CLK" + LabelTail(m)
    ensures |LabelTail(m)| > 0
  {
  }

  /** Ordering modes by Rank is the same as ordering their labels as strings. */
  lemma RankAgreesWithLabels(m1: Mode, m2: Mode)
    ensures Rank(m1) < Rank(m2) <==> LexLess(Label(m1), Label(m2))
  {
    var t1, t2 := LabelTail(m1), LabelTail(m2);
    LabelSplit(m1);
    LabelSplit(m2);
    LexLessCommonPrefix("CLK", t1, t2);
    if m1 == m2 {
      LexLessIrreflexive(t1);
    } else {
      assert t1[0] != t2[0];
    }
  }

  /** The speed-grade warning attached to a synthesised frequency. */
  datatype Tier = Unflagged | Over200 | Over250 | Over350

  function Severity(t: Tier): nat
  {
    match t
    case Unflagged => 0
    case Over200 => 1
    case Over250 => 2
    case Over350 => 3
  }

  /** The warning for output frequency `f`: the highest threshold it exceeds. */
  function TierOf(f: real): (t: Tier)
    ensures t == Over350 <==> f > 350.0
    ensures t == Over250 <==> 250.0 < f <= 350.0
    ensures t == Over200 <==> 200.0 < f <= 250.0
    ensures t == Unflagged <==> f <= 200.0
  {
    if f > 350.0 then Over350
    else if f > 250.0 then Over250
    else if f > 200.0 then Over200
    else Unflagged
  }

  /** A higher frequency never carries a milder warning. */
  lemma TierMonotone(f: real, g: real)
    requires f <= g
    ensures Severity(TierOf(f)) <= Severity(TierOf(g))
  {
  }

  /** How a DCM is configured to produce a candidate. */
  datatype Recipe =
    | Doubled
    | Divided(ratio: real, preDivide: bool)
    | Synthesised(mul: int, div: int, tier: Tier)

  /** One way to realise a frequency: the output, its mode, the recipe and the DCM input used. */
  datatype Candidate = Candidate(freq: real, mode: Mode, how: Recipe, source: real)

  /**
    The CLKDV_DIVIDE values the DCM supports, in the order the tool lists them
    (1.5 to 8 in steps of 0.5, then 9 to 16), each stored doubled so that the
    list holds integers.
   */
  const DoubledDivRatios: seq<int> :=
    [3, 4, 5, 6, 7, 8, 9, 10, 11, 12, 13, 14, 15, 16, 18, 20, 22, 24, 26, 28, 30, 32]

  /** Number of supported divide ratios. */
  const DivRatioCount: nat := 22

  /** The k-th supported divide ratio. */
  function DivRatio(k: int): (r: real)
    requires 0 <= k < DivRatioCount
    ensures 1.5 <= r <= 16.0
  {
    DoubledDivRatios[k] as real / 2.0
  }

  /** The ratios, as the reals the tool divides by. */
  lemma DivRatiosListed()
    ensures |DoubledDivRatios| == DivRatioCount
    ensures seq(DivRatioCount, DivRatio) ==
      [1.5, 2.0, 2.5, 3.0, 3.5, 4.0, 4.5, 5.0, 5.5, 6.0, 6.5, 7.0, 7.5, 8.0,
       9.0, 10.0, 11.0, 12.0, 13.0, 14.0, 15.0, 16.0]
  {
  }

  /** `r` is one of the supported divide ratios. */
  ghost predicate IsDivRatio(r: real)
  {
    exists k :: 0 <= k < DivRatioCount && DivRatio(k) == r
  }

  /** Bounds of the CLKFX_MULTIPLY (2..31) and CLKFX_DIVIDE (1..31) values the tool tries. */
  predicate IsFxSetting(m: int, d: int)
  {
    2 <= m <= 31 && 1 <= d <= 31
  }

  /**
    The recipe, applied to the candidate's recorded source, yields its frequency
    on the output its mode names.  Stated with products so that it does not
    repeat the divisions the generator performs.
   */
  ghost predicate Realises(c: Candidate)
  {
    match c.how
    case Doubled =>
      c.mode == Clk2x && c.freq == 2.0 * c.source
    case Divided(r, _) =>
      c.mode == ClkDv && IsDivRatio(r) && c.freq * r == c.source
    case Synthesised(m, d, t) =>
      && c.mode == ClkFx
      && IsFxSetting(m, d)
      && c.freq * (d as real) == c.source * (m as real)
      && t == TierOf(c.freq)
  }

  /** The source a candidate made from `clkin` records: the halved input when CLKIN_DIVIDE_BY_2 is used. */
  function RecordedSource(how: Recipe, clkin: real): real
  {
    if how.Divided? && how.preDivide then clkin / 2.0 else clkin
  }
}
