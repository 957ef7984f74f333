# Papilio DCM clock calculator: a Dafny model

`papilio_clock.py` helps pick a clock for a Spartan-6 FPGA board. The FPGA has
digital clock managers (DCMs). Each DCM turns an input clock into a 2x output,
a divided output (CLKDV, with 22 fractional ratios, optionally after halving
the input), and a synthesised output (CLKFX = input x M / D). The tool:

- lists every frequency one DCM can make from an input;
- lists every frequency two cascaded DCMs can make;
- searches the frequency-sorted list for the candidates nearest a desired frequency;
- looks up which first-stage candidates produce a given intermediate frequency.

This project models that core in Dafny and proves what it computes.

- `clock.dfy` (module `Clock`): the vocabulary.
  - The output mode (`Clk2x`, `ClkDv`, `ClkFx`), ranked as the tool's pin-name strings sort.
  - The recipe: `Doubled`, `Divided(ratio, preDivide)`, or `Synthesised(mul, div, tier)`.
  - The speed-grade warning tier.
  - The candidate record `(freq, mode, how, source)`.
  - The 22 CLKDV ratios and the CLKFX bounds.
  - `Realises`, which says a candidate's recipe applied to its source yields its frequency.
- `generate.dfy` (module `Generate`): one DCM stage, `DCM_clkdiv` and `calc_possible_clocks`.
- `cascade.dfy` (module `Cascade`): `calc_possible_twolayer_clocks`.
- `ordering.dfy` (module `Ordering`): the clean-up both searches end with.
  - De-duplication keeps first occurrences.
  - A stable sort by mode follows.
- `search.dfy` (module `Search`): `find_best_multipliers`.
  - It is written as a method whose loops mirror the source's `for`/`break` scan.
  - It is proved equal to a declarative reference: the candidates at the nearest frequencies below and at-or-above the target.
- `provenance.dfy` (module `Provenance`): `find_base_frequency` as written, a corrected version, and the input that separates them.
- `seqs.dfy` (module `Seqs`): generic sequence helpers (flattening a list of equal-length blocks, filtering).

Frequencies are exact rationals (`real`, in MHz). A Python candidate is the list `[freq, mode, description, source]`. Its description string is fixed by the recipe and the frequency, so the model keeps the recipe in structured form. Two Python candidates are equal exactly when the modelled candidates are.

Where the obvious reading of the tool and its code differ, the model follows the code:

- The synthesis loop does not skip `M == D`. Every such setting lists the input frequency itself (`Generate.UnitySettingsListed`).
- A CLKDV entry made with the input halved records the halved input as its source. The source is `clkin/2`, not `clkin`: line 103 passes `clkin/2` to `DCM_clkdiv`, which records its argument at line 89.
  - So the sources in the two-stage list are not all either the input or a first-stage frequency.
  - For any positive input, the second stage fed by the CLKDV /16 pre-divided output records `clkin/64` as a source. That is below every first-stage frequency (`Cascade.SourceNotClosed`).
- When the desired frequency is below every candidate, the result is `clocks[0]` alone.

## Model

| member | source | states |
|---|---|---|
| Clock.RankAgreesWithLabels | papilio_clock.py:192 | Ordering modes by rank is the same, in both directions, as comparing the pin-name strings that `sort(key=itemgetter(1))` compares. |
| Clock.DivRatio | papilio_clock.py:18 | Every CLKDV ratio lies between 1.5 and 16. |
| Clock.DivRatiosListed | papilio_clock.py:18 | The 22 CLKDV ratios, in order, are exactly 1.5, 2, 2.5, 3, 3.5, 4, 4.5, 5, 5.5, 6, 6.5, 7, 7.5, 8, 9, 10, 11, 12, 13, 14, 15, 16. |
| Clock.TierOf | papilio_clock.py:111-113 | The warning is over 350 iff f > 350; over 250 iff 250 < f <= 350; over 200 iff 200 < f <= 250; none iff f <= 200. So the first threshold exceeded decides. |
| Clock.TierMonotone | papilio_clock.py:111-113 | A higher frequency never carries a milder warning. |
| Generate.CalcPossibleClocksLayout | papilio_clock.py:99-115 | One stage has 975 = 1 + 2*22 + 30*31 entries. They are: the 2x entry; the 22 CLKDV entries of the input, in ratio order; the 22 of the halved input; then every CLKFX setting (M, D), M in 2..31 and D in 1..31, at position 45 + (M-2)*31 + (D-1). |
| Generate.DcmClkDiv | papilio_clock.py:84-91 | One CLKDV entry per listed ratio, in ratio order. Entry k is on the CLKDV output, records the given input as its source, carries ratio k and the pre-divide flag, and its frequency times ratio k is that input. |
| Generate.CalcPossibleClocks | papilio_clock.py:94-115 | A stage has 975 entries. Which candidates it lists is stated by Generate.StageMember, and where each one sits by Generate.CalcPossibleClocksLayout. |
| Generate.DivEntriesAt | papilio_clock.py:101-103 | Position 1+k holds CLKDV ratio k of the input. Position 23+k holds CLKDV ratio k of the halved input, flagged as pre-divided. |
| Generate.FxEntryAt | papilio_clock.py:105-114 | The CLKFX entry for M and D is at position 45 + (M-2)*31 + (D-1), inside the stage. |
| Generate.DivEntryRealises | papilio_clock.py:87-89 | A CLKDV entry is on the CLKDV output, its ratio is a listed one, and its frequency times the ratio is its recorded source. |
| Generate.FxEntryRealises | papilio_clock.py:105-114 | A CLKFX entry has frequency x D = input x M, M and D within bounds, and the warning tier of its frequency. |
| Generate.StageEntrySound | papilio_clock.py:94-115 | Every entry of a stage is realised by its recipe. Its recorded source is the input, or half the input for a pre-divided CLKDV entry. |
| Generate.StageEntryComplete | papilio_clock.py:94-115 | Every candidate realised by its recipe from that recorded source is in the stage. |
| Generate.StageMember | papilio_clock.py:94-115 | A candidate is in the stage iff it is realised and its source is the one recorded from the input. |
| Generate.UnitySettingsListed | papilio_clock.py:105-107 | Settings with M = D are listed and reproduce the input frequency. |
| Generate.HundredFromThirtyTwo | papilio_clock.py:105-114 | From 32 MHz the stage lists CLKFX 25/8 at exactly 100 MHz, with no warning. |
| Generate.SameFrequencyTwoRecipes | papilio_clock.py:101-103 | CLKDV /4 of the input and CLKDV /2 of the halved input are both listed. Both give input/4, and they are different candidates. |
| Cascade.CalcPossibleTwoLayerClocks | papilio_clock.py:117-125 | The two-stage list has 975*976 entries. Which candidates it lists is stated by Cascade.TwoLayerCharacterised, and where by Cascade.TwoLayerBlock. |
| Cascade.TwoLayerPrefix | papilio_clock.py:117-125 | The two-stage list has 975*976 entries, and its first 975 are the first stage. |
| Cascade.TwoLayerBlock | papilio_clock.py:117-125 | Block k+1 of 975 entries is the stage fed by the frequency of first-stage entry k. |
| Cascade.TwoLayerMember | papilio_clock.py:117-125 | A candidate is listed iff the first stage lists it, or the stage fed by some first-stage frequency lists it. |
| Cascade.TwoLayerCharacterised | papilio_clock.py:117-125 | A candidate is listed iff it is realised and its source is recorded from the input or from some first-stage frequency. |
| Cascade.StageFreqLowerBound | papilio_clock.py:94-115 | From a positive input, no stage output is below input/32. |
| Cascade.SourceNotClosed | papilio_clock.py:117-125 | For every positive input, some listed candidate has a source that is neither the input nor any first-stage frequency. |
| Ordering.DedupInto | papilio_clock.py:143-146 | Appending the unseen elements of s to a repeat-free acc gives a repeat-free list. It extends acc, holds exactly the elements of acc and s, and is no longer than both together. |
| Ordering.DedupIdentity | papilio_clock.py:143-146 | De-duplication leaves a list unchanged iff the list has no repeats. |
| Ordering.DedupIdempotent | papilio_clock.py:186-190 | De-duplicating twice equals de-duplicating once. |
| Ordering.DedupIntoOrder | papilio_clock.py:143-146 | If acc holds the elements of an earlier input in first-occurrence order, appending the unseen elements of s keeps first-occurrence order for that input followed by s. |
| Ordering.Dedup | papilio_clock.py:143-146 | The result has no repeats and holds exactly the elements of the input, no longer than it. Its elements come in the order of their first occurrences in the input. |
| Ordering.SortByMode | papilio_clock.py:147 | The result is ordered by mode and holds exactly the elements of the input. Ordering.SortByModeCorrect adds that it is a stable permutation. |
| Ordering.SortByModeCorrect | papilio_clock.py:147 | The mode sort is a permutation (same multiset, same length) and is ordered by mode. It is stable: each mode's candidates keep their order. |
| Ordering.SortByModeUnique | papilio_clock.py:192 | Any mode-ordered list that keeps each mode's candidates of s in order equals the mode sort of s. |
| Ordering.Normalize | papilio_clock.py:186-192 | The clean-up output has no repeats, is ordered by mode, holds exactly the input's elements, and is no longer than the input. For each mode, its candidates of that mode are those of the de-duplicated input, in the same order. |
| Ordering.NormalizeOrder | papilio_clock.py:186-192 | Within each mode, the cleaned-up list holds the candidates in the order of their first occurrences in the input. |
| Ordering.NormalizeIdempotent | papilio_clock.py:186-192 | Cleaning up a cleaned-up list changes nothing. |
| Search.MaxBelow | papilio_clock.py:160-167 | Returns none iff no frequency is below v. Otherwise it returns a listed frequency below v that no listed frequency below v exceeds. |
| Search.MinAtOrAbove | papilio_clock.py:168-176 | Returns none iff every frequency is below v. Otherwise it returns a listed frequency at or above v that no listed frequency at or above v undercuts. |
| Search.AtFreqRun | papilio_clock.py:168-176 | In a frequency-sorted list, a maximal run of equal frequencies is exactly the list's candidates at that frequency. |
| Search.ScanBelow | papilio_clock.py:156-167 | The scan stops at the first candidate at or above the target. `low` is then the run of equal frequencies just before it, or `[clocks[0]]` if the scan never moved. `clocks[0]` appears twice exactly when that run starts at `clocks[0]` and `clocks[0]` is at 1 MHz, the `clk = [1,0,0]` seed. |
| Search.RunAtOrAbove | papilio_clock.py:168-176 | From the stopping candidate, `high` is the maximal run at its frequency. |
| Search.Gather | papilio_clock.py:177-185 | The gathered list is non-empty and drawn from `low` and `high`. On an exact hit it holds exactly the elements of `high`. Otherwise it begins with `low`: when the two start at different frequencies it also holds all of `high`, and when they start at the same frequency it holds exactly the elements of `low`. |
| Search.GatherAgrees | papilio_clock.py:177-192 | What the scan gathers, once cleaned up, equals the cleaned-up reference selection. |
| Search.NormalizeRepeatedHead | papilio_clock.py:156-165 | The repeated first candidate from the seed disappears in the clean-up. |
| Search.BestReference | papilio_clock.py:160-185 | The declarative selection the search is measured against: the candidates at the target, or else the candidates at the nearest frequencies below and at-or-above, or `clocks[0]` when nothing is below. It draws only on listed candidates. Search.BestExact, Search.BestBracket, Search.BestAboveAll and Search.BestBelowAll state what it selects in each case. |
| Search.FindBestMultipliers | papilio_clock.py:150-193 | For a non-empty frequency-sorted list, the result is the cleaned-up reference selection. It is non-empty, has no repeats, is ordered by mode, and holds only input candidates. |
| Search.BestNonEmpty | papilio_clock.py:156-185 | The selection is never empty. |
| Search.BestExact | papilio_clock.py:168-180 | If some candidate is at the target, the result holds exactly the candidates at the target, and nothing else. |
| Search.BestBracket | papilio_clock.py:160-185 | With no exact match and candidates on both sides, the result holds exactly the candidates at the nearest frequency below and those at the nearest frequency above. |
| Search.BestAboveAll | papilio_clock.py:160-185 | Above every frequency, the result holds exactly the candidates at the largest frequency. |
| Search.BestBelowAll | papilio_clock.py:157-185 | Below every frequency, the result is the first candidate alone. |
| Provenance.ScanRun | papilio_clock.py:135-141 | Everything collected matches and comes from the list. Scanning from the start, nothing is collected iff nothing matches. |
| Provenance.ScanRunFirst | papilio_clock.py:135-141 | The scan from the start collects exactly the first maximal run of matches. |
| Provenance.FindBaseFrequency | papilio_clock.py:127-148 | The result has no repeats and is ordered by mode. It holds only list candidates with the given frequency and source, and it is empty iff the list has no such candidate. |
| Provenance.FindBaseFrequencyFirstRun | papilio_clock.py:135-147 | The result is the cleaned-up first maximal run of matches. |
| Provenance.FindBaseFrequencyAll | papilio_clock.py:127-148 | The corrected lookup has no repeats, is ordered by mode, and holds exactly the list candidates with the given frequency and source. |
| Provenance.FindBaseAgreesWhenContiguous | papilio_clock.py:135-141 | When the matches form one block, the lookup as written and the corrected lookup agree. |
| Provenance.FindBaseMissesSplitRun | papilio_clock.py:139-141 | For a frequency-sorted four-candidate list, the lookup as written returns one match and misses the second. The corrected lookup finds both. |
| Provenance.SplitRunExampleListed | papilio_clock.py:117-125 | The four candidates of that list all occur in the two-stage list for the default 320 MHz input. |

## Left out

- The Tkinter `App` class (papilio_clock.py:28-81), `collate_output` (papilio_clock.py:195-210) and the command-line entry point (papilio_clock.py:214-238): user interface, text formatting and I/O.
- Description strings (papilio_clock.py:89, 100, 109-113): represented by the structured recipe. The text is determined by recipe and frequency, so list equality is preserved.
- Floating point: frequencies are exact rationals. So the comparisons at papilio_clock.py:136, 161-164, 173, 179 and 184 are exact. Python may see `clkin*25/8` and `clkin*75/24` differ in the last bit.
  - In particular, `desired + diff` at line 173 is exactly the frequency of the stopping candidate.
- The full sort of the two-stage list (papilio_clock.py:231) orders by frequency, mode, description and source. It is not modelled. `Search.FindBestMultipliers` instead requires its input to be sorted by frequency, and `find_base_frequency` takes any list.
- Search.FindBestMultipliers: requires a non-empty list, because the source indexes `clocks[0]` and `clocks[-1]` before scanning.
- Python 2 integer division of an integer input (`clkin/2` at line 103): both callers convert the input to `float` first, so the model divides exactly.
- `DCM_CLKFX_MUL` and `DCM_CLKFX_DIV` (papilio_clock.py:19-20) appear only as the bounds 2..31 and 1..31 of `range`.

## Findings

| source | as written | input that shows it | evidently intended | confidence | as-written member | corrected member |
|---|---|---|---|---|---|---|
| papilio_clock.py:135-141 | The lookup stops at the first non-match after a match, which assumes every candidate with the given frequency and source is adjacent in the sorted list. The full sort orders equal frequencies by mode and description before source, so matches can be separated. | With the default 320 MHz input, the two-stage list holds, at 160 MHz, CLKDV 1.5 of 240 MHz, CLKDV 2 of 320 MHz, CLKDV 2.5 of 400 MHz and CLKFX 2/4 of 320 MHz. Sorting puts them in that relative order, because CLKDV sorts before CLKFX and "1.5" < "2" < "2.5". Looking up 160 MHz from 320 MHz therefore stops at the 400 MHz entry and misses CLKFX 2/4. | Every candidate with the given frequency and source. | medium: the relative order after the full sort is argued from the sort key, not modelled; not executed | Provenance.FindBaseMissesSplitRun | Provenance.FindBaseFrequencyAll |
