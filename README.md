# Solid–liquid coexistence analysis: discrete core

This project models the discrete decisions of the coexistence analyser
`analyze_coexistence` in `Md.x/checkcoext.py` and proves properties about them.
The analyser reads a 1-D density profile, one density per bin. It labels each bin
as solid, liquid or interface, scores the evidence for two-phase coexistence and
names the state of the system. The model has three parts:

- **Continuous regions** (`regions.dfy`, module `Regions`). `find_continuous_regions`
  is a single left-to-right scan over a boolean mask. It is modelled as a method with
  a `for` loop. The run start is Python's `None`-or-index, kept as an `Option`. The
  method is proved to return exactly the maximal runs of `true`: sorted, separated,
  covering every `true` index once, with lengths summing to the number of `true`
  entries. A uniqueness lemma shows that this postcondition pins the result down
  completely.
- **Phase masks and labels** (`phases.dfy`, module `Phases`). A bin is solid when
  `density > final_high` and liquid when `density < final_low`. It is interface when
  neither holds. The label array is built as in the source: it is created full of
  `INTERFACE`, then overwritten through the solid mask, then through the liquid mask.
  Each pass is a `forall` assignment over the array. So a bin that passes both tests
  is labelled `LIQUID`. This can only happen when the thresholds cross.
- **Score and state ladder** (`scoring.dfy`, module `Scoring`). Six 0/1 criteria are
  summed into a score from 0 to 6. The ordered `if/elif` ladder maps the score and
  the solid and liquid fractions to one of six state strings. Fractions are exact:
  `solid_fraction > 0.8` becomes `5 * solidCount > 4 * n`, and `> 0.1` becomes
  `10 * count > n`. A lemma proves these integer tests equal the real-quotient
  comparisons. Python compares rounded floats instead, so the two can differ only
  when a quotient lies within rounding distance of 0.1 or 0.8.

`analysis.dfy` (module `Coexistence`) puts the three parts together in one method. Its
result holds the counts, the criteria, the score, the state, the labels and the solid
and liquid regions.

Shared helper: `counting.dfy` (module `Counting`) holds `CountTrue`, which is `np.sum`
over a boolean mask, and its lemmas.

## Model

| member | source | states |
|---|---|---|
| `Regions.FindContinuousRegions` | Md.x/checkcoext.py:169-184 | the result lists exactly the maximal runs of `true`: each `(s, e)` has `0 <= s <= e < len(mask)` and is all `true`; each starts at 0 or after a `false` and ends at the last index or before a `false`; consecutive regions have `next.start > prev.end + 1`; every `true` index is covered; the sum of `e - s + 1` equals the number of `true` entries |
| `Regions.OpenStep` | Md.x/checkcoext.py:175-176 | a `true` seen with no open run opens a run at that index, and the scan invariant still holds |
| `Regions.CloseStep` | Md.x/checkcoext.py:177-179 | a `false` seen with an open run starting at `s` appends `(s, i-1)`, which is a maximal run, and clears the start |
| `Regions.KeepStep` | Md.x/checkcoext.py:174-179 | a `true` inside an open run, or a `false` with none open, leaves regions and start unchanged and keeps the invariant |
| `Regions.Finish` | Md.x/checkcoext.py:181-183 | closing a run still open at the end as `(start, len(mask)-1)` completes the decomposition, with total length equal to the `true` count |
| `Regions.NoRegionsIffNoTrue` | Md.x/checkcoext.py:171-183 | the result is `[]` exactly when no entry is `true` (the empty mask included) |
| `Regions.AllTrueSingleRegion` | Md.x/checkcoext.py:174-183 | a non-empty all-`true` mask yields exactly `[(0, len(mask)-1)]` |
| `Regions.ExactlyOneRegion` | Md.x/checkcoext.py:174-182 | every `true` index lies in exactly one region |
| `Regions.DecompositionUnique` | Md.x/checkcoext.py:169-184 | any two lists meeting the scan's postcondition for the same mask are equal |
| `Phases.LabelPhases` | Md.x/checkcoext.py:114-116 | after the INTERFACE fill and the solid then liquid overwrites, the fresh array equals the priority labelling: LIQUID where the liquid mask holds, else SOLID where the solid mask holds, else INTERFACE |
| `Phases.LabelOfDensity` | Md.x/checkcoext.py:57-58 | a bin is labelled LIQUID iff `d < low`, SOLID iff `d > high` and not `d < low`, INTERFACE iff `low <= d <= high` |
| `Phases.InterfaceLabelMatchesMask` | Md.x/checkcoext.py:59 | a bin's label is INTERFACE exactly where the source's interface mask (neither solid nor liquid) holds |
| `Phases.LabelsFollowMasks` | Md.x/checkcoext.py:114-116 | with `low <= high` no bin is in both masks, and SOLID and LIQUID labels coincide with their masks |
| `Phases.PhaseCountsPartition` | Md.x/checkcoext.py:62-64 | with `low <= high` the solid, liquid and interface counts sum to the number of bins, so the three fractions sum to one |
| `Phases.PhaseNamesDistinct` | Md.x/checkcoext.py:114-116 | the three label strings are distinct |
| `Scoring.FractionTestsExact` | Md.x/checkcoext.py:91 | for `n > 0`, `10*count > n` iff `count/n > 0.1` and `5*count > 4*n` iff `count/n > 0.8` in exact arithmetic |
| `Scoring.PhaseBalanceExact` | Md.x/checkcoext.py:91 | phase balance holds iff both fractions exceed 0.1; with no bins it fails |
| `Scoring.ScoreBreakdown` | Md.x/checkcoext.py:88-95 | five criteria are the given test outcomes; `phase_balance` holds iff `solid_fraction > 0.1` and `liquid_fraction > 0.1`, and fails when there are no bins |
| `Scoring.CoexistenceScore` | Md.x/checkcoext.py:97 | the score is the number of the six criteria that hold, hence at most 6 |
| `Scoring.ScoreExtremes` | Md.x/checkcoext.py:97 | the score is 0 exactly when no criterion holds and 6 exactly when all hold |
| `Scoring.SystemStateCases` | Md.x/checkcoext.py:100-111 | STRONG iff score >= 4, SOLID-LIQUID COEXISTENCE iff score = 3, POSSIBLE iff score = 2; the fraction tests decide only when score < 2, solid before liquid, SINGLE PHASE when neither passes |
| `Scoring.SystemStateFromFractions` | Md.x/checkcoext.py:106-111 | for `n > 0` the last three rungs stated on the quotients `solid_fraction` and `liquid_fraction` against 0.8 |
| `Scoring.StrengthMonotone` | Md.x/checkcoext.py:100-105 | raising the score never weakens the coexistence verdict |
| `Scoring.FractionOrderImmaterial` | Md.x/checkcoext.py:106-109 | when solid and liquid counts do not overlap, PREDOMINANTLY LIQUID holds iff score < 2 and the liquid fraction exceeds 0.8, so testing solid first does not matter |
| `Scoring.StateNames` | Md.x/checkcoext.py:100-111 | the state is always one of the six listed strings, and distinct states have distinct strings |
| `Coexistence.AnalyzeCoexistence` | Md.x/checkcoext.py:56-120 | the counts are those of the threshold masks; with ordered thresholds they sum to the bin count; the labels are the priority labelling; both region lists are the masks' run decompositions with total lengths equal to the counts; the score is that of the criteria and the state is the ladder's verdict |

## Left out

- Reading `density.dat` and turning any load error into `FileNotFoundError` (lines 23-28): file I/O. The model takes the densities as a sequence of reals.
- Mean, standard deviation, coefficient of variation, skewness, kurtosis, bimodality coefficient, percentiles and IQR, `np.gradient` and the sharp-interface count (lines 31-54, 79-85): floating-point statistics. Their five test outcomes enter as booleans (`StatisticTests`), and the final thresholds `final_high`/`final_low` enter as given reals.
- The histogram and `scipy.signal.find_peaks` peak detection (lines 67-76): a foreign library call. `bimodal` is an input.
- The statistics need at least two bins in Python (`np.gradient` rejects shorter input). The model is total: it also accepts one bin, and zero bins, where the phase-balance and fraction tests fail as Python's NaN comparisons do.
- Scoring.ScoreBreakdown: the fractions use exact arithmetic rather than IEEE double division, so the result can differ from Python when `count / n` is within rounding distance of 0.1.
- Scoring.SystemStateCases: the same exact-arithmetic caveat applies at a fraction of 0.8.
- `print_summary`, `create_plots` and the `__main__` block (lines 186-281): console output, matplotlib and a script driver.
- The statistics, thresholds, positions and densities that the results dictionary also carries are not in `Analysis`, because they are floating-point values.
- Test_1/TI/muna3rdpy.py (Birch–Murnaghan fitting, root finding, plotting) is not part of this model: it is floating-point numerics over scipy with no discrete logic.
- The binary-search temperature controller and the run-length slab classifier of the wider melting-point workflow are not part of this model, because their source is not among the modelled files.
