/**
 * The discrete part of `analyze_coexistence` (Md.x/checkcoext.py): from the
 * density of each bin, the final thresholds and the outcomes of the
 * floating-point tests, the phase masks and counts, the score and system
 * state, the label array and the continuous solid and liquid regions.
 */
module Coexistence {
  import opened Counting
  import opened Regions
  import opened Phases
  import opened Scoring

  /** The discrete entries of the results dictionary. */
  datatype Analysis = Analysis(
    systemState: SystemState,
    score: nat,
    breakdown: Breakdown,
    solidCount: nat,
    liquidCount: nat,
    interfaceCount: nat,
    labels: seq<Phase>,
    solidRegions: seq<Region>,
    liquidRegions: seq<Region>)

  /**
   * Fractions are kept as counts over `|densities|`; when the thresholds are
   * ordered the solid, liquid and interface fractions sum to one.
   */
  method AnalyzeCoexistence(densities: seq<real>, high: real, low: real, tests: StatisticTests)
    returns (a: Analysis)
    ensures var solid, liquid := SolidMask(densities, high), LiquidMask(densities, low);
      a.solidCount == CountTrue(solid) &&
      a.liquidCount == CountTrue(liquid) &&
      a.interfaceCount == CountTrue(InterfaceMask(solid, liquid)) &&
      a.labels == PhaseLabels(solid, liquid) &&
      IsRunDecomposition(solid, a.solidRegions) &&
      IsRunDecomposition(liquid, a.liquidRegions)
    ensures TotalLength(a.solidRegions) == a.solidCount && TotalLength(a.liquidRegions) == a.liquidCount
    ensures low <= high ==> a.solidCount + a.liquidCount + a.interfaceCount == |densities|
    ensures a.breakdown == ScoreBreakdown(tests, a.solidCount, a.liquidCount, |densities|)
    ensures a.score == CoexistenceScore(a.breakdown) && a.score <= 6
    ensures a.systemState == SystemStateOf(a.score, a.solidCount, a.liquidCount, |densities|)
  {
    var solid := SolidMask(densities, high);
    var liquid := LiquidMask(densities, low);
    var n := |densities|;
    var solidCount := CountTrue(solid);
    var liquidCount := CountTrue(liquid);
    var interfaceCount := CountTrue(InterfaceMask(solid, liquid));
    if low <= high {
      PhaseCountsPartition(densities, high, low);
    }
    var breakdown := ScoreBreakdown(tests, solidCount, liquidCount, n);
    var score := CoexistenceScore(breakdown);
    var state := SystemStateOf(score, solidCount, liquidCount, n);
    var labels := LabelPhases(solid, liquid);
    var solidRegions := FindContinuousRegions(solid);
    var liquidRegions := FindContinuousRegions(liquid);
    a := Analysis(state, score, breakdown, solidCount, liquidCount, interfaceCount,
                  labels[..], solidRegions, liquidRegions);
  }
}
