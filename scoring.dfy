/**
 * Coexistence scoring and the system-state ladder (Md.x/checkcoext.py,
 * `analyze_coexistence`). The five tests computed from floating-point
 * statistics enter as booleans; the phase-balance test and the fraction
 * tests of the ladder are computed exactly from bin counts.
 */
module Scoring {
  import opened Counting

  /** Outcomes of the five tests that come from floating-point statistics. */
  datatype StatisticTests = StatisticTests(
    bimodal: bool,             // at least two histogram peaks
    highCv: bool,              // cv > 0.5
    sharpGradients: bool,      // mean gradient > std
    bimodalityCoeff: bool,     // bimodality coefficient > 0.55
    multipleInterfaces: bool)  // more than two sharp-gradient bins

  /** The six criteria of `score_breakdown`, each 0 or 1. */
  datatype Breakdown = Breakdown(
    bimodal: bool,
    highCv: bool,
    phaseBalance: bool,
    sharpGradients: bool,
    bimodalityCoeff: bool,
    multipleInterfaces: bool)

  datatype SystemState =
    | StrongCoexistence
    | Coexistence
    | PossibleCoexistence
    | PredominantlySolid
    | PredominantlyLiquid
    | SinglePhase

  /** The string stored in `system_state`. */
  function StateName(s: SystemState): string {
    match s
    case StrongCoexistence => "STRONG SOLID-LIQUID COEXISTENCE"
    case Coexistence => "SOLID-LIQUID COEXISTENCE"
    case PossibleCoexistence => "POSSIBLE COEXISTENCE"
    case PredominantlySolid => "PREDOMINANTLY SOLID"
    case PredominantlyLiquid => "PREDOMINANTLY LIQUID"
    case SinglePhase => "SINGLE PHASE"
  }

  /** `count / n > 0.1`, in exact arithmetic. With `n == 0` it is false, as the comparison with Python's NaN is. */
  predicate AboveTenth(count: nat, n: nat) {
    10 * count > n
  }

  /** `count / n > 0.8`, in exact arithmetic. */
  predicate AboveFourFifths(count: nat, n: nat) {
    5 * count > 4 * n
  }

  /** Scaling both sides of a comparison by a positive factor keeps it. */
  lemma ScaleComparison(x: real, y: real, m: real)
    requires m > 0.0
    ensures x > y <==> x * m > y * m
  {
    assert x * m - y * m == (x - y) * m;
  }

  /** `c / m > t` exactly when `c > t * m`, for a positive denominator. */
  lemma QuotientAbove(c: real, m: real, t: real)
    requires m > 0.0
    ensures c / m > t <==> c > t * m
  {
    ScaleComparison(c / m, t, m);
    assert (c / m) * m == c;
  }

  /** The integer forms decide the same comparisons as the exact quotient `count / n`. */
  lemma FractionTestsExact(count: nat, n: nat)
    requires n > 0
    ensures AboveTenth(count, n) <==> (count as real) / (n as real) > 0.1
    ensures AboveFourFifths(count, n) <==> (count as real) / (n as real) > 0.8
  {
    QuotientAbove(count as real, n as real, 0.1);
    QuotientAbove(count as real, n as real, 0.8);
  }

  /** `int(solid_fraction > 0.1 and liquid_fraction > 0.1)`. */
  predicate PhaseBalance(solidCount: nat, liquidCount: nat, n: nat) {
    AboveTenth(solidCount, n) && AboveTenth(liquidCount, n)
  }

  /**
   * Phase balance in terms of the fractions `count / n`; with no bins the
   * counts are zero and the test fails, as Python's NaN comparison does.
   */
  lemma PhaseBalanceExact(solidCount: nat, liquidCount: nat, n: nat)
    requires solidCount <= n && liquidCount <= n
    ensures n == 0 ==> !PhaseBalance(solidCount, liquidCount, n)
    ensures n > 0 ==> (PhaseBalance(solidCount, liquidCount, n) <==>
      (solidCount as real) / (n as real) > 0.1 && (liquidCount as real) / (n as real) > 0.1)
  {
    if n > 0 {
      FractionTestsExact(solidCount, n);
      FractionTestsExact(liquidCount, n);
    }
  }

  /** The `scores` dictionary: five criteria as given, phase balance from the counts. */
  function ScoreBreakdown(t: StatisticTests, solidCount: nat, liquidCount: nat, n: nat): (b: Breakdown)
    requires solidCount <= n && liquidCount <= n
    ensures n == 0 ==> !b.phaseBalance
    ensures n > 0 ==> (b.phaseBalance <==>
      (solidCount as real) / (n as real) > 0.1 && (liquidCount as real) / (n as real) > 0.1)
    ensures b.bimodal == t.bimodal && b.highCv == t.highCv && b.sharpGradients == t.sharpGradients
    ensures b.bimodalityCoeff == t.bimodalityCoeff && b.multipleInterfaces == t.multipleInterfaces
  {
    PhaseBalanceExact(solidCount, liquidCount, n);
    Breakdown(t.bimodal, t.highCv, PhaseBalance(solidCount, liquidCount, n),
              t.sharpGradients, t.bimodalityCoeff, t.multipleInterfaces)
  }

  /** The criteria in the order of `score_breakdown`. */
  function Criteria(b: Breakdown): seq<bool> {
    [b.bimodal, b.highCv, b.phaseBalance, b.sharpGradients, b.bimodalityCoeff, b.multipleInterfaces]
  }

  /** Python's `int(b)` for a boolean. */
  function Indicator(b: bool): nat {
    if b then 1 else 0
  }

  /** `sum(scores.values())`: the number of criteria that hold. */
  function CoexistenceScore(b: Breakdown): (score: nat)
    ensures score == CountTrue(Criteria(b))
    ensures score <= 6
  {
    var c := Criteria(b);
    CountTruePrefix(c, 0);
    CountTruePrefix(c, 1);
    CountTruePrefix(c, 2);
    CountTruePrefix(c, 3);
    CountTruePrefix(c, 4);
    CountTruePrefix(c, 5);
    assert c[..6] == c;
    Indicator(b.bimodal) + Indicator(b.highCv) + Indicator(b.phaseBalance) +
    Indicator(b.sharpGradients) + Indicator(b.bimodalityCoeff) + Indicator(b.multipleInterfaces)
  }

  /** The score is 0 exactly when no criterion holds and 6 exactly when all do. */
  lemma ScoreExtremes(b: Breakdown)
    ensures CoexistenceScore(b) == 0 <==> forall i :: 0 <= i < 6 ==> !Criteria(b)[i]
    ensures CoexistenceScore(b) == 6 <==> forall i :: 0 <= i < 6 ==> Criteria(b)[i]
  {
    CountTrueZero(Criteria(b));
    CountTrueFull(Criteria(b));
  }

  /** The `if/elif` ladder from the score and the solid and liquid bin counts out of `n`. */
  function SystemStateOf(score: nat, solidCount: nat, liquidCount: nat, n: nat): SystemState {
    if score >= 4 then StrongCoexistence
    else if score >= 3 then Coexistence
    else if score >= 2 then PossibleCoexistence
    else if AboveFourFifths(solidCount, n) then PredominantlySolid
    else if AboveFourFifths(liquidCount, n) then PredominantlyLiquid
    else SinglePhase
  }

  /** Each outcome of the ladder, with the exact condition that leads to it. */
  lemma SystemStateCases(score: nat, solidCount: nat, liquidCount: nat, n: nat)
    ensures var s := SystemStateOf(score, solidCount, liquidCount, n);
      (s == StrongCoexistence <==> score >= 4) &&
      (s == Coexistence <==> score == 3) &&
      (s == PossibleCoexistence <==> score == 2) &&
      (s == PredominantlySolid <==> score < 2 && 5 * solidCount > 4 * n) &&
      (s == PredominantlyLiquid <==> score < 2 && 5 * solidCount <= 4 * n && 5 * liquidCount > 4 * n) &&
      (s == SinglePhase <==> score < 2 && 5 * solidCount <= 4 * n && 5 * liquidCount <= 4 * n)
  {
  }

  /** The two fraction rungs of the ladder, stated on the quotients `solid_fraction` and `liquid_fraction`. */
  lemma SystemStateFromFractions(score: nat, solidCount: nat, liquidCount: nat, n: nat)
    requires n > 0
    ensures var s := SystemStateOf(score, solidCount, liquidCount, n);
      var solidFraction, liquidFraction := (solidCount as real) / (n as real), (liquidCount as real) / (n as real);
      (s == PredominantlySolid <==> score < 2 && solidFraction > 0.8) &&
      (s == PredominantlyLiquid <==> score < 2 && !(solidFraction > 0.8) && liquidFraction > 0.8) &&
      (s == SinglePhase <==> score < 2 && !(solidFraction > 0.8) && !(liquidFraction > 0.8))
  {
    FractionTestsExact(solidCount, n);
    FractionTestsExact(liquidCount, n);
  }

  /** How strong a coexistence verdict is: 3 for strong down to 0 for the single-phase outcomes. */
  function Strength(s: SystemState): nat {
    match s
    case StrongCoexistence => 3
    case Coexistence => 2
    case PossibleCoexistence => 1
    case _ => 0
  }

  /** A higher score never gives a weaker coexistence verdict. */
  lemma StrengthMonotone(score1: nat, score2: nat, solidCount: nat, liquidCount: nat, n: nat)
    requires score1 <= score2
    ensures Strength(SystemStateOf(score1, solidCount, liquidCount, n)) <=
            Strength(SystemStateOf(score2, solidCount, liquidCount, n))
  {
  }

  /**
   * When no bin is both solid and liquid, the two 0.8 tests cannot both pass,
   * so testing the solid fraction first decides nothing on its own.
   */
  lemma FractionOrderImmaterial(score: nat, solidCount: nat, liquidCount: nat, n: nat)
    requires solidCount + liquidCount <= n
    ensures SystemStateOf(score, solidCount, liquidCount, n) == PredominantlyLiquid <==>
      score < 2 && AboveFourFifths(liquidCount, n)
  {
  }

  /** The ladder always yields one of the six listed strings, and distinct states yield distinct strings. */
  lemma StateNames(s: SystemState, t: SystemState)
    ensures StateName(s) in {"STRONG SOLID-LIQUID COEXISTENCE", "SOLID-LIQUID COEXISTENCE",
      "POSSIBLE COEXISTENCE", "PREDOMINANTLY SOLID", "PREDOMINANTLY LIQUID", "SINGLE PHASE"}
    ensures StateName(s) == StateName(t) <==> s == t
  {
  }
}
