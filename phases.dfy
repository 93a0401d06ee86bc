/**
 * Phase identification of density bins (Md.x/checkcoext.py, `analyze_coexistence`):
 * each bin is compared against the final high and low thresholds, and a
 * label array is filled with INTERFACE and then overwritten by mask.
 */
module Phases {
  import opened Counting

  datatype Phase = Solid | Liquid | Interface

  /** The label string stored in `phase_labels`. */
  function PhaseName(p: Phase): string {
    match p
    case Solid => "SOLID"
    case Liquid => "LIQUID"
    case Interface => "INTERFACE"
  }

  /** `densities > final_high`. */
  function SolidMask(densities: seq<real>, high: real): seq<bool> {
    seq(|densities|, i requires 0 <= i < |densities| => densities[i] > high)
  }

  /** `densities < final_low`. */
  function LiquidMask(densities: seq<real>, low: real): seq<bool> {
    seq(|densities|, i requires 0 <= i < |densities| => densities[i] < low)
  }

  /** `~(solid_mask | liquid_mask)`. */
  function InterfaceMask(solid: seq<bool>, liquid: seq<bool>): seq<bool>
    requires |solid| == |liquid|
  {
    seq(|solid|, i requires 0 <= i < |solid| => !(solid[i] || liquid[i]))
  }

  /** The label each bin ends with: the later overwrite (liquid) wins over the earlier one (solid), and INTERFACE remains where neither mask holds. */
  function PhaseLabels(solid: seq<bool>, liquid: seq<bool>): seq<Phase>
    requires |solid| == |liquid|
  {
    seq(|solid|, i requires 0 <= i < |solid| =>
      if liquid[i] then Liquid else if solid[i] then Solid else Interface)
  }

  /**
   * `np.full(n, 'INTERFACE')`, then `phase_labels[solid_mask] = 'SOLID'`,
   * then `phase_labels[liquid_mask] = 'LIQUID'`.
   */
  method LabelPhases(solid: seq<bool>, liquid: seq<bool>) returns (labels: array<Phase>)
    requires |solid| == |liquid|
    ensures fresh(labels)
    ensures labels[..] == PhaseLabels(solid, liquid)
  {
    labels := new Phase[|solid|](_ => Interface);
    forall i | 0 <= i < labels.Length && solid[i] {
      labels[i] := Solid;
    }
    forall i | 0 <= i < labels.Length && liquid[i] {
      labels[i] := Liquid;
    }
  }

  /** How a bin's label follows from its density: the three cases of the two threshold tests. */
  lemma LabelOfDensity(densities: seq<real>, high: real, low: real, i: int)
    requires 0 <= i < |densities|
    ensures var labels := PhaseLabels(SolidMask(densities, high), LiquidMask(densities, low));
      |labels| == |densities| &&
      (labels[i] == Liquid <==> densities[i] < low) &&
      (labels[i] == Solid <==> densities[i] > high && !(densities[i] < low)) &&
      (labels[i] == Interface <==> low <= densities[i] <= high)
  {
  }

  /** A bin carries the INTERFACE label exactly where `interface_mask` holds. */
  lemma InterfaceLabelMatchesMask(densities: seq<real>, high: real, low: real)
    ensures var solid, liquid := SolidMask(densities, high), LiquidMask(densities, low);
      var labels, interface := PhaseLabels(solid, liquid), InterfaceMask(solid, liquid);
      |labels| == |interface| == |densities| &&
      forall i :: 0 <= i < |densities| ==> (labels[i] == Interface <==> interface[i])
  {
  }

  /** When the thresholds do not cross, no bin is both solid and liquid, so each label is exactly its own mask. */
  lemma LabelsFollowMasks(densities: seq<real>, high: real, low: real)
    requires low <= high
    ensures var solid, liquid := SolidMask(densities, high), LiquidMask(densities, low);
      var labels := PhaseLabels(solid, liquid);
      |labels| == |densities| &&
      forall i :: 0 <= i < |densities| ==>
        !(solid[i] && liquid[i]) &&
        (labels[i] == Solid <==> solid[i]) &&
        (labels[i] == Liquid <==> liquid[i])
  {
  }

  /** When the thresholds do not cross, the solid, liquid and interface counts add up to the number of bins. */
  lemma PhaseCountsPartition(densities: seq<real>, high: real, low: real)
    requires low <= high
    ensures var solid, liquid := SolidMask(densities, high), LiquidMask(densities, low);
      CountTrue(solid) + CountTrue(liquid) + CountTrue(InterfaceMask(solid, liquid)) == |densities|
  {
    var solid, liquid := SolidMask(densities, high), LiquidMask(densities, low);
    CountPartition(solid, liquid, InterfaceMask(solid, liquid));
  }

  /** The three label strings are distinct. */
  lemma PhaseNamesDistinct(p: Phase, q: Phase)
    ensures PhaseName(p) == PhaseName(q) <==> p == q
  {
  }
}
