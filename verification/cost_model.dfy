/** The score that orders the search frontier.

    A neighbour's score blends its path cost so far `g`, its straight-line
    distance to the destination and a data-driven heuristic.  The blend
    depends on the optimisation button pressed (fuel, speed, comfort; the
    first pressed wins) and, when none is, on the vessel class.  The score
    is then discounted by 10% for a move with the wind and by another 10%
    for a move with the current. */
module CostModel {
  import opened ShipProfile

  /** The three optimisation toggles, in on-screen order. */
  datatype Buttons = Buttons(fuel: bool, speed: bool, comfort: bool)

  datatype Weighting = FuelFirst | SpeedFirst | ComfortFirst | NoWeighting

  /** The optimisation in force: the first button that is pressed. */
  function SelectedWeighting(b: Buttons): (w: Weighting)
    ensures w == FuelFirst <==> b.fuel
    ensures w == SpeedFirst <==> !b.fuel && b.speed
    ensures w == ComfortFirst <==> !b.fuel && !b.speed && b.comfort
    ensures w == NoWeighting <==> !b.fuel && !b.speed && !b.comfort
  {
    if b.fuel then FuelFirst
    else if b.speed then SpeedFirst
    else if b.comfort then ComfortFirst
    else NoWeighting
  }

  /** `wg * g + wd * distance + wh * heuristic`, or the plain `g + distance`
      of the yacht with no optimisation selected. */
  datatype Blend = Weighted(wg: real, wd: real, wh: real) | GPlusDistance

  const FuelBlend: Blend := Weighted(0.4, 0.2, 0.1)
  const SpeedBlend: Blend := Weighted(0.3, 0.7, 0.1)
  const ComfortBlend: Blend := Weighted(0.3, 0.2, 1.0)

  /** The coefficient table, one row per optimisation and vessel class. */
  function TableBlend(w: Weighting, v: VesselClass): Blend {
    match w
    case FuelFirst => FuelBlend
    case SpeedFirst => SpeedBlend
    case ComfortFirst => ComfortBlend
    case NoWeighting =>
      match v
      case Cargo => SpeedBlend
      case Passenger => ComfortBlend
      case Yacht => GPlusDistance
  }

  /** The branch structure of `calculate_fscore` as written: first on the
      cargo and passenger flags, then on the buttons. */
  function SelectBlend(isCargo: bool, isPassenger: bool, b: Buttons): (blend: Blend)
    ensures b.fuel ==> blend == Weighted(0.4, 0.2, 0.1)
    ensures !b.fuel && b.speed ==> blend == Weighted(0.3, 0.7, 0.1)
    ensures !b.fuel && !b.speed && b.comfort ==> blend == Weighted(0.3, 0.2, 1.0)
    ensures blend == GPlusDistance <==> !isCargo && !isPassenger && !b.fuel && !b.speed && !b.comfort
  {
    if isCargo then
      if b.fuel then Weighted(0.4, 0.2, 0.1)
      else if b.speed then Weighted(0.3, 0.7, 0.1)
      else if b.comfort then Weighted(0.3, 0.2, 1.0)
      else Weighted(0.3, 0.7, 0.1)
    else if isPassenger then
      if b.fuel then Weighted(0.4, 0.2, 0.1)
      else if b.speed then Weighted(0.3, 0.7, 0.1)
      else if b.comfort then Weighted(0.3, 0.2, 1.0)
      else Weighted(0.3, 0.2, 1.0)
    else
      if b.fuel then Weighted(0.4, 0.2, 0.1)
      else if b.speed then Weighted(0.3, 0.7, 0.1)
      else if b.comfort then Weighted(0.3, 0.2, 1.0)
      else GPlusDistance
  }

  /** The twelve branches and the fallback are the coefficient table: the
      button decides for every class, and with no button the class does,
      cargo before passenger. */
  lemma SelectBlendIsTable(isCargo: bool, isPassenger: bool, b: Buttons)
    ensures SelectBlend(isCargo, isPassenger, b) == TableBlend(SelectedWeighting(b), ClassOf(isCargo, isPassenger))
  {
  }

  /** Both flags set behaves as cargo. */
  lemma CargoFlagWins(isPassenger: bool, b: Buttons)
    ensures SelectBlend(true, isPassenger, b) == SelectBlend(true, false, b)
  {
  }

  /** The undiscounted score. */
  function BaseScore(blend: Blend, g: real, distance: real, heuristic: real): real {
    match blend
    case Weighted(wg, wd, wh) => wg * g + wd * distance + wh * heuristic
    case GPlusDistance => g + distance
  }

  /** `calculate_fscore`: the blended score, times 0.9 when the move is with
      the wind and times 0.9 again when it is with the current. */
  function FScore(blend: Blend, g: real, distance: real, heuristic: real,
                  windAligned: bool, currentAligned: bool): (f: real)
    ensures !windAligned && !currentAligned ==> f == BaseScore(blend, g, distance, heuristic)
    ensures windAligned != currentAligned ==> f == 0.9 * BaseScore(blend, g, distance, heuristic)
    ensures windAligned && currentAligned ==> f == 0.81 * BaseScore(blend, g, distance, heuristic)
  {
    var base := BaseScore(blend, g, distance, heuristic);
    var afterWind := if windAligned then base * 0.9 else base;
    if currentAligned then afterWind * 0.9 else afterWind
  }

  /** A favourable wind or current never makes a non-negative score worse,
      and each one can only lower it further. */
  lemma AlignmentNeverRaises(blend: Blend, g: real, distance: real, heuristic: real,
                             windAligned: bool, currentAligned: bool)
    requires BaseScore(blend, g, distance, heuristic) >= 0.0
    ensures FScore(blend, g, distance, heuristic, windAligned, currentAligned)
            <= FScore(blend, g, distance, heuristic, false, false)
    ensures FScore(blend, g, distance, heuristic, windAligned, true)
            <= FScore(blend, g, distance, heuristic, windAligned, false)
    ensures FScore(blend, g, distance, heuristic, true, currentAligned)
            <= FScore(blend, g, distance, heuristic, false, currentAligned)
  {
  }

  predicate PositiveGWeight(blend: Blend) {
    blend.GPlusDistance? || blend.wg > 0.0
  }

  /** Every row of the table weighs the path cost positively. */
  lemma TableWeighsPathCost(w: Weighting, v: VesselClass)
    ensures PositiveGWeight(TableBlend(w, v))
  {
  }

  /** With everything else fixed, a cheaper path always scores lower. */
  lemma FScoreIncreasingInG(blend: Blend, g1: real, g2: real, distance: real, heuristic: real,
                            windAligned: bool, currentAligned: bool)
    requires PositiveGWeight(blend) && g1 < g2
    ensures FScore(blend, g1, distance, heuristic, windAligned, currentAligned)
            < FScore(blend, g2, distance, heuristic, windAligned, currentAligned)
  {
    if blend.Weighted? {
      assert blend.wg * g2 - blend.wg * g1 == blend.wg * (g2 - g1);
      assert blend.wg * (g2 - g1) > 0.0;
    }
    assert BaseScore(blend, g1, distance, heuristic) < BaseScore(blend, g2, distance, heuristic);
  }
}
