/** The cost and legality of moving between two adjacent hexes, shared by both pathfinders. */
module StepRules {
  import opened CArithmetic

  datatype Mobility = Mech | Tracked | Wheeled | Hover | OtherMobility

  const LIGHT_FOREST: char := '`'
  const HEAVY_FOREST: char := '\"'
  const WATER: char := '~'
  const HIGH_WATER: char := '?'
  const ROUGH: char := '%'
  const MOUNTAINS: char := '^'

  datatype Hex = Hex(terrain: char, elevation: int, friendlyUnits: int)

  datatype StepRequest = StepRequest(mobility: Mobility, waterproof: bool, from: Hex, to: Hex)

  datatype StepResult = StepResult(traversable: bool, cost: int)

  const BLOCKED := StepResult(false, 0)
  const LEAST_STEP: int := 100
  const MOST_STEP: int := 450

  predicate IsGroundVehicle(mobility: Mobility) {
    mobility.Tracked? || mobility.Wheeled? || mobility.Hover?
  }

  /** Every traversable step costs between 100 and 450, and a blocked one costs nothing. */
  function StepEvaluate(request: StepRequest): (result: StepResult)
    ensures result.traversable ==> LEAST_STEP <= result.cost <= MOST_STEP
    ensures !result.traversable ==> result == BLOCKED
  {
    var change := Abs(request.from.elevation - request.to.elevation);
    var ground := IsGroundVehicle(request.mobility);
    var terrain := request.to.terrain;
    var crowd := if request.to.friendlyUnits > 2 then 150 else 0;
    if (request.mobility.Mech? && change > 2) || (ground && change > 1) then BLOCKED
    else if terrain == LIGHT_FOREST then
      if ground && !request.mobility.Tracked? then BLOCKED else StepResult(true, 150 + crowd)
    else if terrain == ROUGH then StepResult(true, 150 + crowd)
    else if terrain == HEAVY_FOREST then
      if ground then BLOCKED else StepResult(true, 200 + crowd)
    else if terrain == MOUNTAINS then StepResult(true, 200 + crowd)
    else if terrain == WATER || terrain == HIGH_WATER then
      if ground && !request.mobility.Hover? && !request.waterproof then BLOCKED
      else StepResult(true, 300 + crowd)
    else StepResult(true, 100 + crowd)
  }

  // ---- What the switch amounts to ----------------------------------------------------------

  predicate IsRoughGround(hex: Hex) {
    hex.terrain == LIGHT_FOREST || hex.terrain == ROUGH
  }

  predicate IsSteepOrDense(hex: Hex) {
    hex.terrain == HEAVY_FOREST || hex.terrain == MOUNTAINS
  }

  predicate IsWet(hex: Hex) {
    hex.terrain == WATER || hex.terrain == HIGH_WATER
  }

  predicate IsCrowded(hex: Hex) {
    hex.friendlyUnits > 2
  }

  function CountOf(hexes: seq<Hex>, p: Hex -> bool): (n: nat)
    ensures n <= |hexes|
  {
    if hexes == [] then 0
    else CountOf(hexes[..|hexes| - 1], p) + if p(hexes[|hexes| - 1]) then 1 else 0
  }

  /** The cost of entering these hexes, counted from the map. */
  function TerrainCost(hexes: seq<Hex>): int {
    100 * |hexes| + 50 * CountOf(hexes, IsRoughGround) + 100 * CountOf(hexes, IsSteepOrDense)
    + 200 * CountOf(hexes, IsWet) + 150 * CountOf(hexes, IsCrowded)
  }

  /** Entering one more hex by a legal step adds what the step costs. */
  lemma StepAddsTerrain(hexes: seq<Hex>, r: StepRequest)
    requires StepEvaluate(r).traversable
    ensures TerrainCost(hexes + [r.to]) == TerrainCost(hexes) + StepEvaluate(r).cost
  {
    assert (hexes + [r.to])[..|hexes|] == hexes;
  }

  /** Only a mech and a ground vehicle are ever stopped: the mech by a climb or drop of more than two
      levels, the vehicle by more than one, by heavy forest, by light forest unless it is tracked, and by
      water unless it hovers or is waterproof. */
  lemma TraversableExactly(r: StepRequest)
    ensures var rise := r.to.elevation - r.from.elevation;
            StepEvaluate(r).traversable <==>
              match r.mobility
              case Mech => -2 <= rise <= 2
              case OtherMobility => true
              case Tracked => -1 <= rise <= 1 && r.to.terrain != HEAVY_FOREST && (IsWet(r.to) ==> r.waterproof)
              case Wheeled =>
                && -1 <= rise <= 1 && r.to.terrain != HEAVY_FOREST && r.to.terrain != LIGHT_FOREST
                && (IsWet(r.to) ==> r.waterproof)
              case Hover => -1 <= rise <= 1 && r.to.terrain != HEAVY_FOREST && r.to.terrain != LIGHT_FOREST
  {
  }

  /** What a step costs is a matter of the hex entered alone: who steps, and from where, only decides
      whether the step is legal. */
  lemma CostIsOfTheHexEntered(a: StepRequest, b: StepRequest)
    requires a.to == b.to && StepEvaluate(a).traversable && StepEvaluate(b).traversable
    ensures StepEvaluate(a) == StepEvaluate(b)
  {
  }

  /** No mobility is worse than wheels, and a mech is no worse than any ground vehicle. */
  predicate NoWorse(other: Mobility, mobility: Mobility) {
    mobility.Wheeled? || (other.Mech? && IsGroundVehicle(mobility)) || other == mobility
  }

  /** Whatever a unit may enter, one of no worse mobility may enter from the same hex, and waterproofing
      never hurts. */
  lemma CapableUnitsGoFurther(r: StepRequest, other: Mobility)
    requires StepEvaluate(r).traversable && NoWorse(other, r.mobility)
    ensures StepEvaluate(r.(mobility := other)).traversable
    ensures StepEvaluate(r.(mobility := other, waterproof := true)).traversable
  {
  }
}
