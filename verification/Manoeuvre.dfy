/** How the autopilot picks a manoeuvre: every option is simulated for a number of steps, and one packed
    score ranks them by how long they stay safe and only then by how well they move and fight. */
module Manoeuvre {
  import opened CArithmetic

  const SCORE_MOD: int := 100
  const SAFE_SCORE: int := SCORE_MOD * 1000
  const MIN_SAFE: int := 8
  const NORM_SAFE: nat := 32
  const MAGIC_NUM: int := -123456

  /** What the map, the other units and the floating-point geometry decide, step by step and option by
      option. */
  datatype Simulation = Simulation(
    crashes: (nat, nat) -> bool, stacks: (nat, nat) -> bool,
    movement: (nat, nat) -> int, battle: (nat, nat) -> int, danger: (nat, nat) -> int)

  /** Speed is +1 for an option that goes faster, -1 for one that goes slower. */
  datatype PathOption = PathOption(speed: int)

  // ---- The bookkeeping of the simulation ---------------------------------------------------

  /** No crash before step n. */
  predicate SafeBefore(sim: Simulation, k: nat, n: nat) {
    forall i: nat :: i < n ==> !sim.crashes(i, k)
  }

  predicate UnstackedBefore(sim: Simulation, k: nat, n: nat) {
    forall i: nat :: i < n ==> !sim.stacks(i, k)
  }

  /** out is one more than the first step of n that crashes, or zero. */
  predicate IsOutStep(sim: Simulation, k: nat, n: nat, out: nat) {
    if out == 0 then SafeBefore(sim, k, n)
    else out <= n && sim.crashes(out - 1, k) && SafeBefore(sim, k, out - 1)
  }

  /** stack is one more than the first of n steps that stacks, or zero. */
  predicate IsStackStep(sim: Simulation, k: nat, n: nat, stack: nat) {
    if stack == 0 then UnstackedBefore(sim, k, n)
    else stack <= n && sim.stacks(stack - 1, k) && UnstackedBefore(sim, k, stack - 1)
  }

  function Sum(score: (nat, nat) -> int, k: nat, n: nat): int {
    if n == 0 then 0 else Sum(score, k, n - 1) + score(n - 1, k)
  }

  datatype Candidate = Candidate(outStep: nat, stackStep: nat, movement: int, battle: int, danger: int)

  const NEW_CANDIDATE := Candidate(0, 0, 0, 0, 0)

  /** The steps a candidate completes in n. */
  function Lived(c: Candidate, n: nat): nat {
    if c.outStep == 0 then n else c.outStep - 1
  }

  predicate Fights(sim: Simulation, enemy: bool, k: nat, n: nat, c: Candidate) {
    if enemy then c.battle == Sum(sim.battle, k, n) && c.danger == Sum(sim.danger, k, n)
    else c.battle == c.danger == 0
  }

  /** A candidate after n steps: it scores for the steps it completes, and its first crash and its
      first stacking are on record. */
  predicate Simulated(sim: Simulation, enemy: bool, k: nat, n: nat, c: Candidate) {
    && IsOutStep(sim, k, n, c.outStep) && IsStackStep(sim, k, Lived(c, n), c.stackStep)
    && c.movement == Sum(sim.movement, k, Lived(c, n)) && Fights(sim, enemy, k, Lived(c, n), c)
  }

  /** Between the three passes of step i: a candidate that has moved, one that has also been checked
      for stacking, and one that has done its step. */
  predicate Moved(sim: Simulation, enemy: bool, k: nat, i: nat, c: Candidate) {
    var before := if c.outStep == 0 then i else c.outStep - 1;
    && IsOutStep(sim, k, i + 1, c.outStep) && IsStackStep(sim, k, before, c.stackStep)
    && c.movement == Sum(sim.movement, k, Lived(c, i + 1)) && Fights(sim, enemy, k, before, c)
  }

  predicate Checked(sim: Simulation, enemy: bool, k: nat, i: nat, c: Candidate) {
    var before := if c.outStep == 0 then i else c.outStep - 1;
    && IsOutStep(sim, k, i + 1, c.outStep) && IsStackStep(sim, k, Lived(c, i + 1), c.stackStep)
    && c.movement == Sum(sim.movement, k, Lived(c, i + 1)) && Fights(sim, enemy, k, before, c)
  }

  function Move(sim: Simulation, k: nat, i: nat, c: Candidate): Candidate {
    if c.outStep != 0 then c
    else if sim.crashes(i, k) then c.(outStep := i + 1)
    else c.(movement := c.movement + sim.movement(i, k))
  }

  function Check(sim: Simulation, k: nat, i: nat, c: Candidate): Candidate {
    if c.outStep != 0 || c.stackStep != 0 || !sim.stacks(i, k) then c else c.(stackStep := i + 1)
  }

  function Fight(sim: Simulation, enemy: bool, k: nat, i: nat, c: Candidate): Candidate {
    if c.outStep != 0 || !enemy then c
    else c.(battle := c.battle + sim.battle(i, k), danger := c.danger + sim.danger(i, k))
  }

  lemma MoveMoves(sim: Simulation, enemy: bool, k: nat, i: nat, c: Candidate)
    requires Simulated(sim, enemy, k, i, c)
    ensures Moved(sim, enemy, k, i, Move(sim, k, i, c))
  {
  }

  lemma CheckChecks(sim: Simulation, enemy: bool, k: nat, i: nat, c: Candidate)
    requires Moved(sim, enemy, k, i, c)
    ensures Checked(sim, enemy, k, i, Check(sim, k, i, c))
  {
  }

  lemma FightFinishes(sim: Simulation, enemy: bool, k: nat, i: nat, c: Candidate)
    requires Checked(sim, enemy, k, i, c)
    ensures Simulated(sim, enemy, k, i + 1, Fight(sim, enemy, k, i, c))
  {
  }

  /** The first pass of a step: every candidate still in the running moves. */
  method MoveAll(sim: Simulation, enemy: bool, i: nat, candidates: array<Candidate>)
    requires forall k :: 0 <= k < candidates.Length ==> Simulated(sim, enemy, k, i, candidates[k])
    modifies candidates
    ensures forall k :: 0 <= k < candidates.Length ==> Moved(sim, enemy, k, i, candidates[k])
  {
    for k := 0 to candidates.Length
      invariant forall j :: 0 <= j < k ==> Moved(sim, enemy, j, i, candidates[j])
      invariant forall j :: k <= j < candidates.Length ==> Simulated(sim, enemy, j, i, candidates[j])
    {
      MoveMoves(sim, enemy, k, i, candidates[k]);
      if candidates[k].outStep != 0 { continue; }
      if sim.crashes(i, k) {
        candidates[k] := candidates[k].(outStep := i + 1);
        continue;
      }
      candidates[k] := candidates[k].(movement := candidates[k].movement + sim.movement(i, k));
    }
  }

  /** ai_path_friend_tick */
  method FriendTick(sim: Simulation, enemy: bool, i: nat, candidates: array<Candidate>)
    requires forall k :: 0 <= k < candidates.Length ==> Moved(sim, enemy, k, i, candidates[k])
    modifies candidates
    ensures forall k :: 0 <= k < candidates.Length ==> Checked(sim, enemy, k, i, candidates[k])
  {
    for k := 0 to candidates.Length
      invariant forall j :: 0 <= j < k ==> Checked(sim, enemy, j, i, candidates[j])
      invariant forall j :: k <= j < candidates.Length ==> Moved(sim, enemy, j, i, candidates[j])
    {
      CheckChecks(sim, enemy, k, i, candidates[k]);
      if candidates[k].outStep != 0 || candidates[k].stackStep != 0 { continue; }
      if sim.stacks(i, k) {
        candidates[k] := candidates[k].(stackStep := i + 1);
      }
    }
  }

  /** ai_path_enemy_tick */
  method EnemyTick(sim: Simulation, enemy: bool, i: nat, candidates: array<Candidate>)
    requires forall k :: 0 <= k < candidates.Length ==> Checked(sim, enemy, k, i, candidates[k])
    modifies candidates
    ensures forall k :: 0 <= k < candidates.Length ==> Simulated(sim, enemy, k, i + 1, candidates[k])
  {
    for k := 0 to candidates.Length
      invariant forall j :: 0 <= j < k ==> Simulated(sim, enemy, j, i + 1, candidates[j])
      invariant forall j :: k <= j < candidates.Length ==> Checked(sim, enemy, j, i, candidates[j])
    {
      FightFinishes(sim, enemy, k, i, candidates[k]);
      if candidates[k].outStep != 0 || !enemy { continue; }
      candidates[k] := candidates[k].(battle := candidates[k].battle + sim.battle(i, k),
        danger := candidates[k].danger + sim.danger(i, k));
    }
  }

  /** The loop over the simulated steps. */
  method Simulate(sim: Simulation, enemy: bool, candidates: array<Candidate>)
    requires forall k :: 0 <= k < candidates.Length ==> candidates[k] == NEW_CANDIDATE
    modifies candidates
    ensures forall k :: 0 <= k < candidates.Length ==> Simulated(sim, enemy, k, NORM_SAFE, candidates[k])
  {
    for i := 0 to NORM_SAFE
      invariant forall k :: 0 <= k < candidates.Length ==> Simulated(sim, enemy, k, i, candidates[k])
    {
      MoveAll(sim, enemy, i, candidates);
      FriendTick(sim, enemy, i, candidates);
      EnemyTick(sim, enemy, i, candidates);
    }
  }

  // ---- Ranges and normalised scores --------------------------------------------------------

  /** The worst and the best score seen; MAGIC_NUM where none has been. */
  datatype Range = Range(worst: int, best: int)

  /** ai_score_min_update and ai_score_max_update */
  function Widened(r: Range, score: int): Range {
    Range(if r.worst > score || r.worst == MAGIC_NUM then score else r.worst,
          if r.best < score || r.best == MAGIC_NUM then score else r.best)
  }

  /** ai_score_normalize */
  function Normalised(score: int, r: Range, scale: int): int {
    if r.worst == r.best then 0 else TruncDiv(scale * (score - r.worst), r.best - r.worst)
  }

  function WidenedBy(r: Range, scores: seq<int>): Range {
    if scores == [] then r else Widened(WidenedBy(r, scores[..|scores| - 1]), scores[|scores| - 1])
  }

  predicate Holds(r: Range, score: int) {
    r.worst <= score <= r.best
  }

  /** One widening keeps what the range held exactly when it does not take a genuine end for an unset
      one and move it inward. */
  lemma WideningKeepsExactly(r: Range, score: int)
    requires r.worst <= r.best
    ensures (forall s: int :: Holds(r, s) ==> Holds(Widened(r, score), s))
            <==> (r.worst == MAGIC_NUM ==> score <= MAGIC_NUM) && (r.best == MAGIC_NUM ==> MAGIC_NUM <= score)
  {
    assert Holds(r, r.worst) && Holds(r, r.best);
  }

  predicate GoesBelow(r: Range, scores: seq<int>) {
    r.worst < MAGIC_NUM || exists s :: s in scores && s < MAGIC_NUM
  }

  predicate GoesAbove(r: Range, scores: seq<int>) {
    r.best > MAGIC_NUM || exists s :: s in scores && s > MAGIC_NUM
  }

  /** A score equal to the sentinel comes last if there is one, or neither end of the range rests on it. */
  predicate Remembers(r: Range, scores: seq<int>) {
    || MAGIC_NUM !in scores || scores[|scores| - 1] == MAGIC_NUM
    || (GoesBelow(r, scores) && GoesAbove(r, scores))
  }

  lemma {:induction false} WorstEnd(r: Range, scores: seq<int>)
    requires scores != []
    ensures var w, last := WidenedBy(r, scores), scores[|scores| - 1];
            && w.worst <= last && (w.worst == r.worst || w.worst in scores)
            && (GoesBelow(r, scores) ==> w.worst < MAGIC_NUM && forall s :: s in scores ==> w.worst <= s)
            && (!GoesBelow(r, scores) ==>
                  && w.worst >= MAGIC_NUM && (w.worst == MAGIC_NUM <==> last == MAGIC_NUM)
                  && (MAGIC_NUM !in scores ==> forall s :: s in scores ==> w.worst <= s))
  {
    var init, last := scores[..|scores| - 1], scores[|scores| - 1];
    assert forall s :: s in scores <==> s in init || s == last;
    if init != [] { WorstEnd(r, init); }
  }

  lemma {:induction false} BestEnd(r: Range, scores: seq<int>)
    requires scores != []
    ensures var w, last := WidenedBy(r, scores), scores[|scores| - 1];
            && last <= w.best && (w.best == r.best || w.best in scores)
            && (GoesAbove(r, scores) ==> MAGIC_NUM < w.best && forall s :: s in scores ==> s <= w.best)
            && (!GoesAbove(r, scores) ==>
                  && w.best <= MAGIC_NUM && (w.best == MAGIC_NUM <==> last == MAGIC_NUM)
                  && (MAGIC_NUM !in scores ==> forall s :: s in scores ==> s <= w.best))
  {
    var init, last := scores[..|scores| - 1], scores[|scores| - 1];
    assert forall s :: s in scores <==> s in init || s == last;
    if init != [] { BestEnd(r, init); }
  }

  /** Whatever the range was before, afterwards it is no wider than it needs to be, and it holds every
      score exactly when none equal to the sentinel has been forgotten. */
  lemma WidenedHolds(r: Range, scores: seq<int>)
    ensures var w := WidenedBy(r, scores);
            && ((forall s :: s in scores ==> Holds(w, s)) <==> Remembers(r, scores))
            && (w.worst == r.worst || w.worst in scores) && (w.best == r.best || w.best in scores)
  {
    if scores != [] {
      WorstEnd(r, scores);
      BestEnd(r, scores);
    }
  }

  /** A score within its range never leaves its scale. */
  lemma NormalisedIsInScale(score: int, r: Range, scale: int)
    requires Holds(r, score) && scale >= 0
    ensures 0 <= Normalised(score, r, scale) <= scale
  {
    if r.worst < r.best { QuotientIsInScale(scale, score - r.worst, r.best - r.worst); }
  }

  lemma QuotientIsInScale(scale: int, a: int, b: int)
    requires 0 <= a <= b && b > 0 && scale >= 0
    ensures scale * a >= 0 && 0 <= scale * a / b <= scale
  {
    assert scale * (b - a) == b * scale - scale * a;
    ProductIsNatural(scale, a);
    ProductIsNatural(scale, b - a);
    QuotientIsBounded(scale * a, b, scale);
  }

  lemma QuotientIsBounded(n: int, b: int, bound: int)
    requires b > 0 && 0 <= n <= b * bound
    ensures 0 <= n / b <= bound
  {
    var q, r := n / b, n % b;
    assert n == b * q + r && r >= 0;
    assert b * (bound - q) >= 0 by {
      assert b * (bound - q) == b * bound - b * q;
    }
    FactorIsNatural(b, bound - q);
  }

  lemma FactorIsNatural(b: int, x: int)
    requires b > 0 && b * x >= 0
    ensures x >= 0
  {
  }

  /** Within a range with two ends the worst score is worth nothing, the best the whole scale, and a better
      one never less. */
  lemma NormalisedRanks(score: int, better: int, r: Range, scale: int)
    requires Holds(r, score) && Holds(r, better) && score <= better && scale >= 0 && r.worst < r.best
    ensures Normalised(score, r, scale) <= Normalised(better, r, scale)
    ensures Normalised(r.worst, r, scale) == 0 && Normalised(r.best, r, scale) == scale
  {
    var a, b, n := score - r.worst, better - r.worst, r.best - r.worst;
    ProductIsNatural(scale, a);
    ProductIsNatural(scale, b - a);
    assert scale * (b - a) == scale * b - scale * a;
    QuotientIsMonotone(scale * a, scale * b, n);
    WholeScale(scale, n);
    assert scale * 0 == 0;
  }

  lemma WholeScale(scale: int, n: int)
    requires scale >= 0 && n > 0
    ensures scale * n >= 0 && scale * n / n == scale
  {
    ProductIsNatural(scale, n);
    var q := scale * n / n;
    assert n * (q - scale) == -(scale * n % n);
    assert q - scale >= 1 ==> n * (q - scale) >= n;
    assert scale - q >= 1 ==> n * (scale - q) >= n;
  }

  lemma QuotientIsMonotone(a: int, b: int, n: int)
    requires 0 <= a <= b && n > 0
    ensures a / n <= b / n
  {
    var p, q := a / n, b / n;
    assert n * (p - q) == (a - a % n) - (b - b % n) < n;
    assert p - q >= 1 ==> n * (p - q) >= n;
  }

  // ---- Scoring and choosing ----------------------------------------------------------------

  datatype Ranges = Ranges(movement: Range, battle: Range, danger: Range)

  datatype Weights = Weights(go: int, fight: int)

  /** A candidate's steps once the unset ones are filled in. */
  function Settled(c: Candidate): Candidate {
    var out := if c.outStep == 0 then NORM_SAFE + 1 else c.outStep;
    c.(outStep := out, stackStep := if c.stackStep == 0 then out else c.stackStep)
  }

  /** How safe an option counts as: halfway between its stacking and its crash. */
  function Safety(c: Candidate): int {
    var s := Settled(c);
    s.outStep - TruncDiv(s.outStep - s.stackStep, 2)
  }

  function Fineness(c: Candidate, r: Ranges, w: Weights, enemy: bool): int {
    Normalised(c.movement, r.movement, SCORE_MOD * w.go)
    + if enemy then
      Normalised(c.battle, r.battle, SCORE_MOD * w.fight)
      - Normalised(c.danger, r.danger, SCORE_MOD * (w.fight + w.go))
    else 0
  }

  function Score(c: Candidate, r: Ranges, w: Weights, enemy: bool): int {
    Safety(c) * SAFE_SCORE + Fineness(c, r, w, enemy)
  }

  predicate Covers(r: Ranges, c: Candidate, enemy: bool) {
    Holds(r.movement, c.movement) && (enemy ==> Holds(r.battle, c.battle) && Holds(r.danger, c.danger))
  }

  /** Weights small enough for the packing: whatever the rest of a score says, it is less than a step. */
  predicate Packs(w: Weights) {
    w.go >= 0 && w.fight >= 0 && 2 * SCORE_MOD * (w.go + w.fight) < SAFE_SCORE
  }

  lemma FinenessIsBounded(c: Candidate, r: Ranges, w: Weights, enemy: bool)
    requires Covers(r, c, enemy) && w.go >= 0 && w.fight >= 0
    ensures -SCORE_MOD * (w.go + w.fight) <= Fineness(c, r, w, enemy) <= SCORE_MOD * (w.go + w.fight)
  {
    NormalisedIsInScale(c.movement, r.movement, SCORE_MOD * w.go);
    if enemy {
      NormalisedIsInScale(c.battle, r.battle, SCORE_MOD * w.fight);
      NormalisedIsInScale(c.danger, r.danger, SCORE_MOD * (w.fight + w.go));
    }
  }

  predicate HasTwoEnds(r: Range) {
    r.worst < r.best
  }

  /** What the rest of a score is made of, told at the ends of the ranges: best movement is worth its weight,
      best fighting its own, and most danger costs both together; without an enemy only movement counts. */
  lemma FinenessAtTheEnds(c: Candidate, r: Ranges, w: Weights, moves: bool, fights: bool, risks: bool)
    requires HasTwoEnds(r.movement) && HasTwoEnds(r.battle) && HasTwoEnds(r.danger) && w.go >= 0 && w.fight >= 0
    requires c.movement == if moves then r.movement.best else r.movement.worst
    requires c.battle == if fights then r.battle.best else r.battle.worst
    requires c.danger == if risks then r.danger.best else r.danger.worst
    ensures var movement := if moves then SCORE_MOD * w.go else 0;
            && Fineness(c, r, w, false) == movement
            && Fineness(c, r, w, true) == movement + (if fights then SCORE_MOD * w.fight else 0)
                                          - if risks then SCORE_MOD * (w.go + w.fight) else 0
  {
    NormalisedRanks(c.movement, c.movement, r.movement, SCORE_MOD * w.go);
    NormalisedRanks(c.battle, c.battle, r.battle, SCORE_MOD * w.fight);
    NormalisedRanks(c.danger, c.danger, r.danger, SCORE_MOD * (w.fight + w.go));
    hide Normalised;
  }

  /** Moving or fighting better, or in less danger, is never worth less. */
  lemma FinenessRanks(c: Candidate, d: Candidate, r: Ranges, w: Weights)
    requires HasTwoEnds(r.movement) && HasTwoEnds(r.battle) && HasTwoEnds(r.danger) && w.go >= 0 && w.fight >= 0
    requires Covers(r, c, true) && Covers(r, d, true)
    requires c.movement <= d.movement && c.battle <= d.battle && d.danger <= c.danger
    ensures Fineness(c, r, w, false) <= Fineness(d, r, w, false)
    ensures Fineness(c, r, w, true) <= Fineness(d, r, w, true)
  {
    NormalisedRanks(c.movement, d.movement, r.movement, SCORE_MOD * w.go);
    NormalisedRanks(c.battle, d.battle, r.battle, SCORE_MOD * w.fight);
    NormalisedRanks(d.danger, c.danger, r.danger, SCORE_MOD * (w.fight + w.go));
    hide Normalised;
  }

  /** Scores compare safety first and everything else second. */
  lemma ScoreIsLexicographic(c: Candidate, d: Candidate, r: Ranges, w: Weights, enemy: bool)
    requires Covers(r, c, enemy) && Covers(r, d, enemy) && Packs(w)
    ensures Score(c, r, w, enemy) > Score(d, r, w, enemy) <==>
            Safety(c) > Safety(d)
            || (Safety(c) == Safety(d) && Fineness(c, r, w, enemy) > Fineness(d, r, w, enemy))
  {
    FinenessIsBounded(c, r, w, enemy);
    FinenessIsBounded(d, r, w, enemy);
  }

  /** A simulated candidate's safety lies between one and its crash step. */
  lemma SafetyIsBeforeTheCrash(sim: Simulation, enemy: bool, k: nat, c: Candidate)
    requires Simulated(sim, enemy, k, NORM_SAFE, c)
    ensures 1 <= Settled(c).stackStep <= Safety(c) <= Settled(c).outStep
    ensures SafeBefore(sim, k, Settled(c).outStep - 1)
  {
  }

  /** out is the step after which an option is out: that of its first crash, or one past the simulation. */
  predicate GoesOutAt(sim: Simulation, k: nat, out: nat) {
    1 <= out <= NORM_SAFE + 1 && SafeBefore(sim, k, out - 1) && (out <= NORM_SAFE ==> sim.crashes(out - 1, k))
  }

  /** stack is the step of an option's first stacking before it is out, or out itself. */
  predicate StacksAt(sim: Simulation, k: nat, out: nat, stack: nat) {
    1 <= stack <= out && UnstackedBefore(sim, k, stack - 1) && (stack < out ==> sim.stacks(stack - 1, k))
  }

  /** Told from the simulation: an option counts as safe halfway between its first stacking and its going
      out, rounded up. */
  lemma SafetyIsHalfway(sim: Simulation, enemy: bool, k: nat, c: Candidate, out: nat, stack: nat)
    requires Simulated(sim, enemy, k, NORM_SAFE, c) && GoesOutAt(sim, k, out) && StacksAt(sim, k, out, stack)
    ensures out + stack <= 2 * Safety(c) <= out + stack + 1
  {
    assert Settled(c).outStep == out by {
      if c.outStep != 0 { assert sim.crashes(c.outStep - 1, k); }
    }
    assert Settled(c).stackStep == stack by {
      if c.stackStep != 0 { assert sim.stacks(c.stackStep - 1, k); }
    }
  }

  /** Of two options that go out alike, the one that stacks two or more steps earlier is less safe, and
      stacking earlier never makes an option safer. */
  lemma EarlierStackingIsLessSafe(sim: Simulation, enemy: bool, k: nat, c: Candidate, l: nat, d: Candidate,
                                  out: nat, stack: nat, later: nat)
    requires Simulated(sim, enemy, k, NORM_SAFE, c) && Simulated(sim, enemy, l, NORM_SAFE, d)
    requires GoesOutAt(sim, k, out) && GoesOutAt(sim, l, out)
    requires StacksAt(sim, k, out, stack) && StacksAt(sim, l, out, later) && stack <= later
    ensures Safety(c) <= Safety(d) && (stack + 2 <= later ==> Safety(c) < Safety(d))
  {
    SafetyIsHalfway(sim, enemy, k, c, out, stack);
    SafetyIsHalfway(sim, enemy, l, d, out, later);
  }

  // ---- In place ----------------------------------------------------------------------------

  function Movements(cs: seq<Candidate>): (m: seq<int>)
    ensures |m| == |cs|
  {
    seq(|cs|, k requires 0 <= k < |cs| => cs[k].movement)
  }

  function Battles(cs: seq<Candidate>): (b: seq<int>)
    ensures |b| == |cs|
  {
    seq(|cs|, k requires 0 <= k < |cs| => cs[k].battle)
  }

  function Dangers(cs: seq<Candidate>): (d: seq<int>)
    ensures |d| == |cs|
  {
    seq(|cs|, k requires 0 <= k < |cs| => cs[k].danger)
  }

  function RangesAfter(r: Ranges, cs: seq<Candidate>, enemy: bool): Ranges {
    Ranges(
      WidenedBy(r.movement, Movements(cs)),
      if enemy then WidenedBy(r.battle, Battles(cs)) else r.battle,
      if enemy then WidenedBy(r.danger, Dangers(cs)) else r.danger)
  }

  /** The choice: the highest positive score, among equals the fastest option, among those the first. */
  predicate IsChoice(scores: seq<int>, options: seq<PathOption>, selected: int, score: int)
    requires |scores| <= |options|
  {
    if selected == -1 then score == 0 && forall k :: 0 <= k < |scores| ==> scores[k] <= 0
    else
      && 0 <= selected < |scores| && score == scores[selected] > 0
      && forall k :: 0 <= k < |scores| ==>
           || scores[k] < score
           || (scores[k] == score && options[k].speed < options[selected].speed)
           || (scores[k] == score && options[k].speed == options[selected].speed && selected <= k)
  }

  function Scores(cs: seq<Candidate>, r: Ranges, w: Weights, enemy: bool): (s: seq<int>)
    ensures |s| == |cs|
  {
    seq(|cs|, k requires 0 <= k < |cs| => Score(cs[k], r, w, enemy))
  }

  class Scorer {
    var ranges: Ranges
    const weights: Weights

    constructor (ranges: Ranges, weights: Weights)
      ensures this.ranges == ranges && this.weights == weights
    {
      this.ranges, this.weights := ranges, weights;
    }

    /** The loop that widens the ranges by the candidates. */
    method Widen(candidates: array<Candidate>, enemy: bool)
      modifies this
      ensures ranges == RangesAfter(old(ranges), candidates[..], enemy)
    {
      for k := 0 to candidates.Length
        invariant ranges == RangesAfter(old(ranges), candidates[..k], enemy)
      {
        var c := candidates[k];
        assert Movements(candidates[..k + 1])[..k] == Movements(candidates[..k]);
        assert Battles(candidates[..k + 1])[..k] == Battles(candidates[..k]);
        assert Dangers(candidates[..k + 1])[..k] == Dangers(candidates[..k]);
        ranges := ranges.(movement := Widened(ranges.movement, c.movement));
        if enemy {
          ranges := ranges.(battle := Widened(ranges.battle, c.battle), danger := Widened(ranges.danger, c.danger));
        }
      }
      assert candidates[..candidates.Length] == candidates[..];
    }

    /** The loop that scores the candidates and picks one. */
    method Choose(candidates: array<Candidate>, options: seq<PathOption>, enemy: bool)
      returns (selected: int, score: int)
      requires candidates.Length == |options|
      modifies candidates
      ensures forall k :: 0 <= k < candidates.Length ==> candidates[k] == Settled(old(candidates[k]))
      ensures IsChoice(Scores(old(candidates[..]), ranges, weights, enemy), options, selected, score)
    {
      ghost var cs := candidates[..];
      ghost var scores := Scores(cs, ranges, weights, enemy);
      selected, score := -1, 0;
      for i := 0 to candidates.Length
        invariant forall k :: 0 <= k < i ==> candidates[k] == Settled(cs[k])
        invariant forall k :: i <= k < candidates.Length ==> candidates[k] == cs[k]
        invariant IsChoice(scores[..i], options, selected, score)
      {
        candidates[i] := Settled(candidates[i]);
        var c := candidates[i];
        var sc := (c.outStep - TruncDiv(c.outStep - c.stackStep, 2)) * SAFE_SCORE
                  + Normalised(c.movement, ranges.movement, SCORE_MOD * weights.go);
        if enemy {
          sc := sc + Normalised(c.battle, ranges.battle, SCORE_MOD * weights.fight)
                - Normalised(c.danger, ranges.danger, SCORE_MOD * (weights.fight + weights.go));
        }
        assert sc == scores[i];
        if sc > score || (selected >= 0 && sc == score && options[i].speed > options[selected].speed) {
          score := sc;
          selected := i;
        }
      }
      assert scores[..candidates.Length] == scores;
    }

    /** ai_path_score: simulate, widen, choose. */
    method ScorePath(sim: Simulation, options: seq<PathOption>, enemy: bool)
      returns (selected: int, score: int, simulated: seq<Candidate>)
      modifies this
      ensures |simulated| == |options|
      ensures forall k :: 0 <= k < |options| ==> Simulated(sim, enemy, k, NORM_SAFE, simulated[k])
      ensures ranges == RangesAfter(old(ranges), simulated, enemy)
      ensures IsChoice(Scores(simulated, ranges, weights, enemy), options, selected, score)
    {
      var candidates := new Candidate[|options|](_ => NEW_CANDIDATE);
      Simulate(sim, enemy, candidates);
      Widen(candidates, enemy);
      simulated := candidates[..];
      selected, score := Choose(candidates, options, enemy);
    }
  }

  // ---- What is chosen ----------------------------------------------------------------------

  predicate RemembersAll(r: Ranges, cs: seq<Candidate>, enemy: bool) {
    && Remembers(r.movement, Movements(cs))
    && (enemy ==> Remembers(r.battle, Battles(cs)) && Remembers(r.danger, Dangers(cs)))
  }

  lemma RangesCover(r: Ranges, cs: seq<Candidate>, enemy: bool)
    ensures (forall k :: 0 <= k < |cs| ==> Covers(RangesAfter(r, cs, enemy), cs[k], enemy))
            <==> RemembersAll(r, cs, enemy)
  {
    var after := RangesAfter(r, cs, enemy);
    WidenedHolds(r.movement, Movements(cs));
    WidenedHolds(r.battle, Battles(cs));
    WidenedHolds(r.danger, Dangers(cs));
    hide Remembers, WidenedBy;
    forall k | 0 <= k < |cs|
      ensures cs[k].movement in Movements(cs) && cs[k].battle in Battles(cs) && cs[k].danger in Dangers(cs)
    {
      assert Movements(cs)[k] == cs[k].movement && Battles(cs)[k] == cs[k].battle && Dangers(cs)[k] == cs[k].danger;
    }
    if forall k :: 0 <= k < |cs| ==> Covers(after, cs[k], enemy) {
      forall s | s in Movements(cs) ensures Holds(after.movement, s) {
        var k :| 0 <= k < |cs| && Movements(cs)[k] == s;
        assert Covers(after, cs[k], enemy);
      }
      if enemy {
        forall s | s in Battles(cs) ensures Holds(after.battle, s) {
          var k :| 0 <= k < |cs| && Battles(cs)[k] == s;
          assert Covers(after, cs[k], enemy);
        }
        forall s | s in Dangers(cs) ensures Holds(after.danger, s) {
          var k :| 0 <= k < |cs| && Dangers(cs)[k] == s;
          assert Covers(after, cs[k], enemy);
        }
      }
    }
  }

  /** Whatever the ranges were, some option is always chosen, none is safer, and among the equally safe
      none scores better. */
  lemma ChosenIsSafest(sim: Simulation, r: Ranges, cs: seq<Candidate>, w: Weights, enemy: bool,
                       options: seq<PathOption>, selected: int, score: int)
    requires |cs| == |options| > 0 && Packs(w) && RemembersAll(r, cs, enemy)
    requires forall k :: 0 <= k < |cs| ==> Simulated(sim, enemy, k, NORM_SAFE, cs[k])
    requires IsChoice(Scores(cs, RangesAfter(r, cs, enemy), w, enemy), options, selected, score)
    ensures var after := RangesAfter(r, cs, enemy);
            && 0 <= selected < |cs|
            && forall k :: 0 <= k < |cs| ==>
                 || Safety(cs[k]) < Safety(cs[selected])
                 || (Safety(cs[k]) == Safety(cs[selected])
                     && Fineness(cs[k], after, w, enemy) <= Fineness(cs[selected], after, w, enemy))
  {
    hide Normalised, Safety;
    var after := RangesAfter(r, cs, enemy);
    var scores := Scores(cs, after, w, enemy);
    RangesCover(r, cs, enemy);
    assert Covers(after, cs[0], enemy);
    FinenessIsBounded(cs[0], after, w, enemy);
    SafetyIsBeforeTheCrash(sim, enemy, 0, cs[0]);
    assert scores[0] > 0;
    forall k | 0 <= k < |cs|
      ensures Safety(cs[k]) < Safety(cs[selected])
              || (Safety(cs[k]) == Safety(cs[selected])
                  && Fineness(cs[k], after, w, enemy) <= Fineness(cs[selected], after, w, enemy))
    {
      assert scores[k] <= scores[selected];
      ScoreIsLexicographic(cs[k], cs[selected], after, w, enemy);
      ScoreIsLexicographic(cs[selected], cs[k], after, w, enemy);
    }
  }

  /** A score is acted on exactly when its option is safer than MIN_SAFE steps, or just that safe and not
      worse than nothing otherwise; so the option acted on completes MIN_SAFE - 1 steps without a crash. */
  lemma ActedOnIsSafe(sim: Simulation, r: Ranges, c: Candidate, w: Weights, enemy: bool, k: nat)
    requires Packs(w) && Covers(r, c, enemy) && Simulated(sim, enemy, k, NORM_SAFE, c)
    ensures TruncDiv(Score(c, r, w, enemy), SAFE_SCORE) >= MIN_SAFE <==>
            Safety(c) > MIN_SAFE || (Safety(c) == MIN_SAFE && Fineness(c, r, w, enemy) >= 0)
    ensures TruncDiv(Score(c, r, w, enemy), SAFE_SCORE) >= MIN_SAFE ==> SafeBefore(sim, k, MIN_SAFE - 1)
  {
    FinenessIsBounded(c, r, w, enemy);
    SafetyIsBeforeTheCrash(sim, enemy, k, c);
  }

  /** In every fight the safer of two covered candidates outscores the other. */
  ghost predicate RanksBySafety(w: Weights) {
    forall c: Candidate, d: Candidate, r: Ranges :: Outscores(c, d, r, w)
  }

  predicate Outscores(c: Candidate, d: Candidate, r: Ranges, w: Weights) {
    Covers(r, c, true) && Covers(r, d, true) && Safety(c) > Safety(d) ==> Score(c, r, w, true) > Score(d, r, w, true)
  }

  /** The bound on the weights is exact: beyond it a less safe option can outscore a safer one. */
  lemma PackingIsExact(w: Weights)
    requires w.go >= 0 && w.fight >= 0
    ensures Packs(w) <==> RanksBySafety(w)
  {
    if Packs(w) {
      forall c: Candidate, d: Candidate, r: Ranges ensures Outscores(c, d, r, w) {
        SaferOutscores(c, d, r, w);
      }
    } else {
      HeavyWeightsOutweighAStep(w);
    }
  }

  lemma SaferOutscores(c: Candidate, d: Candidate, r: Ranges, w: Weights)
    requires Packs(w)
    ensures Outscores(c, d, r, w)
  {
    if Covers(r, c, true) && Covers(r, d, true) { ScoreIsLexicographic(c, d, r, w, true); }
  }

  lemma HeavyWeightsOutweighAStep(w: Weights)
    requires w.go >= 0 && w.fight >= 0 && !Packs(w)
    ensures var r := Ranges(Range(0, 1), Range(0, 1), Range(0, 1));
            !Outscores(Candidate(2, 2, 0, 0, 1), Candidate(1, 1, 1, 1, 0), r, w)
  {
    hide Normalised;
    NormalisedOverUnit(SCORE_MOD * w.go);
    NormalisedOverUnit(SCORE_MOD * w.fight);
    NormalisedOverUnit(SCORE_MOD * (w.fight + w.go));
  }

  lemma NormalisedOverUnit(scale: int)
    requires scale >= 0
    ensures Normalised(0, Range(0, 1), scale) == 0 && Normalised(1, Range(0, 1), scale) == scale
  {
    assert scale * 1 == scale && scale * 0 == 0;
  }

  /** A movement score equal to the sentinel is forgotten by the range, and the safest option can lose for
      it. */
  lemma SentinelLosesTheSafest(w: Weights)
    requires Packs(w) && w.go > 0
    ensures var r := Ranges(Range(MAGIC_NUM, MAGIC_NUM), Range(MAGIC_NUM, MAGIC_NUM), Range(MAGIC_NUM, MAGIC_NUM));
            var cs := [Candidate(0, 0, MAGIC_NUM, 0, 0), Candidate(1, 1, 0, 0, 0), Candidate(1, 1, 1, 0, 0)];
            var scores := Scores(cs, RangesAfter(r, cs, false), w, false);
            Safety(cs[0]) > Safety(cs[1]) && scores[0] < scores[1]
  {
    var cs := [Candidate(0, 0, MAGIC_NUM, 0, 0), Candidate(1, 1, 0, 0, 0), Candidate(1, 1, 1, 0, 0)];
    assert Movements(cs) == [MAGIC_NUM, 0, 1];
    SentinelIsForgotten();
    assert Normalised(MAGIC_NUM, Range(0, 1), SCORE_MOD * w.go) == MAGIC_NUM * SCORE_MOD * w.go;
    assert Normalised(0, Range(0, 1), SCORE_MOD * w.go) == 0;
  }

  lemma SentinelIsForgotten()
    ensures WidenedBy(Range(MAGIC_NUM, MAGIC_NUM), [MAGIC_NUM, 0, 1]) == Range(0, 1)
  {
    var r := Range(MAGIC_NUM, MAGIC_NUM);
    assert [MAGIC_NUM, 0, 1][..2] == [MAGIC_NUM, 0] && [MAGIC_NUM, 0][..1] == [MAGIC_NUM] && [MAGIC_NUM][..0] == [];
    assert WidenedBy(r, [MAGIC_NUM]) == r;
    assert WidenedBy(r, [MAGIC_NUM, 0]) == Range(0, 0);
  }
}
