/** Experience arithmetic: the bonus a skill's experience earns, the experience its next level needs,
    and why the two loops that compute them agree. */
module CharacterXp {
  import opened CArithmetic

  /** Raw experience lives below XP_MAX; the bonus is packed above it. */
  const XP_MAX: int := 256 * 256 * 256

  function RawOf(xp: int): int {
    TruncMod(xp, XP_MAX)
  }

  function PackedBonus(xp: int): int {
    TruncDiv(xp, XP_MAX)
  }

  // ---- Thresholds --------------------------------------------------------------------------

  function Pow3(k: nat): (p: nat)
    ensures p >= 1
  {
    if k == 0 then 1 else 3 * Pow3(k - 1)
  }

  /** t + 3t + 9t + ..., k terms. */
  function Sum(t: int, k: nat): int {
    if k == 0 then 0 else Sum(t, k - 1) + t * Pow3(k - 1)
  }

  /** The k-th threshold in closed form. */
  lemma {:induction false} SumIsGeometric(t: int, k: nat)
    ensures 2 * Sum(t, k) == t * (Pow3(k) - 1)
  {
    if k > 0 {
      SumIsGeometric(t, k - 1);
      var p := Pow3(k - 1);
      assert t * (3 * p - 1) == t * (p - 1) + 2 * (t * p);
    }
  }

  lemma {:induction false} SumShifts(t: int, k: nat)
    ensures Sum(t, k + 1) == t + Sum(3 * t, k)
  {
    if k > 0 {
      SumShifts(t, k - 1);
      assert t * Pow3(k) == 3 * t * Pow3(k - 1);
    } else {
      assert Sum(t, 1) == Sum(t, 0) + t * Pow3(0);
    }
  }

  lemma {:induction false} SumRises(t: int, j: nat, k: nat)
    requires t >= 1 && j <= k
    ensures Sum(t, j) + (k - j) <= Sum(t, k)
    decreases k
  {
    if j < k {
      SumRises(t, j, k - 1);
      assert t * Pow3(k - 1) >= 1;
    }
  }

  /** The threshold scaled from target 4 to the skill's base target, never below 1. */
  function Scaled(threshold: int, target: int): (t: int)
    requires threshold >= 0
    ensures t >= 1
    decreases if target > 4 then target - 4 else 4 - target
  {
    if target > 4 then Scaled(threshold / 3, target - 1)
    else if target < 4 then Scaled(threshold * 3, target + 1)
    else if threshold < 1 then 1 else threshold
  }

  lemma NestedDivision(a: nat, b: nat)
    requires b > 0
    ensures a / 3 / b == a / (3 * b)
  {
    var q, r := a / 3 / b, a / 3 % b;
    assert a / 3 == b * q + r;
    assert a == 3 * b * q + (3 * r + a % 3) && 0 <= 3 * r + a % 3 < 3 * b;
    QuotientIs(a, 3 * b, q, 3 * r + a % 3);
  }

  lemma QuotientIs(a: int, b: int, q: int, r: int)
    requires b > 0 && 0 <= r < b && a == b * q + r
    ensures a / b == q
  {
    var p := a / b;
    assert b * (p - q) == r - a % b;
    assert p - q >= 1 ==> b * (p - q) >= b;
    assert q - p >= 1 ==> b * (q - p) >= b;
  }

  lemma {:induction false} ScaledDown(threshold: int, n: nat)
    requires threshold >= 0
    ensures var quotient := threshold / Pow3(n); Scaled(threshold, 4 + n) == if quotient < 1 then 1 else quotient
    decreases n
  {
    if n > 0 {
      NestedDivision(threshold, Pow3(n - 1));
      assert Scaled(threshold, 4 + n) == Scaled(threshold / 3, 4 + (n - 1));
      ScaledDown(threshold / 3, n - 1);
    }
  }

  lemma {:induction false} ScaledUp(threshold: int, n: nat)
    requires threshold > 0
    ensures Scaled(threshold, 4 - n) == threshold * Pow3(n)
    decreases n
  {
    if n > 0 {
      assert Scaled(threshold, 4 - n) == Scaled(threshold * 3, 4 - (n - 1));
      ScaledUp(threshold * 3, n - 1);
      assert threshold * 3 * Pow3(n - 1) == threshold * (3 * Pow3(n - 1));
    }
  }

  /** The scaled threshold in closed form: three to the distance from target 4, divided out for a skill
      that is harder than that and multiplied in for one that is easier. */
  lemma ScaledClosedForm(threshold: int, target: int)
    requires threshold > 0
    ensures Scaled(threshold, target) ==
            if target <= 4 then threshold * Pow3(4 - target)
            else if threshold < Pow3(target - 4) then 1
            else threshold / Pow3(target - 4)
  {
    if target <= 4 {
      ScaledUp(threshold, 4 - target);
    } else {
      ScaledDown(threshold, target - 4);
      var p := Pow3(target - 4);
      if threshold < p {
        QuotientIs(threshold, p, 0, threshold);
      } else {
        AtLeastOnce(threshold, p);
      }
    }
  }

  lemma AtLeastOnce(a: int, b: int)
    requires a >= b > 0
    ensures a / b >= 1
  {
    var q := a / b;
    assert a == b * q + a % b;
    assert q <= 0 ==> b * q <= 0;
  }

  /** The two scaling loops both computations start with. */
  method ScaleThreshold(threshold: int, target: int) returns (t: int)
    requires threshold > 0
    ensures t == Scaled(threshold, target)
  {
    t := threshold;
    var counter := target;
    while counter > 4
      invariant t >= 0 && Scaled(t, counter) == Scaled(threshold, target)
    {
      counter := counter - 1;
      t := t / 3;
    }
    while counter < 4
      invariant counter <= 4 && t >= 0 && Scaled(t, counter) == Scaled(threshold, target)
    {
      counter := counter + 1;
      t := t * 3;
    }
    if t < 1 { t := 1; }
  }

  // ---- The bonus ---------------------------------------------------------------------------

  /** How many thresholds x has passed. */
  function Bonus(t: int, x: int): nat
    requires t >= 1
    decreases if x > 0 then x else 0
  {
    if x > t then 1 + Bonus(3 * t, x - t) else 0
  }

  /** The bonus counts the k >= 1 whose threshold t(3^k - 1)/2 lies below x. */
  lemma {:induction false} BonusCountsThresholds(t: int, x: int, k: nat)
    requires t >= 1 && k >= 1
    ensures x > Sum(t, k) <==> k <= Bonus(t, x)
    decreases k
  {
    SumShifts(t, k - 1);
    if k == 1 {
    } else if x > t {
      BonusCountsThresholds(3 * t, x - t, k - 1);
    } else {
      SumRises(t, 1, k);
      assert Sum(t, 1) == Sum(t, 0) + t * Pow3(0);
    }
  }

  /** Below XP_MAX no skill earns more than fifteen. */
  lemma BonusIsAtMostFifteen(t: int, x: int)
    requires t >= 1 && x < XP_MAX
    ensures Bonus(t, x) <= 15
  {
    BonusCountsThresholds(t, x, 16);
    SumIsGeometric(t, 16);
    PowersOfThree();
    assert t * (43046721 - 1) >= 43046720;
  }

  lemma PowersOfThree()
    ensures Pow3(16) == 43046721
  {
    assert Pow3(4) == 81;
    assert Pow3(8) == 6561 by { assert Pow3(5) == 243 && Pow3(6) == 729 && Pow3(7) == 2187; }
    assert Pow3(12) == 531441 by { assert Pow3(9) == 19683 && Pow3(10) == 59049 && Pow3(11) == 177147; }
    assert Pow3(13) == 1594323 && Pow3(14) == 4782969 && Pow3(15) == 14348907;
  }

  /** figure_xp_bonus, after it has reduced the skill's experience to its raw part. Once the scaled
      threshold is an int, the loop cannot overflow. */
  method FigureXpBonus(threshold: int, target: int, xp: int) returns (bonus: int)
    requires threshold > 0 ==> Scaled(threshold, target) <= INT_MAX
    ensures bonus == if threshold <= 0 then 0 else Bonus(Scaled(threshold, target), RawOf(xp))
    ensures 0 <= bonus <= 15
  {
    if threshold <= 0 { return 0; }
    var t := ScaleThreshold(threshold, target);
    ghost var all := Bonus(t, RawOf(xp));
    BonusIsAtMostFifteen(t, RawOf(xp));
    var tx := RawOf(xp);
    bonus := 0;
    while tx > t
      invariant t >= 1 && tx < XP_MAX && t <= INT_MAX && 0 <= bonus
      invariant all == bonus + Bonus(t, tx)
      decreases tx
    {
      bonus := bonus + 1;
      tx := tx - t;
      assert t * 3 <= INT_MAX;
      t := t * 3;
    }
  }

  // ---- The next level ----------------------------------------------------------------------

  /** character_xp_to_next_level: `target` is the target with experience, `start` without. */
  method XpToNextLevel(threshold: int, target: int, start: int) returns (total: int)
    ensures threshold <= 0 ==> total == -1
    ensures threshold > 0 ==>
              total == 1 + Sum(Scaled(threshold, start), if target <= start then start - target + 1 else 0)
  {
    hide Scaled;
    if threshold <= 0 { return -1; }
    total := 1;
    var step := ScaleThreshold(threshold, start);
    ghost var t := step;
    var skill := start;
    while target <= skill
      invariant skill <= start && (skill + 1 >= target || skill == start)
      invariant step == t * Pow3(start - skill) && total == 1 + Sum(t, start - skill)
    {
      skill := skill - 1;
      total := total + step;
      assert step * 3 == t * Pow3(start - skill);
      step := step * 3;
    }
  }

  /** total is the least raw experience whose bonus exceeds the present one. */
  ghost predicate IsNextLevel(t: int, bonus: int, total: int)
    requires t >= 1
  {
    Bonus(t, total) > bonus && forall x :: x < total ==> Bonus(t, x) <= bonus
  }

  /** While the packed bonus is up to date, a skill's target with experience is its target without it
      less the bonus, and the experience the loop then asks for is exactly the least raw experience
      whose bonus exceeds the present one. */
  lemma NextLevelIsLeast(threshold: int, start: int, xp: int)
    requires threshold > 0
    requires PackedBonus(xp) == Bonus(Scaled(threshold, start), RawOf(xp))
    ensures var t, target := Scaled(threshold, start), start - PackedBonus(xp);
            var total := 1 + Sum(t, start - target + 1);
            IsNextLevel(t, PackedBonus(xp), total) && RawOf(xp) < total
  {
    var t, b := Scaled(threshold, start), PackedBonus(xp);
    var total := 1 + Sum(t, b + 1);
    BonusCountsThresholds(t, total, b + 1);
    forall x | x < total ensures Bonus(t, x) <= b {
      BonusCountsThresholds(t, x, b + 1);
    }
    BonusCountsThresholds(t, RawOf(xp), b + 1);
  }

  lemma NextTerm(t: int, b: nat)
    ensures t * Pow3(b + 1) == 3 * (t * Pow3(b)) && Sum(t, b + 1) == Sum(t, b) + t * Pow3(b)
    ensures 2 * Sum(t, b) == t * Pow3(b) - t
  {
    SumIsGeometric(t, b);
    assert t * (Pow3(b) - 1) == t * Pow3(b) - t;
    assert Pow3(b + 1) == 3 * Pow3(b);
  }

  /** Within an int: whatever the loops form while asking for the next level stays below INT_MAX, if
      three times the scaled threshold does. */
  lemma NextLevelFits(t: int, x: int)
    requires t >= 1 && 3 * t <= INT_MAX && x < XP_MAX
    ensures 1 + Sum(t, Bonus(t, x) + 1) <= INT_MAX && t * Pow3(Bonus(t, x) + 1) <= INT_MAX
  {
    var b := Bonus(t, x);
    NextTerm(t, b);
    if b >= 1 { BonusCountsThresholds(t, x, b); }
  }

  // ---- Gaining experience ------------------------------------------------------------------

  /** The experience char_gainxpbycode stores: the raw sum, with its bonus packed above it. */
  function Gained(threshold: int, target: int, xp: int, amount: int): int {
    var raw := RawOf(xp + amount);
    raw + XP_MAX * (if threshold <= 0 then 0 else Bonus(Scaled(threshold, target), raw))
  }

  lemma PackingIsReversible(raw: int, bonus: nat)
    requires -XP_MAX < raw < XP_MAX && bonus <= 15 && (raw < 0 ==> bonus == 0)
    ensures var stored := raw + XP_MAX * bonus;
            RawOf(stored) == raw && PackedBonus(stored) == bonus && stored <= INT_MAX && (stored >= 0 <==> raw >= 0)
  {
    if raw >= 0 { assert (raw + XP_MAX * bonus) / XP_MAX == bonus; }
  }

  /** What is stored keeps the raw part, has an up-to-date packed bonus, and fits an int. Without a
      threshold there is no bonus. */
  lemma GainPacksTheBonus(threshold: int, target: int, xp: int, amount: int)
    ensures var stored := Gained(threshold, target, xp, amount);
            && RawOf(stored) == RawOf(xp + amount)
            && PackedBonus(stored) == (if threshold > 0 then Bonus(Scaled(threshold, target), RawOf(stored)) else 0)
            && stored <= INT_MAX && (stored >= 0 <==> RawOf(xp + amount) >= 0)
  {
    var raw := RawOf(xp + amount);
    var b := if threshold > 0 then Bonus(Scaled(threshold, target), raw) else 0;
    if threshold > 0 { BonusIsAtMostFifteen(Scaled(threshold, target), raw); }
    PackingIsReversible(raw, b);
  }
}
