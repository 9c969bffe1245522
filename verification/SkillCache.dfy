/** Skill targets, the one-entry cache in front of them, and the operations that may leave it stale.
    The cache remembers one player, one skill and that skill's target. */
module SkillCache {
  import opened CharacterStore
  import opened CharacterXp
  import opened Objects

  const LAST_SKILL: nat := 118

  /** What the catalogue says of each skill: the experience threshold, and whether experience always
      counts. Thresholds may be changed while the server runs, so they are an input. */
  datatype Rules = Rules(threshold: int -> int, frequent: int -> bool)

  // ---- Targets -----------------------------------------------------------------------------

  /** The category of each skill, in catalogue order: athletic, physical, mental or social. */
  const CATEGORY: string :=
    "AMMMAASAMMMMMMPPMPMMPPPPPPPPPPPSSASMMSMPPAPPPPPPPSPMAASMSPPMSPMAMMMMMMMMPMMSAP"

  /** The two attributes a skill rests on. */
  function AttributeSum(s: Stats, code: int): int
    requires StatsOk(s) && IsSkill(code)
  {
    var category := CATEGORY[code - FIRST_SKILL];
    if category == 'A' then s.values[BUILD] + s.values[REFLEXES]
    else if category == 'P' then s.values[REFLEXES] + s.values[INTUITION]
    else if category == 'M' then s.values[INTUITION] + s.values[LEARN]
    else s.values[INTUITION] + s.values[CHARISMA]
  }

  /** Athletic skills rest on build, athletic and physical ones on reflexes, all but athletic ones on
      intuition, mental ones on learn, and the others on charisma. */
  predicate RestsOn(category: char, attribute: int) {
    if attribute == BUILD then category == 'A'
    else if attribute == REFLEXES then category == 'A' || category == 'P'
    else if attribute == INTUITION then category != 'A'
    else if attribute == LEARN then category == 'M'
    else category != 'A' && category != 'P' && category != 'M'
  }

  /** A point on an attribute is a point for exactly the skills that rest on it. */
  lemma AttributeCounts(s: Stats, code: int, attribute: int, value: int)
    requires StatsOk(s) && IsSkill(code) && BUILD <= attribute <= CHARISMA && IsByte(value)
    ensures AttributeSum(s.(values := s.values[attribute := value]), code) - AttributeSum(s, code)
            == if RestsOn(CATEGORY[code - FIRST_SKILL], attribute) then value - s.values[attribute] else 0
    ensures AttributeSum(ZeroStats(), code) == 0
  {
  }

  /** char_getstatvalue_by_code: a skill's level counts the bonus its experience has earned. */
  function LevelOf(s: Stats, code: int): int
    requires StatsOk(s) && IsCode(code)
  {
    s.values[code] + if IsSkill(code) then PackedBonus(s.xp[code]) else 0
  }

  /** The target without experience. */
  function BaseTarget(s: Stats, code: int): int
    requires StatsOk(s) && IsCode(code)
  {
    if IsSkill(code) then 18 - AttributeSum(s, code) - s.values[code] else 18
  }

  function Read(players: map<DbRef, Character>, player: DbRef, modes: Modes): (s: Stats)
    ensures StatsOk(s)
  {
    if player in players then Retrieved(players[player], modes) else ZeroStats()
  }

  /** The target computed afresh from what is stored. */
  function Target(players: map<DbRef, Character>, player: DbRef, code: int): int
    requires IsSkill(code)
  {
    var s := Read(players, player, SKILLS_AND_ATTRS);
    18 - AttributeSum(s, code) - LevelOf(s, code)
  }

  // ---- The state and its operations --------------------------------------------------------

  datatype State = State(players: map<DbRef, Character>, player: DbRef, skill: int, result: int)

  ghost predicate StateOk(st: State) {
    && NOTHING !in st.players
    && forall p :: p in st.players ==> CharacterOk(st.players[p])
  }

  predicate Hits(st: State, player: DbRef, code: int) {
    st.player == player && st.skill == code
  }

  function Queried(st: State, player: DbRef, code: int): State {
    if !IsSkill(code) || Hits(st, player, code) then st
    else State(st.players, player, code, Target(st.players, player, code))
  }

  function Answer(st: State, player: DbRef, code: int, modifier: int): int {
    if !IsSkill(code) then 18
    else if Hits(st, player, code) then st.result + modifier
    else Target(st.players, player, code) + modifier
  }

  /** character_stats_store. Only a store of skills or advantages forgets the cached target. */
  function StoredIn(st: State, player: DbRef, s: Stats, modes: Modes): State
    requires StatsOk(s)
  {
    if player !in st.players then st
    else st.(players := st.players[player := Stored(st.players[player], s, modes)],
             player := if (modes.advs || modes.skills) && player == st.player then NOTHING else st.player)
  }

  function WithLine(s: Stats, code: int, value: int, xp: int, lastUse: int): (r: Stats)
    requires StatsOk(s) && IsCode(code)
    ensures StatsOk(r)
  {
    Stats(s.values[code := Clamp(value)], s.xp[code := xp], s.lastUse[code := lastUse])
  }

  /** char_setstatvalue_by_code: changing value EE_NUMBER moves the lives by as much. */
  function WithValue(s: Stats, code: int, value: int): (r: Stats)
    requires StatsOk(s) && code < NUM_CHARVALUES
    ensures StatsOk(r)
  {
    if code < 0 then s
    else
      var moved := if code == EE_NUMBER
                   then s.(values := s.values[LIVES := Clamp(s.values[LIVES] + value - s.values[code])]) else s;
      moved.(values := moved.values[code := Clamp(value)])
  }

  /** Whether experience gained now would be dropped as too soon after the last. */
  predicate TooSoon(rules: Rules, s: Stats, code: int, hurry: bool, now: int)
    requires StatsOk(s) && IsCode(code)
  {
    !hurry && now <= s.lastUse[code] + 30 && !rules.frequent(code)
  }

  function WithGain(rules: Rules, s: Stats, code: int, amount: int, now: int): (r: Stats)
    requires StatsOk(s) && IsCode(code)
    ensures StatsOk(r)
  {
    WithLine(s, code, s.values[code], Gained(rules.threshold(code), BaseTarget(s, code), s.xp[code], amount), now)
  }

  /** The level that puts a skill on a target. */
  function NewLevel(st: State, player: DbRef, code: int, target: int): int
    requires IsSkill(code)
  {
    Answer(st, player, code, 0) + Read(st.players, player, ALL).values[code] - target
  }

  datatype Step =
    | Query(player: DbRef, code: int)
    | Gain(player: DbRef, code: int, amount: int, hurry: bool, now: int)
    | SetValue(player: DbRef, code: int, value: int)
    | SetTarget(player: DbRef, code: int, target: int)
    | Store(player: DbRef, stats: Stats, modes: Modes)
    | Clear(player: DbRef)

  predicate Legal(step: Step) {
    match step
    case Gain(_, code, _, _, _) => code < NUM_CHARVALUES
    case SetValue(_, code, _) => code < NUM_CHARVALUES
    case Store(_, stats, _) => StatsOk(stats)
    case _ => true
  }

  function After(rules: Rules, st: State, step: Step): State
    requires Legal(step)
  {
    match step
    case Query(player, code) => Queried(st, player, code)
    case Gain(player, code, amount, hurry, now) =>
      var s := Read(st.players, player, SKILLS_AND_ATTRS);
      if code < 0 || TooSoon(rules, s, code, hurry, now) then st
      else StoredIn(st, player, WithGain(rules, s, code, amount, now), ONLY_SKILLS)
    case SetValue(player, code, value) =>
      StoredIn(st, player, WithValue(Read(st.players, player, ALL), code, value), ALL)
    case SetTarget(player, code, target) =>
      if !IsSkill(code) then st
      else
        var asked := Queried(st, player, code);
        var level := NewLevel(st, player, code, target);
        if IsByte(level) then StoredIn(asked, player, WithValue(Read(st.players, player, ALL), code, level), ALL)
        else asked
    case Store(player, stats, modes) => StoredIn(st, player, stats, modes)
    case Clear(player) =>
      var cleared := if player in st.players then st.players[player := NEW_CHARACTER] else st.players;
      st.(players := cleared, player := if player == st.player then NOTHING else st.player)
  }

  // ---- Coherence ---------------------------------------------------------------------------

  /** What the cache holds is what recomputing would give. */
  predicate Coherent(st: State) {
    st.player != NOTHING ==> IsSkill(st.skill) && st.result == Target(st.players, st.player, st.skill)
  }

  predicate ForgetsWhatItChanges(modes: Modes) {
    modes.attrs ==> modes.skills || modes.advs
  }

  predicate Careful(step: Step) {
    step.Store? ==> ForgetsWhatItChanges(step.modes)
  }

  /** A target rests on the stored attributes and on the skill's own entry. */
  lemma TargetReadsOnly(c: Character, d: Character, players: map<DbRef, Character>, player: DbRef, code: int)
    requires IsSkill(code) && c.fixed.build == d.fixed.build && c.fixed.reflexes == d.fixed.reflexes
    requires c.fixed.intuition == d.fixed.intuition && c.fixed.learn == d.fixed.learn
    requires c.fixed.charisma == d.fixed.charisma && Find(c.entries, code) == Find(d.entries, code)
    ensures Target(players[player := c], player, code) == Target(players[player := d], player, code)
  {
    var s, t := Retrieved(c, SKILLS_AND_ATTRS), Retrieved(d, SKILLS_AND_ATTRS);
    assert s.values[BUILD] == t.values[BUILD] && s.values[REFLEXES] == t.values[REFLEXES];
    assert s.values[INTUITION] == t.values[INTUITION] && s.values[LEARN] == t.values[LEARN];
    assert s.values[CHARISMA] == t.values[CHARISMA];
    assert s.values[code] == t.values[code] && s.xp[code] == t.xp[code];
  }

  lemma StoreKeepsOk(st: State, player: DbRef, s: Stats, modes: Modes)
    requires StateOk(st) && StatsOk(s)
    ensures StateOk(StoredIn(st, player, s, modes))
  {
    if player in st.players {
      StoreFrame(st.players[player], s, modes, Stored(st.players[player], s, modes));
    }
  }

  lemma StoreKeepsCoherence(st: State, player: DbRef, s: Stats, modes: Modes)
    requires StateOk(st) && Coherent(st) && StatsOk(s) && ForgetsWhatItChanges(modes)
    ensures Coherent(StoredIn(st, player, s, modes))
  {
    var after := StoredIn(st, player, s, modes);
    if player in st.players && after.player != NOTHING {
      if player == after.player {
        var c, d := st.players[player], Stored(st.players[player], s, modes);
        assert Find(d.entries, st.skill) == EntryAfter(c.entries, s, modes, st.skill);
        TargetReadsOnly(c, d, st.players, player, st.skill);
        assert st.players[player := c] == st.players;
      } else {
        assert Read(after.players, st.player, SKILLS_AND_ATTRS) == Read(st.players, st.player, SKILLS_AND_ATTRS);
      }
    }
  }

  /** A store keeps every cache coherent exactly when it does not write attributes alone. */
  lemma StoreIsCoherentExactlyFor(modes: Modes)
    ensures ForgetsWhatItChanges(modes) <==>
            forall st, player, s :: StateOk(st) && Coherent(st) && StatsOk(s) ==>
              Coherent(StoredIn(st, player, s, modes))
  {
    if ForgetsWhatItChanges(modes) {
      forall st, player, s | StateOk(st) && Coherent(st) && StatsOk(s)
        ensures Coherent(StoredIn(st, player, s, modes))
      {
        StoreKeepsCoherence(st, player, s, modes);
      }
    } else {
      AttributesAloneLeaveItStale(modes);
    }
  }

  lemma AttributesAloneLeaveItStale(modes: Modes)
    requires !ForgetsWhatItChanges(modes)
    ensures var st := State(map[0 := NEW_CHARACTER], 0, LAST_SKILL, 16);
            StateOk(st) && Coherent(st) && !Coherent(StoredIn(st, 0, ZeroStats(), modes))
  {
    var st := State(map[0 := NEW_CHARACTER], 0, LAST_SKILL, 16);
    var d := Stored(NEW_CHARACTER, ZeroStats(), modes);
    UnskilledTarget(NEW_CHARACTER);
    assert Find(d.entries, LAST_SKILL).None?;
    UnskilledTarget(d);
    assert st.players[0 := d] == map[0 := d];
  }

  lemma UnskilledTarget(c: Character)
    requires LAST_SKILL !in c.entries
    ensures Target(map[0 := c], 0, LAST_SKILL) == 18 - Clamp(c.fixed.intuition) - Clamp(c.fixed.reflexes)
  {
    var r := Retrieved(c, SKILLS_AND_ATTRS);
    assert r.values[LAST_SKILL] == 0 && r.xp[LAST_SKILL] == 0;
    assert r.values[INTUITION] == Clamp(c.fixed.intuition) && r.values[REFLEXES] == Clamp(c.fixed.reflexes);
    assert Read(map[0 := c], 0, SKILLS_AND_ATTRS) == r;
  }

  lemma StepKeepsCoherence(rules: Rules, st: State, step: Step)
    requires StateOk(st) && Coherent(st) && Legal(step) && Careful(step)
    ensures StateOk(After(rules, st, step)) && Coherent(After(rules, st, step))
  {
    match step
    case Query(player, code) =>
    case Gain(player, code, amount, hurry, now) =>
      var s := Read(st.players, player, SKILLS_AND_ATTRS);
      if !(code < 0 || TooSoon(rules, s, code, hurry, now)) {
        StoreKeeps(st, player, WithGain(rules, s, code, amount, now), ONLY_SKILLS);
      }
    case SetValue(player, code, value) =>
      StoreKeeps(st, player, WithValue(Read(st.players, player, ALL), code, value), ALL);
    case SetTarget(player, code, target) =>
      var level := if IsSkill(code) then NewLevel(st, player, code, target) else -1;
      if IsSkill(code) && IsByte(level) {
        StoreKeeps(Queried(st, player, code), player, WithValue(Read(st.players, player, ALL), code, level), ALL);
      }
    case Store(player, stats, modes) => StoreKeeps(st, player, stats, modes);
    case Clear(player) =>
      var after := After(rules, st, step);
      if after.player != NOTHING {
        assert Read(after.players, st.player, SKILLS_AND_ATTRS) == Read(st.players, st.player, SKILLS_AND_ATTRS);
      }
  }

  lemma StoreKeeps(st: State, player: DbRef, s: Stats, modes: Modes)
    requires StateOk(st) && Coherent(st) && StatsOk(s) && ForgetsWhatItChanges(modes)
    ensures StateOk(StoredIn(st, player, s, modes)) && Coherent(StoredIn(st, player, s, modes))
  {
    StoreKeepsOk(st, player, s, modes);
    StoreKeepsCoherence(st, player, s, modes);
  }

  ghost function Run(rules: Rules, st: State, steps: seq<Step>): State
    requires forall i :: 0 <= i < |steps| ==> Legal(steps[i])
    decreases |steps|
  {
    if steps == [] then st else Run(rules, After(rules, st, steps[0]), steps[1..])
  }

  /** The cache would answer for the object number -1 with something other than its target. */
  predicate Haunted(st: State, player: DbRef, code: int) {
    player == NOTHING && Hits(st, player, code) && st.result != 18
  }

  /** A coherent cache answers what recomputing would, hit or miss, except exactly when it is haunted. */
  lemma AnswersAfreshExactly(st: State, player: DbRef, code: int, modifier: int)
    requires StateOk(st) && Coherent(st) && IsSkill(code)
    ensures Answer(st, player, code, modifier) == Target(st.players, player, code) + modifier
            <==> !Haunted(st, player, code)
  {
    assert player !in st.players ==> Target(st.players, player, code) == 18;
  }

  /** So after any run of careful steps: a target query answers what recomputing would, except exactly for
      the object number -1 on a hit of an entry that is not 18. */
  lemma {:induction false} RunAnswersAfresh(rules: Rules, st: State, steps: seq<Step>, player: DbRef, code: int,
                                           modifier: int)
    requires StateOk(st) && Coherent(st)
    requires forall i :: 0 <= i < |steps| ==> Legal(steps[i]) && Careful(steps[i])
    ensures var end := Run(rules, st, steps);
            && StateOk(end) && Coherent(end)
            && (!IsSkill(code) ==> Answer(end, player, code, modifier) == 18)
            && (IsSkill(code) ==>
                  (Answer(end, player, code, modifier) == Target(end.players, player, code) + modifier
                   <==> !Haunted(end, player, code)))
    decreases |steps|
  {
    if IsSkill(code) && steps == [] { AnswersAfreshExactly(st, player, code, modifier); }
    if steps != [] {
      StepKeepsCoherence(rules, st, steps[0]);
      RunAnswersAfresh(rules, After(rules, st, steps[0]), steps[1..], player, code, modifier);
    }
  }

  /** For the number that means no object this is false: forgetting a player names it, so the entry left
      behind answers for it. */
  lemma NothingHitsTheForgottenEntry(rules: Rules)
    ensures var st := State(map[0 := NEW_CHARACTER], NOTHING, 0, 0);
            var end := Run(rules, st, [Query(0, LAST_SKILL), Clear(0)]);
            && StateOk(st) && Coherent(st)
            && Answer(end, NOTHING, LAST_SKILL, 0) == 16
            && Target(end.players, NOTHING, LAST_SKILL) == 18
  {
    var st := State(map[0 := NEW_CHARACTER], NOTHING, 0, 0);
    var steps := [Query(0, LAST_SKILL), Clear(0)];
    var one := After(rules, st, steps[0]);
    assert one.result == 16;
    assert steps[1..] == [Clear(0)];
    assert Run(rules, st, steps) == Run(rules, one, [Clear(0)]);
    assert [Clear(0)][1..] == [];
    assert Run(rules, one, [Clear(0)]) == After(rules, one, Clear(0));
  }

  // ---- Setting a target and gaining experience ---------------------------------------------

  /** What one skill's target becomes when only that skill's line is stored anew. */
  lemma StoredTarget(st: State, player: DbRef, s: Stats, modes: Modes, code: int)
    requires StateOk(st) && player in st.players && StatsOk(s) && IsSkill(code) && modes.skills && s.xp[code] >= 0
    requires modes.attrs ==>
               forall k :: BUILD <= k <= CHARISMA ==>
                 s.values[k] == Read(st.players, player, SKILLS_AND_ATTRS).values[k]
    ensures var old_, players := Read(st.players, player, SKILLS_AND_ATTRS), StoredIn(st, player, s, modes).players;
            Target(players, player, code) == 18 - AttributeSum(old_, code) - LevelOf(s, code)
  {
    var c := st.players[player];
    var d := Stored(c, s, modes);
    var r, o := Retrieved(d, SKILLS_AND_ATTRS), Read(st.players, player, SKILLS_AND_ATTRS);
    forall k | BUILD <= k <= CHARISMA ensures r.values[k] == o.values[k] {
      assert SelectedFixed(k, SKILLS_AND_ATTRS) && !Selected(k, SKILLS_AND_ATTRS);
    }
    assert Find(d.entries, code) == EntryAfter(c.entries, s, modes, code);
    assert r.values[code] == s.values[code] && r.xp[code] == s.xp[code];
  }

  /** Setting a skill's value leaves the rest of the character readable as it was. */
  lemma TargetAfterSetting(st: State, player: DbRef, code: int, level: int)
    requires StateOk(st) && player in st.players && IsSkill(code) && IsByte(level)
    ensures var all, players := Read(st.players, player, ALL), st.players;
            Target(StoredIn(st, player, WithValue(all, code, level), ALL).players, player, code)
            == Target(players, player, code) + all.values[code] - level
  {
    var all, some := Read(st.players, player, ALL), Read(st.players, player, SKILLS_AND_ATTRS);
    var s := WithValue(all, code, level);
    forall k | BUILD <= k <= CHARISMA ensures s.values[k] == some.values[k] {
      assert SelectedFixed(k, ALL) && SelectedFixed(k, SKILLS_AND_ATTRS);
    }
    assert all.xp[code] == some.xp[code] && all.values[code] == some.values[code] && s.xp[code] >= 0;
    StoredTarget(st, player, s, ALL, code);
  }

  /** character_skill_target_set: once it has accepted a target, the next query answers exactly that
      target, for every player. For what is not a player it stores nothing, so the answer stays what it
      was; and for every object but -1 that answer is 18. */
  lemma SetTargetMeetsTheTarget(rules: Rules, st: State, player: DbRef, code: int, target: int)
    requires StateOk(st) && Coherent(st)
    requires IsSkill(code) && IsByte(NewLevel(st, player, code, target))
    ensures var end := After(rules, st, SetTarget(player, code, target));
            Answer(end, player, code, 0) == target <==> player in st.players || target == Answer(st, player, code, 0)
    ensures player !in st.players && player != NOTHING ==> Answer(st, player, code, 0) == 18
  {
    hide CharacterOk, Stored, Retrieved;
    AnswersAfreshExactly(st, player, code, 0);
    if player in st.players {
      var step := SetTarget(player, code, target);
      var end := After(rules, st, step);
      StepKeepsCoherence(rules, st, step);
      AnswersAfreshExactly(end, player, code, 0);
      TargetAfterSetting(Queried(st, player, code), player, code, NewLevel(st, player, code, target));
    }
  }

  /** An accepted gain is kept unless it makes the raw experience negative. Kept, it leaves the packed
      bonus up to date and the target exactly the bonus below the target without experience. */
  lemma GainLowersTheTarget(rules: Rules, st: State, player: DbRef, code: int, amount: int, hurry: bool, now: int)
    requires StateOk(st) && player in st.players && IsSkill(code)
    requires !TooSoon(rules, Read(st.players, player, SKILLS_AND_ATTRS), code, hurry, now)
    ensures var s := Read(st.players, player, SKILLS_AND_ATTRS);
            var base, raw := BaseTarget(s, code), RawOf(s.xp[code] + amount);
            var end := After(rules, st, Gain(player, code, amount, hurry, now)).players;
            Target(end, player, code)
            == if raw < 0 then Target(st.players, player, code)
               else base - if rules.threshold(code) > 0 then Bonus(Scaled(rules.threshold(code), base), raw) else 0
  {
    hide CharacterOk, AttributeSum, Stored, Retrieved, Bonus;
    var s := Read(st.players, player, SKILLS_AND_ATTRS);
    var base, raw := BaseTarget(s, code), RawOf(s.xp[code] + amount);
    GainPacksTheBonus(rules.threshold(code), base, s.xp[code], amount);
    var stored := Gained(rules.threshold(code), base, s.xp[code], amount);
    assert WithGain(rules, s, code, amount, now) == WithLine(s, code, s.values[code], stored, now);
    TargetAfterGaining(st, player, code, stored, now);
  }

  lemma TargetAfterGaining(st: State, player: DbRef, code: int, stored: int, now: int)
    requires StateOk(st) && player in st.players && IsSkill(code)
    ensures var s := Read(st.players, player, SKILLS_AND_ATTRS);
            var w := WithLine(s, code, s.values[code], stored, now);
            Target(StoredIn(st, player, w, ONLY_SKILLS).players, player, code)
            == if stored < 0 then Target(st.players, player, code) else BaseTarget(s, code) - PackedBonus(stored)
  {
    var s := Read(st.players, player, SKILLS_AND_ATTRS);
    var w := WithLine(s, code, s.values[code], stored, now);
    if stored >= 0 {
      StoredTarget(st, player, w, ONLY_SKILLS, code);
    } else {
      var c := st.players[player];
      var d := Stored(c, w, ONLY_SKILLS);
      assert Find(d.entries, code) == EntryAfter(c.entries, w, ONLY_SKILLS, code) == Find(c.entries, code);
      TargetReadsOnly(c, d, st.players, player, code);
      assert st.players[player := c] == st.players;
    }
  }

  /** An accepted and kept gain sets the clock of its skill: the next gain is too soon within thirty
      seconds of it, unless it is in a hurry or the skill's experience always counts. */
  lemma GainsAreSpaced(rules: Rules, st: State, player: DbRef, code: int, amount: int, hurry: bool, now: int,
                       next: bool, later: int)
    requires StateOk(st) && player in st.players && IsSkill(code)
    requires !TooSoon(rules, Read(st.players, player, SKILLS_AND_ATTRS), code, hurry, now)
    requires RawOf(Read(st.players, player, SKILLS_AND_ATTRS).xp[code] + amount) >= 0
    ensures var after := After(rules, st, Gain(player, code, amount, hurry, now)).players;
            TooSoon(rules, Read(after, player, SKILLS_AND_ATTRS), code, next, later)
            <==> !next && !rules.frequent(code) && later - now <= 30
  {
    hide AttributeSum, Bonus, Gained, RawOf, PackedBonus;
    var s := Read(st.players, player, SKILLS_AND_ATTRS);
    GainPacksTheBonus(rules.threshold(code), BaseTarget(s, code), s.xp[code], amount);
    var w := WithGain(rules, s, code, amount, now);
    var c := st.players[player];
    var d := Stored(c, w, ONLY_SKILLS);
    assert Find(d.entries, code) == EntryAfter(c.entries, w, ONLY_SKILLS, code);
    assert Read(st.players[player := d], player, SKILLS_AND_ATTRS) == Retrieved(d, SKILLS_AND_ATTRS);
  }

  /** Setting a value changes what is read back of that value alone, if it is kept at all, and setting
      EE_NUMBER, which is never kept, moves the lives by the whole value. */
  lemma SettingAValue(rules: Rules, st: State, player: DbRef, code: int, value: int, k: int)
    requires StateOk(st) && player in st.players && IsCode(code) && IsCode(k)
    ensures var before := Read(st.players, player, ALL).values[k];
            Read(After(rules, st, SetValue(player, code, value)).players, player, ALL).values[k]
            == if code == EE_NUMBER then if k == LIVES then Clamp(before + value) else before
               else if k == code && (Selected(k, ALL) || SelectedFixed(k, ALL)) then Clamp(value)
               else before
  {
    var all := Read(st.players, player, ALL);
    var s := WithValue(all, code, value);
    var c := st.players[player];
    var d := Stored(c, s, ALL);
    StoreThenRetrieve(c, s, ALL, d, k);
    assert all.values[EE_NUMBER] == 0;
    assert Read(st.players[player := d], player, ALL) == Retrieved(d, ALL);
  }
}
