/** The server's skill context in place: its database, its cached target, and the operations on them. */
module SkillServer {
  import opened CArithmetic
  import opened CharacterStore
  import opened CharacterXp
  import opened Objects
  import opened SkillCache

  class SkillContext {
    const database: Database
    const rules: Rules
    var cachedCharacter: DbRef
    var cachedSkill: int
    var cachedResult: int

    constructor (database: Database, rules: Rules)
      ensures this.database == database && this.rules == rules
      ensures StateOk(State(database.players, NOTHING, 0, 0)) ==> StateOk(View()) && Coherent(View())
    {
      this.database, this.rules := database, rules;
      cachedCharacter, cachedSkill, cachedResult := NOTHING, 0, 0;
    }

    ghost function View(): State
      reads this, database
    {
      State(database.players, cachedCharacter, cachedSkill, cachedResult)
    }

    /** char_getskilltargetbycode_base with experience. A level of -1 means a value that is not there,
        which no stored skill has. */
    method TargetOf(player: DbRef, s: PlayerStats, code: int, modifier: int) returns (target: int)
      requires StateOk(View()) && s.Valid() && (code == -1 || IsCode(code))
      requires s.View() == Read(database.players, player, SKILLS_AND_ATTRS)
      modifies this
      ensures View() == Queried(old(View()), player, code)
      ensures target == Answer(old(View()), player, code, modifier)
    {
      if code == -1 || !IsSkill(code) { return 18; }
      if cachedCharacter == player && cachedSkill == code { return cachedResult + modifier; }
      var val := AttributeSum(s.View(), code);
      var skill := s.values[code] + PackedBonus(s.xp[code]);
      LevelsAreStored(View(), player, code);
      if skill == -1 { return 18; }
      cachedCharacter := player;
      cachedSkill := code;
      cachedResult := 18 - val - skill;
      target := cachedResult + modifier;
    }

    lemma LevelsAreStored(st: State, player: DbRef, code: int)
      requires StateOk(st) && IsSkill(code)
      ensures LevelOf(Read(st.players, player, SKILLS_AND_ATTRS), code) >= 0
    {
      assert player in st.players ==> CharacterOk(st.players[player]);
    }

    /** char_getskilltargetbycode */
    method Query(player: DbRef, code: int, modifier: int) returns (target: int)
      requires StateOk(View()) && (code == -1 || IsCode(code))
      modifies this
      ensures View() == Queried(old(View()), player, code)
      ensures target == Answer(old(View()), player, code, modifier)
    {
      var s := database.Retrieve(player, SKILLS_AND_ATTRS);
      target := TargetOf(player, s, code, modifier);
    }

    /** character_stats_store, with the part of it that forgets the cached target. */
    method Store(player: DbRef, stats: PlayerStats, modes: Modes)
      requires stats.Valid()
      modifies this, database
      ensures View() == StoredIn(old(View()), player, stats.View(), modes)
    {
      if player !in database.players { return; }
      database.Store(player, stats, modes);
      if (modes.advs || modes.skills) && player == cachedCharacter {
        cachedCharacter := NOTHING;
      }
    }

    /** The part of char_gainxpbycode that works on the statistics, with figure_xp_bonus in it. */
    method RecordGain(s: PlayerStats, code: nat, amount: int, now: int)
      requires s.Valid() && IsCode(code)
      requires rules.threshold(code) > 0 ==> Scaled(rules.threshold(code), BaseTarget(s.View(), code)) <= INT_MAX
      modifies s.xp, s.lastUse
      ensures s.Valid() && s.View() == WithGain(rules, old(s.View()), code, amount, now)
    {
      hide Bonus, Scaled, AttributeSum, TruncMod;
      var base := if IsSkill(code) then 18 - AttributeSum(s.View(), code) - s.values[code] else 18;
      ghost var sum := s.xp[code] + amount;
      s.lastUse[code] := now;
      s.xp[code] := s.xp[code] + amount;
      s.xp[code] := RawOf(s.xp[code]);
      var bonus := FigureXpBonus(rules.threshold(code), base, s.xp[code]);
      RawIsRaw(sum);
      s.xp[code] := RawOf(s.xp[code]) + XP_MAX * bonus;
      assert s.xp[code] == Gained(rules.threshold(code), base, old(s.xp[code]), amount);
    }

    /** char_gainxpbycode, where scaling the threshold stays within an int. */
    method GainExperience(player: DbRef, code: int, amount: int, hurry: bool, now: int) returns (accepted: bool)
      requires code < NUM_CHARVALUES
      requires code >= 0 && rules.threshold(code) > 0 ==>
                 var s := Read(database.players, player, SKILLS_AND_ATTRS);
                 Scaled(rules.threshold(code), BaseTarget(s, code)) <= INT_MAX
      modifies this, database
      ensures View() == After(rules, old(View()), Gain(player, code, amount, hurry, now))
      ensures accepted <==>
              code >= 0 && !TooSoon(rules, Read(old(database.players), player, SKILLS_AND_ATTRS), code, hurry, now)
    {
      if code < 0 { return false; }
      var s := database.Retrieve(player, SKILLS_AND_ATTRS);
      if !hurry {
        if !(now > s.lastUse[code] + 30 || rules.frequent(code)) { return false; }
      }
      RecordGain(s, code, amount, now);
      Store(player, s, ONLY_SKILLS);
      return true;
    }

    lemma RawIsRaw(xp: int)
      ensures RawOf(RawOf(xp)) == RawOf(xp)
    {
    }

    /** char_setstatvalue_by_code */
    method SetStat(s: PlayerStats, code: int, value: int)
      requires s.Valid() && code < NUM_CHARVALUES
      modifies s.values
      ensures s.Valid() && s.View() == WithValue(old(s.View()), code, value)
    {
      if code < 0 { return; }
      if code == EE_NUMBER {
        s.SetValue(LIVES, s.values[LIVES] + value - s.values[code]);
      }
      s.SetValue(code, value);
    }

    /** character_value_set_by_code */
    method SetValue(player: DbRef, code: int, value: int)
      requires code < NUM_CHARVALUES
      modifies this, database
      ensures View() == After(rules, old(View()), Step.SetValue(player, code, value))
    {
      var s := database.Retrieve(player, ALL);
      SetStat(s, code, value);
      Store(player, s, ALL);
    }

    /** character_skill_target_set */
    method SetTarget(player: DbRef, code: int, target: int) returns (accepted: bool)
      requires StateOk(View()) && IsCode(code)
      modifies this, database
      ensures View() == After(rules, old(View()), Step.SetTarget(player, code, target))
      ensures accepted <==> IsSkill(code) && IsByte(NewLevel(old(View()), player, code, target))
    {
      hide CharacterOk, AttributeSum, Stored, Retrieved, Target, StoredIn, Queried;
      if !IsSkill(code) { return false; }
      var s := database.Retrieve(player, ALL);
      var raw := s.values[code];
      var effective := raw + PackedBonus(s.xp[code]);
      var asked := Query(player, code, 0);
      var level := asked + effective - target - (effective - raw);
      if level < 0 || level > 255 { return false; }
      SetStat(s, code, level);
      Store(player, s, ALL);
      return true;
    }

    /** The cached target goes with the statistics do_charclear clears. */
    method Clear(player: DbRef)
      modifies this, database
      ensures View() == After(rules, old(View()), Step.Clear(player))
    {
      if player in database.players {
        database.players := database.players[player := NEW_CHARACTER];
      }
      if player == cachedCharacter {
        cachedCharacter := NOTHING;
      }
    }

    /** character_xp_to_next_level: never an answer from a stale target, because the cache is coherent and
        can be haunted for the object number -1 only. */
    method ExperienceToNextLevel(player: DbRef, code: int) returns (total: int)
      requires StateOk(View()) && Coherent(View()) && IsSkill(code)
      modifies this
      ensures View() == if rules.threshold(code) <= 0 then old(View()) else Queried(old(View()), player, code)
      ensures rules.threshold(code) <= 0 ==> total == -1
      ensures rules.threshold(code) > 0 && !Haunted(old(View()), player, code) ==>
                var s := Read(database.players, player, SKILLS_AND_ATTRS);
                BonusIsNext(rules.threshold(code), BaseTarget(s, code), s.xp[code], total)
    {
      hide CharacterOk, Retrieved, Scaled, BonusIsNext;
      if rules.threshold(code) <= 0 { return -1; }
      AnswerIsFresh(View(), player, code);
      var target := Query(player, code, 0);
      var s := database.Retrieve(player, SKILLS_AND_ATTRS);
      var start := 18 - AttributeSum(s.View(), code) - s.values[code];
      total := XpToNextLevel(rules.threshold(code), target, start);
      if !Haunted(old(View()), player, code) {
        LeastFor(rules.threshold(code), start, target, s.xp[code], total);
      }
    }

    lemma AnswerIsFresh(st: State, player: DbRef, code: int)
      requires StateOk(st) && Coherent(st) && IsSkill(code)
      ensures var s := Read(st.players, player, SKILLS_AND_ATTRS);
              !Haunted(st, player, code) ==>
                Answer(st, player, code, 0) == BaseTarget(s, code) - PackedBonus(s.xp[code])
    {
      AnswersAfreshExactly(st, player, code, 0);
    }

    /** If the packed bonus is up to date, total is what the next level takes. */
    ghost predicate BonusIsNext(threshold: int, base: int, xp: int, total: int)
      requires threshold > 0
    {
      PackedBonus(xp) == Bonus(Scaled(threshold, base), RawOf(xp)) ==>
        IsNextLevel(Scaled(threshold, base), PackedBonus(xp), total)
    }

    lemma LeastFor(threshold: int, base: int, target: int, xp: int, total: int)
      requires threshold > 0 && target == base - PackedBonus(xp)
      requires total == 1 + Sum(Scaled(threshold, base), if target <= base then base - target + 1 else 0)
      ensures BonusIsNext(threshold, base, xp, total)
    {
      if PackedBonus(xp) == Bonus(Scaled(threshold, base), RawOf(xp)) {
        NextLevelIsLeast(threshold, base, xp);
      }
    }
  }
}
