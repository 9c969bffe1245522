/** Sparse persistence of characters: five groups of values, of which only what differs from the
    defaults is kept in the database. */
module CharacterStore {
  import opened Collections
  import opened Objects
  import opened Options

  // ---- The catalogue -----------------------------------------------------------------------

  const NUM_CHARVALUES: nat := 119
  const LIVES: nat := 5
  const BRUISE: nat := 6
  const LETHAL: nat := 7
  const EE_NUMBER: nat := 11
  const BUILD: nat := 36
  const REFLEXES: nat := 37
  const INTUITION: nat := 38
  const LEARN: nat := 39
  const CHARISMA: nat := 40
  const FIRST_ADVANTAGE: nat := 14
  const FIRST_SKILL: nat := 41

  predicate IsCode(code: int) {
    0 <= code < NUM_CHARVALUES
  }

  predicate IsAdvantage(code: int) {
    FIRST_ADVANTAGE <= code < BUILD
  }

  predicate IsSkill(code: int) {
    FIRST_SKILL <= code < NUM_CHARVALUES
  }

  /** The bits of a mode mask: health 1, skills 2, attributes 4, advantages 8. */
  datatype Modes = Modes(health: bool, skills: bool, attrs: bool, advs: bool)

  const ALL := Modes(true, true, true, true)
  const SKILLS_AND_ATTRS := Modes(false, true, true, false)
  const ONLY_SKILLS := Modes(false, true, false, false)

  /** selected_variable_value */
  predicate Selected(code: int, modes: Modes) {
    (modes.skills && IsSkill(code)) || (modes.advs && (IsAdvantage(code) || code == LIVES))
  }

  /** The fixed field behind a code, if the modes select it. */
  predicate SelectedFixed(code: int, modes: Modes) {
    (modes.health && (code == BRUISE || code == LETHAL)) || (modes.attrs && BUILD <= code <= CHARISMA)
  }

  /** Each kept code belongs to one mode: health keeps 6 and 7, attributes 36 to 40, skills 41 to 118,
      and advantages 14 to 35 and the lives, which are 5. */
  lemma EachCodeHasItsMode(code: int, modes: Modes)
    ensures Selected(code, modes) || SelectedFixed(code, modes) <==>
              || (modes.health && 6 <= code <= 7) || (modes.attrs && 36 <= code <= 40)
              || (modes.skills && 41 <= code <= 118) || (modes.advs && (code == 5 || 14 <= code <= 35))
    ensures !(Selected(code, modes) && SelectedFixed(code, modes))
  {
  }

  // ---- Values ------------------------------------------------------------------------------

  datatype Fixed = Fixed(bruise: int, lethal: int, build: int, reflexes: int, intuition: int, learn: int, charisma: int)

  const DEFAULT_FIXED := Fixed(0, 0, 1, 1, 1, 1, 1)

  datatype Entry = Entry(value: int, xp: int, lastUsed: int)

  /** What the database holds of one player. */
  datatype Character = Character(fixed: Fixed, entries: map<int, Entry>)

  const NEW_CHARACTER := Character(DEFAULT_FIXED, map[])

  /** A snapshot of the three statistics arrays. */
  datatype Stats = Stats(values: seq<int>, xp: seq<int>, lastUse: seq<int>)

  predicate IsByte(n: int) {
    0 <= n <= 255
  }

  predicate StatsOk(s: Stats) {
    && |s.values| == |s.xp| == |s.lastUse| == NUM_CHARVALUES
    && forall k :: 0 <= k < NUM_CHARVALUES ==> IsByte(s.values[k])
  }

  function Clamp(n: int): (r: int)
    ensures IsByte(r) && (IsByte(n) ==> r == n)
  {
    if n < 0 then 0 else if n > 255 then 255 else n
  }

  function FixedAt(f: Fixed, code: int): int {
    if code == BRUISE then f.bruise else if code == LETHAL then f.lethal
    else if code == BUILD then f.build else if code == REFLEXES then f.reflexes
    else if code == INTUITION then f.intuition else if code == LEARN then f.learn
    else f.charisma
  }

  /** The database keeps bytes, and never a negative experience. */
  ghost predicate CharacterOk(c: Character) {
    && (forall k :: k in c.entries ==> IsByte(c.entries[k].value) && c.entries[k].xp >= 0)
    && (forall k :: SelectedFixed(k, ALL) ==> IsByte(FixedAt(c.fixed, k)))
  }

  function Find(entries: map<int, Entry>, k: int): Option<Entry> {
    if k in entries then Some(entries[k]) else None
  }

  // ---- What storing and retrieving do ------------------------------------------------------

  predicate IsDefault(s: Stats, code: int)
    requires StatsOk(s) && IsCode(code)
  {
    s.values[code] == (if code == LIVES then 1 else 0) && s.xp[code] == 0 && s.lastUse[code] == 0
  }

  /** The entry of a code after storing: defaults are removed, and the database refuses negative
      experience, leaving the entry as it was. */
  function EntryAfter(entries: map<int, Entry>, s: Stats, modes: Modes, code: int): Option<Entry>
    requires StatsOk(s)
  {
    if !IsCode(code) || !Selected(code, modes) then Find(entries, code)
    else if IsDefault(s, code) then None
    else if s.xp[code] < 0 then Find(entries, code)
    else Some(Entry(s.values[code], s.xp[code], s.lastUse[code]))
  }

  function FixedAfter(f: Fixed, s: Stats, modes: Modes): Fixed
    requires StatsOk(s)
  {
    var healthy := if modes.health then f.(bruise := s.values[BRUISE], lethal := s.values[LETHAL]) else f;
    if modes.attrs then
      healthy.(build := s.values[BUILD], reflexes := s.values[REFLEXES], intuition := s.values[INTUITION],
               learn := s.values[LEARN], charisma := s.values[CHARISMA])
    else healthy
  }

  /** c with the selected part of s stored into it. */
  ghost predicate IsStored(c: Character, s: Stats, modes: Modes, d: Character)
    requires StatsOk(s)
  {
    && d.fixed == FixedAfter(c.fixed, s, modes)
    && forall k: int :: Find(d.entries, k) == EntryAfter(c.entries, s, modes, k)
  }

  /** The only character IsStored relates to c, s and modes. */
  function Stored(c: Character, s: Stats, modes: Modes): (d: Character)
    requires StatsOk(s)
    ensures IsStored(c, s, modes, d)
  {
    var codes := c.entries.Keys + set k | 0 <= k < NUM_CHARVALUES && IsCode(k);
    Character(
      FixedAfter(c.fixed, s, modes),
      map k | k in codes && EntryAfter(c.entries, s, modes, k).Some? :: EntryAfter(c.entries, s, modes, k).value)
  }

  lemma StoredIsUnique(c: Character, s: Stats, modes: Modes, d: Character)
    requires StatsOk(s) && IsStored(c, s, modes, d)
    ensures d == Stored(c, s, modes)
  {
    var e := Stored(c, s, modes);
    forall k: int ensures (k in d.entries <==> k in e.entries) && (k in d.entries ==> d.entries[k] == e.entries[k]) {
      assert Find(d.entries, k) == EntryAfter(c.entries, s, modes, k) == Find(e.entries, k);
    }
    assert d.entries == e.entries;
  }

  function ValueOf(c: Character, modes: Modes, code: int): int {
    if Selected(code, modes) && code in c.entries then Clamp(c.entries[code].value)
    else if code == LIVES && modes.advs then 1
    else if SelectedFixed(code, modes) then Clamp(FixedAt(c.fixed, code))
    else 0
  }

  /** One line of the statistics after the stored entries are read over it. */
  function LineAfter(before: Entry, entries: map<int, Entry>, modes: Modes, code: int): Entry {
    if Selected(code, modes) && code in entries then
      Entry(Clamp(entries[code].value), entries[code].xp, entries[code].lastUsed)
    else if code == LIVES && modes.advs then before.(value := 1)
    else before
  }

  /** The statistics read back under a mode mask; everything else is zero. */
  function Retrieved(c: Character, modes: Modes): (s: Stats)
    ensures StatsOk(s)
  {
    Stats(
      seq(NUM_CHARVALUES, k => ValueOf(c, modes, k)),
      seq(NUM_CHARVALUES, k => if Selected(k, modes) && k in c.entries then c.entries[k].xp else 0),
      seq(NUM_CHARVALUES, k => if Selected(k, modes) && k in c.entries then c.entries[k].lastUsed else 0))
  }

  function ZeroStats(): (s: Stats)
    ensures StatsOk(s) && forall k :: 0 <= k < NUM_CHARVALUES ==> s.values[k] == s.xp[k] == s.lastUse[k] == 0
  {
    Stats(seq(NUM_CHARVALUES, k => 0), seq(NUM_CHARVALUES, k => 0), seq(NUM_CHARVALUES, k => 0))
  }

  // ---- Round trip --------------------------------------------------------------------------

  /** Reading back what was stored, under the same modes, gives each selected entry back exactly when
      its experience was not negative, and each selected fixed field back always. */
  lemma StoreThenRetrieve(c: Character, s: Stats, modes: Modes, d: Character, code: int)
    requires CharacterOk(c) && StatsOk(s) && IsStored(c, s, modes, d) && IsCode(code)
    ensures var r := Retrieved(d, modes);
            && (Selected(code, modes) ==>
                  (s.xp[code] >= 0 <==>
                     && r.values[code] == s.values[code] && r.xp[code] == s.xp[code]
                     && r.lastUse[code] == s.lastUse[code]))
            && (SelectedFixed(code, modes) ==> r.values[code] == s.values[code])
            && (!Selected(code, modes) ==> r.xp[code] == r.lastUse[code] == 0)
            && (!Selected(code, modes) && !SelectedFixed(code, modes) ==> r.values[code] == 0)
  {
    assert Find(d.entries, code) == EntryAfter(c.entries, s, modes, code);
    assert Find(c.entries, code).Some? ==> c.entries[code].xp >= 0;
  }

  /** Storing leaves unselected entries and fields alone, keeps the database's bounds, and no selected
      default is left in it. */
  lemma StoreFrame(c: Character, s: Stats, modes: Modes, d: Character)
    requires CharacterOk(c) && StatsOk(s) && IsStored(c, s, modes, d)
    ensures CharacterOk(d)
    ensures forall k: int :: !(IsCode(k) && Selected(k, modes)) ==> Find(d.entries, k) == Find(c.entries, k)
    ensures forall k: int :: !SelectedFixed(k, modes) && SelectedFixed(k, ALL) ==>
              FixedAt(d.fixed, k) == FixedAt(c.fixed, k)
    ensures forall k: int :: IsCode(k) && Selected(k, modes) && s.xp[k] == s.lastUse[k] == 0 ==>
              s.values[k] == (if k == LIVES then 1 else 0) ==> k !in d.entries
  {
    forall k | k in d.entries ensures IsByte(d.entries[k].value) && d.entries[k].xp >= 0 {
      assert Find(d.entries, k) == EntryAfter(c.entries, s, modes, k);
      assert Find(c.entries, k).Some? ==> k in c.entries;
    }
    forall k: int | IsCode(k) && Selected(k, modes) && IsDefault(s, k) ensures k !in d.entries {
      assert Find(d.entries, k) == EntryAfter(c.entries, s, modes, k);
    }
  }

  // ---- The arrays and the database in place ------------------------------------------------

  class PlayerStats {
    const values: array<int>
    const xp: array<int>
    const lastUse: array<int>

    constructor ()
      ensures Valid() && fresh(values) && fresh(xp) && fresh(lastUse)
      ensures View() == ZeroStats()
    {
      values := new int[NUM_CHARVALUES](i => 0);
      xp := new int[NUM_CHARVALUES](i => 0);
      lastUse := new int[NUM_CHARVALUES](i => 0);
    }

    ghost predicate Valid()
      reads this, values
    {
      && values.Length == xp.Length == lastUse.Length == NUM_CHARVALUES
      && values != xp && values != lastUse && xp != lastUse
      && forall k :: 0 <= k < NUM_CHARVALUES ==> IsByte(values[k])
    }

    function View(): Stats
      reads this, values, xp, lastUse
    {
      Stats(values[..], xp[..], lastUse[..])
    }

    ghost function At(k: int): Entry
      requires Valid() && IsCode(k)
      reads this, values, xp, lastUse
    {
      Entry(values[k], xp[k], lastUse[k])
    }

    lemma ViewFromLines(s: Stats)
      requires Valid() && StatsOk(s)
      requires forall k :: IsCode(k) ==> At(k) == Entry(s.values[k], s.xp[k], s.lastUse[k])
      ensures View() == s
    {
      forall k | 0 <= k < NUM_CHARVALUES
        ensures values[k] == s.values[k] && xp[k] == s.xp[k] && lastUse[k] == s.lastUse[k]
      {
        assert At(k) == Entry(s.values[k], s.xp[k], s.lastUse[k]);
      }
    }

    method SetLine(code: nat, entry: Entry)
      requires Valid() && IsCode(code)
      modifies values, xp, lastUse
      ensures Valid() && At(code) == Entry(Clamp(entry.value), entry.xp, entry.lastUsed)
      ensures forall k :: IsCode(k) && k != code ==> At(k) == old(At(k))
    {
      values[code] := Clamp(entry.value);
      xp[code] := entry.xp;
      lastUse[code] := entry.lastUsed;
    }

    method SetValue(code: nat, value: int)
      requires Valid() && IsCode(code)
      modifies values
      ensures Valid() && values[..] == old(values[..])[code := Clamp(value)]
    {
      values[code] := Clamp(value);
    }
  }

  class Database {
    /** The players; every other object is not one. */
    var players: map<DbRef, Character>

    constructor ()
      ensures players == map[]
    {
      players := map[];
    }

    method SetEntry(player: DbRef, code: int, entry: Entry) returns (accepted: bool)
      requires player in players
      modifies this
      ensures accepted <==> IsByte(entry.value) && entry.xp >= 0
      ensures players == if accepted
              then old(players)[player := old(players)[player].(entries := old(players)[player].entries[code := entry])]
              else old(players)
    {
      if entry.value < 0 || entry.value > 255 || entry.xp < 0 { return false; }
      var c := players[player];
      players := players[player := c.(entries := c.entries[code := entry])];
      return true;
    }

    method RemoveEntry(player: DbRef, code: int)
      requires player in players
      modifies this
      ensures players == old(players)[player := old(players)[player].(entries := old(players)[player].entries - {code})]
    {
      var c := players[player];
      players := players[player := c.(entries := c.entries - {code})];
    }

    /** store_variable_values: one pass over the catalogue. */
    method StoreVariableValues(player: DbRef, stats: PlayerStats, modes: Modes)
      requires player in players && stats.Valid()
      modifies this
      ensures player in players && players == old(players)[player := players[player]]
      ensures players[player].fixed == old(players)[player].fixed
      ensures forall k: int :: Find(players[player].entries, k)
                            == EntryAfter(old(players)[player].entries, stats.View(), modes, k)
    {
      ghost var before, s := players[player].entries, stats.View();
      for code := 0 to NUM_CHARVALUES
        invariant player in players && players == old(players)[player := players[player]]
        invariant players[player].fixed == old(players)[player].fixed
        invariant forall k: int :: Find(players[player].entries, k)
                                == if k < code then EntryAfter(before, s, modes, k) else Find(before, k)
      {
        if !Selected(code, modes) { continue; }
        var default := if code == LIVES then 1 else 0;
        if stats.values[code] == default && stats.xp[code] == 0 && stats.lastUse[code] == 0 {
          RemoveEntry(player, code);
          continue;
        }
        var _ := SetEntry(player, code, Entry(stats.values[code], stats.xp[code], stats.lastUse[code]));
      }
    }

    /** character_stats_store: nothing happens for an object that is not a player. */
    method Store(player: DbRef, stats: PlayerStats, modes: Modes)
      requires stats.Valid()
      modifies this
      ensures player !in old(players) ==> players == old(players)
      ensures player in old(players) ==>
                && player in players && players == old(players)[player := players[player]]
                && players[player] == Stored(old(players)[player], stats.View(), modes)
    {
      if player !in players { return; }
      var fixed := players[player].fixed;
      if modes.health || modes.attrs {
        if modes.health {
          fixed := fixed.(bruise := stats.values[BRUISE], lethal := stats.values[LETHAL]);
        }
        if modes.attrs {
          fixed := fixed.(build := stats.values[BUILD], reflexes := stats.values[REFLEXES],
            intuition := stats.values[INTUITION], learn := stats.values[LEARN], charisma := stats.values[CHARISMA]);
        }
        players := players[player := players[player].(fixed := fixed)];
      }
      assert fixed == FixedAfter(old(players)[player].fixed, stats.View(), modes);
      StoreVariableValues(player, stats, modes);
      StoredIsUnique(old(players)[player], stats.View(), modes, players[player]);
    }

    /** fixed_state_to_stats */
    method FixedToStats(fixed: Fixed, modes: Modes, stats: PlayerStats)
      requires stats.Valid()
      modifies stats.values
      ensures stats.Valid()
      ensures forall k :: 0 <= k < NUM_CHARVALUES ==>
                stats.values[k] == if SelectedFixed(k, modes) then Clamp(FixedAt(fixed, k)) else old(stats.values[k])
    {
      if modes.health {
        stats.SetValue(BRUISE, fixed.bruise);
        stats.SetValue(LETHAL, fixed.lethal);
      }
      if modes.attrs {
        stats.SetValue(BUILD, fixed.build);
        stats.SetValue(REFLEXES, fixed.reflexes);
        stats.SetValue(INTUITION, fixed.intuition);
        stats.SetValue(LEARN, fixed.learn);
        stats.SetValue(CHARISMA, fixed.charisma);
      }
    }

    /** retrieve_variable_values: the entries come in no fixed order. */
    method RetrieveVariableValues(entries: map<int, Entry>, modes: Modes, stats: PlayerStats)
      requires stats.Valid()
      modifies stats.values, stats.xp, stats.lastUse
      ensures stats.Valid()
      ensures forall k :: 0 <= k < NUM_CHARVALUES ==> stats.At(k) == LineAfter(old(stats.At(k)), entries, modes, k)
    {
      if modes.advs { stats.SetValue(LIVES, 1); }
      var pending := entries.Keys;
      while pending != {}
        invariant stats.Valid() && pending <= entries.Keys
        invariant forall k :: 0 <= k < NUM_CHARVALUES ==>
                    stats.At(k) == LineAfter(old(stats.At(k)), if k in pending then map[] else entries, modes, k)
        decreases pending
      {
        ghost var any := Member(pending);
        var code :| code in pending;
        pending := pending - {code};
        if IsCode(code) && Selected(code, modes) {
          stats.SetLine(code, entries[code]);
        }
      }
    }

    /** character_stats_retrieve into freshly cleared arrays. */
    method Retrieve(player: DbRef, modes: Modes) returns (stats: PlayerStats)
      ensures fresh(stats) && stats.Valid() && fresh(stats.values) && fresh(stats.xp) && fresh(stats.lastUse)
      ensures stats.View() == if player in players then Retrieved(players[player], modes) else ZeroStats()
    {
      stats := new PlayerStats();
      if player !in players { return; }
      var c := players[player];
      FixedToStats(c.fixed, modes, stats);
      ghost var fixedOnly := stats.View();
      assert forall k :: 0 <= k < NUM_CHARVALUES ==>
          stats.At(k) == Entry(if SelectedFixed(k, modes) then Clamp(FixedAt(c.fixed, k)) else 0, 0, 0);
      RetrieveVariableValues(c.entries, modes, stats);
      stats.ViewFromLines(Retrieved(c, modes));
    }
  }
}
