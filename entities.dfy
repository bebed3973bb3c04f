/**
 * The records of src/models.ts that are plain values once loaded: base
 * stats, stat changes, move metadata, moves, items, move effects, the moves a
 * species learns, evolution triggers, evolutions and species; and the lookup
 * tables of the constants module, which the library reads but does not
 * define here.
 */
module Entities {
  import opened Nullable
  import opened Text

  /** Base stats of a species. */
  datatype Stats = Stats(hp: int, atk: int, defn: int, satk: int, sdef: int, spd: int)

  /** A change of `change` stages to the stat numbered `statId`. */
  datatype StatChange = StatChange(statId: int, change: int)

  /** The stat names, in the order of their ids 1 to 8. */
  const StatNames: seq<string> := ["hp", "atk", "defn", "satk", "sdef", "spd", "evasion", "accuracy"]

  /**
   * `StatChange.stat`: the name at position `statId - 1`; `None` stands for
   * the `undefined` an index outside the list gives.
   */
  function StatName(statId: int): (r: Option<string>)
    ensures r.Some? <==> 1 <= statId <= 8
    ensures r.Some? ==> r.value in StatNames
  {
    if 1 <= statId <= |StatNames| then Some(StatNames[statId - 1]) else None
  }

  /** The id of a stat name, the inverse of `StatName`. */
  function StatId(name: string): (r: Option<int>)
    ensures r.Some? <==> name in StatNames
  {
    if name == "hp" then Some(1) else if name == "atk" then Some(2)
    else if name == "defn" then Some(3) else if name == "satk" then Some(4)
    else if name == "sdef" then Some(5) else if name == "spd" then Some(6)
    else if name == "evasion" then Some(7) else if name == "accuracy" then Some(8)
    else None
  }

  /** Every stat id names a different stat: the name gives the id back. */
  lemma StatNameRoundTrip(statId: int)
    requires 1 <= statId <= 8
    ensures StatId(StatName(statId).value) == Some(statId)
  {
  }

  /** Every stat name comes from its id. */
  lemma StatIdRoundTrip(name: string)
    requires name in StatNames
    ensures StatName(StatId(name).value) == Some(name)
  {
  }

  /** Additional mechanics of a move. */
  datatype MoveMeta = MoveMeta(
    categoryId: int,
    ailmentId: int,
    drain: int,
    healing: int,
    critRate: int,
    ailmentChance: real,
    flinchChance: real,
    statChance: real,
    minHits: Option<int>,
    maxHits: Option<int>,
    minTurns: Option<int>,
    maxTurns: Option<int>,
    statChanges: seq<StatChange>)

  /**
   * A move. `name` is `None` when the move has no English name row; `power`,
   * `accuracy` and `effectChance` are `None` for the library's `null`.
   */
  datatype Move = Move(
    id: int,
    slug: string,
    name: Option<string>,
    power: Option<int>,
    pp: int,
    accuracy: Option<int>,
    priority: int,
    targetId: int,
    typeId: int,
    damageClassId: int,
    effectId: int,
    effectChance: Option<int>,
    meta: MoveMeta)

  /** An item; `description` and `emote` are `None` for `null`. */
  datatype Item = Item(
    id: int,
    name: string,
    description: Option<string>,
    cost: int,
    page: int,
    action: string,
    inline: bool,
    emote: Option<string>,
    shard: bool)

  /** The prose of a move effect, with the `{effect_chance}` placeholder. */
  datatype MoveEffect = MoveEffect(id: int, description: string)

  /** A move a species learns, and the level at which it learns it. */
  datatype PokemonMove = PokemonMove(moveId: int, level: int)

  /**
   * What makes an evolution happen. Every optional field of a level trigger
   * is `None` for `null`.
   */
  datatype Trigger =
    | LevelTrigger(level: Option<int>, itemId: Option<int>, moveId: Option<int>,
                   moveTypeId: Option<int>, time: Option<string>, relativeStats: Option<int>)
    | ItemTrigger(usedItemId: int)
    | TradeTrigger(tradeItemId: Option<int>)
    | OtherTrigger

  /**
   * An evolution to (`forward`) or from another species. `trigger` is `None`
   * when the evolution rows have no row for the species, where the library
   * stores `undefined`.
   */
  datatype Evolution = Evolution(targetId: int, trigger: Option<Trigger>, forward: bool)

  /** A species. `evolutionFrom`/`evolutionTo` are `None` for `null`. */
  datatype Species = Species(
    id: int,
    names: seq<(string, string)>,
    slug: string,
    baseStats: Stats,
    dexNumber: int,
    catchable: bool,
    types: seq<string>,
    abundance: int,
    megaId: Option<int>,
    megaXId: Option<int>,
    megaYId: Option<int>,
    evolutionFrom: Option<seq<Evolution>>,
    evolutionTo: Option<seq<Evolution>>,
    mythical: bool,
    legendary: bool,
    ultraBeast: bool,
    event: bool,
    region: string,
    moves: seq<PokemonMove>)

  /** The flag that tags an English name: the two regional indicator letters G and B. */
  const English: string := "\U{1F1EC}\U{1F1E7}"

  /** The name of the first entry of `names` tagged `flag`. */
  function FirstTagged(names: seq<(string, string)>, flag: string): (r: Option<string>)
    ensures r.None? <==> forall i :: 0 <= i < |names| ==> names[i].0 != flag
    ensures r.Some? ==> exists i :: 0 <= i < |names| && names[i] == (flag, r.value)
                                 && forall j :: 0 <= j < i ==> names[j].0 != flag
  {
    if |names| == 0 then None
    else if names[0].0 == flag then Some(names[0].1)
    else
      var r := FirstTagged(names[1..], flag);
      assert forall i :: 1 <= i < |names| ==> names[i] == names[1..][i - 1];
      r
  }

  /** `Species.name`: the first English name, or `None` for `null`. */
  function SpeciesName(s: Species): Option<string> {
    FirstTagged(s.names, English)
  }

  /**
   * The text a species renders as inside a template: its name, or "null"
   * when it has none.
   */
  function SpeciesText(s: Species): string {
    match SpeciesName(s)
    case Some(n) => n
    case None => "null"
  }

  /**
   * The keys of the species name index: the first of `correct_guesses`'
   * lowercased, deaccented names, then the slug as it is. A species without
   * names contributes its slug only (its other key is `undefined`, which no
   * query can equal).
   */
  function GuessKeys(s: Species, deaccent: string -> string): (r: seq<string>)
    ensures |s.names| > 0 ==> r == [deaccent(ToLower(s.names[0].1)), s.slug]
    ensures |s.names| == 0 ==> r == [s.slug]
  {
    (if |s.names| > 0 then [deaccent(ToLower(s.names[0].1))] else []) + [s.slug]
  }

  /**
   * The constants tables the library reads: `TYPES` (indexed by type id),
   * `TYPE_EFFICACY` (a row of multipliers per attacking type id, indexed by
   * position in `TYPES`), `STAT_STAGE_MULTIPLIERS` (by stage), `MOVE_AILMENTS`
   * (by ailment id), `NATURES`, `NATURE_MULTIPLIERS` (in tenths, by nature
   * and stat name) and the replacement done with `DESCRIPTION_LINK_REGEX`.
   */
  datatype Tables = Tables(
    types: seq<string>,
    typeEfficacy: map<int, seq<real>>,
    stageMultipliers: map<int, real>,
    moveAilments: map<int, string>,
    natures: seq<string>,
    natureTenths: (string, string) -> int,
    descriptionLinks: string -> string)

  /** `TYPES[id]`; `None` is `undefined`. */
  function TypeName(t: Tables, id: int): (r: Option<string>)
    ensures r.Some? <==> 0 <= id < |t.types|
  {
    if 0 <= id < |t.types| then Some(t.types[id]) else None
  }

  /** `TYPES.indexOf(name)`: the first position holding `name`, or -1. */
  function TypeIndex(t: Tables, name: string): int {
    FirstPosition(t.types, name)
  }

  /** `xs.indexOf(x)`: the first position holding `x`, or -1. */
  function FirstPosition(xs: seq<string>, x: string): (r: int)
    ensures -1 <= r < |xs|
    ensures r >= 0 ==> xs[r] == x && forall j :: 0 <= j < r ==> xs[j] != x
    ensures r == -1 ==> x !in xs
  {
    if |xs| == 0 then -1
    else if xs[0] == x then 0
    else
      var r := FirstPosition(xs[1..], x);
      assert forall j :: 1 <= j < |xs| ==> xs[j] == xs[1..][j - 1];
      if r == -1 then -1 else r + 1
  }
}
