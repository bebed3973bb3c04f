/**
 * src/pokemonbase.ts: the stat formulas of a specimen and the `PokemonBase`
 * class, with its constructor defaults, its hit points and the choice of the
 * next evolution. The draws of `Math.random()` are inputs.
 */
module Specimens {
  import opened Nullable
  import opened Entities
  import opened Stages

  // ---------------------------------------------------------------------------
  // Stat formulas

  /** The growth term every stat formula shares: twice the base, plus the IV, plus five. */
  function Growth(base: int, iv: int): int {
    2 * base + iv + 5
  }

  /**
   * `calcStat`: the growth term times the level over a hundred, plus five,
   * times the nature multiplier (given in tenths), rounded down.
   */
  function CalcStat(base: int, iv: int, level: int, tenths: int): int {
    (((Growth(base, iv) * level) as real / 100.0 + 5.0) * tenths as real / 10.0).Floor
  }

  /** The same value with integer arithmetic only: one floor division by a thousand. */
  lemma CalcStatInteger(base: int, iv: int, level: int, tenths: int)
    ensures CalcStat(base, iv, level, tenths) == ((Growth(base, iv) * level + 500) * tenths) / 1000
  {
    var a := Growth(base, iv) * level;
    var x := ((a as real / 100.0 + 5.0) * tenths as real / 10.0);
    var p := (a + 500) * tenths;
    assert x == p as real / 1000.0 by {
      assert (a as real / 100.0 + 5.0) == (a + 500) as real / 100.0;
      assert (a + 500) as real * tenths as real == p as real;
    }
    var q := p / 1000;
    assert q * 1000 <= p < q * 1000 + 1000;
    assert q as real <= x < q as real + 1.0;
  }

  /** With the neutral multiplier the stat is the growth term times the level over a hundred, plus five. */
  lemma CalcStatNeutral(base: int, iv: int, level: int)
    ensures CalcStat(base, iv, level, 10) == (Growth(base, iv) * level) / 100 + 5
  {
    CalcStatInteger(base, iv, level, 10);
    var a := Growth(base, iv) * level;
    assert (a + 500) * 10 == (a / 100 + 5) * 1000 + (a % 100) * 10;
  }

  /** A higher nature multiplier never lowers a stat whose unscaled value is not negative. */
  lemma CalcStatMonotoneInNature(base: int, iv: int, level: int, t1: int, t2: int)
    requires t1 <= t2
    requires Growth(base, iv) * level + 500 >= 0
    ensures CalcStat(base, iv, level, t1) <= CalcStat(base, iv, level, t2)
  {
    CalcStatInteger(base, iv, level, t1);
    CalcStatInteger(base, iv, level, t2);
    var a := Growth(base, iv) * level + 500;
    ScaleMonotone(a, t1, t2);
    var p1, p2 := a * t1, a * t2;
    var q1, q2 := p1 / 1000, p2 / 1000;
    assert q1 * 1000 <= p1 <= p2 < q2 * 1000 + 1000;
  }

  /** A factor that is not negative keeps the order of the other factor. */
  lemma ScaleMonotone(a: int, t1: int, t2: int)
    requires a >= 0 && t1 <= t2
    ensures a * t1 <= a * t2
  {
    assert a * t2 - a * t1 == a * (t2 - t1);
  }

  /** The species whose maximum HP is always one. */
  const OneHpSpecies := 292

  /**
   * `max_hp`: one for species 292, otherwise the HP growth term times the
   * level over a hundred, rounded down, plus the level, plus ten (`/` here
   * is floor division, the divisor being positive).
   */
  function MaxHp(speciesId: int, baseHp: int, ivHp: int, level: int): int {
    if speciesId == OneHpSpecies then 1 else (Growth(baseHp, ivHp) * level) / 100 + level + 10
  }

  /**
   * Every species but 292 has at least `level + 10` HP when its growth term
   * and level are not negative, and gains HP with every level.
   */
  lemma MaxHpGrowth(speciesId: int, baseHp: int, ivHp: int, level: int)
    requires speciesId != OneHpSpecies
    requires Growth(baseHp, ivHp) >= 0 && level >= 0
    ensures MaxHp(speciesId, baseHp, ivHp, level) >= level + 10
    ensures MaxHp(speciesId, baseHp, ivHp, level) < MaxHp(speciesId, baseHp, ivHp, level + 1)
  {
    var g := Growth(baseHp, ivHp);
    assert g * level >= 0;
    assert g * (level + 1) == g * level + g;
  }

  /** `max_xp`: five hundred plus thirty per level. */
  function MaxXp(level: int): int {
    500 + 30 * level
  }

  /** Every level needs thirty more experience than the one before. */
  lemma MaxXpStep(level: int)
    ensures MaxXp(level + 1) == MaxXp(level) + 30
    ensures level >= 0 ==> MaxXp(level) >= 500
  {
  }

  /** A draw in [0, 1) spread over `n` lies in [0, n). */
  lemma DrawBelow(draw: real, n: int)
    requires 0.0 <= draw < 1.0 && n > 0
    ensures 0.0 <= draw * n as real < n as real
  {
    var m := n as real;
    assert m - draw * m == (1.0 - draw) * m;
    assert (1.0 - draw) * m > 0.0;
    assert draw * m >= 0.0;
  }

  /** A random IV: a draw spread over 0 to 31. */
  function RollIv(draw: real): int {
    (draw * 32.0).Floor
  }

  /** A draw in [0, 1) gives an IV in [0, 31]. */
  lemma RollIvRange(draw: real)
    requires 0.0 <= draw < 1.0
    ensures 0 <= RollIv(draw) <= 31
  {
    DrawBelow(draw, 32);
  }

  /** The position a draw in [0, 1) picks among `n` entries. */
  function PickIndex(n: nat, draw: real): (k: nat)
    requires n > 0 && 0.0 <= draw < 1.0
    ensures k < n
  {
    DrawBelow(draw, n);
    (draw * n as real).Floor
  }

  /** A random nature: a draw spread over the positions of the natures table. */
  function RollNature(natures: seq<string>, draw: real): (r: string)
    requires |natures| > 0 && 0.0 <= draw < 1.0
    ensures r in natures
  {
    natures[PickIndex(|natures|, draw)]
  }

  /** The shiny roll: one draw spread over 4096 values, of which only 1 is shiny. */
  predicate RollShiny(draw: real) {
    (draw * 4096.0).Floor == 1
  }

  /** Shininess is a window of width 1/4096 in the draw. */
  lemma RollShinyWindow(draw: real)
    ensures RollShiny(draw) <==> 1.0 / 4096.0 <= draw < 2.0 / 4096.0
  {
  }

  // ---------------------------------------------------------------------------
  // Known moves and evolution eligibility

  /**
   * An entry of a specimen's move list: a species move record, as the
   * constructor copies them, or a bare move id.
   */
  datatype KnownMove = Learned(record: PokemonMove) | MoveNumber(moveId: int)

  /** `moves.includes(id)`: strict equality, which a record never has with a number. */
  predicate Knows(moves: seq<KnownMove>, moveId: int) {
    MoveNumber(moveId) in moves
  }

  /** The move list the constructor copies from the species. */
  function LearnedMoves(records: seq<PokemonMove>): (r: seq<KnownMove>)
    ensures |r| == |records|
    ensures forall i :: 0 <= i < |r| ==> r[i] == Learned(records[i])
    ensures forall moveId :: !Knows(r, moveId)
  {
    if |records| == 0 then [] else [Learned(records[0])] + LearnedMoves(records[1..])
  }

  /** `x` is a truthy number: present and not zero. */
  predicate Truthy(x: Option<int>) {
    x.Some? && x.value != 0
  }

  /**
   * The checks of `getNextEvolution` for a level trigger: the level
   * threshold when it is truthy, the held item when the trigger's item
   * resolves to a loaded item, the move when its id is truthy, and the
   * attack/defence comparison for relative stats 1, -1 and 0. Time and move
   * type are not checked.
   */
  predicate LevelEligible(t: Trigger, level: int, heldItem: Option<int>, moves: seq<KnownMove>,
                          atk: int, defn: int, items: map<int, Item>)
    requires t.LevelTrigger?
  {
    && !(Truthy(t.level) && level < t.level.value)
    && !(t.itemId.Some? && t.itemId.value in items && heldItem != t.itemId)
    && !(Truthy(t.moveId) && !Knows(moves, t.moveId.value))
    && !(t.relativeStats == Some(1) && atk <= defn)
    && !(t.relativeStats == Some(-1) && defn <= atk)
    && !(t.relativeStats == Some(0) && atk != defn)
  }

  /** Time of day and move type never affect eligibility. */
  lemma EligibleIgnoresTime(t: Trigger, time: Option<string>, moveTypeId: Option<int>, level: int, heldItem: Option<int>,
                            moves: seq<KnownMove>, atk: int, defn: int, items: map<int, Item>)
    requires t.LevelTrigger?
    ensures LevelEligible(t, level, heldItem, moves, atk, defn, items)
        == LevelEligible(t.(time := time, moveTypeId := moveTypeId), level, heldItem, moves, atk, defn, items)
  {
  }

  /** A trigger that needs a move is only met by a move list that holds the move's id. */
  lemma MoveGatedNeedsId(t: Trigger, level: int, heldItem: Option<int>, records: seq<PokemonMove>,
                         atk: int, defn: int, items: map<int, Item>)
    requires t.LevelTrigger? && Truthy(t.moveId)
    ensures !LevelEligible(t, level, heldItem, LearnedMoves(records), atk, defn, items)
  {
  }

  /** The evolution edges a specimen may take, in order: level triggers whose checks all pass. */
  function EligibleTargets(edges: seq<Evolution>, level: int, heldItem: Option<int>, moves: seq<KnownMove>,
                           atk: int, defn: int, items: map<int, Item>): seq<int>
  {
    if |edges| == 0 then []
    else
      var n := |edges| - 1;
      var e := edges[n];
      EligibleTargets(edges[..n], level, heldItem, moves, atk, defn, items)
        + (if e.trigger.Some? && e.trigger.value.LevelTrigger?
              && LevelEligible(e.trigger.value, level, heldItem, moves, atk, defn, items)
           then [e.targetId] else [])
  }

  /** An eligible target is the target of some level-triggered edge that passes its checks, and every such edge contributes. */
  lemma {:induction false} EligibleTargetsSpec(edges: seq<Evolution>, level: int, heldItem: Option<int>, moves: seq<KnownMove>,
                                               atk: int, defn: int, items: map<int, Item>, target: int)
    ensures target in EligibleTargets(edges, level, heldItem, moves, atk, defn, items)
        <==> exists i :: 0 <= i < |edges| && edges[i].targetId == target && edges[i].trigger.Some? && edges[i].trigger.value.LevelTrigger? && LevelEligible(edges[i].trigger.value, level, heldItem, moves, atk, defn, items)
  {
    if |edges| > 0 {
      var n := |edges| - 1;
      EligibleTargetsSpec(edges[..n], level, heldItem, moves, atk, defn, items, target);
      assert forall i :: 0 <= i < n ==> edges[..n][i] == edges[i];
    }
  }

  /** The loop of `getNextEvolution`: each level-triggered edge whose checks pass adds its target. */
  method CollectEligible(edges: seq<Evolution>, level: int, heldItem: Option<int>, moves: seq<KnownMove>,
                         atk: int, defn: int, items: map<int, Item>) returns (possible: seq<int>)
    ensures possible == EligibleTargets(edges, level, heldItem, moves, atk, defn, items)
  {
    possible := [];
    var i := 0;
    while i < |edges|
      invariant 0 <= i <= |edges|
      invariant possible == EligibleTargets(edges[..i], level, heldItem, moves, atk, defn, items)
    {
      assert edges[..i + 1][..i] == edges[..i];
      var e := edges[i];
      if e.trigger.Some? && e.trigger.value.LevelTrigger? {
        var t := e.trigger.value;
        var can := true;
        if Truthy(t.level) && level < t.level.value {
          can := false;
        }
        if t.itemId.Some? && t.itemId.value in items && heldItem != t.itemId {
          can := false;
        }
        if Truthy(t.moveId) && !Knows(moves, t.moveId.value) {
          can := false;
        }
        if t.relativeStats == Some(1) && atk <= defn {
          can := false;
        }
        if t.relativeStats == Some(-1) && defn <= atk {
          can := false;
        }
        if t.relativeStats == Some(0) && atk != defn {
          can := false;
        }
        if can {
          possible := possible + [e.targetId];
        }
      }
      i := i + 1;
    }
    assert edges[..i] == edges;
  }

  /** The everstone: holding item 13001 stops every evolution. */
  const Everstone := 13001

  /** The draws a new specimen takes: nature, shininess and the six IVs in the order hp, atk, defn, satk, sdef, spd. */
  datatype SpecimenDraws = SpecimenDraws(nature: real, shiny: real, hp: real, atk: real, defn: real, satk: real, sdef: real, spd: real)

  /** Every draw lies in [0, 1), as `Math.random()` promises. */
  predicate DrawsInRange(d: SpecimenDraws) {
    && 0.0 <= d.nature < 1.0 && 0.0 <= d.shiny < 1.0
    && 0.0 <= d.hp < 1.0 && 0.0 <= d.atk < 1.0 && 0.0 <= d.defn < 1.0
    && 0.0 <= d.satk < 1.0 && 0.0 <= d.sdef < 1.0 && 0.0 <= d.spd < 1.0
  }

  /** The six IVs. */
  datatype Ivs = Ivs(hp: int, atk: int, defn: int, satk: int, sdef: int, spd: int)

  /** The sum of the six IVs. */
  function IvTotal(v: Ivs): int {
    v.hp + v.defn + v.satk + v.atk + v.sdef + v.spd
  }

  /** Every IV lies in [0, 31]. */
  predicate IvsInRange(v: Ivs) {
    0 <= v.hp <= 31 && 0 <= v.atk <= 31 && 0 <= v.defn <= 31 && 0 <= v.satk <= 31 && 0 <= v.sdef <= 31 && 0 <= v.spd <= 31
  }

  /** IVs in range add up to at most 186. */
  lemma IvTotalRange(v: Ivs)
    requires IvsInRange(v)
    ensures 0 <= IvTotal(v) <= 186
  {
  }

  /**
   * A specimen. `species` is the species its id finds in the registry it was
   * created from; `tables` supplies the nature multipliers.
   */
  class Specimen {
    const species: Species
    const tables: Tables
    var id: int
    var idx: int
    var speciesId: int
    var level: int
    var xp: int
    var nature: string
    var shiny: bool
    var ivs: Ivs
    var ivTotal: int
    var nickname: Option<string>
    /** `string | false`; `None` stands for `false`. */
    var favorite: Option<string>
    var heldItem: Option<int>
    var moves: seq<KnownMove>
    var hasColor: bool
    var color: Option<int>
    var storedHp: Option<int>
    var ailments: seq<string>
    var stages: StatStages

    /**
     * `new PokemonBase(data, instance)`: level 0, no experience, a random
     * nature and shininess, six random IVs and their total, no nickname,
     * favourite, held item or colour, the species' moves, no stored HP, no
     * ailments and all-zero stages.
     */
    constructor (data: Species, tables: Tables, draws: SpecimenDraws)
      requires DrawsInRange(draws) && |tables.natures| > 0
      ensures species == data && this.tables == tables
      ensures id == data.id && speciesId == data.id && idx == 1
      ensures level == 0 && xp == 0
      ensures nature == RollNature(tables.natures, draws.nature) && nature in tables.natures
      ensures shiny == RollShiny(draws.shiny)
      ensures ivs == Ivs(RollIv(draws.hp), RollIv(draws.atk), RollIv(draws.defn), RollIv(draws.satk), RollIv(draws.sdef), RollIv(draws.spd))
      ensures IvsInRange(ivs) && ivTotal == IvTotal(ivs)
      ensures nickname.None? && favorite.None? && heldItem.None? && !hasColor && color.None?
      ensures moves == LearnedMoves(data.moves)
      ensures storedHp.None? && ailments == []
      ensures fresh(stages) && stages.Values() == Zero
    {
      species := data;
      this.tables := tables;
      id := data.id;
      idx := 1;
      speciesId := data.id;
      level := 0;
      xp := 0;
      nature := RollNature(tables.natures, draws.nature);
      shiny := RollShiny(draws.shiny);
      RollIvRange(draws.hp);
      RollIvRange(draws.atk);
      RollIvRange(draws.defn);
      RollIvRange(draws.satk);
      RollIvRange(draws.sdef);
      RollIvRange(draws.spd);
      var v := Ivs(RollIv(draws.hp), RollIv(draws.atk), RollIv(draws.defn), RollIv(draws.satk), RollIv(draws.sdef), RollIv(draws.spd));
      ivs := v;
      ivTotal := IvTotal(v);
      nickname := None;
      favorite := None;
      heldItem := None;
      moves := LearnedMoves(data.moves);
      hasColor := false;
      color := None;
      storedHp := None;
      ailments := [];
      stages := new StatStages();
    }

    /** `max_xp`. */
    function MaxXpNow(): int
      reads this
    {
      MaxXp(level)
    }

    /** `max_hp`. */
    function MaxHpNow(): int
      reads this
    {
      MaxHp(speciesId, species.baseStats.hp, ivs.hp, level)
    }

    /** The `hp` getter: the stored value, or the maximum while none is stored. */
    function Hp(): (r: int)
      reads this
      ensures storedHp.None? ==> r == MaxHpNow()
      ensures storedHp.Some? ==> r == storedHp.value
    {
      if storedHp.None? then MaxHpNow() else storedHp.value
    }

    /** The `hp` setter: the value is stored and read back, and nothing else changes. */
    method SetHp(value: int)
      modifies this
      ensures storedHp == Some(value) && Hp() == value
      ensures level == old(level) && speciesId == old(speciesId) && ivs == old(ivs) && xp == old(xp)
      ensures heldItem == old(heldItem) && moves == old(moves) && ailments == old(ailments) && stages == old(stages)
      ensures id == old(id) && idx == old(idx) && nature == old(nature) && shiny == old(shiny) && ivTotal == old(ivTotal)
      ensures nickname == old(nickname) && favorite == old(favorite) && hasColor == old(hasColor) && color == old(color)
    {
      storedHp := Some(value);
    }

    /** The `atk` getter. */
    function Atk(): int
      reads this
    {
      CalcStat(species.baseStats.atk, ivs.atk, level, tables.natureTenths(nature, "atk"))
    }

    /** The `defn` getter. */
    function Defn(): int
      reads this
    {
      CalcStat(species.baseStats.defn, ivs.defn, level, tables.natureTenths(nature, "defn"))
    }

    /** The edges `getNextEvolution` may pick from. */
    function Eligible(items: map<int, Item>): seq<int>
      reads this
    {
      if species.evolutionTo.None? || heldItem == Some(Everstone) then []
      else EligibleTargets(species.evolutionTo.value, level, heldItem, moves, Atk(), Defn(), items)
    }

    /**
     * `getNextEvolution` with the final draw as `draw`: no evolution without
     * onward evolutions or while holding the everstone; otherwise the
     * eligible targets are collected in order and one is drawn. The result is
     * the chosen target's species id; `items` are the loaded items the
     * triggers' `item` resolves against.
     */
    method GetNextEvolution(items: map<int, Item>, draw: real) returns (r: Option<int>)
      requires 0.0 <= draw < 1.0
      ensures r.None? <==> Eligible(items) == []
      ensures r.Some? ==> r.value in Eligible(items)
      ensures r.Some? ==> r.value == Eligible(items)[PickIndex(|Eligible(items)|, draw)]
    {
      if species.evolutionTo.None? || heldItem == Some(Everstone) {
        return None;
      }
      var possible := CollectEligible(species.evolutionTo.value, level, heldItem, moves, Atk(), Defn(), items);
      if |possible| == 0 {
        return None;
      }
      r := Some(possible[PickIndex(|possible|, draw)]);
    }

    /** `canEvolve`: some edge is eligible, whatever the draw. */
    method CanEvolve(items: map<int, Item>, draw: real) returns (b: bool)
      requires 0.0 <= draw < 1.0
      ensures b <==> Eligible(items) != []
    {
      var next := GetNextEvolution(items, draw);
      b := next.Some?;
    }
  }

  /**
   * A specimen fresh from the constructor never qualifies for an edge that
   * needs a move: its move list holds species move records, never move ids.
   */
  lemma FreshNeverMoveGated(s: Specimen, t: Trigger, items: map<int, Item>)
    requires s.moves == LearnedMoves(s.species.moves)
    requires t.LevelTrigger? && Truthy(t.moveId)
    ensures !LevelEligible(t, s.level, s.heldItem, s.moves, s.Atk(), s.Defn(), items)
  {
    MoveGatedNeedsId(t, s.level, s.heldItem, s.species.moves, s.Atk(), s.Defn(), items);
  }

  /** Holding the everstone, a specimen has nothing to evolve into. */
  lemma EverstoneBlocks(s: Specimen, items: map<int, Item>)
    requires s.heldItem == Some(Everstone)
    ensures s.Eligible(items) == []
  {
  }
}
