/**
 * The loading of the registry from its tables (src/init.ts): the evolution
 * triggers, the species with their evolutions and level-up moves, the items,
 * the move effects and the moves, and `init`, which stores them in that
 * order. Reading the CSV files is not modelled: each table arrives as a
 * sequence of rows whose numeric columns are `Option<int>`, `None` standing
 * for an empty cell, and whose free-form columns are cleaned `Cell`s.
 */
module Loader {
  import opened Nullable
  import opened Text
  import opened Assoc
  import opened Utils
  import opened Entities
  import opened LevelSort
  import opened Registry

  // ---------------------------------------------------------------------------
  // JavaScript `x || null`

  /** A numeric column is truthy when it holds a number other than 0. */
  predicate Present(x: Option<int>) {
    x.Some? && x.value != 0
  }

  /** `x || null` on a numeric column: 0 and the empty cell both become `null`. */
  function OrNull(x: Option<int>): (r: Option<int>)
    ensures r.None? <==> !Present(x)
    ensures r.Some? ==> r == x && r.value != 0
  {
    if Present(x) then x else None
  }

  /** The text of a cell, as `String(cell)` gives it. */
  function CellText(c: Cell): string {
    match c
    case Num(n) => IntToString(n)
    case Str(s) => s
  }

  /** `cell || null` on a text column. */
  function CellOrNull(c: Cell): (r: Option<string>)
    ensures r.None? <==> !Truthy(c)
    ensures r.Some? ==> r.value == CellText(c) && r.value != ""
  {
    if Truthy(c) then Some(CellText(c)) else None
  }

  // ---------------------------------------------------------------------------
  // Evolution triggers (`get_evolution_trigger`)

  /** A row of the evolution table. */
  datatype EvolutionRow = EvolutionRow(
    evolvedSpeciesId: int,
    triggerId: int,
    minimumLevel: Option<int>,
    heldItemId: Option<int>,
    knownMoveId: Option<int>,
    knownMoveTypeId: Option<int>,
    timeOfDay: Cell,
    relativePhysicalStats: Option<int>,
    locationId: Option<int>,
    minimumHappiness: Option<int>,
    triggerItemId: Option<int>)

  /** The item a level-up evolution by friendship is given instead of its held item. */
  const FriendshipItem: int := 14001

  /**
   * The trigger of the evolution row of a species, `None` when there is no
   * row. Trigger 1 is a level-up (or, at a location, another kind), 2 a
   * trade, 3 the use of an item (or another kind without an item); any other
   * trigger is another kind.
   */
  function EvolutionTrigger(evo: Option<EvolutionRow>): (r: Option<Trigger>)
    ensures r.None? <==> evo.None?
    ensures evo.Some? ==>
      var e, t := evo.value, r.value;
      && (t.LevelTrigger? <==> e.triggerId == 1 && !Present(e.locationId))
      && (t.TradeTrigger? <==> e.triggerId == 2)
      && (t.ItemTrigger? <==> e.triggerId == 3 && Present(e.triggerItemId))
      && (t.OtherTrigger? <==>
            (e.triggerId == 1 && Present(e.locationId))
            || (e.triggerId == 3 && !Present(e.triggerItemId))
            || (e.triggerId != 1 && e.triggerId != 2 && e.triggerId != 3))
    ensures r.Some? && r.value.LevelTrigger? ==>
      var t := r.value;
      && t.level != Some(0) && t.moveId != Some(0) && t.moveTypeId != Some(0)
      && t.relativeStats != Some(0) && t.time != Some("")
      && (Present(evo.value.minimumHappiness) ==> t.itemId == Some(FriendshipItem))
      && (!Present(evo.value.minimumHappiness) ==> t.itemId == OrNull(evo.value.heldItemId))
    ensures r.Some? && r.value.TradeTrigger? ==> r.value.tradeItemId == OrNull(evo.value.heldItemId)
    ensures r.Some? && r.value.ItemTrigger? ==> Some(r.value.usedItemId) == evo.value.triggerItemId
  {
    match evo
    case None => None
    case Some(e) =>
      if e.triggerId == 1 then
        if Present(e.locationId) then Some(OtherTrigger)
        else
          var item := if Present(e.minimumHappiness) then Some(FriendshipItem) else OrNull(e.heldItemId);
          Some(LevelTrigger(OrNull(e.minimumLevel), item, OrNull(e.knownMoveId), OrNull(e.knownMoveTypeId),
                            CellOrNull(e.timeOfDay), OrNull(e.relativePhysicalStats)))
      else if e.triggerId == 2 then Some(TradeTrigger(OrNull(e.heldItemId)))
      else if e.triggerId == 3 then
        if Present(e.triggerItemId) then Some(ItemTrigger(e.triggerItemId.value)) else Some(OtherTrigger)
      else Some(OtherTrigger)
  }

  function EvolutionPairs(rows: seq<EvolutionRow>): (r: seq<(int, EvolutionRow)>)
    ensures |r| == |rows|
    ensures forall i :: 0 <= i < |rows| ==> r[i] == (rows[i].evolvedSpeciesId, rows[i])
  {
    seq(|rows|, i requires 0 <= i < |rows| => (rows[i].evolvedSpeciesId, rows[i]))
  }

  /** The evolution rows keyed by evolved species, built over the REVERSED rows. */
  function EvolutionIndex(rows: seq<EvolutionRow>): map<int, EvolutionRow> {
    Overwrite(Reverse(EvolutionPairs(rows)))
  }

  /**
   * Because the rows are reversed before the last-wins reduction, a species
   * keeps its FIRST evolution row, and has an entry exactly when it has a row.
   */
  lemma EvolutionIndexFirstRow(rows: seq<EvolutionRow>, i: int)
    requires 0 <= i < |rows|
    requires forall j :: 0 <= j < i ==> rows[j].evolvedSpeciesId != rows[i].evolvedSpeciesId
    ensures rows[i].evolvedSpeciesId in EvolutionIndex(rows)
    ensures EvolutionIndex(rows)[rows[i].evolvedSpeciesId] == rows[i]
  {
    var pairs := EvolutionPairs(rows);
    assert IsFirst(pairs, i);
    FirstWins(pairs, i);
  }

  lemma EvolutionIndexKeys(rows: seq<EvolutionRow>, k: int)
    ensures k in EvolutionIndex(rows) <==> exists i :: 0 <= i < |rows| && rows[i].evolvedSpeciesId == k
  {
    var pairs := EvolutionPairs(rows);
    ReverseKeys(pairs, k);
    if HasKey(pairs, k) {
      var i :| 0 <= i < |pairs| && pairs[i].0 == k;
      assert rows[i].evolvedSpeciesId == k;
    }
    if exists i :: 0 <= i < |rows| && rows[i].evolvedSpeciesId == k {
      var i :| 0 <= i < |rows| && rows[i].evolvedSpeciesId == k;
      assert pairs[i].0 == k;
    }
  }

  /** `evolution[String(pid)]`, `None` for `undefined`. */
  function Find(index: map<int, EvolutionRow>, id: int): Option<EvolutionRow> {
    if id in index then Some(index[id]) else None
  }

  // ---------------------------------------------------------------------------
  // Species rows and their evolutions

  /**
   * A row of the species table: `enabled` is whether the row has that column,
   * `evoFrom` the species it evolves from, `evoTo` the space-separated ids it
   * evolves to, and `record` the other columns, already converted.
   */
  datatype SpeciesRow = SpeciesRow(id: int, enabled: bool, evoFrom: Option<int>, evoTo: Cell, record: Species)

  function SpeciesPairs(rows: seq<SpeciesRow>): (r: seq<(int, SpeciesRow)>)
    ensures |r| == |rows|
    ensures forall i :: 0 <= i < |rows| ==> r[i] == (rows[i].id, rows[i])
  {
    seq(|rows|, i requires 0 <= i < |rows| => (rows[i].id, rows[i]))
  }

  /** The species rows keyed by id; a later row with the same id replaces an earlier one. */
  function SpeciesIndex(rows: seq<SpeciesRow>): map<int, SpeciesRow> {
    Overwrite(SpeciesPairs(rows))
  }

  /** Every row of the species index is filed under its own id. */
  lemma SpeciesIndexIds(rows: seq<SpeciesRow>)
    ensures forall k :: k in SpeciesIndex(rows) ==> SpeciesIndex(rows)[k].id == k
  {
    forall k | k in SpeciesIndex(rows) ensures SpeciesIndex(rows)[k].id == k {
      OverwriteFrom(SpeciesPairs(rows), k);
    }
  }

  /** The non-empty pieces, in order. */
  function NonEmpty(xs: seq<string>): seq<string> {
    if |xs| == 0 then []
    else
      var n := |xs| - 1;
      NonEmpty(xs[..n]) + (if xs[n] == "" then [] else [xs[n]])
  }

  /** `NonEmpty` keeps exactly the non-empty pieces, and all of them when none is empty. */
  lemma {:induction false} NonEmptySpec(xs: seq<string>)
    ensures forall x :: x in NonEmpty(xs) <==> x in xs && x != ""
    ensures (forall i :: 0 <= i < |xs| ==> xs[i] != "") ==> NonEmpty(xs) == xs
  {
    if |xs| > 0 {
      var n := |xs| - 1;
      NonEmptySpec(xs[..n]);
      assert xs == xs[..n] + [xs[n]];
    }
  }

  lemma NonEmptySnoc(xs: seq<string>, x: string)
    ensures NonEmpty(xs + [x]) == NonEmpty(xs) + (if x == "" then [] else [x])
  {
    assert (xs + [x])[..|xs|] == xs;
  }

  lemma {:induction false} NonEmptyConcat(a: seq<string>, b: seq<string>)
    ensures NonEmpty(a + b) == NonEmpty(a) + NonEmpty(b)
    decreases |b|
  {
    if |b| > 0 {
      var n := |b| - 1;
      var tail := if b[n] == "" then [] else [b[n]];
      NonEmptyConcat(a, b[..n]);
      var ab := a + b;
      assert ab[..|ab| - 1] == a + b[..n];
      assert ab[|ab| - 1] == b[n];
      calc {
        NonEmpty(ab);
        NonEmpty(a + b[..n]) + tail;
        (NonEmpty(a) + NonEmpty(b[..n])) + tail;
        NonEmpty(a) + (NonEmpty(b[..n]) + tail);
        NonEmpty(a) + NonEmpty(b);
      }
    } else {
      assert a + b == a;
    }
  }

  /** The ids of an `evo.to` cell: the non-empty pieces of its text split at spaces. */
  function Tokens(text: string): (r: seq<string>)
    ensures forall t :: t in r ==> t != "" && ' ' !in t
  {
    NonEmptySpec(Split(text, ' '));
    NonEmpty(Split(text, ' '))
  }

  /** Writing ids separated by single spaces and reading them back gives the ids. */
  lemma TokensJoin(ts: seq<string>)
    requires |ts| >= 1
    requires forall i :: 0 <= i < |ts| ==> ts[i] != "" && ' ' !in ts[i]
    ensures Tokens(Join(ts, " ")) == ts
  {
    SplitJoin(ts, ' ');
    NonEmptySpec(ts);
  }

  /** `ParseInt(t)` names a species of the index. */
  predicate KnownTarget(t: string, species: map<int, SpeciesRow>) {
    ParseInt(t).Some? && ParseInt(t).value in species
  }

  /**
   * The forward evolution to the species `t` names, with the trigger of that
   * species' own evolution row: no trigger exactly when the target has no
   * row, and otherwise the trigger that row describes.
   */
  function Onward(t: string, species: map<int, SpeciesRow>, index: map<int, EvolutionRow>): (r: Evolution)
    requires KnownTarget(t, species)
    ensures r.forward && r.targetId == ParseInt(t).value
    ensures var key := species[ParseInt(t).value].id;
      && (r.trigger.None? <==> key !in index)
      && (key in index ==> r.trigger == EvolutionTrigger(Some(index[key])))
  {
    var id := ParseInt(t).value;
    Evolution(id, EvolutionTrigger(Find(index, species[id].id)), true)
  }

  /**
   * The forward evolutions of the ids `ts`. An id that does not parse, or
   * parses to a species not in the index, makes `species[id].id` throw a
   * `TypeError`.
   */
  function Targets(ts: seq<string>, species: map<int, SpeciesRow>, index: map<int, EvolutionRow>): Result<seq<Evolution>> {
    if AllKnown(ts, species) then Ok(Onwards(ts, species, index)) else Err("TypeError")
  }

  /** Every id names a species of the index. */
  predicate AllKnown(ts: seq<string>, species: map<int, SpeciesRow>) {
    forall i :: 0 <= i < |ts| ==> KnownTarget(ts[i], species)
  }

  /** The forward evolution of each id, in order. */
  function Onwards(ts: seq<string>, species: map<int, SpeciesRow>, index: map<int, EvolutionRow>): (r: seq<Evolution>)
    requires AllKnown(ts, species)
  {
    seq(|ts|, i requires 0 <= i < |ts| && KnownTarget(ts[i], species) => Onward(ts[i], species, index))
  }

  /** The ids with one more are all known exactly when the ids are and the new one is. */
  lemma AllKnownSnoc(ts: seq<string>, t: string, species: map<int, SpeciesRow>)
    ensures AllKnown(ts + [t], species) <==> AllKnown(ts, species) && KnownTarget(t, species)
  {
    var u := ts + [t];
    assert u[|ts|] == t;
    if AllKnown(ts, species) && KnownTarget(t, species) {
      forall i | 0 <= i < |u| ensures KnownTarget(u[i], species) {
        if i < |ts| {
          assert u[i] == ts[i];
        }
      }
    }
    if AllKnown(u, species) {
      forall i | 0 <= i < |ts| ensures KnownTarget(ts[i], species) {
        assert u[i] == ts[i];
      }
    }
  }

  /** One more known id adds its forward evolution at the end. */
  lemma OnwardsSnoc(ts: seq<string>, t: string, species: map<int, SpeciesRow>, index: map<int, EvolutionRow>)
    requires AllKnown(ts, species) && KnownTarget(t, species)
    ensures AllKnown(ts + [t], species)
    ensures Onwards(ts + [t], species, index) == Onwards(ts, species, index) + [Onward(t, species, index)]
  {
    AllKnownSnoc(ts, t, species);
    var u := ts + [t];
    var a := Onwards(u, species, index);
    var b := Onwards(ts, species, index) + [Onward(t, species, index)];
    forall k | 0 <= k < |a| ensures a[k] == b[k] {
      assert u[k] == if k < |ts| then ts[k] else t;
    }
  }

  /** One more id: the evolutions grow by one, or the first unknown id fails them. */
  lemma TargetsSnoc(ts: seq<string>, t: string, species: map<int, SpeciesRow>, index: map<int, EvolutionRow>)
    requires Targets(ts, species, index).Ok?
    ensures !KnownTarget(t, species) ==> Targets(ts + [t], species, index).Err?
    ensures KnownTarget(t, species) ==>
      Targets(ts + [t], species, index) == Ok(Targets(ts, species, index).value + [Onward(t, species, index)])
  {
    AllKnownSnoc(ts, t, species);
    if KnownTarget(t, species) {
      OnwardsSnoc(ts, t, species, index);
    }
  }

  /** An id that fails stays failing whatever follows it. */
  lemma TargetsErrExtends(a: seq<string>, b: seq<string>, species: map<int, SpeciesRow>, index: map<int, EvolutionRow>)
    requires Targets(a, species, index).Err?
    ensures Targets(a + b, species, index).Err?
  {
    var i :| 0 <= i < |a| && !KnownTarget(a[i], species);
    assert (a + b)[i] == a[i];
  }

  /**
   * The `evo.to` cell read as forward evolutions: `None` for an empty cell or
   * one without ids, an error when an id is not a species.
   */
  function EvolutionsOnward(cell: Cell, species: map<int, SpeciesRow>, index: map<int, EvolutionRow>): Result<Option<seq<Evolution>>> {
    if !Truthy(cell) then Ok(None)
    else
      match Targets(Tokens(CellText(cell)), species, index)
      case Err(m) => Err(m)
      case Ok(es) => Ok(if |es| == 0 then None else Some(es))
  }

  /**
   * The forward evolutions fail exactly when the cell holds an id that is not
   * a species; otherwise there is one per id, in order, and none at all for
   * an empty cell.
   */
  lemma EvolutionsOnwardSpec(cell: Cell, species: map<int, SpeciesRow>, index: map<int, EvolutionRow>)
    ensures var ts := Tokens(CellText(cell));
      var r := EvolutionsOnward(cell, species, index);
      && (r.Err? <==> Truthy(cell) && exists i :: 0 <= i < |ts| && !KnownTarget(ts[i], species))
      && (r == Ok(None) <==> !Truthy(cell) || ts == [])
      && (r.Ok? && r.value.Some? ==>
            && |r.value.value| == |ts| > 0
            && forall i :: 0 <= i < |ts| ==> r.value.value[i] == Onward(ts[i], species, index))
  {
  }

  /** A word without spaces is read as the one id it is. */
  lemma TokensOfWord(s: string)
    requires s != "" && ' ' !in s
    ensures Tokens(s) == [s]
  {
    SplitNoSeparator(s, ' ');
    NonEmptySpec([s]);
  }

  /** A printed integer is a word without spaces. */
  lemma IntToStringWord(n: int)
    ensures IntToString(n) != "" && ' ' !in IntToString(n)
  {
    var digits := NatToString(if n < 0 then -n else n);
    assert forall i :: 0 <= i < |digits| ==> IsDigit(digits[i]);
  }

  /** A cell whose text is one known id evolves to that species alone. */
  lemma OneToken(cell: Cell, t: string, species: map<int, SpeciesRow>, index: map<int, EvolutionRow>)
    requires Truthy(cell) && Tokens(CellText(cell)) == [t] && KnownTarget(t, species)
    ensures EvolutionsOnward(cell, species, index) == Ok(Some([Onward(t, species, index)]))
  {
    var none: seq<string> := [];
    assert Targets(none, species, index).value == [];
    TargetsSnoc(none, t, species, index);
    assert none + [t] == [t];
    assert Targets(none, species, index).value + [Onward(t, species, index)] == [Onward(t, species, index)];
    assert Targets(Tokens(CellText(cell)), species, index) == Ok([Onward(t, species, index)]);
  }

  /** A cell holding one species id evolves to that species alone. */
  lemma SingleTarget(n: int, species: map<int, SpeciesRow>, index: map<int, EvolutionRow>)
    requires n != 0 && n in species
    ensures EvolutionsOnward(Num(n), species, index)
         == Ok(Some([Evolution(n, EvolutionTrigger(Find(index, species[n].id)), true)]))
  {
    var s := IntToString(n);
    ParseIntOfIntToString(n);
    IntToStringWord(n);
    TokensOfWord(s);
    OneToken(Num(n), s, species, index);
  }

  /** Once the ids read so far fail, the whole cell fails. */
  lemma TargetsFailLater(pieces: seq<string>, i: int, species: map<int, SpeciesRow>, index: map<int, EvolutionRow>)
    requires 0 <= i <= |pieces|
    requires Targets(NonEmpty(pieces[..i]), species, index).Err?
    ensures Targets(NonEmpty(pieces), species, index).Err?
  {
    assert pieces == pieces[..i] + pieces[i..];
    NonEmptyConcat(pieces[..i], pieces[i..]);
    TargetsErrExtends(NonEmpty(pieces[..i]), NonEmpty(pieces[i..]), species, index);
  }

  /** The non-empty pieces of one more piece of `pieces`. */
  lemma NonEmptyPrefix(pieces: seq<string>, i: int)
    requires 0 <= i < |pieces|
    ensures pieces[i] == "" ==> NonEmpty(pieces[..i + 1]) == NonEmpty(pieces[..i])
    ensures pieces[i] != "" ==> NonEmpty(pieces[..i + 1]) == NonEmpty(pieces[..i]) + [pieces[i]]
  {
    assert pieces[..i + 1][..i] == pieces[..i];
  }

  /** One piece more: an empty piece changes nothing, a known id adds its evolution, an unknown one fails the cell. */
  lemma TargetsStep(pieces: seq<string>, i: int, evos: seq<Evolution>, species: map<int, SpeciesRow>, index: map<int, EvolutionRow>)
    requires 0 <= i < |pieces| && Targets(NonEmpty(pieces[..i]), species, index) == Ok(evos)
    ensures pieces[i] == "" ==> Targets(NonEmpty(pieces[..i + 1]), species, index) == Ok(evos)
    ensures pieces[i] != "" && KnownTarget(pieces[i], species) ==>
      Targets(NonEmpty(pieces[..i + 1]), species, index) == Ok(evos + [Onward(pieces[i], species, index)])
    ensures pieces[i] != "" && !KnownTarget(pieces[i], species) ==> Targets(NonEmpty(pieces), species, index).Err?
  {
    var s := pieces[i];
    var before := NonEmpty(pieces[..i]);
    NonEmptyPrefix(pieces, i);
    if s == "" {
      assert NonEmpty(pieces[..i + 1]) == before;
    } else {
      assert NonEmpty(pieces[..i + 1]) == before + [s];
      TargetsSnoc(before, s, species, index);
      if !KnownTarget(s, species) {
        TargetsFailLater(pieces, i + 1, species, index);
      }
    }
  }

  /** The `evo.to` loop of `get_pokemon`, with its early exit on a `TypeError`. */
  method EvolutionsTo(cell: Cell, species: map<int, SpeciesRow>, index: map<int, EvolutionRow>) returns (r: Result<Option<seq<Evolution>>>)
    ensures r == EvolutionsOnward(cell, species, index)
  {
    if !Truthy(cell) {
      return Ok(None);
    }
    var pieces := Split(CellText(cell), ' ');
    var evos: seq<Evolution> := [];
    var i := 0;
    assert NonEmpty(pieces[..0]) == [];
    assert Targets([], species, index).value == [];
    while i < |pieces|
      invariant 0 <= i <= |pieces|
      invariant Targets(NonEmpty(pieces[..i]), species, index) == Ok(evos)
    {
      var s := pieces[i];
      TargetsStep(pieces, i, evos, species, index);
      if s != "" {
        if !KnownTarget(s, species) {
          return Err("TypeError");
        }
        evos := evos + [Onward(s, species, index)];
      }
      i := i + 1;
    }
    assert pieces[..i] == pieces;
    if |evos| == 0 {
      r := Ok(None);
    } else {
      r := Ok(Some(evos));
    }
  }

  /**
   * A species built from its row: its id, its backward evolution (with the
   * trigger of its own evolution row) when `evo.from` is set, its forward
   * evolutions, and no moves yet.
   */
  function BuildSpecies(row: SpeciesRow, species: map<int, SpeciesRow>, index: map<int, EvolutionRow>): (r: Result<Species>)
    ensures r.Err? <==> EvolutionsOnward(row.evoTo, species, index).Err?
    ensures r.Ok? ==>
      && r.value.id == row.id
      && r.value.moves == []
      && r.value.evolutionTo == EvolutionsOnward(row.evoTo, species, index).value
      && (r.value.evolutionFrom.Some? <==> Present(row.evoFrom))
      && (Present(row.evoFrom) ==>
            r.value.evolutionFrom == Some([Evolution(row.evoFrom.value, EvolutionTrigger(Find(index, row.id)), false)]))
  {
    var from := if Present(row.evoFrom)
      then Some([Evolution(row.evoFrom.value, EvolutionTrigger(Find(index, row.id)), false)])
      else None;
    match EvolutionsOnward(row.evoTo, species, index)
    case Err(m) => Err(m)
    case Ok(to) => Ok(row.record.(id := row.id, evolutionFrom := from, evolutionTo := to, moves := []))
  }

  /** `BuildSpecies`, with the `evo.to` loop. */
  method BuildOne(row: SpeciesRow, species: map<int, SpeciesRow>, index: map<int, EvolutionRow>) returns (r: Result<Species>)
    ensures r == BuildSpecies(row, species, index)
  {
    var from := if Present(row.evoFrom)
      then Some([Evolution(row.evoFrom.value, EvolutionTrigger(Find(index, row.id)), false)])
      else None;
    var to := EvolutionsTo(row.evoTo, species, index);
    if to.Err? {
      return Err(to.error);
    }
    r := Ok(row.record.(id := row.id, evolutionFrom := from, evolutionTo := to.value, moves := []));
  }

  /** Every enabled row builds. */
  predicate AllBuild(species: map<int, SpeciesRow>, index: map<int, EvolutionRow>) {
    forall k :: k in species && species[k].enabled ==> BuildSpecies(species[k], species, index).Ok?
  }

  /** The built species of the enabled rows, keyed by id. */
  function Built(species: map<int, SpeciesRow>, index: map<int, EvolutionRow>): map<int, Species>
    requires AllBuild(species, index)
  {
    map k | k in species && species[k].enabled :: BuildSpecies(species[k], species, index).value
  }

  // ---------------------------------------------------------------------------
  // Level-up moves

  /** A row of the table of the moves each species learns. */
  datatype PokemonMoveRow = PokemonMoveRow(pokemonId: int, versionGroupId: int, moveId: int, methodId: int, level: int)

  /** The learn method of moves learnt by levelling up. */
  const LevelUpMethod: int := 1

  /** The latest version group with a row for species `p`, 0 when there is none. */
  function MaxVersion(rows: seq<PokemonMoveRow>, p: int): int {
    if |rows| == 0 then 0
    else
      var n := |rows| - 1;
      var m := MaxVersion(rows[..n], p);
      if rows[n].pokemonId == p && rows[n].versionGroupId > m then rows[n].versionGroupId else m
  }

  /** `MaxVersion` is the largest version group of the species' rows, floored at 0. */
  lemma {:induction false} MaxVersionSpec(rows: seq<PokemonMoveRow>, p: int)
    ensures MaxVersion(rows, p) >= 0
    ensures forall i :: 0 <= i < |rows| && rows[i].pokemonId == p ==> rows[i].versionGroupId <= MaxVersion(rows, p)
    ensures MaxVersion(rows, p) == 0
         || exists i :: 0 <= i < |rows| && rows[i].pokemonId == p && rows[i].versionGroupId == MaxVersion(rows, p)
  {
    if |rows| > 0 {
      var n := |rows| - 1;
      MaxVersionSpec(rows[..n], p);
      var m := MaxVersion(rows[..n], p);
      forall i | 0 <= i < |rows| && rows[i].pokemonId == p ensures rows[i].versionGroupId <= MaxVersion(rows, p) {
        if i < n {
          assert rows[..n][i] == rows[i];
        }
      }
      if MaxVersion(rows, p) != 0 && MaxVersion(rows, p) == m {
        var i :| 0 <= i < n && rows[..n][i].pokemonId == p && rows[..n][i].versionGroupId == m;
        assert rows[i] == rows[..n][i];
      }
    }
  }

  /** The first loop over the move rows: the latest version group of each species. */
  method VersionGroups(rows: seq<PokemonMoveRow>) returns (vg: map<int, int>)
    ensures forall p :: p in vg <==> exists i :: 0 <= i < |rows| && rows[i].pokemonId == p
    ensures forall p :: p in vg ==> vg[p] == MaxVersion(rows, p)
  {
    vg := map[];
    var i := 0;
    while i < |rows|
      invariant 0 <= i <= |rows|
      invariant forall p :: p in vg <==> exists j :: 0 <= j < i && rows[j].pokemonId == p
      invariant forall p :: p in vg ==> vg[p] == MaxVersion(rows[..i], p)
      invariant forall p :: p !in vg ==> MaxVersion(rows[..i], p) == 0
    {
      var row := rows[i];
      assert rows[..i + 1][..i] == rows[..i];
      var current := if row.pokemonId in vg then vg[row.pokemonId] else 0;
      vg := vg[row.pokemonId := if row.versionGroupId > current then row.versionGroupId else current];
      i := i + 1;
    }
    assert rows[..i] == rows;
  }

  /** Row `row` adds a move of version group `top` to species `p`, given the loaded moves `known`. */
  predicate Learns(row: PokemonMoveRow, p: int, top: int, known: set<int>) {
    row.methodId == LevelUpMethod && row.pokemonId == p && row.versionGroupId == top && row.moveId in known
  }

  /** The moves the rows add to species `p`, in row order. */
  function LevelUp(rows: seq<PokemonMoveRow>, p: int, top: int, known: set<int>): seq<PokemonMove> {
    if |rows| == 0 then []
    else
      var n := |rows| - 1;
      LevelUp(rows[..n], p, top, known)
        + (if Learns(rows[n], p, top, known) then [PokemonMove(rows[n].moveId, rows[n].level)] else [])
  }

  /** The level-up moves of species `p`: from its latest version group only, and only loaded moves. */
  function LevelUpMoves(rows: seq<PokemonMoveRow>, p: int, known: set<int>): seq<PokemonMove> {
    LevelUp(rows, p, MaxVersion(rows, p), known)
  }

  /** Each level-up move comes from a row that `Learns`, and each such row gives one. */
  lemma {:induction false} LevelUpMembers(rows: seq<PokemonMoveRow>, p: int, top: int, known: set<int>, x: PokemonMove)
    ensures x in LevelUp(rows, p, top, known) <==>
      exists i :: 0 <= i < |rows| && Learns(rows[i], p, top, known) && x == PokemonMove(rows[i].moveId, rows[i].level)
  {
    if |rows| > 0 {
      var n := |rows| - 1;
      LevelUpMembers(rows[..n], p, top, known, x);
      if x in LevelUp(rows[..n], p, top, known) {
        var i :| 0 <= i < n && Learns(rows[..n][i], p, top, known) && x == PokemonMove(rows[..n][i].moveId, rows[..n][i].level);
        assert rows[i] == rows[..n][i];
      }
      if exists i :: 0 <= i < |rows| && Learns(rows[i], p, top, known) && x == PokemonMove(rows[i].moveId, rows[i].level) {
        var i :| 0 <= i < |rows| && Learns(rows[i], p, top, known) && x == PokemonMove(rows[i].moveId, rows[i].level);
        if i < n {
          assert rows[..n][i] == rows[i];
        }
      }
    }
  }

  /** The second loop over the move rows: each species collects its level-up moves. */
  method CollectLevelUp(pokemon: map<int, Species>, rows: seq<PokemonMoveRow>, known: set<int>) returns (r: map<int, Species>)
    ensures r.Keys == pokemon.Keys
    ensures forall k :: k in r ==> r[k] == WithList(pokemon[k], pokemon[k].moves + LevelUpMoves(rows, k, known))
  {
    var vg := VersionGroups(rows);
    r := pokemon;
    var i := 0;
    while i < |rows|
      invariant 0 <= i <= |rows|
      invariant r.Keys == pokemon.Keys
      invariant forall k :: k in r ==>
        r[k] == WithList(pokemon[k], pokemon[k].moves + LevelUp(rows[..i], k, MaxVersion(rows, k), known))
    {
      var row := rows[i];
      assert rows[..i + 1][..i] == rows[..i];
      assert row.pokemonId in vg;
      if row.methodId == LevelUpMethod && row.pokemonId in r && row.versionGroupId == vg[row.pokemonId] {
        if row.moveId in known {
          var p := row.pokemonId;
          r := r[p := WithList(r[p], r[p].moves + [PokemonMove(row.moveId, row.level)])];
        }
      }
      i := i + 1;
    }
    assert rows[..i] == rows;
  }

  /** The moves of `s` replaced by `ms`. */
  function WithList(s: Species, ms: seq<PokemonMove>): (r: Species)
    ensures r.moves == ms && r.id == s.id
  {
    s.(moves := ms)
  }

  lemma WithListTwice(s: Species, a: seq<PokemonMove>, b: seq<PokemonMove>)
    ensures WithList(WithList(s, a), b) == WithList(s, b)
  {
  }

  /** The last loop of `get_pokemon`: every species' moves sorted by level, in place. */
  method SortAll(pokemon: map<int, Species>) returns (r: map<int, Species>)
    ensures r.Keys == pokemon.Keys
    ensures forall k :: k in r ==> r[k] == WithList(pokemon[k], SortByLevel(pokemon[k].moves))
  {
    r := pokemon;
    var rest := pokemon.Keys;
    while rest != {}
      invariant rest <= pokemon.Keys
      invariant r.Keys == pokemon.Keys
      invariant forall k :: k in r && k !in rest ==> r[k] == WithList(pokemon[k], SortByLevel(pokemon[k].moves))
      invariant forall k :: k in rest ==> r[k] == pokemon[k]
      decreases |rest|
    {
      var k := PickOne(rest);
      r := r[k := WithList(r[k], SortByLevel(r[k].moves))];
      rest := rest - {k};
    }
  }
  /** The species with their level-up moves added and sorted by level. */
  function WithMoves(pokemon: map<int, Species>, rows: seq<PokemonMoveRow>, known: set<int>): map<int, Species> {
    map k | k in pokemon :: WithList(pokemon[k], SortByLevel(pokemon[k].moves + LevelUpMoves(rows, k, known)))
  }

  /** What `get_pokemon` gives: the built species with their moves, or the `TypeError` it throws. */
  function PokemonOf(rows: seq<SpeciesRow>, evolutions: seq<EvolutionRow>, learnset: seq<PokemonMoveRow>, known: set<int>): Result<map<int, Species>> {
    var species := SpeciesIndex(rows);
    var index := EvolutionIndex(evolutions);
    if AllBuild(species, index) then Ok(WithMoves(Built(species, index), learnset, known)) else Err("TypeError")
  }

  /** The first loop of `get_pokemon`: every enabled row built, or the first `TypeError`. */
  method BuildAll(species: map<int, SpeciesRow>, index: map<int, EvolutionRow>) returns (r: Result<map<int, Species>>)
    requires forall k :: k in species ==> species[k].id == k
    ensures r.Ok? <==> AllBuild(species, index)
    ensures r.Ok? ==> r.value == Built(species, index)
  {
    var keys := KeysAscending(species);
    var pokemon: map<int, Species> := map[];
    var i := 0;
    while i < |keys|
      invariant 0 <= i <= |keys|
      invariant forall k :: k in pokemon <==> k in keys[..i] && species[k].enabled
      invariant forall k :: k in pokemon ==> BuildSpecies(species[k], species, index) == Ok(pokemon[k])
    {
      var k := keys[i];
      var row := species[k];
      assert row.id == k;
      assert keys[..i + 1] == keys[..i] + [k];
      if row.enabled {
        var b := BuildOne(row, species, index);
        if b.Err? {
          assert !AllBuild(species, index);
          return Err("TypeError");
        }
        pokemon := pokemon[row.id := b.value];
      }
      i := i + 1;
    }
    assert keys[..i] == keys;
    assert AllBuild(species, index) by {
      forall k | k in species && species[k].enabled ensures BuildSpecies(species[k], species, index).Ok? {
        assert k in pokemon;
      }
    }
    var built := Built(species, index);
    forall k ensures k in pokemon <==> k in built {
      if k in species {
        assert k in keys;
      }
    }
    assert pokemon.Keys == built.Keys;
    forall k | k in pokemon ensures pokemon[k] == built[k] {
      assert BuildSpecies(species[k], species, index) == Ok(pokemon[k]);
    }
    assert pokemon == built;
    r := Ok(pokemon);
  }

  /** `get_pokemon`. */
  method LoadPokemon(rows: seq<SpeciesRow>, evolutions: seq<EvolutionRow>, learnset: seq<PokemonMoveRow>, known: set<int>)
    returns (r: Result<map<int, Species>>)
    ensures r == PokemonOf(rows, evolutions, learnset, known)
  {
    var species := SpeciesIndex(rows);
    var index := EvolutionIndex(evolutions);
    SpeciesIndexIds(rows);
    var built := BuildAll(species, index);
    if built.Err? {
      return Err("TypeError");
    }
    var collected := CollectLevelUp(built.value, learnset, known);
    var sorted := SortAll(collected);
    var spec := WithMoves(built.value, learnset, known);
    forall k | k in sorted ensures sorted[k] == spec[k] {
      WithListTwice(built.value[k], built.value[k].moves + LevelUpMoves(learnset, k, known),
                    SortByLevel(built.value[k].moves + LevelUpMoves(learnset, k, known)));
    }
    assert sorted == spec;
    r := Ok(sorted);
  }

  /** Move `m` comes from a level-up row of species `p`'s latest version group. */
  predicate LearntFrom(learnset: seq<PokemonMoveRow>, p: int, known: set<int>, m: PokemonMove) {
    exists i :: 0 <= i < |learnset|
      && Learns(learnset[i], p, MaxVersion(learnset, p), known)
      && m == PokemonMove(learnset[i].moveId, learnset[i].level)
  }

  /**
   * What a successful load promises about every species: it is filed under
   * its id, it comes from an enabled row, and its moves are sorted by level,
   * are all loaded moves, and all come from the species' latest version group.
   */
  lemma PokemonOfSpec(rows: seq<SpeciesRow>, evolutions: seq<EvolutionRow>, learnset: seq<PokemonMoveRow>, known: set<int>, k: int)
    requires PokemonOf(rows, evolutions, learnset, known).Ok?
    requires k in PokemonOf(rows, evolutions, learnset, known).value
    ensures var s := PokemonOf(rows, evolutions, learnset, known).value[k];
      && s.id == k
      && k in SpeciesIndex(rows) && SpeciesIndex(rows)[k].enabled
      && SortedByLevel(s.moves)
      && forall m :: m in s.moves ==> m.moveId in known && LearntFrom(learnset, k, known, m)
  {
    var species := SpeciesIndex(rows);
    var index := EvolutionIndex(evolutions);
    SpeciesIndexIds(rows);
    var s := PokemonOf(rows, evolutions, learnset, known).value[k];
    var built := Built(species, index)[k];
    var learnt := LevelUpMoves(learnset, k, known);
    assert built.moves == [];
    assert s.moves == SortByLevel(built.moves + learnt);
    assert built.moves + learnt == learnt;
    SortSorted(learnt);
    SortPermutes(learnt);
    forall m | m in s.moves
      ensures m.moveId in known && LearntFrom(learnset, k, known, m)
    {
      assert m in multiset(s.moves);
      assert m in learnt;
      LevelUpMembers(learnset, k, MaxVersion(learnset, k), known, m);
    }
  }

  // ---------------------------------------------------------------------------
  // Items (`get_items`)

  /** A row of the item table; the free-form columns are cleaned cells. */
  datatype ItemRow = ItemRow(id: int, name: string, description: Cell, cost: int, page: int, action: string,
                             seperate: Cell, emote: Cell, shard: Cell)

  /** An item built from its row: an item is shown inline unless `seperate` is set. */
  function BuildItem(row: ItemRow): (r: Item)
    ensures r.id == row.id
    ensures r.inline <==> !Truthy(row.seperate)
    ensures r.shard <==> Truthy(row.shard)
    ensures r.description.None? <==> !Truthy(row.description)
    ensures r.emote.None? <==> !Truthy(row.emote)
  {
    Item(row.id, row.name, CellOrNull(row.description), row.cost, row.page, row.action,
         !Truthy(row.seperate), CellOrNull(row.emote), Truthy(row.shard))
  }

  function ItemPairs(rows: seq<ItemRow>): (r: seq<(int, Item)>)
    ensures |r| == |rows|
    ensures forall i :: 0 <= i < |rows| ==> r[i] == (rows[i].id, BuildItem(rows[i]))
  {
    seq(|rows|, i requires 0 <= i < |rows| => (rows[i].id, BuildItem(rows[i])))
  }

  /** The items keyed by id; a later row with the same id replaces an earlier one. */
  function ItemsOf(rows: seq<ItemRow>): map<int, Item> {
    Overwrite(ItemPairs(rows))
  }

  /** `get_items`. */
  method LoadItems(rows: seq<ItemRow>) returns (items: map<int, Item>)
    ensures items == ItemsOf(rows)
  {
    items := map[];
    var i := 0;
    while i < |rows|
      invariant 0 <= i <= |rows|
      invariant items == Overwrite(ItemPairs(rows)[..i])
    {
      OverwriteStep(ItemPairs(rows), i);
      items := items[rows[i].id := BuildItem(rows[i])];
      i := i + 1;
    }
    assert ItemPairs(rows)[..i] == ItemPairs(rows);
  }

  /** An id has an item exactly when some row has it, and the item is built from the LAST such row. */
  lemma ItemsOfSpec(rows: seq<ItemRow>, i: int)
    requires 0 <= i < |rows|
    requires forall j :: i < j < |rows| ==> rows[j].id != rows[i].id
    ensures rows[i].id in ItemsOf(rows) && ItemsOf(rows)[rows[i].id] == BuildItem(rows[i])
  {
    var pairs := ItemPairs(rows);
    assert IsLast(pairs, i);
    OverwriteLast(pairs, i);
  }

  lemma ItemsOfKeys(rows: seq<ItemRow>, k: int)
    ensures k in ItemsOf(rows) <==> exists i :: 0 <= i < |rows| && rows[i].id == k
  {
    var pairs := ItemPairs(rows);
    OverwriteKeys(pairs, k);
    if HasKey(pairs, k) {
      var i :| 0 <= i < |pairs| && pairs[i].0 == k;
      assert rows[i].id == k;
    }
    if exists i :: 0 <= i < |rows| && rows[i].id == k {
      var i :| 0 <= i < |rows| && rows[i].id == k;
      assert pairs[i].0 == k;
    }
  }

  // ---------------------------------------------------------------------------
  // Move effects (`get_effects`)

  /** A row of the move effect prose table. */
  datatype EffectRow = EffectRow(moveEffectId: int, shortEffect: string)

  const ChanceMarker: string := "$effect_chance"
  const ChancePlaceholder: string := "{effect_chance}"

  /**
   * The prose of an effect: the links of the text stripped by `links` (the
   * link pattern of the constants tables), then the first chance marker
   * turned into the placeholder that `Move.description` fills in.
   */
  function EffectDescription(shortEffect: string, links: string -> string): string {
    ReplaceFirst(links(shortEffect), ChanceMarker, ChancePlaceholder)
  }

  /** A text with the chance marker gets the placeholder in its place; one without is kept as it is. */
  lemma EffectDescriptionSpec(shortEffect: string, links: string -> string)
    ensures !Contains(links(shortEffect), ChanceMarker) ==> EffectDescription(shortEffect, links) == links(shortEffect)
    ensures Contains(links(shortEffect), ChanceMarker) ==>
      var p := IndexOf(links(shortEffect), ChanceMarker).value;
      var d := EffectDescription(shortEffect, links);
      && IsAt(d, p, ChancePlaceholder)
      && Contains(d, ChancePlaceholder)
      && d[..p] == links(shortEffect)[..p]
      && |d| == |links(shortEffect)| + |ChancePlaceholder| - |ChanceMarker|
  {
    var text := links(shortEffect);
    if Contains(text, ChanceMarker) {
      var p := IndexOf(text, ChanceMarker).value;
      var d := EffectDescription(shortEffect, links);
      assert d == text[..p] + ChancePlaceholder + text[p + |ChanceMarker|..];
      assert d[p..p + |ChancePlaceholder|] == ChancePlaceholder;
      assert IsAt(d, p, ChancePlaceholder);
    }
  }

  function EffectPairs(rows: seq<EffectRow>, links: string -> string): (r: seq<(int, MoveEffect)>)
    ensures |r| == |rows|
    ensures forall i :: 0 <= i < |rows| ==>
      r[i] == (rows[i].moveEffectId, MoveEffect(rows[i].moveEffectId, EffectDescription(rows[i].shortEffect, links)))
  {
    seq(|rows|, i requires 0 <= i < |rows| =>
      (rows[i].moveEffectId, MoveEffect(rows[i].moveEffectId, EffectDescription(rows[i].shortEffect, links))))
  }

  /** The effects keyed by id; a later row with the same id replaces an earlier one. */
  function EffectsOf(rows: seq<EffectRow>, links: string -> string): map<int, MoveEffect> {
    Overwrite(EffectPairs(rows, links))
  }

  /** `get_effects`. */
  method LoadEffects(rows: seq<EffectRow>, links: string -> string) returns (effects: map<int, MoveEffect>)
    ensures effects == EffectsOf(rows, links)
  {
    effects := map[];
    var i := 0;
    while i < |rows|
      invariant 0 <= i <= |rows|
      invariant effects == Overwrite(EffectPairs(rows, links)[..i])
    {
      OverwriteStep(EffectPairs(rows, links), i);
      var row := rows[i];
      var description := links(row.shortEffect);
      description := ReplaceFirst(description, ChanceMarker, ChancePlaceholder);
      effects := effects[row.moveEffectId := MoveEffect(row.moveEffectId, description)];
      i := i + 1;
    }
    assert EffectPairs(rows, links)[..i] == EffectPairs(rows, links);
  }

  /** Every effect is filed under its own id and comes from the last row with that id. */
  lemma EffectsOfSpec(rows: seq<EffectRow>, links: string -> string, i: int)
    requires 0 <= i < |rows|
    requires forall j :: i < j < |rows| ==> rows[j].moveEffectId != rows[i].moveEffectId
    ensures var k := rows[i].moveEffectId;
      && k in EffectsOf(rows, links)
      && EffectsOf(rows, links)[k] == MoveEffect(k, EffectDescription(rows[i].shortEffect, links))
  {
    var pairs := EffectPairs(rows, links);
    assert IsLast(pairs, i);
    OverwriteLast(pairs, i);
  }

  // ---------------------------------------------------------------------------
  // Moves (`get_moves`)

  /** A row of the move table. */
  datatype MoveRow = MoveRow(id: int, identifier: string, power: Option<int>, pp: int, accuracy: Option<int>,
                             priority: int, targetId: int, typeId: int, damageClassId: int, effectId: int,
                             effectChance: Option<int>)

  /** A row of the move name table. */
  datatype MoveNameRow = MoveNameRow(moveId: int, languageId: int, name: string)

  /** A row of the move meta table. */
  datatype MetaRow = MetaRow(moveId: int, categoryId: int, ailmentId: int, drain: int, healing: int, critRate: int,
                             ailmentChance: int, flinchChance: int, statChance: int,
                             minHits: Option<int>, maxHits: Option<int>, minTurns: Option<int>, maxTurns: Option<int>)

  /** A row of the move meta stat change table. */
  datatype StatRow = StatRow(moveId: int, statId: int, change: int)

  /** The language id of English in the name table. */
  const EnglishLanguage: int := 9
  /** Moves above this id (the Z-moves and other specials) are not loaded. */
  const MaxMoveId: int := 10000

  /** The English names, in row order. */
  function EnglishNamePairs(rows: seq<MoveNameRow>): seq<(int, string)> {
    if |rows| == 0 then []
    else
      var n := |rows| - 1;
      EnglishNamePairs(rows[..n]) + (if rows[n].languageId == EnglishLanguage then [(rows[n].moveId, rows[n].name)] else [])
  }

  /** The English name of each move; the last English row wins. */
  function MoveNames(rows: seq<MoveNameRow>): map<int, string> {
    Overwrite(EnglishNamePairs(rows))
  }

  /** Only English rows give names. */
  lemma {:induction false} MoveNamesEnglish(rows: seq<MoveNameRow>, k: int)
    ensures k in MoveNames(rows) ==>
      exists i :: 0 <= i < |rows| && rows[i].languageId == EnglishLanguage && rows[i].moveId == k
             && rows[i].name == MoveNames(rows)[k]
  {
    if k in MoveNames(rows) {
      var pairs := EnglishNamePairs(rows);
      OverwriteFrom(pairs, k);
      var j :| 0 <= j < |pairs| && pairs[j] == (k, MoveNames(rows)[k]);
      EnglishNamePairsFrom(rows, j);
    }
  }

  lemma {:induction false} EnglishNamePairsFrom(rows: seq<MoveNameRow>, j: int)
    requires 0 <= j < |EnglishNamePairs(rows)|
    ensures exists i :: 0 <= i < |rows| && rows[i].languageId == EnglishLanguage
                     && EnglishNamePairs(rows)[j] == (rows[i].moveId, rows[i].name)
  {
    var n := |rows| - 1;
    var front := EnglishNamePairs(rows[..n]);
    if j < |front| {
      EnglishNamePairsFrom(rows[..n], j);
      var i :| 0 <= i < n && rows[..n][i].languageId == EnglishLanguage
               && front[j] == (rows[..n][i].moveId, rows[..n][i].name);
      assert rows[i] == rows[..n][i];
    } else {
      assert rows[n].languageId == EnglishLanguage;
    }
  }

  function MetaPairs(rows: seq<MetaRow>): (r: seq<(int, MetaRow)>)
    ensures |r| == |rows|
    ensures forall i :: 0 <= i < |rows| ==> r[i] == (rows[i].moveId, rows[i])
  {
    seq(|rows|, i requires 0 <= i < |rows| => (rows[i].moveId, rows[i]))
  }

  /** The meta row of each move; the last row wins. */
  function MetaIndex(rows: seq<MetaRow>): map<int, MetaRow> {
    Overwrite(MetaPairs(rows))
  }

  /** A move has meta data exactly when some row names it, and the last such row supplies it. */
  lemma MetaIndexSpec(rows: seq<MetaRow>, k: int, i: int)
    ensures k in MetaIndex(rows) <==> exists j :: 0 <= j < |rows| && rows[j].moveId == k
    ensures 0 <= i < |rows| && rows[i].moveId == k && (forall j :: i < j < |rows| ==> rows[j].moveId != k) ==>
      MetaIndex(rows)[k] == rows[i]
  {
    var pairs := MetaPairs(rows);
    OverwriteKeys(pairs, k);
    if HasKey(pairs, k) {
      var j :| 0 <= j < |pairs| && pairs[j].0 == k;
      assert rows[j].moveId == k;
    }
    if exists j :: 0 <= j < |rows| && rows[j].moveId == k {
      var j :| 0 <= j < |rows| && rows[j].moveId == k;
      assert pairs[j].0 == k;
    }
    if 0 <= i < |rows| && rows[i].moveId == k && (forall j :: i < j < |rows| ==> rows[j].moveId != k) {
      assert IsLast(pairs, i);
      OverwriteLast(pairs, i);
    }
  }

  function StatPairs(rows: seq<StatRow>): (r: seq<(int, StatChange)>)
    ensures |r| == |rows|
    ensures forall i :: 0 <= i < |rows| ==> r[i] == (rows[i].moveId, StatChange(rows[i].statId, rows[i].change))
  {
    seq(|rows|, i requires 0 <= i < |rows| => (rows[i].moveId, StatChange(rows[i].statId, rows[i].change)))
  }

  /** The stat changes of each move, all its rows in row order. */
  function StatIndex(rows: seq<StatRow>): map<int, seq<StatChange>> {
    Group(StatPairs(rows))
  }

  /** The stat changes of move `k` are those of its rows, in row order. */
  lemma StatIndexSpec(rows: seq<StatRow>, k: int)
    ensures Lookup(StatIndex(rows), k) == Select(StatPairs(rows), k)
  {
    GroupSpec(StatPairs(rows), k);
  }

  /** Whether the effect of the move says, in any case, that it never misses. */
  predicate NeverMisses(effects: map<int, MoveEffect>, effectId: int) {
    effectId in effects && Contains(ToLower(effects[effectId].description), "never misses")
  }

  /** A move's accuracy: 100 when its effect never misses, else the column's, with 0 as `null`. */
  function Accuracy(row: MoveRow, effects: map<int, MoveEffect>): (r: Option<int>)
    ensures NeverMisses(effects, row.effectId) ==> r == Some(100)
    ensures !NeverMisses(effects, row.effectId) ==> r == OrNull(row.accuracy)
    ensures r != Some(0)
  {
    if NeverMisses(effects, row.effectId) then Some(100) else OrNull(row.accuracy)
  }

  /** A move built from its row and its meta row. */
  function BuildMove(row: MoveRow, names: map<int, string>, meta: MetaRow, stats: map<int, seq<StatChange>>,
                     effects: map<int, MoveEffect>): Move
  {
    Move(row.id, row.identifier, if row.id in names then Some(names[row.id]) else None,
         OrNull(row.power), row.pp, Accuracy(row, effects), row.priority, row.targetId, row.typeId,
         row.damageClassId, row.effectId, OrNull(row.effectChance),
         MoveMeta(meta.categoryId, meta.ailmentId, meta.drain, meta.healing, meta.critRate,
                  meta.ailmentChance as real, meta.flinchChance as real, meta.statChance as real,
                  meta.minHits, meta.maxHits, meta.minTurns, meta.maxTurns, Lookup(stats, row.id)))
  }

  /** A move row is loaded when its id is at most `MaxMoveId` and it has a meta row. */
  predicate Loaded(row: MoveRow, metas: map<int, MetaRow>) {
    row.id <= MaxMoveId && row.id in metas
  }

  /** The loaded moves, in row order. */
  function MovePairs(rows: seq<MoveRow>, names: map<int, string>, metas: map<int, MetaRow>,
                     stats: map<int, seq<StatChange>>, effects: map<int, MoveEffect>): seq<(int, Move)>
  {
    if |rows| == 0 then []
    else
      var n := |rows| - 1;
      var row := rows[n];
      MovePairs(rows[..n], names, metas, stats, effects)
        + (if Loaded(row, metas) then [(row.id, BuildMove(row, names, metas[row.id], stats, effects))] else [])
  }

  /** The tables `get_moves` reads, apart from the moves themselves. */
  datatype MoveTables = MoveTables(names: seq<MoveNameRow>, meta: seq<MetaRow>, stats: seq<StatRow>)

  /** The moves keyed by id; a later row with the same id replaces an earlier one. */
  function MovesOf(rows: seq<MoveRow>, t: MoveTables, effects: map<int, MoveEffect>): map<int, Move> {
    Overwrite(MovePairs(rows, MoveNames(t.names), MetaIndex(t.meta), StatIndex(t.stats), effects))
  }

  /** `get_moves`. */
  method LoadMoves(rows: seq<MoveRow>, t: MoveTables, effects: map<int, MoveEffect>) returns (moves: map<int, Move>)
    ensures moves == MovesOf(rows, t, effects)
  {
    var names := MoveNames(t.names);
    var metas := MetaIndex(t.meta);
    var stats := StatIndex(t.stats);
    moves := map[];
    var i := 0;
    while i < |rows|
      invariant 0 <= i <= |rows|
      invariant moves == Overwrite(MovePairs(rows[..i], names, metas, stats, effects))
    {
      var row := rows[i];
      var before := MovePairs(rows[..i], names, metas, stats, effects);
      assert rows[..i + 1][..i] == rows[..i];
      if row.id <= MaxMoveId && row.id in metas {
        var m := BuildMove(row, names, metas[row.id], stats, effects);
        assert MovePairs(rows[..i + 1], names, metas, stats, effects) == before + [(row.id, m)];
        OverwriteSnoc(before, (row.id, m));
        moves := moves[row.id := m];
      } else {
        assert MovePairs(rows[..i + 1], names, metas, stats, effects) == before + [];
        assert before + [] == before;
      }
      i := i + 1;
    }
    assert rows[..i] == rows;
  }

  /** Pair `p` is the move of a loaded row, filed under the row's id. */
  predicate MoveRowFor(rows: seq<MoveRow>, names: map<int, string>, metas: map<int, MetaRow>,
                       stats: map<int, seq<StatChange>>, effects: map<int, MoveEffect>, p: (int, Move))
  {
    exists i :: 0 <= i < |rows| && Loaded(rows[i], metas) && p == (rows[i].id, BuildMove(rows[i], names, metas[rows[i].id], stats, effects))
  }

  /** Every loaded move comes from a loaded row with its key as id. */
  lemma {:induction false} MovePairsFrom(rows: seq<MoveRow>, names: map<int, string>, metas: map<int, MetaRow>,
                                         stats: map<int, seq<StatChange>>, effects: map<int, MoveEffect>, j: int)
    requires 0 <= j < |MovePairs(rows, names, metas, stats, effects)|
    ensures MoveRowFor(rows, names, metas, stats, effects, MovePairs(rows, names, metas, stats, effects)[j])
  {
    var n := |rows| - 1;
    var front := MovePairs(rows[..n], names, metas, stats, effects);
    if j < |front| {
      MovePairsFrom(rows[..n], names, metas, stats, effects, j);
      var i :| 0 <= i < n && Loaded(rows[..n][i], metas)
        && front[j] == (rows[..n][i].id, BuildMove(rows[..n][i], names, metas[rows[..n][i].id], stats, effects));
      assert rows[i] == rows[..n][i];
    } else {
      assert Loaded(rows[n], metas);
    }
  }

  /** Each loaded row has its move among the pairs. */
  lemma {:induction false} MovePairsHas(rows: seq<MoveRow>, names: map<int, string>, metas: map<int, MetaRow>,
                                        stats: map<int, seq<StatChange>>, effects: map<int, MoveEffect>, i: int)
    requires 0 <= i < |rows| && Loaded(rows[i], metas)
    ensures HasKey(MovePairs(rows, names, metas, stats, effects), rows[i].id)
  {
    var n := |rows| - 1;
    var pairs := MovePairs(rows, names, metas, stats, effects);
    var front := MovePairs(rows[..n], names, metas, stats, effects);
    if i < n {
      assert rows[..n][i] == rows[i];
      MovePairsHas(rows[..n], names, metas, stats, effects, i);
      var j :| 0 <= j < |front| && front[j].0 == rows[i].id;
      assert pairs[j] == front[j];
    } else {
      assert pairs[|pairs| - 1].0 == rows[i].id;
    }
  }

  /**
   * A move is loaded exactly when some row with its id is at most `MaxMoveId`
   * and has a meta row; it is filed under its own id, its accuracy is never 0,
   * and it is 100 whenever its effect never misses.
   */
  lemma MovesOfSpec(rows: seq<MoveRow>, t: MoveTables, effects: map<int, MoveEffect>, k: int)
    ensures k in MovesOf(rows, t, effects) <==>
      exists i :: 0 <= i < |rows| && rows[i].id == k && Loaded(rows[i], MetaIndex(t.meta))
    ensures k in MovesOf(rows, t, effects) ==>
      var m := MovesOf(rows, t, effects)[k];
      && m.id == k && k <= MaxMoveId
      && m.accuracy != Some(0)
      && (NeverMisses(effects, m.effectId) ==> m.accuracy == Some(100))
  {
    var names, metas, stats := MoveNames(t.names), MetaIndex(t.meta), StatIndex(t.stats);
    var pairs := MovePairs(rows, names, metas, stats, effects);
    OverwriteKeys(pairs, k);
    if k in MovesOf(rows, t, effects) {
      OverwriteFrom(pairs, k);
      var j :| 0 <= j < |pairs| && pairs[j] == (k, MovesOf(rows, t, effects)[k]);
      MovePairsFrom(rows, names, metas, stats, effects, j);
    }
    if exists i :: 0 <= i < |rows| && rows[i].id == k && Loaded(rows[i], metas) {
      var i :| 0 <= i < |rows| && rows[i].id == k && Loaded(rows[i], metas);
      MovePairsHas(rows, names, metas, stats, effects, i);
    }
  }

  // ---------------------------------------------------------------------------
  // `init`

  /** Every table `init` reads. */
  datatype Sources = Sources(
    effects: seq<EffectRow>,
    moves: seq<MoveRow>,
    moveTables: MoveTables,
    species: seq<SpeciesRow>,
    evolutions: seq<EvolutionRow>,
    learnsets: seq<PokemonMoveRow>,
    items: seq<ItemRow>)

  /**
   * `init`: the effects, then the moves (which read the new effects), then the
   * species (which read the new moves), then the items. A `TypeError` from
   * the species leaves the effects and moves stored and the rest as it was;
   * on success the registry is ready.
   */
  method Init(dex: Pokedex, t: Sources) returns (r: Result<()>)
    requires dex.Valid()
    modifies dex
    ensures dex.Valid()
    ensures dex.effects == EffectsOf(t.effects, dex.tables.descriptionLinks)
    ensures dex.moves == MovesOf(t.moves, t.moveTables, dex.effects)
    ensures r.Ok? <==> PokemonOf(t.species, t.evolutions, t.learnsets, dex.moves.Keys).Ok?
    ensures r.Ok? ==>
      && dex.Ready()
      && dex.pokemon == PokemonOf(t.species, t.evolutions, t.learnsets, dex.moves.Keys).value
      && dex.items == ItemsOf(t.items)
    ensures r.Err? ==> dex.pokemon == old(dex.pokemon) && dex.items == old(dex.items) && dex.initialized == old(dex.initialized)
  {
    var effects := LoadEffects(t.effects, dex.tables.descriptionLinks);
    dex.StoreEffects(effects);
    var moves := LoadMoves(t.moves, t.moveTables, dex.effects);
    dex.StoreMoves(moves);
    var pokemon := LoadPokemon(t.species, t.evolutions, t.learnsets, dex.moves.Keys);
    if pokemon.Err? {
      return Err(pokemon.error);
    }
    forall k | k in pokemon.value ensures pokemon.value[k].id == k {
      PokemonOfSpec(t.species, t.evolutions, t.learnsets, dex.moves.Keys, k);
    }
    dex.StorePokemon(pokemon.value);
    var items := LoadItems(t.items);
    dex.StoreItems(items);
    dex.MarkInitialized();
    r := Ok(());
  }
}
