/**
 * `DataManagerBase` of src/models.ts: the loaded dictionaries, the indices
 * its getters build from them, and the lookups and random choices that read
 * those indices.
 *
 * `Object.values` visits integer keys in ascending order, so the registry
 * keeps, beside each dictionary, its keys in ascending order; every loop
 * over a dictionary runs in that order.
 */
module Registry {
  import opened Nullable
  import opened Text
  import opened Assoc
  import opened Entities

  /** Strictly increasing. */
  predicate Ascending(xs: seq<int>) {
    forall i, j :: 0 <= i < j < |xs| ==> xs[i] < xs[j]
  }

  lemma AscendingCons(a: int, t: seq<int>)
    requires Ascending(t) && forall x :: x in t ==> a < x
    ensures Ascending([a] + t)
  {
    var r := [a] + t;
    forall i, j | 0 <= i < j < |r| ensures r[i] < r[j] {
      assert r[j] == t[j - 1] && t[j - 1] in t;
      if i > 0 {
        assert r[i] == t[i - 1];
      }
    }
  }

  /** `xs` lists the keys of `m`, each once, in ascending order. */
  predicate KeyOrder<V>(m: map<int, V>, xs: seq<int>) {
    && Ascending(xs)
    && (forall k :: k in m ==> k in xs)
    && (forall i :: 0 <= i < |xs| ==> xs[i] in m)
  }

  /** `xs` with `k` put in its place. */
  function Insert(xs: seq<int>, k: int): (r: seq<int>)
    requires Ascending(xs) && k !in xs
    ensures Ascending(r)
    ensures forall x :: x in r <==> x in xs || x == k
  {
    if |xs| == 0 then [k]
    else if k < xs[0] then [k] + xs
    else
      var rest := Insert(xs[1..], k);
      assert forall x :: x in xs[1..] ==> xs[0] < x;
      AscendingCons(xs[0], rest);
      [xs[0]] + rest
  }

  /** Some member of a non-empty set. */
  method PickOne<K>(s: set<K>) returns (k: K)
    requires s != {}
    ensures k in s
  {
    k :| k in s;
  }

  /** The order in which `Object.values` visits the integer keys of `m`. */
  method KeysAscending<V>(m: map<int, V>) returns (xs: seq<int>)
    ensures KeyOrder(m, xs)
  {
    xs := [];
    var rest := m.Keys;
    while rest != {}
      invariant Ascending(xs)
      invariant forall k :: k in m <==> k in xs || k in rest
      invariant forall k :: k in xs ==> k !in rest
      decreases |rest|
    {
      var k := PickOne(rest);
      xs := Insert(xs, k);
      rest := rest - {k};
    }
  }

  /** The values of `m` at `ids`, in that order. */
  function ValuesAt<V>(m: map<int, V>, ids: seq<int>): (r: seq<V>)
    requires forall i :: 0 <= i < |ids| ==> ids[i] in m
    ensures |r| == |ids|
    ensures forall i :: 0 <= i < |ids| ==> r[i] == m[ids[i]]
  {
    if |ids| == 0 then [] else [m[ids[0]]] + ValuesAt(m, ids[1..])
  }

  // ---------------------------------------------------------------------------
  // The pairs each index getter pushes, species by species

  /** `species_id_by_type_index`: each species' id under each of its types. */
  function TypePairs(ss: seq<Species>): seq<(string, int)> {
    if |ss| == 0 then [] else Tagged(ss[0].types, ss[0].id) + TypePairs(ss[1..])
  }

  /** `speciesIdByRegionIndex`: each species' id under its lowercased region. */
  function RegionPairs(ss: seq<Species>): seq<(string, int)> {
    if |ss| == 0 then [] else [(ToLower(ss[0].region), ss[0].id)] + RegionPairs(ss[1..])
  }

  /** `speciesByDexNumberIndex`: each species under its id, then under its dex number when that differs. */
  function DexPairs(ss: seq<Species>): seq<(int, Species)> {
    if |ss| == 0 then []
    else
      var s := ss[0];
      [(s.id, s)] + (if s.id != s.dexNumber then [(s.dexNumber, s)] else []) + DexPairs(ss[1..])
  }

  /** The pairs of the species from position `i` on: those of `ss[i]`, then the rest. */
  lemma DexPairsAt(ss: seq<Species>, i: int)
    requires 0 <= i < |ss|
    ensures var s := ss[i];
            DexPairs(ss[i..]) == [(s.id, s)] + ((if s.id != s.dexNumber then [(s.dexNumber, s)] else []) + DexPairs(ss[i + 1..]))
  {
    assert ss[i..][1..] == ss[i + 1..];
  }

  /** `speciesByNameIndex`: each species under each of its guess keys. */
  function NamePairs(ss: seq<Species>, deaccent: string -> string): seq<(string, Species)> {
    if |ss| == 0 then [] else Tagged(GuessKeys(ss[0], deaccent), ss[0]) + NamePairs(ss[1..], deaccent)
  }

  /** The move ids of a species' move list, in order. */
  function MoveIds(pms: seq<PokemonMove>): (r: seq<int>)
    ensures |r| == |pms|
    ensures forall i :: 0 <= i < |pms| ==> r[i] == pms[i].moveId
  {
    if |pms| == 0 then [] else [pms[0].moveId] + MoveIds(pms[1..])
  }

  /** `speciesIdByMoveIndex`: each species' id under each move it learns. */
  function MovePairs(ss: seq<Species>): seq<(int, int)> {
    if |ss| == 0 then [] else Tagged(MoveIds(ss[0].moves), ss[0].id) + MovePairs(ss[1..])
  }

  /** `itemByNameIndex`: each item under its lowercased name. */
  function ItemNamePairs(its: seq<Item>): (r: seq<(string, Item)>)
    ensures |r| == |its|
    ensures forall i :: 0 <= i < |its| ==> r[i] == (ToLower(its[i].name), its[i])
  {
    if |its| == 0 then [] else [(ToLower(its[0].name), its[0])] + ItemNamePairs(its[1..])
  }

  /** Every move has an English name. */
  predicate AllNamed(ms: seq<Move>) {
    forall i :: 0 <= i < |ms| ==> ms[i].name.Some?
  }

  /** `moveByNameIndex`: each move under its lowercased name. */
  function MoveNamePairs(ms: seq<Move>): (r: seq<(string, Move)>)
    requires AllNamed(ms)
    ensures |r| == |ms|
    ensures forall i :: 0 <= i < |ms| ==> r[i] == (ToLower(ms[i].name.value), ms[i])
  {
    if |ms| == 0 then []
    else
      var n := |ms| - 1;
      MoveNamePairs(ms[..n]) + [(ToLower(ms[n].name.value), ms[n])]
  }

  /** One named move more at the back. */
  lemma MoveNamePairsStep(ms: seq<Move>, i: int)
    requires 0 <= i < |ms| && AllNamed(ms[..i]) && ms[i].name.Some?
    ensures AllNamed(ms[..i + 1])
    ensures MoveNamePairs(ms[..i + 1]) == MoveNamePairs(ms[..i]) + [(ToLower(ms[i].name.value), ms[i])]
  {
    var front := ms[..i + 1];
    assert front[..i] == ms[..i];
    assert AllNamed(front) by {
      forall j | 0 <= j < i + 1 ensures front[j].name.Some? {
        if j < i {
          assert front[j] == ms[..i][j];
        }
      }
    }
  }

  // ---------------------------------------------------------------------------
  // What the pairs say, species by species

  lemma {:induction false} TypePairsMembers(ss: seq<Species>, t: string, id: int)
    ensures (t, id) in TypePairs(ss) <==> exists s :: s in ss && t in s.types && s.id == id
    decreases |ss|
  {
    if |ss| > 0 {
      TypePairsMembers(ss[1..], t, id);
      TaggedMembers(ss[0].types, ss[0].id, t, id);
      assert ss == [ss[0]] + ss[1..];
    }
  }

  lemma {:induction false} RegionPairsMembers(ss: seq<Species>, region: string, id: int)
    ensures (region, id) in RegionPairs(ss) <==> exists s :: s in ss && ToLower(s.region) == region && s.id == id
    decreases |ss|
  {
    if |ss| > 0 {
      RegionPairsMembers(ss[1..], region, id);
      assert ss == [ss[0]] + ss[1..];
    }
  }

  lemma {:induction false} DexPairsMembers(ss: seq<Species>, n: int, s: Species)
    ensures (n, s) in DexPairs(ss) <==> s in ss && (n == s.id || n == s.dexNumber)
    decreases |ss|
  {
    if |ss| > 0 {
      DexPairsMembers(ss[1..], n, s);
      assert ss == [ss[0]] + ss[1..];
    }
  }

  lemma {:induction false} MovePairsMembers(ss: seq<Species>, m: int, id: int)
    ensures (m, id) in MovePairs(ss) <==> exists s :: s in ss && m in MoveIds(s.moves) && s.id == id
    decreases |ss|
  {
    if |ss| > 0 {
      MovePairsMembers(ss[1..], m, id);
      TaggedMembers(MoveIds(ss[0].moves), ss[0].id, m, id);
      assert ss == [ss[0]] + ss[1..];
    }
  }

  /** The first species with `key` among its guess keys. */
  function FirstGuessed(ss: seq<Species>, deaccent: string -> string, key: string): (r: Option<Species>)
    ensures r.None? <==> forall i :: 0 <= i < |ss| ==> key !in GuessKeys(ss[i], deaccent)
    ensures r.Some? ==> exists i :: 0 <= i < |ss| && ss[i] == r.value && key in GuessKeys(ss[i], deaccent)
                                 && forall j :: 0 <= j < i ==> key !in GuessKeys(ss[j], deaccent)
  {
    if |ss| == 0 then None
    else if key in GuessKeys(ss[0], deaccent) then Some(ss[0])
    else
      var r := FirstGuessed(ss[1..], deaccent, key);
      assert forall i :: 1 <= i < |ss| ==> ss[i] == ss[1..][i - 1];
      r
  }

  /** The species grouped under a name key start with the first species that has that key. */
  lemma {:induction false} NamePairsFirst(ss: seq<Species>, deaccent: string -> string, key: string)
    ensures Select(NamePairs(ss, deaccent), key) == [] <==> FirstGuessed(ss, deaccent, key).None?
    ensures FirstGuessed(ss, deaccent, key).Some? ==>
      Select(NamePairs(ss, deaccent), key)[0] == FirstGuessed(ss, deaccent, key).value
    decreases |ss|
  {
    if |ss| > 0 {
      var keys := GuessKeys(ss[0], deaccent);
      NamePairsFirst(ss[1..], deaccent, key);
      SelectConcat(Tagged(keys, ss[0]), NamePairs(ss[1..], deaccent), key);
      SelectTagged(keys, ss[0], key);
    }
  }

  /** The list grouped under a name key is there exactly when some species has the key, and starts with the first. */
  lemma NameGroupFirst(ss: seq<Species>, deaccent: string -> string, key: string)
    ensures key in Group(NamePairs(ss, deaccent)) <==> FirstGuessed(ss, deaccent, key).Some?
    ensures key in Group(NamePairs(ss, deaccent)) ==>
      |Group(NamePairs(ss, deaccent))[key]| > 0 &&
      Group(NamePairs(ss, deaccent))[key][0] == FirstGuessed(ss, deaccent, key).value
  {
    var pairs := NamePairs(ss, deaccent);
    GroupSpec(pairs, key);
    SelectMissing(pairs, key);
    NamePairsFirst(ss, deaccent, key);
  }

  /** The species a registry draws from for a rarity: catchable, and of that rarity when it is a known one. */
  predicate InPool(s: Species, rarity: string) {
    s.catchable
    && (rarity == "mythical" ==> s.mythical)
    && (rarity == "legendary" ==> s.legendary)
    && (rarity == "ultra_beast" ==> s.ultraBeast)
  }

  /** `allPokemon().filter(...)` for a rarity, in order. */
  function Pool(ss: seq<Species>, rarity: string): (r: seq<Species>)
    ensures |r| <= |ss|
    ensures forall s :: s in r <==> s in ss && InPool(s, rarity)
  {
    if |ss| == 0 then []
    else
      assert ss == [ss[0]] + ss[1..];
      (if InPool(ss[0], rarity) then [ss[0]] else []) + Pool(ss[1..], rarity)
  }

  /** `pool.map(x => x.abundance)`. */
  function Abundances(ss: seq<Species>): (r: seq<int>)
    ensures |r| == |ss|
    ensures forall i :: 0 <= i < |ss| ==> r[i] == ss[i].abundance
  {
    if |ss| == 0 then [] else [ss[0].abundance] + Abundances(ss[1..])
  }

  /** The ids of the species that `keep` holds for, in order. */
  function IdsWhere(ss: seq<Species>, keep: Species -> bool): (r: seq<int>)
    ensures |r| <= |ss|
    ensures forall id :: id in r <==> exists s :: s in ss && keep(s) && s.id == id
  {
    if |ss| == 0 then []
    else
      assert ss == [ss[0]] + ss[1..];
      (if keep(ss[0]) then [ss[0].id] else []) + IdsWhere(ss[1..], keep)
  }

  /** Species listed in ascending id order give their ids in ascending order. */
  lemma {:induction false} IdsWhereAscending(ss: seq<Species>, keep: Species -> bool)
    requires forall i, j :: 0 <= i < j < |ss| ==> ss[i].id < ss[j].id
    ensures Ascending(IdsWhere(ss, keep))
    decreases |ss|
  {
    if |ss| > 0 {
      var rest := IdsWhere(ss[1..], keep);
      IdsWhereAscending(ss[1..], keep);
      if keep(ss[0]) {
        forall x | x in rest ensures ss[0].id < x {
          var s :| s in ss[1..] && keep(s) && s.id == x;
          var k :| 0 <= k < |ss| - 1 && ss[1..][k] == s;
          assert ss[k + 1] == s;
        }
        AscendingCons(ss[0].id, rest);
      }
    }
  }

  /** The ids `pick` gives for the species that have one, in order. */
  function Picks(ss: seq<Species>, pick: Species -> Option<int>): (r: seq<int>)
    ensures |r| <= |ss|
    ensures forall x :: x in r <==> exists s :: s in ss && pick(s) == Some(x)
  {
    if |ss| == 0 then []
    else
      assert ss == [ss[0]] + ss[1..];
      (if pick(ss[0]).Some? then [pick(ss[0]).value] else []) + Picks(ss[1..], pick)
  }

  /** The picks of two runs of species are the picks of the first run, then those of the second. */
  lemma {:induction false} PicksConcat(a: seq<Species>, b: seq<Species>, pick: Species -> Option<int>)
    ensures Picks(a + b, pick) == Picks(a, pick) + Picks(b, pick)
    decreases |a|
  {
    if |a| > 0 {
      PicksConcat(a[1..], b, pick);
      assert (a + b)[1..] == a[1..] + b;
    } else {
      assert a + b == b;
    }
  }

  /**
   * One more species adds its id at the end when it has one, and nothing
   * otherwise: the ids keep the order of the species, repeats included.
   */
  lemma PicksSnoc(ss: seq<Species>, s: Species, pick: Species -> Option<int>)
    ensures Picks(ss + [s], pick) == Picks(ss, pick) + (if pick(s).Some? then [pick(s).value] else [])
  {
    PicksConcat(ss, [s], pick);
    assert [s][1..] == [];
  }

  /** `v.mega_id`, `v.mega_x_id` and `v.mega_y_id`. */
  function MegaOf(s: Species): Option<int> { s.megaId }
  function MegaXOf(s: Species): Option<int> { s.megaXId }
  function MegaYOf(s: Species): Option<int> { s.megaYId }

  // ---------------------------------------------------------------------------
  // Weighted choice

  /** The sum of the weights, added up from the front as `reduce` does. */
  function Sum(ws: seq<int>): int {
    if |ws| == 0 then 0 else Sum(ws[..|ws| - 1]) + ws[|ws| - 1]
  }

  /** Index `i` qualifies for threshold `t`: its weight reaches what is left of `t` after the earlier weights. */
  predicate Qualifies(ws: seq<int>, t: real, i: int)
    requires 0 <= i < |ws|
  {
    ws[i] as real >= t - Sum(ws[..i]) as real
  }

  /** `i` is the first qualifying index. */
  predicate FirstQualifying(ws: seq<int>, t: real, i: int) {
    0 <= i < |ws| && Qualifies(ws, t, i) && forall j :: 0 <= j < i ==> !Qualifies(ws, t, j)
  }

  /** No index qualifies. */
  predicate NoneQualifies(ws: seq<int>, t: real) {
    forall j :: 0 <= j < |ws| ==> !Qualifies(ws, t, j)
  }

  /** `i` is the answer of a weighted choice: the first qualifying index, or 0 when none qualifies. */
  predicate Chosen(ws: seq<int>, t: real, i: int) {
    if NoneQualifies(ws, t) then i == 0 else FirstQualifying(ws, t, i)
  }

  /** The running sum one weight further. */
  lemma SumStep(ws: seq<int>, i: int)
    requires 0 <= i < |ws|
    ensures Sum(ws[..i + 1]) == Sum(ws[..i]) + ws[i]
  {
    assert ws[..i + 1][..i] == ws[..i];
  }

  /**
   * For a threshold in [0, total), some index qualifies, and the chosen index
   * is where the threshold falls among the running sums: the choice inverts
   * the cumulative weights.
   */
  lemma ChoiceInverse(ws: seq<int>, t: real, i: int)
    requires 0.0 <= t < Sum(ws) as real
    requires Chosen(ws, t, i)
    ensures 0 <= i < |ws|
    ensures Sum(ws[..i]) as real <= t <= Sum(ws[..i + 1]) as real
  {
    var n := |ws| - 1;
    assert n >= 0;
    assert ws[..n + 1] == ws;
    SumStep(ws, n);
    assert Qualifies(ws, t, n);
    assert FirstQualifying(ws, t, i);
    SumStep(ws, i);
    if i > 0 {
      assert !Qualifies(ws, t, i - 1);
      SumStep(ws, i - 1);
    }
  }

  /** The threshold a draw in [0, 1) scales to: `Math.random() * total`. */
  function Threshold(draw: real, total: int): real {
    draw * total as real
  }

  /**
   * `r` is what a spawn from `pool` gives for `draw`: nothing exactly when the
   * pool is empty, else the species at the index the weighted choice over the
   * abundances picks.
   */
  predicate SpawnedFrom(pool: seq<Species>, draw: real, r: Option<Species>) {
    var ws := Abundances(pool);
    && (r.None? <==> |pool| == 0)
    && (r.Some? ==> exists i :: 0 <= i < |pool| && pool[i] == r.value && Chosen(ws, Threshold(draw, Sum(ws)), i))
  }

  lemma SpawnPick(pool: seq<Species>, ws: seq<int>, draw: real, i: int)
    requires ws == Abundances(pool)
    requires Chosen(ws, Threshold(draw, Sum(ws)), i)
    requires |pool| > 0 ==> 0 <= i < |pool|
    ensures SpawnedFrom(pool, draw, if 0 <= i < |pool| then Some(pool[i]) else None)
  {
  }

  /** A draw in [0, 1) of a positive total is a threshold in [0, total). */
  lemma ScaledDraw(draw: real, total: int)
    requires 0.0 <= draw < 1.0 && total > 0
    ensures 0.0 <= Threshold(draw, total) < total as real
  {
  }

  // ---------------------------------------------------------------------------
  // The registry

  /** No item is found by a key exactly when no item's lowercased name is that key. */
  lemma ItemNamed(its: seq<Item>, key: string)
    ensures LastWith(ItemNamePairs(its), key).None? <==> forall i :: 0 <= i < |its| ==> ToLower(its[i].name) != key
  {
    var pairs := ItemNamePairs(its);
    LastWithSpec(pairs, key);
    if LastWith(pairs, key).Some? {
      var i :| 0 <= i < |pairs| && IsLast(pairs, i) && pairs[i] == (key, LastWith(pairs, key).value);
      assert ToLower(its[i].name) == key;
    }
  }

  /** The loop of `moveByNameIndex` over the moves in listing order; it stops at the first move without a name. */
  method IndexByName(ms: seq<Move>) returns (r: Result<map<string, Move>>)
    ensures r.Ok? <==> AllNamed(ms)
    ensures r.Ok? ==> r.value == Overwrite(MoveNamePairs(ms))
  {
    var ret := map[];
    var i := 0;
    while i < |ms|
      invariant 0 <= i <= |ms|
      invariant AllNamed(ms[..i])
      invariant ret == Overwrite(MoveNamePairs(ms[..i]))
    {
      if ms[i].name.None? {
        return Err("TypeError");
      }
      MoveNamePairsStep(ms, i);
      OverwriteSnoc(MoveNamePairs(ms[..i]), (ToLower(ms[i].name.value), ms[i]));
      ret := ret[ToLower(ms[i].name.value) := ms[i]];
      i := i + 1;
    }
    assert ms[..i] == ms;
    r := Ok(ret);
  }

  /** The loaded data and the lookups over it. */
  class Pokedex {
    /** Whether `init` has filled the dictionaries. */
    var initialized: bool
    var pokemon: map<int, Species>
    var items: map<int, Item>
    var moves: map<int, Move>
    var effects: map<int, MoveEffect>
    /** The keys of `pokemon`, `items` and `moves` in the order `Object.values` visits them. */
    var speciesOrder: seq<int>
    var itemOrder: seq<int>
    var moveOrder: seq<int>
    /** The constants tables. */
    const tables: Tables
    /** Accent stripping by Unicode normalisation, left uninterpreted. */
    const deaccent: string -> string

    predicate Valid()
      reads this
    {
      && KeyOrder(pokemon, speciesOrder)
      && KeyOrder(items, itemOrder)
      && KeyOrder(moves, moveOrder)
      && forall k :: k in pokemon ==> pokemon[k].id == k
    }

    /** Loaded and consistent: what every query needs. */
    predicate Ready()
      reads this
    {
      initialized && Valid()
    }

    /** A registry before `init`: nothing loaded. */
    constructor (tables: Tables, deaccent: string -> string)
      ensures Valid() && !initialized
      ensures pokemon == map[] && items == map[] && moves == map[] && effects == map[]
      ensures this.tables == tables && this.deaccent == deaccent
    {
      initialized := false;
      pokemon, items, moves, effects := map[], map[], map[], map[];
      speciesOrder, itemOrder, moveOrder := [], [], [];
      this.tables := tables;
      this.deaccent := deaccent;
    }

    /** `this.effects = …` in `init`: the move effects are replaced, nothing else changes. */
    method StoreEffects(effects: map<int, MoveEffect>)
      requires Valid()
      modifies this
      ensures Valid() && this.effects == effects
      ensures moves == old(moves) && pokemon == old(pokemon) && items == old(items) && initialized == old(initialized)
    {
      this.effects := effects;
    }

    /** `this.moves = …` in `init`: the moves are replaced, nothing else changes. */
    method StoreMoves(moves: map<int, Move>)
      requires Valid()
      modifies this
      ensures Valid() && this.moves == moves
      ensures effects == old(effects) && pokemon == old(pokemon) && items == old(items) && initialized == old(initialized)
    {
      this.moves := moves;
      moveOrder := KeysAscending(moves);
    }

    /** `this.pokemon = …` in `init`: the species are replaced, nothing else changes. */
    method StorePokemon(pokemon: map<int, Species>)
      requires Valid()
      requires forall k :: k in pokemon ==> pokemon[k].id == k
      modifies this
      ensures Valid() && this.pokemon == pokemon
      ensures effects == old(effects) && moves == old(moves) && items == old(items) && initialized == old(initialized)
    {
      this.pokemon := pokemon;
      speciesOrder := KeysAscending(pokemon);
    }

    /** `this.items = …` in `init`: the items are replaced, nothing else changes. */
    method StoreItems(items: map<int, Item>)
      requires Valid()
      modifies this
      ensures Valid() && this.items == items
      ensures effects == old(effects) && moves == old(moves) && pokemon == old(pokemon) && initialized == old(initialized)
    {
      this.items := items;
      itemOrder := KeysAscending(items);
    }

    /** The end of a completed `init`: from now on the guard lets every query through. */
    method MarkInitialized()
      requires Valid()
      modifies this
      ensures Ready()
      ensures effects == old(effects) && moves == old(moves) && pokemon == old(pokemon) && items == old(items)
    {
      initialized := true;
    }

    /** `checkinitialized` as written: it throws whatever the state. */
    function CheckInitializedAsWritten(): (r: Result<()>)
      reads this
      ensures r.Err?
    {
      Err("Method not implemented.")
    }

    /** `checkinitialized` as intended: it throws exactly when `init` has not run. */
    function CheckInitialized(): (r: Result<()>)
      reads this
      ensures r.Ok? <==> initialized
    {
      if initialized then Ok(()) else Err("not initialized")
    }

    /** `allPokemon()`: the species in ascending id order. */
    function AllPokemon(): (r: seq<Species>)
      reads this
      requires Ready()
      ensures |r| == |speciesOrder|
      ensures forall i :: 0 <= i < |r| ==> r[i] == pokemon[speciesOrder[i]] && r[i].id == speciesOrder[i]
    {
      ValuesAt(pokemon, speciesOrder)
    }

    /** `allItems()`: the items in ascending id order. */
    function AllItems(): (r: seq<Item>)
      reads this
      requires Ready()
      ensures |r| == |itemOrder|
      ensures forall i :: 0 <= i < |r| ==> r[i] == items[itemOrder[i]]
    {
      ValuesAt(items, itemOrder)
    }

    /** `Object.values(this.moves)`: the moves in ascending id order. */
    function AllMoves(): (r: seq<Move>)
      reads this
      requires Ready()
      ensures |r| == |moveOrder|
      ensures forall i :: 0 <= i < |r| ==> r[i] == moves[moveOrder[i]]
    {
      ValuesAt(moves, moveOrder)
    }

    /** Every loaded species is listed by `allPokemon`, and only those. */
    lemma SpeciesListed()
      requires Ready()
      ensures forall s :: s in AllPokemon() <==> s.id in pokemon && pokemon[s.id] == s
    {
      var all := AllPokemon();
      forall s ensures s in all <==> s.id in pokemon && pokemon[s.id] == s {
        if s.id in pokemon && pokemon[s.id] == s {
          var i :| 0 <= i < |speciesOrder| && speciesOrder[i] == s.id;
          assert all[i] == s;
        }
      }
    }

    /** The species ids that `keep` holds for, in ascending order. */
    function Flagged(keep: Species -> bool): (r: seq<int>)
      reads this
      requires Ready()
      ensures forall id :: id in r <==> id in pokemon && keep(pokemon[id])
      ensures Ascending(r)
    {
      SpeciesListed();
      IdsWhereAscending(AllPokemon(), keep);
      IdsWhere(AllPokemon(), keep)
    }

    /** `list_mythical`. */
    function ListMythical(): (r: seq<int>)
      reads this
      requires Ready()
      ensures forall id :: id in r <==> id in pokemon && pokemon[id].mythical
      ensures Ascending(r)
    {
      Flagged((s: Species) => s.mythical)
    }

    /** `list_legendary`. */
    function ListLegendary(): (r: seq<int>)
      reads this
      requires Ready()
      ensures forall id :: id in r <==> id in pokemon && pokemon[id].legendary
      ensures Ascending(r)
    {
      Flagged((s: Species) => s.legendary)
    }

    /** `list_ub`. */
    function ListUltraBeast(): (r: seq<int>)
      reads this
      requires Ready()
      ensures forall id :: id in r <==> id in pokemon && pokemon[id].ultraBeast
      ensures Ascending(r)
    {
      Flagged((s: Species) => s.ultraBeast)
    }

    /** `list_event`. */
    function ListEvent(): (r: seq<int>)
      reads this
      requires Ready()
      ensures forall id :: id in r <==> id in pokemon && pokemon[id].event
      ensures Ascending(r)
    {
      Flagged((s: Species) => s.event)
    }

    /** `list_mega`: all mega ids, then all mega X ids, then all mega Y ids. */
    function ListMega(): (r: seq<int>)
      reads this
      requires Ready()
      ensures r == Picks(AllPokemon(), MegaOf) + Picks(AllPokemon(), MegaXOf) + Picks(AllPokemon(), MegaYOf)
      ensures forall x :: x in r <==>
        exists k :: k in pokemon && (pokemon[k].megaId == Some(x) || pokemon[k].megaXId == Some(x) || pokemon[k].megaYId == Some(x))
    {
      var all := AllPokemon();
      SpeciesListed();
      Picks(all, MegaOf) + Picks(all, MegaXOf) + Picks(all, MegaYOf)
    }

    /** `findSpeciesByNumber`: the species with that id, or `null`. */
    function FindSpeciesByNumber(n: int): (r: Option<Species>)
      reads this
      requires Ready()
      ensures r.Some? <==> n in pokemon
      ensures r.Some? ==> r.value.id == n && r.value in AllPokemon()
    {
      SpeciesListed();
      if n in pokemon then Some(pokemon[n]) else None
    }

    /** Every listed species is found again by its own id. */
    lemma FindListed(s: Species)
      requires Ready() && s in AllPokemon()
      ensures FindSpeciesByNumber(s.id) == Some(s)
    {
      SpeciesListed();
    }

    /** `species_id_by_type_index`. */
    method TypeIndex() returns (ret: map<string, seq<int>>)
      requires Ready()
      ensures ret == Group(TypePairs(AllPokemon()))
      ensures forall t, id :: id in Lookup(ret, t) <==> id in pokemon && t in pokemon[id].types
    {
      var ss := AllPokemon();
      ret := map[];
      var i := 0;
      while i < |ss|
        invariant 0 <= i <= |ss|
        invariant GroupFrom(ret, TypePairs(ss[i..])) == Group(TypePairs(ss))
      {
        var s := ss[i];
        assert ss[i..][0] == s && ss[i..][1..] == ss[i + 1..];
        GroupFromConcat(ret, Tagged(s.types, s.id), TypePairs(ss[i + 1..]));
        ret := PushEach(ret, s.types, s.id);
        i := i + 1;
      }
      assert ss[i..] == [];
      forall t, id ensures id in Lookup(ret, t) <==> id in pokemon && t in pokemon[id].types {
        GroupSpec(TypePairs(ss), t);
        SelectMembers(TypePairs(ss), t, id);
        TypePairsMembers(ss, t, id);
        SpeciesListed();
      }
    }

    /** `speciesIdByRegionIndex`. */
    method RegionIndex() returns (ret: map<string, seq<int>>)
      requires Ready()
      ensures ret == Group(RegionPairs(AllPokemon()))
    {
      var ss := AllPokemon();
      ret := map[];
      var i := 0;
      while i < |ss|
        invariant 0 <= i <= |ss|
        invariant GroupFrom(ret, RegionPairs(ss[i..])) == Group(RegionPairs(ss))
      {
        var s := ss[i];
        assert ss[i..] == [s] + ss[i + 1..];
        var region := ToLower(s.region);
        GroupFromCons(ret, (region, s.id), RegionPairs(ss[i + 1..]));
        ret := Push(ret, region, s.id);
        i := i + 1;
      }
    }

    /**
     * `listRegion`: the ids of the species whose lowercased region is the
     * lowercased argument, in ascending order; `[]` when there are none.
     */
    method ListRegion(region: string) returns (r: seq<int>)
      requires Ready()
      ensures r == Select(RegionPairs(AllPokemon()), ToLower(region))
      ensures forall id :: id in r <==> id in pokemon && ToLower(pokemon[id].region) == ToLower(region)
    {
      var index := RegionIndex();
      var key := ToLower(region);
      GroupSpec(RegionPairs(AllPokemon()), key);
      r := Lookup(index, key);
      forall id ensures id in r <==> id in pokemon && ToLower(pokemon[id].region) == key {
        SelectMembers(RegionPairs(AllPokemon()), key, id);
        RegionPairsMembers(AllPokemon(), key, id);
        SpeciesListed();
      }
    }

    /** `speciesIdByMoveIndex`: a species id is pushed under a move only once. */
    method MoveIndex() returns (ret: map<int, seq<int>>)
      requires Ready()
      ensures ret == GroupUnique(MovePairs(AllPokemon()))
      ensures forall m :: Distinct(Lookup(ret, m))
      ensures forall m, id :: id in Lookup(ret, m) <==> id in pokemon && m in MoveIds(pokemon[id].moves)
    {
      var ss := AllPokemon();
      ret := map[];
      var i := 0;
      while i < |ss|
        invariant 0 <= i <= |ss|
        invariant GroupUniqueFrom(ret, MovePairs(ss[i..])) == GroupUnique(MovePairs(ss))
      {
        var s := ss[i];
        assert ss[i..][0] == s && ss[i..][1..] == ss[i + 1..];
        GroupUniqueFromConcat(ret, Tagged(MoveIds(s.moves), s.id), MovePairs(ss[i + 1..]));
        ret := PushEachNew(ret, MoveIds(s.moves), s.id);
        i := i + 1;
      }
      assert ss[i..] == [];
      forall m, id ensures Distinct(Lookup(ret, m))
        && (id in Lookup(ret, m) <==> id in pokemon && m in MoveIds(pokemon[id].moves))
      {
        GroupUniqueSpec(MovePairs(ss), m, id);
        MovePairsMembers(ss, m, id);
        SpeciesListed();
      }
    }

    /** `speciesByDexNumberIndex`. */
    method DexIndex() returns (ret: map<int, seq<Species>>)
      requires Ready()
      ensures ret == Group(DexPairs(AllPokemon()))
    {
      var ss := AllPokemon();
      ret := map[];
      var i := 0;
      while i < |ss|
        invariant 0 <= i <= |ss|
        invariant GroupFrom(ret, DexPairs(ss[i..])) == Group(DexPairs(ss))
      {
        var s := ss[i];
        var rest := DexPairs(ss[i + 1..]);
        var extra := if s.id != s.dexNumber then [(s.dexNumber, s)] else [];
        DexPairsAt(ss, i);
        GroupFromCons(ret, (s.id, s), extra + rest);
        ret := Push(ret, s.id, s);
        if s.id != s.dexNumber {
          GroupFromCons(ret, (s.dexNumber, s), rest);
          ret := Push(ret, s.dexNumber, s);
        } else {
          assert extra + rest == rest;
        }
        i := i + 1;
      }
    }

    /**
     * `allSpeciesByNumber`: every species whose id is `n`, and every species
     * whose dex number is `n`, in ascending id order.
     */
    method AllSpeciesByNumber(n: int) returns (r: seq<Species>)
      requires Ready()
      ensures r == Select(DexPairs(AllPokemon()), n)
      ensures forall s :: s in r <==> s.id in pokemon && pokemon[s.id] == s && (s.id == n || s.dexNumber == n)
    {
      var index := DexIndex();
      GroupSpec(DexPairs(AllPokemon()), n);
      r := Lookup(index, n);
      forall s ensures s in r <==> s.id in pokemon && pokemon[s.id] == s && (s.id == n || s.dexNumber == n) {
        SelectMembers(DexPairs(AllPokemon()), n, s);
        DexPairsMembers(AllPokemon(), n, s);
        SpeciesListed();
      }
    }

    /** `speciesByNameIndex`. */
    method NameIndex() returns (ret: map<string, seq<Species>>)
      requires Ready()
      ensures ret == Group(NamePairs(AllPokemon(), deaccent))
    {
      var ss := AllPokemon();
      ret := map[];
      var i := 0;
      while i < |ss|
        invariant 0 <= i <= |ss|
        invariant GroupFrom(ret, NamePairs(ss[i..], deaccent)) == Group(NamePairs(ss, deaccent))
      {
        var s := ss[i];
        assert ss[i..][0] == s && ss[i..][1..] == ss[i + 1..];
        var keys := GuessKeys(s, deaccent);
        GroupFromConcat(ret, Tagged(keys, s), NamePairs(ss[i + 1..], deaccent));
        ret := PushEach(ret, keys, s);
        i := i + 1;
      }
      assert ss[i..] == [];
    }

    /** The key a species name query is looked up under: lowercased, first ′ made ', accents stripped. */
    function SpeciesKey(name: string): string
      reads this
    {
      deaccent(ReplaceFirst(ToLower(name), "′", "'"))
    }

    /**
     * `speciesByName`: the first species, in ascending id order, whose first
     * name (lowercased and deaccented) or slug is the query's key; `null`
     * when there is none.
     */
    method SpeciesByName(name: string) returns (r: Option<Species>)
      requires Ready()
      ensures r == FirstGuessed(AllPokemon(), deaccent, SpeciesKey(name))
    {
      var index := NameIndex();
      var key := SpeciesKey(name);
      NameGroupFirst(AllPokemon(), deaccent, key);
      if key in index {
        r := Some(index[key][0]);
      } else {
        r := None;
      }
    }

    /** `allSpeciesByName`: every species recorded under the query's key, in order; `[]` when none. */
    method AllSpeciesByName(name: string) returns (r: seq<Species>)
      requires Ready()
      ensures r == Select(NamePairs(AllPokemon(), deaccent), SpeciesKey(name))
      ensures r == [] <==> FirstGuessed(AllPokemon(), deaccent, SpeciesKey(name)).None?
    {
      var index := NameIndex();
      var key := SpeciesKey(name);
      GroupSpec(NamePairs(AllPokemon(), deaccent), key);
      NamePairsFirst(AllPokemon(), deaccent, key);
      r := Lookup(index, key);
    }

    /** `itemByNameIndex`: a later item overwrites an earlier one of the same lowercased name. */
    method ItemNameIndex() returns (ret: map<string, Item>)
      requires Ready()
      ensures ret == Overwrite(ItemNamePairs(AllItems()))
    {
      var its := AllItems();
      var pairs := ItemNamePairs(its);
      ret := map[];
      var i := 0;
      while i < |its|
        invariant 0 <= i <= |its|
        invariant ret == Overwrite(pairs[..i])
      {
        OverwriteStep(pairs, i);
        ret := ret[ToLower(its[i].name) := its[i]];
        i := i + 1;
      }
      assert pairs[..i] == pairs;
    }

    /** The key an item name query is looked up under. */
    function ItemKey(name: string): string
      reads this
    {
      deaccent(ReplaceFirst(ToLower(name), "′", "'"))
    }

    /**
     * `itemByName`: the LAST item, in ascending id order, whose lowercased
     * name is the query's key; `undefined` when there is none.
     */
    method ItemByName(name: string) returns (r: Option<Item>)
      requires Ready()
      ensures r == LastWith(ItemNamePairs(AllItems()), ItemKey(name))
      ensures r.None? <==> forall i :: 0 <= i < |AllItems()| ==> ToLower(AllItems()[i].name) != ItemKey(name)
    {
      var index := ItemNameIndex();
      var key := ItemKey(name);
      var its := AllItems();
      OverwriteLastWith(ItemNamePairs(its), key);
      ItemNamed(its, key);
      r := if key in index then Some(index[key]) else None;
    }

    /**
     * `moveByNameIndex`: a later move overwrites an earlier one of the same
     * lowercased name; a move without a name makes the getter throw.
     */
    method MoveNameIndex() returns (r: Result<map<string, Move>>)
      requires Ready()
      ensures r.Ok? <==> AllNamed(AllMoves())
      ensures r.Ok? ==> r.value == Overwrite(MoveNamePairs(AllMoves()))
    {
      r := IndexByName(AllMoves());
    }

    /** The key a move name query is looked up under: lowercased, first ′ made ’, accents stripped. */
    function MoveKey(name: string): string
      reads this
    {
      deaccent(ReplaceFirst(ToLower(name), "′", "’"))
    }

    /**
     * `moveByName`: the LAST move, in ascending id order, whose lowercased
     * name is the query's key, or `undefined`; it throws when some move has
     * no name.
     */
    method MoveByName(name: string) returns (r: Result<Option<Move>>)
      requires Ready()
      ensures r.Ok? <==> AllNamed(AllMoves())
      ensures r.Ok? ==> r.value == LastWith(MoveNamePairs(AllMoves()), MoveKey(name))
    {
      var index := MoveNameIndex();
      if index.Err? {
        return Err(index.error);
      }
      var key := MoveKey(name);
      OverwriteLastWith(MoveNamePairs(AllMoves()), key);
      r := Ok(if key in index.value then Some(index.value[key]) else None);
    }

    /**
     * `listMove`: every species id for an empty name; otherwise the ids of
     * the species that learn the move found by name, each once, or `[]` when
     * no move has that name.
     */
    method ListMove(moveName: string) returns (r: Result<seq<int>>)
      requires Ready()
      ensures moveName == "" ==> r.Ok? && forall id :: id in r.value <==> id in pokemon
      ensures moveName != "" ==> (r.Ok? <==> AllNamed(AllMoves()))
      ensures moveName != "" && r.Ok? ==>
        var found := LastWith(MoveNamePairs(AllMoves()), MoveKey(moveName));
        && (found.None? ==> r.value == [])
        && (found.Some? ==> r.value == Lookup(GroupUnique(MovePairs(AllPokemon())), found.value.id))
      ensures r.Ok? ==> Distinct(r.value)
    {
      if moveName == "" {
        var all := Flagged((s: Species) => true);
        return Ok(all);
      }
      var move := MoveByName(moveName);
      if move.Err? {
        return Err(move.error);
      }
      if move.value.None? {
        return Ok([]);
      }
      var index := MoveIndex();
      r := Ok(Lookup(index, move.value.value.id));
    }

    /**
     * `weightedRandomChoice` with the draw of `Math.random()` as `draw`: the
     * first index whose weight reaches what is left of `draw * total` after
     * the earlier weights, or 0 when none does; always a valid index of a
     * non-empty list.
     */
    method WeightedRandomChoice(weights: seq<int>, draw: real) returns (i: nat)
      requires initialized
      ensures Chosen(weights, Threshold(draw, Sum(weights)), i)
      ensures |weights| > 0 ==> i < |weights|
    {
      var t := Threshold(draw, Sum(weights));
      var threshold := t;
      var k := 0;
      while k < |weights|
        invariant 0 <= k <= |weights|
        invariant threshold == t - Sum(weights[..k]) as real
        invariant forall j :: 0 <= j < k ==> !Qualifies(weights, t, j)
      {
        if weights[k] as real >= threshold {
          assert Qualifies(weights, t, k) && FirstQualifying(weights, t, k);
          return k;
        }
        assert weights[..k + 1][..k] == weights[..k];
        threshold := threshold - weights[k] as real;
        k := k + 1;
      }
      return 0;
    }

    /**
     * `randomSpawn`: a species of the pool for `rarity`, chosen by weighted
     * choice over the abundances; `undefined` exactly when the pool is empty.
     */
    method RandomSpawn(rarity: string, draw: real) returns (r: Option<Species>)
      requires Ready()
      ensures SpawnedFrom(Pool(AllPokemon(), rarity), draw, r)
      ensures r.Some? ==> r.value.id in pokemon && pokemon[r.value.id] == r.value && InPool(r.value, rarity)
    {
      var pool := Pool(AllPokemon(), rarity);
      var weights := Abundances(pool);
      var i := WeightedRandomChoice(weights, draw);
      SpawnPick(pool, weights, draw, i);
      r := if i < |pool| then Some(pool[i]) else None;
      if r.Some? {
        assert pool[i] in pool;
        SpeciesListed();
      }
    }
  }
}
