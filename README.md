# pokedex, modelled in Dafny

This project models the core of the `pokedex` TypeScript library. The library
loads Pokémon data tables into a registry (`DataManagerBase` / `DataManager`)
and answers queries about species, moves and items. It also simulates one
turn of a battle and the life of one specimen.

Twelve modules make up the model:

- **Nullable** — `Option` and `Result`.
- **Text** — the string operations the library uses: `indexOf`, `replace`
  of a first occurrence, `join`, `split`, `trim` and `toLowerCase` on ASCII.
- **Assoc** — what a JavaScript dictionary or `Map` becomes after a loop of
  assignments or `push`es. The last assignment wins, and grouping keeps
  order.
- **Utils** (src/utils.ts):
  - `comma_formatted`;
  - the `isnumber` pattern;
  - `parseInt` on the strings that pattern accepts;
  - the cleaning of one CSV row in `get_data_from`.
- **Entities** — the value records of src/models.ts and the constants
  tables they read.
- **Stages** — the `StatStages` class, which updates its counters in place.
- **Describe** — the `text` getters of the evolution triggers, `Evolution`
  and `EvolutionList`.
- **Registry** — the `DataManagerBase` class:
  - its dictionaries, `init`'s assignments to them and the
    initialisation check;
  - every index getter and lookup;
  - the weighted random spawn.
- **Battle** — `Move.calculate_turn`.
- **Specimens** — src/pokemonbase.ts:
  - the stat formulas;
  - the `PokemonBase` constructor;
  - hit points;
  - `getNextEvolution` and `canEvolve`.
- **LevelSort** — the stable sort by level applied to each species' moves.
- **Loader** — src/init.ts:
  - the evolution triggers;
  - the species with their onward and backward evolutions and their
    level-up moves;
  - the items, effects and moves;
  - `init`, which stores them into the registry in the library's order.

Every `Math.random()` draw is an explicit input, a real in `[0, 1)`.

Rows of the CSV files arrive as sequences of records. Their numeric columns
are `Option<int>`, where `None` stands for an empty cell. Their free-form
columns are `Cell`s: the value `get_data_from` leaves, either a parsed
integer or a trimmed string.

Loops that build dictionaries are methods with invariants. Each is proved
equal to a function of its input. Lemmas then state what that function
contains: which keys are present, and which row supplies each value.

## Model

| member | source | states |
|---|---|---|
| Utils.CommaFormatted | src/utils.ts:51-57 | an empty list gives the empty string; one item gives that item |
| Utils.CommaFormattedIsEnglishList | src/utils.ts:51-60 | for every list, the result equals an independent definition: all items but the last, joined by ", ", then " and " and the last |
| Utils.CommaFormattedShapes | src/utils.ts:59 | two items give "a and b"; three give "a, b and c" |
| Utils.NumberPartsAccepted | src/utils.ts:47-49 | every optional "-", non-empty digit run, optional ".", digit run is accepted by `isnumber` |
| Utils.NumberPartsOf | src/utils.ts:47-49 | everything `isnumber` accepts splits into exactly those parts (the converse) |
| Utils.IsNumberAccepts | src/utils.ts:47-49 | "1.", "-12.50" and "7" are numbers |
| Utils.IsNumberRejects | src/utils.ts:47-49 | "", "+1", ".5", "1.2.3" and "-" are not |
| Utils.ParseIntOfNumber | src/utils.ts:26-27 | on an accepted string, `parseInt` gives the signed value of the leading digit run; a fraction is dropped |
| Utils.ParseIntOfIntToString | src/utils.ts:26-27 | the decimal text of every integer is a number, and `parseInt` gives the integer back |
| Utils.ParseIntHex | src/init.ts:118 | `parseInt` without a radix reads a "0x" or "0X" prefix as radix 16: the value is that of the hexadecimal digits after it |
| Utils.CleanValueOfIntToString | src/utils.ts:25-28 | a cell holding an integer's text is cleaned to that integer |
| Utils.CleanPairsSpec | src/utils.ts:23-28 | every cleaned key is already trimmed (trimming it again changes nothing); a value becomes a number exactly when its trimmed text passes `isnumber`; a value left as text is the trimmed text, has nothing left to trim, and is not a number |
| Utils.CleanRow | src/utils.ts:22-29 | the cleaned row is the dictionary the assignments build, in column order |
| Utils.CleanRowLast | src/utils.ts:23-28 | a column whose trimmed key no later column repeats supplies that key's value |
| Utils.CleanRowKeys | src/utils.ts:23-28 | every key of the cleaned row is the trimmed key of some column |
| Entities.StatName | src/models.ts:90-94 | a name exists exactly for ids 1 to 8, and it is one of the stat names |
| Entities.StatNameRoundTrip | src/models.ts:90-94 | the name of an id gives that id back |
| Entities.StatIdRoundTrip | src/models.ts:90-94 | each stat name is the name of its id |
| Entities.FirstTagged | src/models.ts:1197-1204 | `None` exactly when no name carries the flag; otherwise the name of the first entry that does |
| Entities.TypeName | src/models.ts:754-759 | a type name exists exactly for an index inside `TYPES` |
| Entities.FirstPosition | src/models.ts:484 | `indexOf`: the first position holding the value, or -1 exactly when it is absent |
| Stages.StatStages.constructor | src/models.ts:129-149 | the counters are all zero, or the values given |
| Stages.StatStages.Update | src/models.ts:151-161 | each counter becomes the old counter plus the argument's old counter; this holds even when the argument is the object itself |
| Stages.UpdatesCompose | src/models.ts:151-161 | for all counters: two updates in a row are one update by the summed counters, in either order, and an update by the negated counters undoes an update |
| Describe.LevelTextOpening | src/models.ts:762-768 | the text opens with "when leveled up" or "starting from level N" |
| Describe.LevelTextClosing | src/models.ts:790-792 | a time of day closes the text with " in the T time" |
| Describe.LevelTextBare | src/models.ts:762-795 | the text is the opening clause alone exactly when no optional clause applies |
| Describe.TradeTextBare | src/models.ts:858-864 | the text is "when traded" exactly when there is no held item |
| Describe.TradeTextItem | src/models.ts:850-864 | with a held item, the text names the item, or "undefined" when the id is not loaded |
| Describe.EvolutionTexts | src/models.ts:996-997 | a successful rendering gives one text per evolution |
| Describe.EvolutionTextsSpec | src/models.ts:996-997 | the texts of a list fail exactly when some evolution's text fails; otherwise the i-th text is the i-th evolution's text |
| Describe.EvolutionTextFuel | src/models.ts:969-976 | a text produced with some depth bound is the same under any larger bound |
| Describe.EvolutionTextsFuel | src/models.ts:996-997 | the same holds for the texts of a list of evolutions |
| Describe.EvolutionListTextFuel | src/models.ts:996-1000 | and for the text of the whole list |
| Describe.EvolutionTextLast | src/models.ts:961-975 | a target that evolves no further gives "evolves DIR TARGET TRIGGER" |
| Describe.ListTextShape | src/models.ts:996-1000 | only the first " and " becomes ", "; the rest stay joined by " and " |
| Describe.ListTextOne | src/models.ts:996-1000 | a list of one is that text |
| Describe.ListTextTwo | src/models.ts:996-1000 | two texts give "a, b" |
| Describe.ListTextThree | src/models.ts:996-1000 | three texts give "a, b and c": only the first separator becomes a comma |
| Registry.Pokedex.constructor | src/models.ts:1285-1321 | a fresh registry is empty, consistent and not initialised |
| Registry.Pokedex.StoreEffects | src/init.ts:376 | the effects are replaced and nothing else changes |
| Registry.Pokedex.StoreMoves | src/init.ts:377 | the moves are replaced and nothing else changes |
| Registry.Pokedex.StorePokemon | src/init.ts:378 | the species are replaced and nothing else changes; each species is stored under its own id |
| Registry.Pokedex.StoreItems | src/init.ts:379 | the items are replaced and nothing else changes |
| Registry.Pokedex.MarkInitialized | src/init.ts:375-380 | after loading, the registry is ready, with its dictionaries unchanged |
| Registry.Pokedex.CheckInitializedAsWritten | src/models.ts:1291-1293 | as written, the check fails in every state |
| Registry.Pokedex.CheckInitialized | src/models.ts:1291-1293 | corrected, the check succeeds exactly when `init` has run |
| Registry.Pokedex.AllPokemon | src/models.ts:1334-1337 | every species, in ascending id order; each is stored under its own id |
| Registry.Pokedex.AllItems | src/models.ts:1531-1534 | every item, in ascending id order |
| Registry.Pokedex.AllMoves | src/models.ts:1668 | every move, in ascending id order |
| Registry.Pokedex.SpeciesListed | src/models.ts:1334-1337 | a species is listed exactly when it is stored under its id |
| Registry.Pokedex.Flagged | src/models.ts:1384-1421 | the ids of exactly the species with the flag, ascending |
| Registry.Pokedex.ListMythical | src/models.ts:1384-1389 | an id is listed exactly when its species is mythical, in ascending id order (the order of `Object.values`) |
| Registry.Pokedex.ListLegendary | src/models.ts:1394-1399 | an id is listed exactly when its species is legendary, in ascending id order (the order of `Object.values`) |
| Registry.Pokedex.ListUltraBeast | src/models.ts:1404-1409 | an id is listed exactly when its species is an ultra beast, in ascending id order (the order of `Object.values`) |
| Registry.Pokedex.ListEvent | src/models.ts:1414-1419 | an id is listed exactly when its species is an event species, in ascending id order (the order of `Object.values`) |
| Registry.Pokedex.ListMega | src/models.ts:1424-1437 | three blocks in this order: the mega ids, then the mega X ids, then the mega Y ids, each taken over the species in listing order with repeats kept; an id is listed exactly when some species names it as one of its mega forms |
| Registry.Pokedex.FindSpeciesByNumber | src/models.ts:1583-1586 | found exactly when the id is stored; the result has that id and is listed |
| Registry.Pokedex.FindListed | src/models.ts:1583-1586 | every listed species is found by its own id |
| Registry.Pokedex.TypeIndex | src/models.ts:1442-1456 | the grouping by type; an id is under a type exactly when its species has that type |
| Registry.Pokedex.RegionIndex | src/models.ts:1461-1474 | the grouping by lowercased region, in listing order |
| Registry.Pokedex.ListRegion | src/models.ts:1481-1484 | an id is listed exactly when its species' region matches, ignoring case; a missing region gives [] |
| Registry.Pokedex.MoveIndex | src/models.ts:1489-1506 | the grouping by move without repeats; an id is under a move exactly when its species learns the move |
| Registry.Pokedex.DexIndex | src/models.ts:1539-1558 | each species is grouped under its id, and also under its dex number when that differs |
| Registry.Pokedex.AllSpeciesByNumber | src/models.ts:1564-1567 | a species is returned exactly when its id or its dex number is the number asked for |
| Registry.Pokedex.NameIndex | src/models.ts:1591-1609 | the grouping of the species, in listing order, by their guess keys: the first name lowercased and deaccented, then the slug. A species without names is also filed under `undefined`, which no string query can equal, so the model leaves that key out |
| Registry.Pokedex.SpeciesByName | src/models.ts:1613-1618 | the first listed species whose guess keys include the normalised name, or `None` |
| Registry.Pokedex.AllSpeciesByName | src/models.ts:1573-1577 | every species under the normalised name; empty exactly when `speciesByName` finds none |
| Registry.Pokedex.ItemNameIndex | src/models.ts:1632-1640 | lowercased names map to items; the last item with a given name wins |
| Registry.Pokedex.ItemByName | src/models.ts:1646-1651 | the last item whose lowercased name is the normalised name; `None` exactly when there is none |
| Registry.Pokedex.MoveNameIndex | src/models.ts:1665-1673 | fails exactly when some move has no name, as `toLowerCase` of `undefined` would; otherwise the last move with a name wins |
| Registry.IndexByName | src/models.ts:1667-1672 | the loop fails exactly when some move has no name; otherwise it builds the name dictionary in which the last move with a name wins |
| Registry.ItemNamed | src/models.ts:1646-1651 | no item is found by a key exactly when no item's lowercased name is that key |
| Registry.Pokedex.MoveByName | src/models.ts:1679-1684 | fails under the same condition; otherwise the last move with the normalised name |
| Registry.Pokedex.ListMove | src/models.ts:1512-1526 | an empty name lists every species; otherwise the index entry for the named move, [] when no move has that name; never a repeat |
| Registry.Pokedex.WeightedRandomChoice | src/models.ts:1726-1739 | the chosen index satisfies the reference definition of the choice, and lies within the weights when there are any |
| Registry.Pokedex.RandomSpawn | src/models.ts:1691-1707 | the species chosen from the catchable pool of that rarity by abundance; it is listed and in the pool |
| Registry.TypePairsMembers | src/models.ts:1445-1453 | a (type, id) pair is produced exactly for a species of that type |
| Registry.RegionPairsMembers | src/models.ts:1464-1471 | a (region, id) pair is produced exactly for a species of that region |
| Registry.DexPairsMembers | src/models.ts:1542-1555 | a (number, species) pair is produced exactly when the number is the species' id or dex number |
| Registry.MovePairsMembers | src/models.ts:1492-1503 | a (move, id) pair is produced exactly when the species learns the move |
| Registry.FirstGuessed | src/models.ts:1613-1618 | `None` exactly when no species has the key; otherwise the first species that has it |
| Registry.NamePairsFirst | src/models.ts:1591-1618 | the first species grouped under a key is the first species guessed by it |
| Registry.NameGroupFirst | src/models.ts:1591-1618 | a key is in the name index exactly when some species has it, and its first entry is that species |
| Registry.Pool | src/models.ts:1693-1702 | the pool holds exactly the listed species that are catchable and of that rarity |
| Registry.IdsWhere | src/models.ts:1384-1389 | `filter` then `map` to ids: exactly the ids of the kept species |
| Registry.IdsWhereAscending | src/models.ts:1384-1389 | over species in ascending id order, the ids stay ascending |
| Registry.Picks | src/models.ts:1424-1437 | exactly the values some species supplies, and never more ids than species |
| Registry.PicksConcat | src/models.ts:1424-1437 | the picks of two runs of species are the first run's picks followed by the second's |
| Registry.PicksSnoc | src/models.ts:1424-1437 | one more species appends its id when it has one and nothing otherwise, so the ids follow the species order and repeats are kept |
| Registry.ChoiceInverse | src/models.ts:1728-1736 | the chosen index i has a threshold between the sum of the first i weights and the sum of the first i+1 |
| Registry.SpawnPick | src/models.ts:1704-1706 | the index chosen by abundance picks the spawned species; an empty pool gives `undefined` |
| Battle.OrOne | src/models.ts:420-423 | `x \|\| 1` is never zero; it is `x` when `x` is set and not zero |
| Battle.HitCountRange | src/models.ts:417-423 | the number of hits lies between the minimum and the maximum |
| Battle.SingleHit | src/models.ts:417-423 | without minimum or maximum, a move hits once |
| Battle.GatedAll | src/models.ts:456-468 | the move still succeeds exactly when it did before and every ailment lets it through |
| Battle.BurnOnlyPhysical | src/models.ts:469-472 | burn leaves the damage of a non-physical move alone |
| Battle.BurnHalves | src/models.ts:469-472 | a physical move's damage is halved once for each burn |
| Battle.TypeMultiplierNonZero | src/models.ts:478-488 | the type multiplier is never zero, since `multi \|\| 1` replaces a zero |
| Battle.TypeMultiplierNoRow | src/models.ts:481-486 | without an efficacy row for the move's type, the multiplier is 1 |
| Battle.MessagesSpec | src/models.ts:490-502 | a hit-count message appears exactly when there are several hits; no message appears exactly when the multiplier is 1 and there is at most one hit; at most two messages |
| Battle.SelectedSubsequence | src/models.ts:504-509 | the kept stat changes are exactly those whose draw is below the chance, in order |
| Battle.SelectedNone | src/models.ts:504-509 | a zero chance keeps no stat change |
| Battle.StabNeedsDigits | src/models.ts:511-513 | the same-type bonus needs a type name that `in` finds on the types array: all digits, "length", or a name inherited from `Array.prototype` or `Object.prototype`; a defined type with one of the latter names always gets it |
| Battle.NoStabForLetters | src/models.ts:511-513 | a type name with a non-digit, other than "length" and the inherited names, never gets the bonus |
| Battle.StatusTurn | src/models.ts:401-404 | a status move (or one without power) deals no damage and reports no hits; it succeeds exactly when every ailment lets it |
| Battle.TurnSuccess | src/models.ts:401-468 | the turn succeeds exactly when the move is a status move or hits, and every ailment lets it |
| Battle.NeverIneffective | src/models.ts:492-493 | "It's not effective..." is never reported |
| Battle.ApplyAilments | src/models.ts:456-474 | the loop over ailments gives the gated success and the burned damage |
| Battle.MultiplyTypes | src/models.ts:478-488 | the loop over the opponent's types gives the type multiplier |
| Battle.SelectChanges | src/models.ts:504-509 | the loop keeps the selected stat changes |
| Battle.TurnAilment | src/models.ts:476-477 | a turn reports an ailment exactly when the ailment draw falls below the ailment chance and the table names the move's ailment with a non-blank name, which is the one reported; a missing entry or a blank name gives none, because the `MoveResult` constructor turns a falsy ailment into `null` (line 198) |
| Battle.CalculateTurn | src/models.ts:397-523 | the whole turn equals its reference definition, whose properties the lemmas above state |
| Specimens.CalcStatInteger | src/pokemonbase.ts:14-22 | the floor of the real formula, with the nature multiplier in tenths, equals an integer division |
| Specimens.CalcStatNeutral | src/pokemonbase.ts:14-22 | a neutral nature gives floor(growth × level / 100) + 5 |
| Specimens.CalcStatMonotoneInNature | src/pokemonbase.ts:18-21 | a larger nature multiplier never lowers the stat |
| Specimens.MaxHpGrowth | src/pokemonbase.ts:154-164 | apart from the one-HP species, max HP is at least level + 10 and grows with the level |
| Specimens.MaxXpStep | src/pokemonbase.ts:150-152 | each level adds 30 experience points to the maximum; the maximum is at least 500 |
| Specimens.RollIvRange | src/pokemonbase.ts:9 | a random IV lies in 0..31 |
| Specimens.PickIndex | src/pokemonbase.ts:10-11 | a random index lies inside the list |
| Specimens.RollNature | src/pokemonbase.ts:10-11 | a random nature is one of the natures |
| Specimens.RollShinyWindow | src/pokemonbase.ts:112 | shiny exactly when the draw falls in [1/4096, 2/4096) |
| Specimens.IvTotalRange | src/pokemonbase.ts:113-120 | the IV total of six IVs in range lies in 0..186 |
| Specimens.LearnedMoves | src/pokemonbase.ts:126 | the specimen keeps the species' move records, and no move id is ever found among them |
| Specimens.EligibleIgnoresTime | src/pokemonbase.ts:217-251 | time of day and move type never affect eligibility |
| Specimens.MoveGatedNeedsId | src/pokemonbase.ts:232-234 | a move-gated trigger is never met by move records, since `includes` compares objects with ids |
| Specimens.EligibleTargetsSpec | src/pokemonbase.ts:217-251 | a target is possible exactly when some level-triggered edge to it has its conditions met |
| Specimens.CollectEligible | src/pokemonbase.ts:215-251 | the loop collects exactly the possible targets, in order |
| Specimens.Specimen.constructor | src/pokemonbase.ts:105-134 | ids, level 0, xp 0; random nature, shininess and IVs from the draws, with their total; empty customisation; the species' moves; no stored HP; no ailments; zero stages |
| Specimens.Specimen.Hp | src/pokemonbase.ts:166-168 | the stored HP, or max HP when none is stored |
| Specimens.Specimen.SetHp | src/pokemonbase.ts:170-172 | the stored HP becomes the value and nothing else changes |
| Specimens.Specimen.GetNextEvolution | src/pokemonbase.ts:210-258 | `None` exactly when no target is possible; otherwise the possible target at the drawn index |
| Specimens.Specimen.CanEvolve | src/pokemonbase.ts:260-262 | true exactly when some target is possible |
| Specimens.FreshNeverMoveGated | src/pokemonbase.ts:126 | a fresh specimen never meets a move-gated trigger |
| Specimens.EverstoneBlocks | src/pokemonbase.ts:211-213 | holding item 13001 blocks every evolution |
| LevelSort.InsertByLevel | src/init.ts:236-239 | inserting adds exactly one entry to the multiset |
| LevelSort.SortSorted | src/init.ts:236-239 | the sorted moves are ascending by level |
| LevelSort.SortPermutes | src/init.ts:236-239 | the sorted moves are a permutation of the input |
| LevelSort.SortStable | src/init.ts:236-239 | the entries of each level keep their order |
| Loader.OrNull | src/init.ts:52-57 | `x \|\| null` is null exactly when `x` is missing or zero, and otherwise `x` |
| Loader.CellOrNull | src/init.ts:56 | a text column is null exactly when it is falsy, and otherwise its non-empty text |
| Loader.EvolutionTrigger | src/init.ts:45-92 | no row gives no trigger. Trigger 1 without a location gives a level trigger whose fields are never 0 or ""; happiness makes its item 14001. Trigger 2 gives a trade trigger holding the item, or none. Trigger 3 with an item gives an item trigger. Everything else gives the other trigger |
| Loader.EvolutionIndexFirstRow | src/init.ts:41-44 | after the reversal, the FIRST row for a species is the one kept |
| Loader.EvolutionIndexKeys | src/init.ts:41-44 | the index has a key exactly for each evolved species in the rows |
| Loader.SpeciesIndexIds | src/init.ts:35-38 | each row is stored under its own id |
| Loader.NonEmptySpec | src/init.ts:114-116 | the skip keeps exactly the non-empty tokens, and changes nothing when there are none |
| Loader.Tokens | src/init.ts:113-116 | the tokens of `evo.to` are non-empty and contain no space |
| Loader.TokensJoin | src/init.ts:113-116 | splitting a space-joined list of words gives the words back |
| Loader.Onward | src/init.ts:118-120 | a forward evolution to the parsed id whose trigger is that of the target's own evolution row (`get_evolution_trigger(pto.id)`), and no trigger exactly when the target has no row |
| Loader.TargetsSnoc | src/init.ts:113-121 | one more token adds its evolution, or fails with a `TypeError` when the species is unknown |
| Loader.TargetsErrExtends | src/init.ts:113-121 | a failure stays a failure whatever tokens follow |
| Loader.EvolutionsOnwardSpec | src/init.ts:111-126 | fails exactly when some token names an unknown species; null exactly when the cell is falsy or has no tokens; otherwise one forward evolution per token, in order |
| Loader.SingleTarget | src/init.ts:111-126 | a single known id gives one forward evolution with that species' trigger |
| Loader.TargetsFailLater | src/init.ts:113-121 | a failure on a prefix of the tokens fails the whole list |
| Loader.TargetsStep | src/init.ts:113-121 | one more piece of the cell: an empty piece changes nothing, a known id appends its evolution, an unknown id fails the whole cell |
| Loader.EvolutionsTo | src/init.ts:111-126 | the loop gives the list the reference definition describes |
| Loader.BuildSpecies | src/init.ts:100-204 | fails exactly when the onward list fails; otherwise the id, no moves yet, the onward list, and a backward evolution exactly when `evo.from` is set, with this species' trigger |
| Loader.BuildOne | src/init.ts:100-204 | the method builds that species |
| Loader.MaxVersionSpec | src/init.ts:207-214 | the version group of a species is at least every one of its rows, and is 0 or one of them |
| Loader.VersionGroups | src/init.ts:207-214 | the loop has a key exactly for each species in the rows, holding its latest version group |
| Loader.LevelUpMembers | src/init.ts:216-234 | a move is added exactly for a level-up row of the species' latest version group whose move is loaded |
| Loader.CollectLevelUp | src/init.ts:216-234 | the loop appends each species' level-up moves and keeps the species |
| Loader.SortAll | src/init.ts:236-239 | every species' moves are sorted and nothing else changes |
| Loader.BuildAll | src/init.ts:94-205 | the loop succeeds exactly when every enabled species builds, and then gives all of them |
| Loader.LoadPokemon | src/init.ts:33-242 | `get_pokemon` gives the reference definition |
| Loader.PokemonOfSpec | src/init.ts:94-239 | every loaded species is stored under its id and comes from an enabled row; its moves are sorted by level, loaded, and each learnt from a qualifying row |
| Loader.BuildItem | src/init.ts:248-259 | the id; inline exactly when `seperate` is falsy; a shard exactly when `shard` is truthy; a description and an emote exactly when their columns are truthy |
| Loader.LoadItems | src/init.ts:244-263 | the loop gives the items the reference definition describes |
| Loader.ItemsOfSpec | src/init.ts:247-260 | the last row with an id supplies its item |
| Loader.ItemsOfKeys | src/init.ts:247-260 | an id is present exactly when some row has it |
| Loader.EffectDescriptionSpec | src/init.ts:269-273 | the first "$effect_chance" becomes "{effect_chance}", and the text before it is unchanged; without it, only the link replacement applies |
| Loader.LoadEffects | src/init.ts:265-282 | the loop gives the effects the reference definition describes |
| Loader.EffectsOfSpec | src/init.ts:268-279 | the last row with an id supplies its effect |
| Loader.MoveNamesEnglish | src/init.ts:287-292 | every move name comes from an English row for that move |
| Loader.MetaIndexSpec | src/init.ts:294-297 | a move has meta data exactly when some meta row names it, and the last such row supplies it |
| Loader.StatIndexSpec | src/init.ts:301-312 | a move's stat changes are exactly its rows, in order |
| Loader.Accuracy | src/init.ts:329-336 | 100 when the effect says "never misses"; otherwise `accuracy \|\| null`; never 0 |
| Loader.LoadMoves | src/init.ts:313-370 | the loop gives the moves the reference definition describes |
| Loader.MovesOfSpec | src/init.ts:313-370 | a move is loaded exactly for a row with id at most 10000 and meta data; it is stored under its id, and its accuracy is never 0 and is 100 when it never misses |
| Loader.Init | src/init.ts:373-381 | effects, then moves (reading the new effects), then species (reading the new moves), then items. A `TypeError` in the species leaves the species and items unchanged; success leaves the registry ready |

## Left out

- Reading the CSV files, `async`/`await`, and console output are not modelled. Each table is an input sequence of rows.
- `Math.random()` is an input draw. Floating-point arithmetic is exact real arithmetic.
- Battle.CalculateTurn: the level/attack/defence damage formula is not modelled; the turn takes that damage, before burn, type and same-type adjustments, as an input.
- The constants tables (`TYPES`, `TYPE_EFFICACY`, `STAT_STAGE_MULTIPLIERS`, `MOVE_AILMENTS`, `NATURES`, `NATURE_MULTIPLIERS`) and `DESCRIPTION_LINK_REGEX` are uninterpreted values. `NATURE_MULTIPLIERS` is taken in tenths.
- `deaccent` (Unicode normalisation) is an uninterpreted function. `toLowerCase` covers ASCII letters only.
- Specimens.Specimen.GetNextEvolution: returns the target id, not the resolved `Species`. The `species` getter is replaced by the species the specimen was built from.
- Describe.EvolutionTexts: carries a depth bound (fuel). A cyclic evolution chain, on which the library recurses until the stack overflows, ends in an error instead.
- `ivPercentage`, `format`, `toString` and `toJSON` are presentation only and are not modelled.
- `list_alolan`, `list_galarian`, `list_hisuian` and `list_paradox` return fixed id lists written out as literals in the getters; those lists are data, not behaviour, and are not modelled.
- `itemByNumber`, `moveByNumber` and `spawnWeights` are plain dictionary reads without further logic. They are not modelled.
- `randomSpawnPokemon`, the mega getters of `Species`, `trade_evolutions`, `Species.evolution_text` and `moveset` read resources outside the core and are not modelled.
- The species columns other than `id`, `evo.from` and `evo.to` arrive in the row already converted to what a `Species` holds. The conversions `get_pokemon` applies to them are not modelled:
  - `parseInt` on the base stats and the dex number, and `/ 10` on height and weight;
  - `parseInt(x) || 0` on the abundance, `parseInt(x) || -1` on the gender rate, and `parseInt(x) || null` on the mega ids and the form item;
  - `x || null` on the description and `!!` on the flags;
  - the inverted `credit` column, which becomes "" when it is set;
  - the types and names, collected by the presence of their columns, so that an empty `type.1` cell gives a type "".
- Battle.StabNeedsDigits: the names an array inherits are those of ECMAScript 2023 (`ArrayPrototypeKeys`, `ObjectPrototypeKeys`); an engine with other `Array.prototype` methods finds other keys.
- Registry.Pokedex.TypeIndex: the library builds the type index on a plain object. A type named after an inherited property such as `constructor`, `toString` or `__proto__` makes its `push` throw a `TypeError`; the model groups such a type like any other.
- A non-numeric `evo.from` (which `parseInt` turns into `NaN`) is not modelled. The column is an `Option<int>`.
- Loader.SortAll: the species are visited in the order a set yields them rather than in ascending id order. Each species' list is sorted independently, so the result is the same.
- LevelSort.SortByLevel: the in-place `Array.prototype.sort` is modelled as a stable insertion sort on values. Aliasing of the moves array is not modelled.

## Findings

| source | as written | input that shows it | evidently intended | confidence | as-written member | corrected member |
|---|---|---|---|---|---|---|
| src/models.ts:1291-1293 | `checkinitialized` throws unconditionally, so every query of the registry throws, even after `init` | any call of `allPokemon()` after `await init()` | throw only while the registry has not been loaded | high; not executed | Registry.Pokedex.CheckInitializedAsWritten | Registry.Pokedex.CheckInitialized |
