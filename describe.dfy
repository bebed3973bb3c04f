/**
 * The `text` getters of src/models.ts: the sentence each evolution trigger
 * renders as, the text of an evolution (which follows the chain of
 * evolutions of its target), and the text of a list of evolutions.
 *
 * Values are rendered the way a template literal renders them: an item by
 * its name, a move (which has no `toString`) as "[object Object]", a missing
 * dictionary entry as "undefined" and a species by its English name or
 * "null".
 */
module Describe {
  import opened Nullable
  import opened Text
  import opened Utils
  import opened Entities

  /** `${items[id]}`. */
  function ItemText(items: map<int, Item>, id: int): string {
    if id in items then items[id].name else "undefined"
  }

  /** `${moves[id]}`. */
  function MoveText(moves: map<int, Move>, id: int): string {
    if id in moves then "[object Object]" else "undefined"
  }

  /** `${TYPES[id]}`. */
  function TypeText(tables: Tables, id: int): string {
    match TypeName(tables, id)
    case Some(name) => name
    case None => "undefined"
  }

  /** The opening clause of a level trigger's text. */
  function LevelBase(level: Option<int>): string {
    match level
    case None => "when leveled up"
    case Some(n) => "starting from level " + IntToString(n)
  }

  /** The clause for a relative-stats requirement; other values add nothing. */
  function RelativeClause(relativeStats: Option<int>): string {
    if relativeStats == Some(1) then " when its Attack is higher than its Defense"
    else if relativeStats == Some(-1) then " when its Defense is higher than its Attack"
    else if relativeStats == Some(0) then " when its Attack is equal to its Defense"
    else ""
  }

  /**
   * `LevelTrigger.text`: the opening clause, then the item, move, move-type,
   * relative-stats and time clauses, in that order, each only when its value
   * is set.
   */
  function LevelText(t: Trigger, items: map<int, Item>, moves: map<int, Move>, tables: Tables): string
    requires t.LevelTrigger?
  {
    LevelBase(t.level)
    + (if t.itemId.Some? then " while holding a " + ItemText(items, t.itemId.value) else "")
    + (if t.moveId.Some? then " while knowing " + MoveText(moves, t.moveId.value) else "")
    + (if t.moveTypeId.Some? then " while knowing a " + TypeText(tables, t.moveTypeId.value) + "-type move" else "")
    + RelativeClause(t.relativeStats)
    + (if t.time.Some? then " in the " + t.time.value + " time" else "")
  }

  /** `TradeTrigger.text`. */
  function TradeText(t: Trigger, items: map<int, Item>): string
    requires t.TradeTrigger?
  {
    match t.tradeItemId
    case None => "when traded"
    case Some(id) => "when traded while holding a " + ItemText(items, id)
  }

  /** The `text` of any trigger: `ItemTrigger` says which item is used, `OtherTrigger` says "somehow". */
  function TriggerText(t: Trigger, items: map<int, Item>, moves: map<int, Move>, tables: Tables): string {
    match t
    case LevelTrigger(_, _, _, _, _, _) => LevelText(t, items, moves, tables)
    case ItemTrigger(id) => "using a " + ItemText(items, id)
    case TradeTrigger(_) => TradeText(t, items)
    case OtherTrigger => "somehow"
  }

  /** A level trigger's text opens with "when leveled up" when it has no level, else with its level. */
  lemma LevelTextOpening(t: Trigger, items: map<int, Item>, moves: map<int, Move>, tables: Tables)
    requires t.LevelTrigger?
    ensures t.level.None? ==> StartsWith(LevelText(t, items, moves, tables), "when leveled up")
    ensures t.level.Some? ==>
      StartsWith(LevelText(t, items, moves, tables), "starting from level " + IntToString(t.level.value))
  {
    var base := LevelBase(t.level);
    var text := LevelText(t, items, moves, tables);
    assert text[..|base|] == base;
  }

  /** The time clause, when there is one, closes a level trigger's text. */
  lemma LevelTextClosing(t: Trigger, items: map<int, Item>, moves: map<int, Move>, tables: Tables)
    requires t.LevelTrigger? && t.time.Some?
    ensures EndsWith(LevelText(t, items, moves, tables), " in the " + t.time.value + " time")
  {
    var text := LevelText(t, items, moves, tables);
    var tail := " in the " + t.time.value + " time";
    assert text[|text| - |tail|..] == tail;
  }

  /** Whether a level trigger sets any requirement beyond its level that its text mentions. */
  predicate HasClauses(t: Trigger)
    requires t.LevelTrigger?
  {
    t.itemId.Some? || t.moveId.Some? || t.moveTypeId.Some? || t.time.Some?
    || t.relativeStats == Some(1) || t.relativeStats == Some(-1) || t.relativeStats == Some(0)
  }

  /** A level trigger's text is its opening clause alone exactly when no other clause applies. */
  lemma LevelTextBare(t: Trigger, items: map<int, Item>, moves: map<int, Move>, tables: Tables)
    requires t.LevelTrigger?
    ensures LevelText(t, items, moves, tables) == LevelBase(t.level) <==> !HasClauses(t)
  {
    var text := LevelText(t, items, moves, tables);
    if HasClauses(t) {
      assert |text| > |LevelBase(t.level)|;
    }
  }

  /** A trade trigger's text is exactly "when traded" iff it names no item. */
  lemma TradeTextBare(t: Trigger, items: map<int, Item>)
    requires t.TradeTrigger?
    ensures TradeText(t, items) == "when traded" <==> t.tradeItemId.None?
  {
    if t.tradeItemId.Some? {
      assert |TradeText(t, items)| > |"when traded"|;
    }
  }

  /** The item clause of a trade names the held item: the item's name, or "undefined" when it is not loaded. */
  lemma TradeTextItem(t: Trigger, items: map<int, Item>)
    requires t.TradeTrigger? && t.tradeItemId.Some?
    ensures t.tradeItemId.value in items ==>
      TradeText(t, items) == "when traded while holding a " + items[t.tradeItemId.value].name
    ensures t.tradeItemId.value !in items ==> TradeText(t, items) == "when traded while holding a undefined"
  {
  }

  // ---------------------------------------------------------------------------
  // Evolution texts

  /** `Evolution.dir`. */
  function Direction(e: Evolution): string {
    if e.forward then "to" else "from"
  }

  /** `target[`evolution_${dir}`]`: the target's own evolutions in the same direction. */
  function Onward(target: Species, forward: bool): Option<seq<Evolution>> {
    if forward then target.evolutionTo else target.evolutionFrom
  }

  /** The `TypeError` a missing target or trigger raises. */
  const Missing := "TypeError"

  /** Running out of fuel: the library would recurse without end on a cyclic chain. */
  const Exhausted := "RangeError"

  /**
   * `Evolution.text`: "evolves <dir> <target> <trigger text>", followed,
   * when the target itself evolves on in the same direction, by ", which "
   * and that list's text and a space. `fuel` bounds the depth of the chain.
   */
  function EvolutionText(e: Evolution, pokemon: map<int, Species>, items: map<int, Item>,
                         moves: map<int, Move>, tables: Tables, fuel: nat): Result<string>
    decreases fuel, 0
  {
    if e.targetId !in pokemon || e.trigger.None? then Err(Missing)
    else
      var target := pokemon[e.targetId];
      var head := EvolutionHead(e, target, items, moves, tables);
      match Onward(target, e.forward)
      case None => Ok(head)
      case Some(next) =>
        if fuel == 0 then Err(Exhausted)
        else Chain(head, EvolutionListText(next, pokemon, items, moves, tables, fuel - 1))
  }

  /** A step followed by the text of the target's own evolutions, or that text's failure. */
  function Chain(head: string, rest: Result<string>): Result<string> {
    match rest
    case Err(m) => Err(m)
    case Ok(t) => Ok(head + ", which " + t + " ")
  }

  /** The clause of one evolution step, before any onward chain. */
  function EvolutionHead(e: Evolution, target: Species, items: map<int, Item>, moves: map<int, Move>, tables: Tables): string
    requires e.trigger.Some?
  {
    "evolves " + Direction(e) + " " + SpeciesText(target) + " " + TriggerText(e.trigger.value, items, moves, tables)
  }

  /** The texts of a list of evolutions, in order; the first failure is the result. */
  function EvolutionTexts(es: seq<Evolution>, pokemon: map<int, Species>, items: map<int, Item>,
                          moves: map<int, Move>, tables: Tables, fuel: nat): (r: Result<seq<string>>)
    ensures r.Ok? ==> |r.value| == |es|
    decreases fuel, 1, |es|
  {
    if |es| == 0 then Ok([])
    else
      match EvolutionText(es[0], pokemon, items, moves, tables, fuel)
      case Err(m) => Err(m)
      case Ok(t) =>
        match EvolutionTexts(es[1..], pokemon, items, moves, tables, fuel)
        case Err(m) => Err(m)
        case Ok(ts) => Ok([t] + ts)
  }

  /**
   * `EvolutionList.text` over already rendered texts: joined with " and ",
   * then the FIRST " and " replaced by ", ".
   */
  function ListText(texts: seq<string>): string {
    ReplaceFirst(Join(texts, " and "), " and ", ", ")
  }

  /** `EvolutionList.text`. */
  function EvolutionListText(es: seq<Evolution>, pokemon: map<int, Species>, items: map<int, Item>,
                             moves: map<int, Move>, tables: Tables, fuel: nat): Result<string>
    decreases fuel, 2
  {
    Listed(EvolutionTexts(es, pokemon, items, moves, tables, fuel))
  }

  /** The text of rendered evolutions, or their failure. */
  function Listed(texts: Result<seq<string>>): Result<string> {
    match texts
    case Err(m) => Err(m)
    case Ok(ts) => Ok(ListText(ts))
  }

  /** More fuel never changes a text that was produced: the fuel bound only cuts off cyclic chains. */
  lemma {:induction false} EvolutionTextFuel(e: Evolution, pokemon: map<int, Species>, items: map<int, Item>,
                                             moves: map<int, Move>, tables: Tables, fuel: nat, more: nat)
    requires fuel <= more
    requires EvolutionText(e, pokemon, items, moves, tables, fuel).Ok?
    ensures EvolutionText(e, pokemon, items, moves, tables, more) == EvolutionText(e, pokemon, items, moves, tables, fuel)
    decreases fuel, 0
  {
    if e.targetId in pokemon && e.trigger.Some? {
      var target := pokemon[e.targetId];
      match Onward(target, e.forward)
      case None =>
      case Some(next) =>
        assert fuel > 0;
        var head := EvolutionHead(e, target, items, moves, tables);
        var rest := EvolutionListText(next, pokemon, items, moves, tables, fuel - 1);
        assert EvolutionText(e, pokemon, items, moves, tables, fuel) == Chain(head, rest);
        EvolutionListTextFuel(next, pokemon, items, moves, tables, fuel - 1, more - 1);
        assert EvolutionText(e, pokemon, items, moves, tables, more) == Chain(head, rest);
    }
  }

  lemma EvolutionListTextFuel(es: seq<Evolution>, pokemon: map<int, Species>, items: map<int, Item>,
                              moves: map<int, Move>, tables: Tables, fuel: nat, more: nat)
    requires fuel <= more
    requires EvolutionListText(es, pokemon, items, moves, tables, fuel).Ok?
    ensures EvolutionListText(es, pokemon, items, moves, tables, more) == EvolutionListText(es, pokemon, items, moves, tables, fuel)
    decreases fuel, 2
  {
    EvolutionTextsFuel(es, pokemon, items, moves, tables, fuel, more);
  }

  lemma {:induction false} EvolutionTextsFuel(es: seq<Evolution>, pokemon: map<int, Species>, items: map<int, Item>,
                                              moves: map<int, Move>, tables: Tables, fuel: nat, more: nat)
    requires fuel <= more
    requires EvolutionTexts(es, pokemon, items, moves, tables, fuel).Ok?
    ensures EvolutionTexts(es, pokemon, items, moves, tables, more) == EvolutionTexts(es, pokemon, items, moves, tables, fuel)
    decreases fuel, 1, |es|
  {
    if |es| > 0 {
      EvolutionTextFuel(es[0], pokemon, items, moves, tables, fuel, more);
      EvolutionTextsFuel(es[1..], pokemon, items, moves, tables, fuel, more);
    }
  }

  /**
   * The texts of a list fail exactly when the text of some evolution fails;
   * otherwise the i-th text is the text of the i-th evolution.
   */
  lemma {:induction false} EvolutionTextsSpec(es: seq<Evolution>, pokemon: map<int, Species>, items: map<int, Item>,
                                              moves: map<int, Move>, tables: Tables, fuel: nat)
    ensures var r := EvolutionTexts(es, pokemon, items, moves, tables, fuel);
      && (r.Err? <==> exists i :: 0 <= i < |es| && EvolutionText(es[i], pokemon, items, moves, tables, fuel).Err?)
      && (r.Ok? ==> forall i :: 0 <= i < |es| ==> EvolutionText(es[i], pokemon, items, moves, tables, fuel) == Ok(r.value[i]))
    decreases |es|
  {
    if |es| > 0 {
      var rest := es[1..];
      EvolutionTextsSpec(rest, pokemon, items, moves, tables, fuel);
      assert forall i :: 1 <= i < |es| ==> es[i] == rest[i - 1];
      var r := EvolutionTexts(es, pokemon, items, moves, tables, fuel);
      var head := EvolutionText(es[0], pokemon, items, moves, tables, fuel);
      var tail := EvolutionTexts(rest, pokemon, items, moves, tables, fuel);
      if head.Ok? && tail.Ok? {
        assert r == Ok([head.value] + tail.value);
        forall i | 0 <= i < |es| ensures EvolutionText(es[i], pokemon, items, moves, tables, fuel) == Ok(r.value[i]) {
          if i > 0 {
            assert r.value[i] == tail.value[i - 1];
          }
        }
      } else if head.Err? {
        assert r.Err?;
      } else {
        var j :| 0 <= j < |rest| && EvolutionText(rest[j], pokemon, items, moves, tables, fuel).Err?;
        assert es[j + 1] == rest[j];
      }
    }
  }

  /** An evolution whose target does not evolve on in that direction renders without a trailing clause. */
  lemma EvolutionTextLast(e: Evolution, pokemon: map<int, Species>, items: map<int, Item>,
                          moves: map<int, Move>, tables: Tables, fuel: nat)
    requires e.targetId in pokemon && e.trigger.Some?
    requires Onward(pokemon[e.targetId], e.forward).None?
    ensures EvolutionText(e, pokemon, items, moves, tables, fuel)
      == Ok("evolves " + Direction(e) + " " + SpeciesText(pokemon[e.targetId]) + " "
            + TriggerText(e.trigger.value, items, moves, tables))
  {
  }

  // ---------------------------------------------------------------------------
  // The shape of a list text

  /** If the first occurrence of `pat` lies wholly inside `a`, it is also the first in `a + b`. */
  lemma {:induction false} IndexOfExtended(a: string, b: string, pat: string, p: nat)
    requires IndexOf(a, pat) == Some(p) && p + |pat| <= |a|
    ensures IndexOf(a + b, pat) == Some(p)
  {
    var s := a + b;
    assert s[p..p + |pat|] == a[p..p + |pat|];
    forall q: nat | q < p ensures !IsAt(s, q, pat) {
      assert !IsAt(a, q, pat);
      assert s[q..q + |pat|] == a[q..q + |pat|];
    }
    assert IsAt(s, p, pat);
    assert Contains(s, pat);
  }

  /**
   * A text that cannot form " and " with a following " and ": the first
   * " and " of `x + " and "` is the one appended. Every text without a space
   * is one.
   */
  predicate Plain(x: string) {
    IndexOf(x + " and ", " and ") == Some(|x|)
  }

  lemma {:induction false} SpacelessIsPlain(x: string)
    requires forall i :: 0 <= i < |x| ==> x[i] != ' '
    ensures Plain(x)
  {
    var s := x + " and ";
    assert IsAt(s, |x|, " and ");
    forall q: nat | q < |x| ensures !IsAt(s, q, " and ") {
      assert s[q] == x[q];
    }
    assert Contains(s, " and ");
  }

  /**
   * The text of a list of at least two evolutions, the first of them plain:
   * the first text, ", ", then the others joined by " and ". Only the FIRST
   * separator becomes a comma.
   */
  lemma ListTextShape(texts: seq<string>)
    requires |texts| >= 2 && Plain(texts[0])
    ensures ListText(texts) == texts[0] + ", " + Join(texts[1..], " and ")
  {
    var a := texts[0] + " and ";
    var rest := Join(texts[1..], " and ");
    assert Join(texts, " and ") == a + rest;
    IndexOfExtended(a, rest, " and ", |texts[0]|);
    var s := a + rest;
    var p := |texts[0]|;
    assert s[..p] == texts[0];
    assert s[p + 5..] == rest;
  }

  /** One text is left as it is. */
  lemma ListTextOne(a: string)
    requires Plain(a)
    ensures ListText([a]) == a
  {
    var s := a + " and ";
    assert !IsAt(a, |a|, " and ");
    forall q: nat | q <= |a| ensures !IsAt(a, q, " and ") {
      if q + 5 <= |a| {
        assert !IsAt(s, q, " and ");
        assert a[q..q + 5] == s[q..q + 5];
      }
    }
  }

  /** Two texts, the first plain, give "A, B". */
  lemma ListTextTwo(a: string, b: string)
    requires Plain(a)
    ensures ListText([a, b]) == a + ", " + b
  {
    var t := [a, b];
    ListTextShape(t);
    assert t[1..] == [b];
  }

  /** Three texts, the first plain, give "A, B and C". */
  lemma ListTextThree(a: string, b: string, c: string)
    requires Plain(a)
    ensures ListText([a, b, c]) == a + ", " + b + " and " + c
  {
    var t := [a, b, c];
    ListTextShape(t);
    assert t[1..] == [b, c];
    JoinPair(b, c, " and ");
    assert a + ", " + (b + " and " + c) == a + ", " + b + " and " + c;
  }
}
