/**
 * `Move.calculate_turn` of src/models.ts: one move of one specimen against
 * another. Every `Math.random()` draw is an input, and so is the damage the
 * level/attack/defence formula gives before any adjustment; what is modelled
 * is the control flow around them: the status branch, the accuracy test, the
 * hit count, the ailment gate, burn, the type multiplier, the messages, the
 * stat changes kept and the same-type test.
 */
module Battle {
  import opened Nullable
  import opened Entities
  import opened Stages
  import opened Utils

  /** What the turn needs of a battling specimen. */
  datatype Combatant = Combatant(ailments: seq<string>, stages: StageValues, maxHp: int, types: seq<string>)

  /**
   * The draws of `Math.random()`: one for accuracy, one for the hit count,
   * one per ailment of the attacker (only a paralysis uses it), one for the
   * inflicted ailment and one per stat change of the move.
   */
  datatype Draws = Draws(accuracy: real, hits: real, ailmentGates: seq<real>, ailment: real, statChanges: seq<real>)

  /** `MoveResult`. */
  datatype TurnResult = TurnResult(
    success: bool,
    damage: real,
    healing: real,
    ailment: Option<string>,
    messages: seq<string>,
    statChanges: seq<StatChange>)

  /** The draws fit the attacker and the move. */
  predicate DrawsFit(m: Move, user: Combatant, draws: Draws) {
    |draws.ailmentGates| == |user.ailments| && |draws.statChanges| == |m.meta.statChanges|
  }

  /** A status move, or one without power: no damage is computed. */
  predicate IsStatus(m: Move) {
    m.damageClassId == 1 || m.power.None?
  }

  // ---------------------------------------------------------------------------
  // Accuracy and hits

  /** `x || 1` on an optional count: a missing or zero count is one. */
  function OrOne(x: Option<int>): (r: int)
    ensures r != 0
    ensures x.Some? && x.value != 0 ==> r == x.value
  {
    if x.Some? && x.value != 0 then x.value else 1
  }

  /** `x || 0` on the optional accuracy. */
  function OrZero(x: Option<int>): int {
    if x.Some? then x.value else 0
  }

  /** A draw scaled to `k`, as `Math.random() * k` is. */
  function Scale(draw: real, k: int): real {
    draw * k as real
  }

  /** A draw in [0, 1) scaled to a positive `k` lies in [0, k). */
  lemma ScaleBounds(draw: real, k: int)
    requires 0.0 <= draw < 1.0 && k > 0
    ensures 0.0 <= Scale(draw, k) < k as real
  {
  }

  /**
   * The accuracy test: the draw is below the move's accuracy scaled by the
   * attacker's accuracy stage over the opponent's evasion stage. A stage the
   * multiplier table lacks makes the bound not-a-number, which no draw is
   * below; a zero denominator makes it infinite, of the numerator's sign.
   */
  predicate Accurate(m: Move, tables: Tables, user: Combatant, opponent: Combatant, draw: real) {
    var sm := tables.stageMultipliers;
    if user.stages.accuracy !in sm || opponent.stages.evasion !in sm then false
    else
      var num := OrZero(m.accuracy) as real * (sm[user.stages.accuracy] * 2.0 + 1.0);
      var den := sm[opponent.stages.evasion] * 2.0 + 1.0;
      if den == 0.0 then num > 0.0 else draw < num / den
  }

  /** The number of hits: a draw spread over [min_hits, max_hits], each `|| 1`. */
  function HitCount(meta: MoveMeta, draw: real): int {
    var lo := OrOne(meta.minHits);
    Scale(draw, OrOne(meta.maxHits) - lo + 1).Floor + lo
  }

  /** For a draw in [0, 1) the hit count lies between the minimum and the maximum. */
  lemma HitCountRange(meta: MoveMeta, draw: real)
    requires 0.0 <= draw < 1.0
    requires OrOne(meta.minHits) <= OrOne(meta.maxHits)
    ensures OrOne(meta.minHits) <= HitCount(meta, draw) <= OrOne(meta.maxHits)
  {
    var k := OrOne(meta.maxHits) - OrOne(meta.minHits) + 1;
    ScaleBounds(draw, k);
    var f := Scale(draw, k).Floor;
    assert 0 <= f;
    assert f as real <= Scale(draw, k) < k as real;
  }

  /** A move without a hit range hits exactly once. */
  lemma SingleHit(meta: MoveMeta, draw: real)
    requires 0.0 <= draw < 1.0
    requires meta.minHits.None? && meta.maxHits.None?
    ensures HitCount(meta, draw) == 1
  {
    HitCountRange(meta, draw);
  }

  // ---------------------------------------------------------------------------
  // The ailment loop

  /** The moves a sleeping specimen may still use. */
  const SleepMoves: seq<int> := [173, 214]

  /** The moves a frozen specimen may still use. */
  const FreezeMoves: seq<int> := [588, 172, 221, 293, 503, 592]

  /** One ailment lets the move through: paralysis on a draw of at least a quarter, sleep and freeze for their own moves, anything else always. */
  predicate Permits(ailment: string, draw: real, moveId: int) {
    if ailment == "Paralysis" then !(draw < 0.25)
    else if ailment == "Sleep" then moveId in SleepMoves
    else if ailment == "Freeze" then moveId in FreezeMoves
    else true
  }

  /** `success` after the ailment loop: each ailment that does not permit the move sets it to false. */
  function Gated(success: bool, ailments: seq<string>, draws: seq<real>, moveId: int): bool
    requires |draws| == |ailments|
  {
    if |ailments| == 0 then success
    else
      var n := |ailments| - 1;
      var s := Gated(success, ailments[..n], draws[..n], moveId);
      if Permits(ailments[n], draws[n], moveId) then s else false
  }

  /**
   * The loop can only clear `success`, never set it: the result is the
   * incoming value and every ailment permitting the move.
   */
  lemma {:induction false} GatedAll(success: bool, ailments: seq<string>, draws: seq<real>, moveId: int)
    requires |draws| == |ailments|
    ensures Gated(success, ailments, draws, moveId)
        <==> success && forall i :: 0 <= i < |ailments| ==> Permits(ailments[i], draws[i], moveId)
  {
    if |ailments| > 0 {
      var n := |ailments| - 1;
      GatedAll(success, ailments[..n], draws[..n], moveId);
      assert forall i :: 0 <= i < n ==> ailments[..n][i] == ailments[i] && draws[..n][i] == draws[i];
    }
  }

  /** Damage after the ailment loop: each burn halves it, for a physical move only. */
  function Burned(damage: real, ailments: seq<string>, classId: int): real {
    if |ailments| == 0 then damage
    else
      var n := |ailments| - 1;
      var d := Burned(damage, ailments[..n], classId);
      if ailments[n] == "Burn" && classId == 2 then d / 2.0 else d
  }

  /** Two to the power `n`, as a real. */
  function Halvings(n: nat): (r: real)
    ensures r >= 1.0
  {
    if n == 0 then 1.0 else 2.0 * Halvings(n - 1)
  }

  /** Burn leaves the damage of a non-physical move alone. */
  lemma {:induction false} BurnOnlyPhysical(damage: real, ailments: seq<string>, classId: int)
    requires classId != 2
    ensures Burned(damage, ailments, classId) == damage
  {
    if |ailments| > 0 {
      BurnOnlyPhysical(damage, ailments[..|ailments| - 1], classId);
    }
  }

  /** A physical move's damage is halved once per burn the attacker carries. */
  lemma {:induction false} BurnHalves(damage: real, ailments: seq<string>)
    ensures Burned(damage, ailments, 2) == damage / Halvings(multiset(ailments)["Burn"])
  {
    if |ailments| > 0 {
      var n := |ailments| - 1;
      BurnHalves(damage, ailments[..n]);
      assert ailments == ailments[..n] + [ailments[n]];
      assert multiset(ailments) == multiset(ailments[..n]) + multiset{ailments[n]};
      if ailments[n] == "Burn" {
        var h := Halvings(multiset(ailments[..n])["Burn"]);
        assert damage / h / 2.0 == damage / (2.0 * h);
      }
    }
  }

  // ---------------------------------------------------------------------------
  // Type effectiveness

  /**
   * The factor one opponent type contributes: the efficacy table's entry for
   * the move's type and the opponent type's position, `|| 1`; a missing row
   * contributes nothing, so 1.
   */
  function TypeFactor(tables: Tables, moveTypeId: int, typ: string): (r: real)
    ensures r != 0.0
  {
    if moveTypeId in tables.typeEfficacy then
      var row := tables.typeEfficacy[moveTypeId];
      var p := TypeIndex(tables, typ);
      if 0 <= p < |row| && row[p] != 0.0 then row[p] else 1.0
    else 1.0
  }

  /** `typ_mult` after the loop over the opponent's types. */
  function TypeMultiplier(tables: Tables, moveTypeId: int, types: seq<string>): real {
    if |types| == 0 then 1.0
    else
      var n := |types| - 1;
      TypeMultiplier(tables, moveTypeId, types[..n]) * TypeFactor(tables, moveTypeId, types[n])
  }

  /**
   * Because a zero entry counts as 1, the multiplier is never zero: a move
   * is never reported as having no effect.
   */
  lemma {:induction false} TypeMultiplierNonZero(tables: Tables, moveTypeId: int, types: seq<string>)
    ensures TypeMultiplier(tables, moveTypeId, types) != 0.0
  {
    if |types| > 0 {
      TypeMultiplierNonZero(tables, moveTypeId, types[..|types| - 1]);
    }
  }

  /** A move type without an efficacy row is neutral against every opponent. */
  lemma {:induction false} TypeMultiplierNoRow(tables: Tables, moveTypeId: int, types: seq<string>)
    requires moveTypeId !in tables.typeEfficacy
    ensures TypeMultiplier(tables, moveTypeId, types) == 1.0
  {
    if |types| > 0 {
      TypeMultiplierNoRow(tables, moveTypeId, types[..|types| - 1]);
    }
  }

  // ---------------------------------------------------------------------------
  // Messages

  const NotEffective: string := "It's not effective..."
  const SuperEffective: string := "It's super effective!"
  const NotVeryEffective: string := "It's not very effective..."

  /** The message of a multi-hit move. */
  function HitMessage(hits: int): string {
    "It hit " + IntToString(hits) + " times!"
  }

  /** The messages of a turn: one about effectiveness unless neutral, then one about the hit count above one. */
  function Messages(typMult: real, hits: int): seq<string> {
    (if typMult == 0.0 then [NotEffective]
     else if typMult > 1.0 then [SuperEffective]
     else if typMult < 1.0 then [NotVeryEffective]
     else [])
    + (if hits > 1 then [HitMessage(hits)] else [])
  }

  /**
   * There is a hit message exactly when the move hit more than once, and no
   * message at all exactly when the multiplier is neutral and the move hit
   * at most once.
   */
  lemma MessagesSpec(typMult: real, hits: int)
    ensures (exists k :: HitMessage(k) in Messages(typMult, hits)) <==> hits > 1
    ensures Messages(typMult, hits) == [] <==> typMult == 1.0 && hits <= 1
    ensures |Messages(typMult, hits)| <= 2
  {
    var ms := Messages(typMult, hits);
    forall k | HitMessage(k) in ms ensures hits > 1 {
      var e := HitMessage(k);
      assert e[0] == 'I' && e[1] == 't' && e[2] == ' ' && e[3] == 'h';
      assert NotEffective[3] != 'h' && SuperEffective[3] != 'h' && NotVeryEffective[3] != 'h';
    }
    if hits > 1 {
      assert HitMessage(hits) in ms;
    }
  }

  // ---------------------------------------------------------------------------
  // Stat changes

  /** The stat changes kept: those whose draw falls below the move's stat chance, in order. */
  function Selected(changes: seq<StatChange>, draws: seq<real>, chance: real): seq<StatChange>
    requires |draws| == |changes|
  {
    if |changes| == 0 then []
    else
      var n := |changes| - 1;
      Selected(changes[..n], draws[..n], chance) + (if draws[n] < chance then [changes[n]] else [])
  }

  /** The positions of the draws below `chance`, ascending. */
  function Kept(draws: seq<real>, chance: real): seq<nat> {
    if |draws| == 0 then []
    else
      var n := |draws| - 1;
      Kept(draws[..n], chance) + (if draws[n] < chance then [n] else [])
  }

  /**
   * The kept changes are an in-order subsequence of the move's changes:
   * they sit at strictly increasing positions, and those positions are
   * exactly the ones whose draw falls below the chance.
   */
  lemma {:induction false} SelectedSubsequence(changes: seq<StatChange>, draws: seq<real>, chance: real)
    requires |draws| == |changes|
    ensures var r, idx := Selected(changes, draws, chance), Kept(draws, chance);
      && |idx| == |r|
      && (forall k :: 0 <= k < |idx| ==> idx[k] < |changes| && r[k] == changes[idx[k]] && draws[idx[k]] < chance)
      && (forall k, l :: 0 <= k < l < |idx| ==> idx[k] < idx[l])
      && (forall i :: 0 <= i < |changes| && draws[i] < chance ==> i in idx)
  {
    if |changes| > 0 {
      var n := |changes| - 1;
      SelectedSubsequence(changes[..n], draws[..n], chance);
      var r0, idx0 := Selected(changes[..n], draws[..n], chance), Kept(draws[..n], chance);
      assert forall k :: 0 <= k < |idx0| ==> changes[..n][idx0[k]] == changes[idx0[k]] && draws[..n][idx0[k]] == draws[idx0[k]];
      assert forall i :: 0 <= i < n ==> draws[..n][i] == draws[i];
    }
  }

  /** With a zero chance no draw in [0, 1) keeps a change. */
  lemma {:induction false} SelectedNone(changes: seq<StatChange>, draws: seq<real>)
    requires |draws| == |changes|
    requires forall i :: 0 <= i < |draws| ==> draws[i] >= 0.0
    ensures Selected(changes, draws, 0.0) == []
  {
    if |changes| > 0 {
      SelectedNone(changes[..|changes| - 1], draws[..|changes| - 1]);
    }
  }

  // ---------------------------------------------------------------------------
  // The same-type bonus

  /** The property names every object inherits from `Object.prototype`. */
  const ObjectPrototypeKeys: set<string> := {
    "constructor", "hasOwnProperty", "isPrototypeOf", "propertyIsEnumerable", "toLocaleString",
    "toString", "valueOf", "__proto__", "__defineGetter__", "__defineSetter__",
    "__lookupGetter__", "__lookupSetter__"}

  /** The method names an array inherits from `Array.prototype`, as of ECMAScript 2023. */
  const ArrayPrototypeKeys: set<string> := {
    "at", "concat", "copyWithin", "entries", "every", "fill", "filter", "find", "findIndex",
    "findLast", "findLastIndex", "flat", "flatMap", "forEach", "includes", "indexOf", "join",
    "keys", "lastIndexOf", "map", "pop", "push", "reduce", "reduceRight", "reverse", "shift",
    "slice", "some", "sort", "splice", "toReversed", "toSorted", "toSpliced", "unshift",
    "values", "with"}

  /** The keys `in` finds on every array whatever it holds: "length" and the inherited names. */
  predicate InheritedOrLength(key: string) {
    key == "length" || key in ArrayPrototypeKeys || key in ObjectPrototypeKeys
  }

  /**
   * `key in arr` on an array: true for its own property keys, which are the
   * canonical index strings and "length", and for the names it inherits;
   * never for its elements.
   */
  predicate IsArrayKey(key: string, arr: seq<string>) {
    InheritedOrLength(key) || exists i :: 0 <= i < |arr| && key == NatToString(i)
  }

  /** The ×1.5 test: the move's type name is defined, non-empty and a property key of the attacker's types. */
  predicate Stab(m: Move, tables: Tables, user: Combatant) {
    var t := TypeName(tables, m.typeId);
    t.Some? && t.value != "" && IsArrayKey(t.value, user.types)
  }

  /**
   * Only a string of digits, "length" or an inherited name passes the test: a
   * type name like "fire" never earns the bonus, while a type named "map" or
   * "constructor" always does.
   */
  lemma StabNeedsDigits(m: Move, tables: Tables, user: Combatant)
    ensures Stab(m, tables, user) ==>
      var t := TypeName(tables, m.typeId).value;
      InheritedOrLength(t) || AllDigits(t)
    ensures TypeName(tables, m.typeId).Some? && InheritedOrLength(TypeName(tables, m.typeId).value) ==>
      Stab(m, tables, user)
  {
    if Stab(m, tables, user) {
      var t := TypeName(tables, m.typeId).value;
      if !InheritedOrLength(t) {
        var i :| 0 <= i < |user.types| && t == NatToString(i);
      }
    }
  }

  /** The attacker's own type does not earn the bonus unless it is spelled as a key. */
  lemma NoStabForLetters(m: Move, tables: Tables, user: Combatant, j: int)
    requires TypeName(tables, m.typeId).Some?
    requires 0 <= j < |TypeName(tables, m.typeId).value| && !IsDigit(TypeName(tables, m.typeId).value[j])
    requires !InheritedOrLength(TypeName(tables, m.typeId).value)
    ensures !Stab(m, tables, user)
  {
    StabNeedsDigits(m, tables, user);
  }

  // ---------------------------------------------------------------------------
  // The turn

  /** The healing of a turn: the drained share of the damage plus the healed share of the maximum HP, both in percent. */
  function Healing(damage: real, meta: MoveMeta, maxHp: int): real {
    damage * meta.drain as real / 100.0 + maxHp as real * meta.healing as real / 100.0
  }

  /** Damage scaled by a factor. */
  function Times(damage: real, factor: real): real {
    damage * factor
  }

  /** The ailment a move inflicts on a successful draw: its table entry, `None` (`undefined`) when the table has none. */
  function AilmentName(tables: Tables, ailmentId: int): Option<string> {
    if ailmentId in tables.moveAilments then Some(tables.moveAilments[ailmentId]) else None
  }

  /** The ailment `MoveResult` stores: `ailment || null`, so a blank name is no ailment either. */
  function StoredAilment(ailment: Option<string>): Option<string> {
    if ailment.Some? && ailment.value != "" then ailment else None
  }

  /** The result of a turn, stage by stage. */
  function Turn(m: Move, tables: Tables, user: Combatant, opponent: Combatant, draws: Draws, rawDamage: real): TurnResult
    requires DrawsFit(m, user, draws)
  {
    var status := IsStatus(m);
    var success0 := status || Accurate(m, tables, user, opponent, draws.accuracy);
    var hits := if status then 0 else HitCount(m.meta, draws.hits);
    var damage0 := if status then 0.0 else rawDamage;
    var healing := Healing(damage0, m.meta, user.maxHp);
    var success := Gated(success0, user.ailments, draws.ailmentGates, m.id);
    var damage1 := Burned(damage0, user.ailments, m.damageClassId);
    var ailment := if draws.ailment < m.meta.ailmentChance then AilmentName(tables, m.meta.ailmentId) else None;
    var typMult := TypeMultiplier(tables, m.typeId, opponent.types);
    var damage2 := Times(damage1, typMult);
    var damage := if Stab(m, tables, user) then Times(damage2, 1.5) else damage2;
    TurnResult(success, damage, healing, StoredAilment(ailment), Messages(typMult, hits),
               Selected(m.meta.statChanges, draws.statChanges, m.meta.statChance))
  }

  /**
   * A status move, or one without power, does no damage and reports no hit
   * count, and succeeds exactly when no ailment of the attacker stops it.
   */
  lemma StatusTurn(m: Move, tables: Tables, user: Combatant, opponent: Combatant, draws: Draws, rawDamage: real)
    requires DrawsFit(m, user, draws) && IsStatus(m)
    ensures var r := Turn(m, tables, user, opponent, draws, rawDamage);
      && r.damage == 0.0
      && (forall k :: HitMessage(k) !in r.messages)
      && (r.success <==> forall i :: 0 <= i < |user.ailments| ==> Permits(user.ailments[i], draws.ailmentGates[i], m.id))
  {
    var typMult := TypeMultiplier(tables, m.typeId, opponent.types);
    GatedAll(true, user.ailments, draws.ailmentGates, m.id);
    if m.damageClassId == 2 {
      BurnHalves(0.0, user.ailments);
    } else {
      BurnOnlyPhysical(0.0, user.ailments, m.damageClassId);
    }
    MessagesSpec(typMult, 0);
  }

  /**
   * A turn succeeds only if the move is a status move or passes the accuracy
   * test, and no ailment of the attacker stops it.
   */
  lemma TurnSuccess(m: Move, tables: Tables, user: Combatant, opponent: Combatant, draws: Draws, rawDamage: real)
    requires DrawsFit(m, user, draws)
    ensures Turn(m, tables, user, opponent, draws, rawDamage).success
        <==> (IsStatus(m) || Accurate(m, tables, user, opponent, draws.accuracy))
             && forall i :: 0 <= i < |user.ailments| ==> Permits(user.ailments[i], draws.ailmentGates[i], m.id)
  {
    GatedAll(IsStatus(m) || Accurate(m, tables, user, opponent, draws.accuracy), user.ailments, draws.ailmentGates, m.id);
  }

  /**
   * A turn reports an ailment exactly when the ailment draw falls below the
   * move's ailment chance and the ailment table has a non-blank name for the
   * move's ailment id; the name reported is that entry.
   */
  lemma TurnAilment(m: Move, tables: Tables, user: Combatant, opponent: Combatant, draws: Draws, rawDamage: real, a: string)
    requires DrawsFit(m, user, draws)
    ensures Turn(m, tables, user, opponent, draws, rawDamage).ailment == Some(a)
        <==> && draws.ailment < m.meta.ailmentChance
             && m.meta.ailmentId in tables.moveAilments
             && tables.moveAilments[m.meta.ailmentId] == a
             && a != ""
    ensures Turn(m, tables, user, opponent, draws, rawDamage).ailment.None?
        <==> || !(draws.ailment < m.meta.ailmentChance)
             || m.meta.ailmentId !in tables.moveAilments
             || tables.moveAilments[m.meta.ailmentId] == ""
  {
  }

  /** The "no effect" message is never produced. */
  lemma NeverIneffective(m: Move, tables: Tables, user: Combatant, opponent: Combatant, draws: Draws, rawDamage: real)
    requires DrawsFit(m, user, draws)
    ensures NotEffective !in Turn(m, tables, user, opponent, draws, rawDamage).messages
  {
    var typMult := TypeMultiplier(tables, m.typeId, opponent.types);
    var hits := if IsStatus(m) then 0 else HitCount(m.meta, draws.hits);
    TypeMultiplierNonZero(tables, m.typeId, opponent.types);
    if hits > 1 {
      assert HitMessage(hits)[3] != NotEffective[3];
    }
  }

  /** The ailment loop of `calculate_turn`. */
  method ApplyAilments(success0: bool, damage0: real, ailments: seq<string>, gates: seq<real>, moveId: int, classId: int)
    returns (success: bool, damage: real)
    requires |gates| == |ailments|
    ensures success == Gated(success0, ailments, gates, moveId)
    ensures damage == Burned(damage0, ailments, classId)
  {
    success, damage := success0, damage0;
    var i := 0;
    while i < |ailments|
      invariant 0 <= i <= |ailments|
      invariant success == Gated(success0, ailments[..i], gates[..i], moveId)
      invariant damage == Burned(damage0, ailments[..i], classId)
    {
      assert ailments[..i + 1][..i] == ailments[..i];
      assert gates[..i + 1][..i] == gates[..i];
      var a := ailments[i];
      if a == "Paralysis" {
        if gates[i] < 0.25 {
          success := false;
        }
      } else if a == "Sleep" {
        if moveId !in SleepMoves {
          success := false;
        }
      } else if a == "Freeze" {
        if moveId !in FreezeMoves {
          success := false;
        }
      } else if a == "Burn" {
        if classId == 2 {
          damage := damage / 2.0;
        }
      }
      i := i + 1;
    }
    assert ailments[..i] == ailments && gates[..i] == gates;
  }

  /** The loop over the opponent's types of `calculate_turn`. */
  method MultiplyTypes(tables: Tables, moveTypeId: int, types: seq<string>) returns (typMult: real)
    ensures typMult == TypeMultiplier(tables, moveTypeId, types)
  {
    typMult := 1.0;
    var j := 0;
    while j < |types|
      invariant 0 <= j <= |types|
      invariant typMult == TypeMultiplier(tables, moveTypeId, types[..j])
    {
      assert types[..j + 1][..j] == types[..j];
      typMult := typMult * TypeFactor(tables, moveTypeId, types[j]);
      j := j + 1;
    }
    assert types[..j] == types;
  }

  /** The loop over the move's stat changes of `calculate_turn`. */
  method SelectChanges(cs: seq<StatChange>, draws: seq<real>, chance: real) returns (changes: seq<StatChange>)
    requires |draws| == |cs|
    ensures changes == Selected(cs, draws, chance)
  {
    changes := [];
    var k := 0;
    while k < |cs|
      invariant 0 <= k <= |cs|
      invariant changes == Selected(cs[..k], draws[..k], chance)
    {
      assert cs[..k + 1][..k] == cs[..k];
      assert draws[..k + 1][..k] == draws[..k];
      if draws[k] < chance {
        changes := changes + [cs[k]];
      }
      k := k + 1;
    }
    assert cs[..k] == cs && draws[..k] == draws;
  }

  /**
   * `calculate_turn`: the status branch or the accuracy and hit draws, the
   * healing, then the three loops (ailments, the opponent's types, the
   * move's stat changes), the messages and the same-type bonus; the result
   * is the stage-by-stage `Turn`.
   */
  method CalculateTurn(m: Move, tables: Tables, user: Combatant, opponent: Combatant, draws: Draws, rawDamage: real)
    returns (r: TurnResult)
    requires DrawsFit(m, user, draws)
    ensures r == Turn(m, tables, user, opponent, draws, rawDamage)
  {
    var success: bool;
    var damage: real := 0.0;
    var hits := 0;
    if IsStatus(m) {
      success := true;
    } else {
      success := Accurate(m, tables, user, opponent, draws.accuracy);
      hits := HitCount(m.meta, draws.hits);
      damage := rawDamage;
    }
    assert success == (IsStatus(m) || Accurate(m, tables, user, opponent, draws.accuracy));
    assert hits == (if IsStatus(m) then 0 else HitCount(m.meta, draws.hits));
    assert damage == (if IsStatus(m) then 0.0 else rawDamage);
    var healing := Healing(damage, m.meta, user.maxHp);
    success, damage := ApplyAilments(success, damage, user.ailments, draws.ailmentGates, m.id, m.damageClassId);
    var ailment := if draws.ailment < m.meta.ailmentChance then AilmentName(tables, m.meta.ailmentId) else None;
    var typMult := MultiplyTypes(tables, m.typeId, opponent.types);
    damage := Times(damage, typMult);
    var messages := [];
    if typMult == 0.0 {
      messages := messages + [NotEffective];
    } else if typMult > 1.0 {
      messages := messages + [SuperEffective];
    } else if typMult < 1.0 {
      messages := messages + [NotVeryEffective];
    }
    if hits > 1 {
      messages := messages + [HitMessage(hits)];
    }
    assert messages == Messages(typMult, hits);
    var changes := SelectChanges(m.meta.statChanges, draws.statChanges, m.meta.statChance);
    if Stab(m, tables, user) {
      damage := Times(damage, 1.5);
    }
    r := TurnResult(success, damage, healing, StoredAilment(ailment), messages, changes);
  }
}
