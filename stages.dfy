/**
 * `StatStages` of src/models.ts: nine stage counters that `update` adds to in
 * place, field by field, without clamping them to any range.
 */
module Stages {
  /** The nine counters as a value. */
  datatype StageValues = StageValues(
    hp: int, atk: int, defn: int, satk: int, sdef: int,
    spd: int, evasion: int, accuracy: int, crit: int)

  /** All counters at zero, the constructor's defaults. */
  const Zero := StageValues(0, 0, 0, 0, 0, 0, 0, 0, 0)

  /** The field-by-field sum of two sets of counters. */
  function Add(a: StageValues, b: StageValues): StageValues {
    StageValues(a.hp + b.hp, a.atk + b.atk, a.defn + b.defn, a.satk + b.satk, a.sdef + b.sdef,
                a.spd + b.spd, a.evasion + b.evasion, a.accuracy + b.accuracy, a.crit + b.crit)
  }

  /** The counters of a battling specimen. */
  class StatStages {
    var hp: int
    var atk: int
    var defn: int
    var satk: int
    var sdef: int
    var spd: int
    var evasion: int
    var accuracy: int
    var crit: int

    /** The counters as a value. */
    function Values(): StageValues
      reads this
    {
      StageValues(hp, atk, defn, satk, sdef, spd, evasion, accuracy, crit)
    }

    /** `new StatStages()`: every counter starts at zero. */
    constructor ()
      ensures Values() == Zero
    {
      hp, atk, defn, satk, sdef := 0, 0, 0, 0, 0;
      spd, evasion, accuracy, crit := 0, 0, 0, 0;
    }

    /** `new StatStages(hp, …, crit)` with every counter given. */
    constructor Of(v: StageValues)
      ensures Values() == v
    {
      hp, atk, defn, satk, sdef := v.hp, v.atk, v.defn, v.satk, v.sdef;
      spd, evasion, accuracy, crit := v.spd, v.evasion, v.accuracy, v.crit;
    }

    /**
     * `update(stages)`: each counter of `stages` is added to the same counter
     * of this object, and nothing else changes. `stages` may be this very
     * object, in which case every counter doubles.
     */
    method Update(stages: StatStages)
      modifies this
      ensures Values() == Add(old(Values()), old(stages.Values()))
    {
      var v := stages.Values();
      hp := hp + v.hp;
      atk := atk + v.atk;
      defn := defn + v.defn;
      satk := satk + v.satk;
      sdef := sdef + v.sdef;
      spd := spd + v.spd;
      evasion := evasion + v.evasion;
      accuracy := accuracy + v.accuracy;
      crit := crit + v.crit;
    }
  }

  /** The counters with every sign flipped. */
  function Negated(a: StageValues): StageValues {
    StageValues(-a.hp, -a.atk, -a.defn, -a.satk, -a.sdef, -a.spd, -a.evasion, -a.accuracy, -a.crit)
  }

  /**
   * Two updates in a row are one update by the summed counters, and their
   * order does not matter; an update by the negated counters undoes one.
   */
  lemma UpdatesCompose(a: StageValues, b: StageValues, c: StageValues)
    ensures Add(Add(a, b), c) == Add(a, Add(b, c))
    ensures Add(Add(a, b), c) == Add(Add(a, c), b)
    ensures Add(Add(a, b), Negated(b)) == a
  {
  }
}
