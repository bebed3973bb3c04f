/**
 * The sort `get_pokemon` in src/init.ts applies to each species' move list:
 * `Array.prototype.sort` with the comparator `a.level - b.level`, which the
 * language requires to be stable. It is modelled as an insertion sort on
 * values.
 */
module LevelSort {
  import opened Entities

  /** Ascending by level. */
  predicate SortedByLevel(s: seq<PokemonMove>) {
    forall i, j :: 0 <= i < j < |s| ==> s[i].level <= s[j].level
  }

  /** `x` placed after every entry of `t` whose level is at most its own. */
  function InsertByLevel(t: seq<PokemonMove>, x: PokemonMove): (r: seq<PokemonMove>)
    ensures |r| == |t| + 1
    ensures multiset(r) == multiset(t) + multiset{x}
  {
    if |t| == 0 || t[|t| - 1].level <= x.level then t + [x]
    else
      var n := |t| - 1;
      assert t == t[..n] + [t[n]];
      InsertByLevel(t[..n], x) + [t[n]]
  }

  /** The stable sort by level. */
  function SortByLevel(s: seq<PokemonMove>): (r: seq<PokemonMove>)
    ensures |r| == |s|
  {
    if |s| == 0 then []
    else InsertByLevel(SortByLevel(s[..|s| - 1]), s[|s| - 1])
  }

  /** The entries at level `level`, in order. */
  function AtLevel(s: seq<PokemonMove>, level: int): seq<PokemonMove> {
    if |s| == 0 then []
    else AtLevel(s[..|s| - 1], level) + (if s[|s| - 1].level == level then [s[|s| - 1]] else [])
  }

  lemma AtLevelSnoc(s: seq<PokemonMove>, x: PokemonMove, level: int)
    ensures AtLevel(s + [x], level) == AtLevel(s, level) + (if x.level == level then [x] else [])
  {
    assert (s + [x])[..|s|] == s;
  }

  /** Inserting an entry no higher than a bound into entries no higher than it gives entries no higher than it. */
  lemma {:induction false} InsertBelow(t: seq<PokemonMove>, x: PokemonMove, bound: int)
    requires forall i :: 0 <= i < |t| ==> t[i].level <= bound
    requires x.level <= bound
    ensures forall i :: 0 <= i < |t| + 1 ==> InsertByLevel(t, x)[i].level <= bound
  {
    if |t| == 0 || t[|t| - 1].level <= x.level {
      var r := t + [x];
      assert forall i :: 0 <= i < |t| ==> r[i] == t[i];
    } else {
      var n := |t| - 1;
      InsertBelow(t[..n], x, bound);
      var u := InsertByLevel(t[..n], x);
      var r := u + [t[n]];
      assert forall i :: 0 <= i < |u| ==> r[i] == u[i];
    }
  }

  /** Inserting into a sorted list keeps it sorted. */
  lemma {:induction false} InsertSorted(t: seq<PokemonMove>, x: PokemonMove)
    requires SortedByLevel(t)
    ensures SortedByLevel(InsertByLevel(t, x))
    ensures |t| > 0 && x.level < t[|t| - 1].level ==> InsertByLevel(t, x)[|t|] == t[|t| - 1]
  {
    if |t| > 0 && x.level < t[|t| - 1].level {
      var n := |t| - 1;
      InsertSorted(t[..n], x);
      var u := InsertByLevel(t[..n], x);
      var r := u + [t[n]];
      InsertBelow(t[..n], x, t[n].level);
      forall i, j | 0 <= i < j < |r| ensures r[i].level <= r[j].level {
        if j == n + 1 {
          assert r[i] == u[i];
        } else {
          assert r[i] == u[i] && r[j] == u[j];
        }
      }
    }
  }

  /** Inserting appends `x` to the entries of its own level and leaves the others alone. */
  lemma {:induction false} InsertAtLevel(t: seq<PokemonMove>, x: PokemonMove, level: int)
    ensures AtLevel(InsertByLevel(t, x), level) == AtLevel(t, level) + (if x.level == level then [x] else [])
  {
    if |t| == 0 || t[|t| - 1].level <= x.level {
      AtLevelSnoc(t, x, level);
    } else {
      var n := |t| - 1;
      InsertAtLevel(t[..n], x, level);
      AtLevelSnoc(InsertByLevel(t[..n], x), t[n], level);
      AtLevelSnoc(t[..n], t[n], level);
      assert t[..n] + [t[n]] == t;
    }
  }

  /** The sort orders the entries by level. */
  lemma {:induction false} SortSorted(s: seq<PokemonMove>)
    ensures SortedByLevel(SortByLevel(s))
  {
    if |s| > 0 {
      SortSorted(s[..|s| - 1]);
      InsertSorted(SortByLevel(s[..|s| - 1]), s[|s| - 1]);
    }
  }

  /** The sort is a permutation. */
  lemma {:induction false} SortPermutes(s: seq<PokemonMove>)
    ensures multiset(SortByLevel(s)) == multiset(s)
  {
    if |s| > 0 {
      var n := |s| - 1;
      SortPermutes(s[..n]);
      assert s == s[..n] + [s[n]];
    }
  }

  /** The sort is stable: the entries of each level keep their relative order. */
  lemma {:induction false} SortStable(s: seq<PokemonMove>, level: int)
    ensures AtLevel(SortByLevel(s), level) == AtLevel(s, level)
  {
    if |s| > 0 {
      var n := |s| - 1;
      SortStable(s[..n], level);
      InsertAtLevel(SortByLevel(s[..n]), s[n], level);
    }
  }
}
