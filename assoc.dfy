/**
 * Dictionaries filled from a list of key/value pairs, the way the library
 * fills its plain objects with `acc[key] = value` in a loop or a `reduce`:
 * a later pair overwrites an earlier one with the same key.
 */
module Assoc {
  import opened Nullable

  /** Some pair of `pairs` has key `k`. */
  predicate HasKey<K(==), V>(pairs: seq<(K, V)>, k: K) {
    exists i :: 0 <= i < |pairs| && pairs[i].0 == k
  }

  /** No later pair has the key of pair `i`. */
  predicate IsLast<K(==), V>(pairs: seq<(K, V)>, i: int)
    requires 0 <= i < |pairs|
  {
    forall j :: i < j < |pairs| ==> pairs[j].0 != pairs[i].0
  }

  /** No earlier pair has the key of pair `i`. */
  predicate IsFirst<K(==), V>(pairs: seq<(K, V)>, i: int)
    requires 0 <= i < |pairs|
  {
    forall j :: 0 <= j < i ==> pairs[j].0 != pairs[i].0
  }

  /** The dictionary left by assigning the pairs one after the other. */
  function Overwrite<K, V>(pairs: seq<(K, V)>): map<K, V> {
    if |pairs| == 0 then map[]
    else
      var n := |pairs| - 1;
      Overwrite(pairs[..n])[pairs[n].0 := pairs[n].1]
  }

  /** Assigning one more pair: the step of a loop that fills the dictionary. */
  lemma OverwriteStep<K, V>(pairs: seq<(K, V)>, i: int)
    requires 0 <= i < |pairs|
    ensures Overwrite(pairs[..i + 1]) == Overwrite(pairs[..i])[pairs[i].0 := pairs[i].1]
  {
    assert pairs[..i + 1][..i] == pairs[..i];
  }

  /** The keys of the dictionary are exactly the keys of the pairs. */
  lemma {:induction false} OverwriteKeys<K, V>(pairs: seq<(K, V)>, k: K)
    ensures k in Overwrite(pairs) <==> HasKey(pairs, k)
    decreases |pairs|
  {
    if |pairs| > 0 {
      var n := |pairs| - 1;
      var init := pairs[..n];
      OverwriteKeys(init, k);
      if k == pairs[n].0 {
        assert HasKey(pairs, k);
      } else {
        if HasKey(init, k) {
          var i :| 0 <= i < n && init[i].0 == k;
          assert pairs[i].0 == k;
        }
        if HasKey(pairs, k) {
          var i :| 0 <= i < |pairs| && pairs[i].0 == k;
          assert init[i].0 == k;
        }
      }
    }
  }

  /** Each key holds the value of the LAST pair with that key. */
  lemma {:induction false} OverwriteLast<K, V>(pairs: seq<(K, V)>, i: int)
    requires 0 <= i < |pairs| && IsLast(pairs, i)
    ensures pairs[i].0 in Overwrite(pairs)
    ensures Overwrite(pairs)[pairs[i].0] == pairs[i].1
    decreases |pairs|
  {
    var n := |pairs| - 1;
    if i < n {
      var init := pairs[..n];
      assert init[i] == pairs[i];
      assert IsLast(init, i) by {
        forall j | i < j < n ensures init[j].0 != init[i].0 {
          assert init[j] == pairs[j];
        }
      }
      OverwriteLast(init, i);
      assert pairs[n].0 != pairs[i].0;
    }
  }

  /** Every entry of the dictionary is one of the pairs. */
  lemma {:induction false} OverwriteFrom<K, V>(pairs: seq<(K, V)>, k: K)
    requires k in Overwrite(pairs)
    ensures exists i :: 0 <= i < |pairs| && pairs[i] == (k, Overwrite(pairs)[k])
    decreases |pairs|
  {
    var n := |pairs| - 1;
    if pairs[n].0 != k {
      OverwriteFrom(pairs[..n], k);
      var i :| 0 <= i < n && pairs[..n][i] == (k, Overwrite(pairs[..n])[k]);
      assert pairs[i] == pairs[..n][i];
    }
  }

  /** The pairs in the opposite order. */
  function Reverse<T>(xs: seq<T>): (r: seq<T>)
    ensures |r| == |xs|
    ensures forall i :: 0 <= i < |xs| ==> r[i] == xs[|xs| - 1 - i]
  {
    if |xs| == 0 then [] else Reverse(xs[1..]) + [xs[0]]
  }

  /**
   * Reversing the pairs before overwriting keeps the FIRST pair of each key:
   * that key holds its first pair's value.
   */
  lemma FirstWins<K, V>(pairs: seq<(K, V)>, i: int)
    requires 0 <= i < |pairs| && IsFirst(pairs, i)
    ensures pairs[i].0 in Overwrite(Reverse(pairs))
    ensures Overwrite(Reverse(pairs))[pairs[i].0] == pairs[i].1
  {
    var r := Reverse(pairs);
    var n := |pairs|;
    var j := n - 1 - i;
    assert r[j] == pairs[i];
    assert IsLast(r, j) by {
      forall l | j < l < n ensures r[l].0 != r[j].0 {
        assert r[l] == pairs[n - 1 - l];
      }
    }
    OverwriteLast(r, j);
  }

  /** Reversing keeps the keys of the pairs. */
  lemma ReverseHasKey<K, V>(pairs: seq<(K, V)>, k: K)
    ensures HasKey(Reverse(pairs), k) <==> HasKey(pairs, k)
  {
    var r := Reverse(pairs);
    var n := |pairs|;
    if HasKey(pairs, k) {
      var i :| 0 <= i < n && pairs[i].0 == k;
      assert r[n - 1 - i] == pairs[i];
    }
    if HasKey(r, k) {
      var l :| 0 <= l < n && r[l].0 == k;
      assert pairs[n - 1 - l] == r[l];
    }
  }

  /** Reversing keeps the set of keys. */
  lemma ReverseKeys<K, V>(pairs: seq<(K, V)>, k: K)
    ensures k in Overwrite(Reverse(pairs)) <==> HasKey(pairs, k)
  {
    OverwriteKeys(Reverse(pairs), k);
    ReverseHasKey(pairs, k);
  }

  // ---------------------------------------------------------------------------
  // Grouping: `if (!ret.has(k)) ret.set(k, []); ret.get(k).push(v)` in a loop

  /** `ret.get(k) || []`: the list under `k`, or the empty list. */
  function Lookup<K, V>(g: map<K, seq<V>>, k: K): seq<V> {
    if k in g then g[k] else []
  }

  /** Appending `v` to the list under `k`, creating the list when it is missing. */
  function Push<K, V>(g: map<K, seq<V>>, k: K, v: V): map<K, seq<V>> {
    g[k := Lookup(g, k) + [v]]
  }

  /** Pushing the pairs onto `g` one after the other, in order. */
  function GroupFrom<K, V>(g: map<K, seq<V>>, pairs: seq<(K, V)>): map<K, seq<V>>
    decreases |pairs|
  {
    if |pairs| == 0 then g else GroupFrom(Push(g, pairs[0].0, pairs[0].1), pairs[1..])
  }

  /** The dictionary of lists a grouping loop builds from nothing. */
  function Group<K, V>(pairs: seq<(K, V)>): map<K, seq<V>> {
    GroupFrom(map[], pairs)
  }

  /** The values of the pairs with key `k`, in order. */
  function Select<K(==), V>(pairs: seq<(K, V)>, k: K): (r: seq<V>)
    ensures |r| <= |pairs|
  {
    if |pairs| == 0 then []
    else (if pairs[0].0 == k then [pairs[0].1] else []) + Select(pairs[1..], k)
  }

  /** A key occurs in some pairs iff it is the first pair's or occurs in the rest. */
  lemma HasKeyCons<K, V>(pairs: seq<(K, V)>, k: K)
    requires |pairs| > 0
    ensures HasKey(pairs, k) <==> pairs[0].0 == k || HasKey(pairs[1..], k)
  {
    var rest := pairs[1..];
    if HasKey(rest, k) {
      var i :| 0 <= i < |rest| && rest[i].0 == k;
      assert pairs[i + 1].0 == k;
    }
    if HasKey(pairs, k) && pairs[0].0 != k {
      var i :| 0 <= i < |pairs| && pairs[i].0 == k;
      assert rest[i - 1].0 == k;
    }
  }

  /** Pushing more pairs keeps the keys already there and adds exactly the keys of the pairs. */
  lemma {:induction false} GroupFromKeys<K, V>(g: map<K, seq<V>>, pairs: seq<(K, V)>, k: K)
    ensures k in GroupFrom(g, pairs) <==> k in g || HasKey(pairs, k)
    decreases |pairs|
  {
    if |pairs| > 0 {
      GroupFromKeys(Push(g, pairs[0].0, pairs[0].1), pairs[1..], k);
      HasKeyCons(pairs, k);
    }
  }

  /** Pushing more pairs appends, under each key, exactly the values of that key's pairs. */
  lemma {:induction false} GroupFromSpec<K, V>(g: map<K, seq<V>>, pairs: seq<(K, V)>, k: K)
    ensures k in GroupFrom(g, pairs) <==> k in g || HasKey(pairs, k)
    ensures Lookup(GroupFrom(g, pairs), k) == Lookup(g, k) + Select(pairs, k)
    decreases |pairs|
  {
    GroupFromKeys(g, pairs, k);
    if |pairs| > 0 {
      var rest := pairs[1..];
      var g' := Push(g, pairs[0].0, pairs[0].1);
      GroupFromSpec(g', rest, k);
      assert GroupFrom(g, pairs) == GroupFrom(g', rest);
      if pairs[0].0 == k {
        assert Lookup(g', k) == Lookup(g, k) + [pairs[0].1];
        assert Select(pairs, k) == [pairs[0].1] + Select(rest, k);
        assert Lookup(g, k) + [pairs[0].1] + Select(rest, k) == Lookup(g, k) + ([pairs[0].1] + Select(rest, k));
      } else {
        assert Lookup(g', k) == Lookup(g, k);
        assert Select(pairs, k) == Select(rest, k);
      }
    }
  }

  /** A grouping loop leaves under each key the values of that key's pairs, in order, and no other keys. */
  lemma GroupSpec<K, V>(pairs: seq<(K, V)>, k: K)
    ensures k in Group(pairs) <==> HasKey(pairs, k)
    ensures Lookup(Group(pairs), k) == Select(pairs, k)
  {
    GroupFromSpec(map[], pairs, k);
  }

  /** A value is selected under `k` iff some pair holds both. */
  lemma {:induction false} SelectMembers<K, V>(pairs: seq<(K, V)>, k: K, v: V)
    ensures v in Select(pairs, k) <==> (k, v) in pairs
    decreases |pairs|
  {
    if |pairs| > 0 {
      SelectMembers(pairs[1..], k, v);
      assert pairs == [pairs[0]] + pairs[1..];
    }
  }

  /** Nothing is selected under a key no pair has. */
  lemma {:induction false} SelectMissing<K, V>(pairs: seq<(K, V)>, k: K)
    ensures Select(pairs, k) == [] <==> !HasKey(pairs, k)
    decreases |pairs|
  {
    if |pairs| > 0 {
      SelectMissing(pairs[1..], k);
      if HasKey(pairs[1..], k) {
        var i :| 0 <= i < |pairs| - 1 && pairs[1..][i].0 == k;
        assert pairs[i + 1].0 == k;
      }
      if HasKey(pairs, k) && pairs[0].0 != k {
        var i :| 0 <= i < |pairs| && pairs[i].0 == k;
        assert pairs[1..][i - 1].0 == k;
      }
    }
  }

  /** The first value selected under a key is the value of that key's first pair. */
  lemma {:induction false} SelectFirst<K, V>(pairs: seq<(K, V)>, i: int)
    requires 0 <= i < |pairs| && IsFirst(pairs, i)
    ensures |Select(pairs, pairs[i].0)| > 0 && Select(pairs, pairs[i].0)[0] == pairs[i].1
    decreases i
  {
    if i > 0 {
      var rest := pairs[1..];
      assert rest[i - 1] == pairs[i];
      assert IsFirst(rest, i - 1) by {
        forall j | 0 <= j < i - 1 ensures rest[j].0 != rest[i - 1].0 {
          assert rest[j] == pairs[j + 1];
        }
      }
      SelectFirst(rest, i - 1);
      assert pairs[0].0 != pairs[i].0;
    }
  }

  // ---------------------------------------------------------------------------
  // Grouping without repeats: `if (!ls.includes(v)) ls.push(v)`

  /** Appending the values of `xs` that are not already present, each at most once. */
  function AppendNew<V(==)>(acc: seq<V>, xs: seq<V>): seq<V>
    decreases |xs|
  {
    if |xs| == 0 then acc
    else if xs[0] in acc then AppendNew(acc, xs[1..])
    else AppendNew(acc + [xs[0]], xs[1..])
  }

  /** The list under `k` is created when missing; `v` is appended only when it is not in it yet. */
  function PushNew<K, V(==)>(g: map<K, seq<V>>, k: K, v: V): map<K, seq<V>> {
    var l := Lookup(g, k);
    g[k := if v in l then l else l + [v]]
  }

  /** Pushing the pairs without repeats, one after the other. */
  function GroupUniqueFrom<K, V(==)>(g: map<K, seq<V>>, pairs: seq<(K, V)>): map<K, seq<V>>
    decreases |pairs|
  {
    if |pairs| == 0 then g else GroupUniqueFrom(PushNew(g, pairs[0].0, pairs[0].1), pairs[1..])
  }

  /** The dictionary of repeat-free lists a grouping loop builds from nothing. */
  function GroupUnique<K, V(==)>(pairs: seq<(K, V)>): map<K, seq<V>> {
    GroupUniqueFrom(map[], pairs)
  }

  /** No value occurs twice. */
  predicate Distinct<V(==)>(xs: seq<V>) {
    forall i, j :: 0 <= i < j < |xs| ==> xs[i] != xs[j]
  }

  /** Appending without repeats keeps a list repeat-free and gains exactly the new values. */
  lemma {:induction false} AppendNewSpec<V>(acc: seq<V>, xs: seq<V>, v: V)
    requires Distinct(acc)
    ensures Distinct(AppendNew(acc, xs))
    ensures v in AppendNew(acc, xs) <==> v in acc || v in xs
    decreases |xs|
  {
    if |xs| > 0 {
      assert xs == [xs[0]] + xs[1..];
      if xs[0] in acc {
        AppendNewSpec(acc, xs[1..], v);
      } else {
        AppendNewSpec(acc + [xs[0]], xs[1..], v);
      }
    }
  }

  /** Under each key, the repeat-free lists gain the values of that key's pairs, first occurrences first. */
  lemma {:induction false} GroupUniqueFromSpec<K, V>(g: map<K, seq<V>>, pairs: seq<(K, V)>, k: K)
    ensures k in GroupUniqueFrom(g, pairs) <==> k in g || HasKey(pairs, k)
    ensures Lookup(GroupUniqueFrom(g, pairs), k) == AppendNew(Lookup(g, k), Select(pairs, k))
    decreases |pairs|
  {
    if |pairs| > 0 {
      var rest := pairs[1..];
      var v := pairs[0].1;
      var g' := PushNew(g, pairs[0].0, v);
      GroupUniqueFromSpec(g', rest, k);
      HasKeyCons(pairs, k);
      assert GroupUniqueFrom(g, pairs) == GroupUniqueFrom(g', rest);
      if pairs[0].0 == k {
        var s := [v] + Select(rest, k);
        assert s[0] == v && s[1..] == Select(rest, k);
      } else {
        assert Select(pairs, k) == Select(rest, k);
      }
    }
  }

  /**
   * A repeat-free grouping loop leaves under each key exactly the values of
   * that key's pairs, each once, and no other keys.
   */
  lemma GroupUniqueSpec<K, V>(pairs: seq<(K, V)>, k: K, v: V)
    ensures k in GroupUnique(pairs) <==> HasKey(pairs, k)
    ensures Distinct(Lookup(GroupUnique(pairs), k))
    ensures v in Lookup(GroupUnique(pairs), k) <==> (k, v) in pairs
  {
    GroupUniqueFromSpec(map[], pairs, k);
    AppendNewSpec([], Select(pairs, k), v);
    SelectMembers(pairs, k, v);
  }

  // ---------------------------------------------------------------------------
  // Helpers for the loops that build these dictionaries

  /** The same value under each of `keys`, in order. */
  function Tagged<K, V>(keys: seq<K>, v: V): (r: seq<(K, V)>)
    ensures |r| == |keys|
    ensures forall i :: 0 <= i < |keys| ==> r[i] == (keys[i], v)
  {
    if |keys| == 0 then [] else [(keys[0], v)] + Tagged(keys[1..], v)
  }

  /** A pair is among the tagged keys iff its key is one of them and its value is the tag. */
  lemma TaggedMembers<K, V>(keys: seq<K>, v: V, k: K, w: V)
    ensures (k, w) in Tagged(keys, v) <==> k in keys && v == w
  {
    var r := Tagged(keys, v);
    if (k, w) in r {
      var i :| 0 <= i < |r| && r[i] == (k, w);
      assert keys[i] == k;
    }
    if k in keys && v == w {
      var i :| 0 <= i < |keys| && keys[i] == k;
      assert r[i] == (k, w);
    }
  }

  /** The pairs from position `j` on: the pair at `j`, then the rest. */
  lemma TaggedStep<K, V>(keys: seq<K>, j: int, v: V)
    requires 0 <= j < |keys|
    ensures Tagged(keys[j..], v) == [(keys[j], v)] + Tagged(keys[j + 1..], v)
  {
    assert keys[j..][1..] == keys[j + 1..];
  }

  /** One step of a grouping loop. */
  lemma GroupFromCons<K, V>(g: map<K, seq<V>>, p: (K, V), rest: seq<(K, V)>)
    ensures GroupFrom(g, [p] + rest) == GroupFrom(Push(g, p.0, p.1), rest)
  {
    assert ([p] + rest)[1..] == rest;
  }

  /** One step of a repeat-free grouping loop. */
  lemma GroupUniqueFromCons<K, V>(g: map<K, seq<V>>, p: (K, V), rest: seq<(K, V)>)
    ensures GroupUniqueFrom(g, [p] + rest) == GroupUniqueFrom(PushNew(g, p.0, p.1), rest)
  {
    assert ([p] + rest)[1..] == rest;
  }

  /** Selecting from two lists of pairs one after the other. */
  lemma {:induction false} SelectConcat<K, V>(a: seq<(K, V)>, b: seq<(K, V)>, k: K)
    ensures Select(a + b, k) == Select(a, k) + Select(b, k)
    decreases |a|
  {
    if |a| > 0 {
      assert (a + b)[0] == a[0];
      assert (a + b)[1..] == a[1..] + b;
      SelectConcat(a[1..], b, k);
      var h := if a[0].0 == k then [a[0].1] else [];
      assert Select(a + b, k) == h + Select((a + b)[1..], k);
      assert Select(a, k) == h + Select(a[1..], k);
      assert h + (Select(a[1..], k) + Select(b, k)) == h + Select(a[1..], k) + Select(b, k);
    } else {
      assert a + b == b;
    }
  }

  /** Selecting from pairs that all hold `v`: nothing unless `k` is among the keys, else `v` first. */
  lemma {:induction false} SelectTagged<K, V>(keys: seq<K>, v: V, k: K)
    ensures Select(Tagged(keys, v), k) == [] <==> k !in keys
    ensures k in keys ==> Select(Tagged(keys, v), k)[0] == v
    decreases |keys|
  {
    if |keys| > 0 {
      SelectTagged(keys[1..], v, k);
      assert keys == [keys[0]] + keys[1..];
      assert Tagged(keys, v)[1..] == Tagged(keys[1..], v);
    }
  }

  /** Assigning one pair more at the back. */
  lemma OverwriteSnoc<K, V>(pairs: seq<(K, V)>, p: (K, V))
    ensures Overwrite(pairs + [p]) == Overwrite(pairs)[p.0 := p.1]
  {
    assert (pairs + [p])[..|pairs|] == pairs;
  }

  /** The value of the last pair with key `k`, if any. */
  function LastWith<K(==), V>(pairs: seq<(K, V)>, k: K): Option<V> {
    if |pairs| == 0 then None
    else if pairs[|pairs| - 1].0 == k then Some(pairs[|pairs| - 1].1)
    else LastWith(pairs[..|pairs| - 1], k)
  }

  /** The last pair with its key before the final pair stays the last one when the final pair has another key. */
  lemma IsLastInit<K, V>(pairs: seq<(K, V)>, i: int)
    requires 0 <= i < |pairs| - 1
    requires IsLast(pairs[..|pairs| - 1], i) && pairs[|pairs| - 1].0 != pairs[i].0
    ensures IsLast(pairs, i)
  {
    var init := pairs[..|pairs| - 1];
    forall j | i < j < |pairs| ensures pairs[j].0 != pairs[i].0 {
      if j < |pairs| - 1 {
        assert init[j] == pairs[j];
      }
    }
  }

  /** `LastWith` finds the last pair with the key, and finds nothing only when no pair has it. */
  lemma {:induction false} LastWithSpec<K, V>(pairs: seq<(K, V)>, k: K)
    ensures LastWith(pairs, k).None? <==> !HasKey(pairs, k)
    ensures LastWith(pairs, k).Some? ==>
      exists i :: 0 <= i < |pairs| && IsLast(pairs, i) && pairs[i] == (k, LastWith(pairs, k).value)
    decreases |pairs|
  {
    if |pairs| > 0 {
      var n := |pairs| - 1;
      var init := pairs[..n];
      if pairs[n].0 == k {
        assert IsLast(pairs, n);
      } else {
        LastWithSpec(init, k);
        if HasKey(pairs, k) {
          var i :| 0 <= i < |pairs| && pairs[i].0 == k;
          assert init[i].0 == k;
        }
        if LastWith(init, k).Some? {
          var i :| 0 <= i < n && IsLast(init, i) && init[i] == (k, LastWith(init, k).value);
          assert pairs[i] == init[i];
          IsLastInit(pairs, i);
        }
      }
    }
  }

  /** Reading the dictionary left by the assignments is finding the last pair with the key. */
  lemma {:induction false} OverwriteLastWith<K, V>(pairs: seq<(K, V)>, k: K)
    ensures k in Overwrite(pairs) <==> LastWith(pairs, k).Some?
    ensures k in Overwrite(pairs) ==> Overwrite(pairs)[k] == LastWith(pairs, k).value
    decreases |pairs|
  {
    if |pairs| > 0 {
      OverwriteLastWith(pairs[..|pairs| - 1], k);
    }
  }

  /** Grouping two lists of pairs one after the other. */
  lemma {:induction false} GroupFromConcat<K, V>(g: map<K, seq<V>>, a: seq<(K, V)>, b: seq<(K, V)>)
    ensures GroupFrom(g, a + b) == GroupFrom(GroupFrom(g, a), b)
    decreases |a|
  {
    if |a| == 0 {
      assert a + b == b;
    } else {
      assert (a + b)[0] == a[0];
      assert (a + b)[1..] == a[1..] + b;
      GroupFromConcat(Push(g, a[0].0, a[0].1), a[1..], b);
    }
  }

  /** Repeat-free grouping of two lists of pairs one after the other. */
  lemma {:induction false} GroupUniqueFromConcat<K, V>(g: map<K, seq<V>>, a: seq<(K, V)>, b: seq<(K, V)>)
    ensures GroupUniqueFrom(g, a + b) == GroupUniqueFrom(GroupUniqueFrom(g, a), b)
    decreases |a|
  {
    if |a| == 0 {
      assert a + b == b;
    } else {
      assert (a + b)[0] == a[0];
      assert (a + b)[1..] == a[1..] + b;
      GroupUniqueFromConcat(PushNew(g, a[0].0, a[0].1), a[1..], b);
    }
  }

  /** The inner loop of a grouping loop: `v` pushed under each of `keys` in turn. */
  method PushEach<K, V>(g: map<K, seq<V>>, keys: seq<K>, v: V) returns (r: map<K, seq<V>>)
    ensures r == GroupFrom(g, Tagged(keys, v))
  {
    r := g;
    var j := 0;
    while j < |keys|
      invariant 0 <= j <= |keys|
      invariant GroupFrom(r, Tagged(keys[j..], v)) == GroupFrom(g, Tagged(keys, v))
    {
      TaggedStep(keys, j, v);
      GroupFromCons(r, (keys[j], v), Tagged(keys[j + 1..], v));
      r := Push(r, keys[j], v);
      j := j + 1;
    }
  }

  /** The inner loop of a repeat-free grouping loop. */
  method PushEachNew<K, V(==)>(g: map<K, seq<V>>, keys: seq<K>, v: V) returns (r: map<K, seq<V>>)
    ensures r == GroupUniqueFrom(g, Tagged(keys, v))
  {
    r := g;
    var j := 0;
    while j < |keys|
      invariant 0 <= j <= |keys|
      invariant GroupUniqueFrom(r, Tagged(keys[j..], v)) == GroupUniqueFrom(g, Tagged(keys, v))
    {
      TaggedStep(keys, j, v);
      GroupUniqueFromCons(r, (keys[j], v), Tagged(keys[j + 1..], v));
      r := PushNew(r, keys[j], v);
      j := j + 1;
    }
  }
}
