/** Python dictionaries as the core uses them: insertion-ordered, `d[k] = v`
    overwrites in place, a comprehension keeps the last value given for a key,
    and `d.setdefault(k, []).append(v)` gathers values under their key. A
    dictionary is an association list whose keys are distinct. */
module Dicts {
  import opened Wrappers

  type Dict<K, V> = seq<(K, V)>

  function Keys<K, V>(d: Dict<K, V>): seq<K> {
    seq(|d|, i requires 0 <= i < |d| => d[i].0)
  }

  predicate DistinctKeys<K(==), V>(d: Dict<K, V>) {
    forall i, j :: 0 <= i < j < |d| ==> d[i].0 != d[j].0
  }

  /** `d.get(k)`: the value stored under `k`, if any. */
  function Get<K(==), V>(d: Dict<K, V>, k: K): (r: Option<V>)
    ensures r.None? <==> k !in Keys(d)
    ensures r.Some? ==> (k, r.value) in d
  {
    if d == [] then None
    else
      KeysCons(d);
      if d[0].0 == k then Some(d[0].1) else Get(d[1..], k)
  }

  lemma KeysCons<K, V>(d: Dict<K, V>)
    requires d != []
    ensures Keys(d) == [d[0].0] + Keys(d[1..])
  {
  }

  /** `d[k] = v`: replaces the value in place when `k` is present, otherwise
      appends the new entry at the end. */
  function Set<K(==, !new), V>(d: Dict<K, V>, k: K, v: V): (r: Dict<K, V>)
    ensures Get(r, k) == Some(v)
    ensures forall k' :: k' != k ==> Get(r, k') == Get(d, k')
    ensures Keys(r) == if k in Keys(d) then Keys(d) else Keys(d) + [k]
  {
    if d == [] then [(k, v)]
    else if d[0].0 == k then
      var r := [(k, v)] + d[1..];
      KeysCons(d);
      KeysCons(r);
      assert r[1..] == d[1..];
      r
    else
      var tail := Set(d[1..], k, v);
      var r := [d[0]] + tail;
      assert r[1..] == tail;
      KeysCons(d);
      KeysCons(r);
      r
  }

  lemma SetKeysIn<K(!new), V>(d: Dict<K, V>, k: K, v: V)
    ensures forall k' :: k' in Keys(Set(d, k, v)) <==> k' in Keys(d) || k' == k
  {
  }

  lemma SetKeepsDistinct<K(!new), V>(d: Dict<K, V>, k: K, v: V)
    requires DistinctKeys(d)
    ensures DistinctKeys(Set(d, k, v))
  {
    var r := Set(d, k, v);
    forall i, j | 0 <= i < j < |r| ensures r[i].0 != r[j].0 {
      assert r[i].0 == Keys(r)[i] && r[j].0 == Keys(r)[j];
      if k !in Keys(d) && j == |d| {
        assert Keys(r)[i] == Keys(d)[i];
      }
    }
  }

  /** The last value paired with `k` in `pairs`. */
  function LastValue<K(==), V>(pairs: seq<(K, V)>, k: K): (r: Option<V>)
    ensures r.None? <==> k !in Keys(pairs)
    ensures r.Some? ==> exists i :: 0 <= i < |pairs| && pairs[i] == (k, r.value)
                                    && forall j :: i < j < |pairs| ==> pairs[j].0 != k
  {
    if pairs == [] then None
    else if pairs[|pairs| - 1].0 == k then
      assert Keys(pairs)[|pairs| - 1] == k;
      Some(pairs[|pairs| - 1].1)
    else
      assert Keys(pairs) == Keys(pairs[..|pairs| - 1]) + [pairs[|pairs| - 1].0];
      LastValue(pairs[..|pairs| - 1], k)
  }

  /** Every value paired with `k` in `pairs`, in order. */
  function ValuesOf<K(==), V>(pairs: seq<(K, V)>, k: K): seq<V> {
    if pairs == [] then []
    else ValuesOf(pairs[..|pairs| - 1], k)
         + (if pairs[|pairs| - 1].0 == k then [pairs[|pairs| - 1].1] else [])
  }

  /** The values of `k` are exactly the values paired with `k`. */
  lemma {:induction false} ValuesOfExactly<K, V>(pairs: seq<(K, V)>, k: K, v: V)
    ensures v in ValuesOf(pairs, k) <==> (k, v) in pairs
    decreases |pairs|
  {
    if pairs != [] {
      var n := |pairs| - 1;
      ValuesOfExactly(pairs[..n], k, v);
      assert pairs == pairs[..n] + [pairs[n]];
    }
  }

  /** In a dictionary with distinct keys, looking up the key at position `i`
      finds the value at position `i`. */
  lemma {:induction false} GetAt<K(!new), V>(d: Dict<K, V>, i: nat)
    requires DistinctKeys(d)
    requires i < |d|
    ensures Get(d, d[i].0) == Some(d[i].1)
  {
    if i > 0 {
      assert DistinctKeys(d[1..]);
      assert d[1..][i - 1] == d[i];
      GetAt(d[1..], i - 1);
    }
  }

  /** The second components of `pairs`, in order. */
  function Seconds<K, V>(pairs: seq<(K, V)>): (vs: seq<V>)
    ensures |vs| == |pairs|
    ensures forall i :: 0 <= i < |pairs| ==> vs[i] == pairs[i].1
  {
    if pairs == [] then [] else Seconds(pairs[..|pairs| - 1]) + [pairs[|pairs| - 1].1]
  }

  /** `{k: v for (k, v) in pairs}`. */
  function FromPairs<K(==, !new), V>(pairs: seq<(K, V)>): Dict<K, V> {
    if pairs == [] then []
    else Set(FromPairs(pairs[..|pairs| - 1]), pairs[|pairs| - 1].0, pairs[|pairs| - 1].1)
  }

  /** The list stored under `k`, or `[]`: what `setdefault(k, [])` returns. */
  function ListAt<K(==), V>(d: Dict<K, seq<V>>, k: K): seq<V> {
    match Get(d, k)
    case None => []
    case Some(l) => l
  }

  /** `d.setdefault(k, []).append(v)`. */
  function Append<K(==, !new), V>(d: Dict<K, seq<V>>, k: K, v: V): Dict<K, seq<V>> {
    Set(d, k, ListAt(d, k) + [v])
  }

  /** The dictionary a loop of `setdefault(k, []).append(v)` over `pairs`
      builds from `{}`. */
  function Collect<K(==, !new), V>(pairs: seq<(K, V)>): Dict<K, seq<V>> {
    if pairs == [] then []
    else Append(Collect(pairs[..|pairs| - 1]), pairs[|pairs| - 1].0, pairs[|pairs| - 1].1)
  }

  /** The dictionary a loop of `setdefault(k, []).append(v)` over `pairs`
      builds from `d`. */
  function AppendAll<K(==, !new), V>(d: Dict<K, seq<V>>, pairs: seq<(K, V)>): Dict<K, seq<V>> {
    if pairs == [] then d
    else Append(AppendAll(d, pairs[..|pairs| - 1]), pairs[|pairs| - 1].0, pairs[|pairs| - 1].1)
  }

  /** One more pair appends its value under its key. */
  lemma AppendAllSnoc<K(!new), V>(d: Dict<K, seq<V>>, pairs: seq<(K, V)>, k: K, v: V)
    ensures AppendAll(d, pairs + [(k, v)]) == Append(AppendAll(d, pairs), k, v)
  {
    assert (pairs + [(k, v)])[..|pairs|] == pairs;
  }

  /** Collecting two runs of pairs is collecting the first, then appending
      the second. */
  lemma {:induction false} CollectConcat<K(!new), V>(pairs: seq<(K, V)>, more: seq<(K, V)>)
    ensures Collect(pairs + more) == AppendAll(Collect(pairs), more)
    decreases |more|
  {
    if more != [] {
      var n := |more| - 1;
      CollectConcat(pairs, more[..n]);
      assert (pairs + more)[..|pairs + more| - 1] == pairs + more[..n];
    } else {
      assert pairs + more == pairs;
    }
  }

  /** Every list of a dictionary of lists, concatenated in key order. */
  function AllValues<K, V>(d: Dict<K, seq<V>>): seq<V> {
    if d == [] then [] else d[0].1 + AllValues(d[1..])
  }

  /** A comprehension holds one entry per distinct key, and each key's value is
      the last one given for it. */
  lemma {:induction false} FromPairsLookup<K(!new), V>(pairs: seq<(K, V)>)
    ensures DistinctKeys(FromPairs(pairs))
    ensures forall k :: Get(FromPairs(pairs), k) == LastValue(pairs, k)
  {
    if pairs != [] {
      var init, kl, vl := pairs[..|pairs| - 1], pairs[|pairs| - 1].0, pairs[|pairs| - 1].1;
      FromPairsLookup(init);
      SetKeepsDistinct(FromPairs(init), kl, vl);
      forall k ensures Get(FromPairs(pairs), k) == LastValue(pairs, k) {
        if k != kl {
          assert LastValue(pairs, k) == LastValue(init, k);
        }
      }
    }
  }

  /** One more pair is one more assignment. */
  lemma FromPairsSnoc<K(!new), V>(pairs: seq<(K, V)>, k: K, v: V)
    ensures FromPairs(pairs + [(k, v)]) == Set(FromPairs(pairs), k, v)
  {
    assert (pairs + [(k, v)])[..|pairs|] == pairs;
  }

  /** A single assignment leaves a dictionary with that one key. */
  lemma SingleEntryKeys<K(!new), V>(pairs: seq<(K, V)>)
    requires |pairs| == 1
    ensures Keys(FromPairs(pairs)) == [pairs[0].0]
  {
    assert pairs[..0] == [];
    assert FromPairs(pairs) == Set([], pairs[0].0, pairs[0].1);
  }

  lemma FromPairsKeys<K(!new), V>(pairs: seq<(K, V)>)
    ensures forall k :: k in Keys(FromPairs(pairs)) <==> k in Keys(pairs)
  {
    FromPairsLookup(pairs);
    forall k ensures k in Keys(FromPairs(pairs)) <==> k in Keys(pairs) {
      assert Get(FromPairs(pairs), k) == LastValue(pairs, k);
    }
  }

  /** A comprehension whose every value is `v` stores only `v`. */
  lemma FromPairsValues<K(!new), V>(pairs: seq<(K, V)>, v: V)
    requires forall i :: 0 <= i < |pairs| ==> pairs[i].1 == v
    ensures forall i :: 0 <= i < |FromPairs(pairs)| ==> FromPairs(pairs)[i].1 == v
  {
    var r := FromPairs(pairs);
    FromPairsLookup(pairs);
    forall i | 0 <= i < |r| ensures r[i].1 == v {
      GetAt(r, i);
      assert LastValue(pairs, r[i].0) == Some(r[i].1);
    }
  }

  /** After the `setdefault(...).append` loop the dictionary has distinct keys,
      holds a key exactly when some pair has it, and lists under each key every
      value paired with it, in order. */
  lemma {:induction false} CollectLookup<K(!new), V>(pairs: seq<(K, V)>)
    ensures DistinctKeys(Collect(pairs))
    ensures forall k :: Get(Collect(pairs), k) ==
                          if ValuesOf(pairs, k) == [] then None else Some(ValuesOf(pairs, k))
  {
    if pairs != [] {
      var init, kl, vl := pairs[..|pairs| - 1], pairs[|pairs| - 1].0, pairs[|pairs| - 1].1;
      CollectLookup(init);
      SetKeepsDistinct(Collect(init), kl, ListAt(Collect(init), kl) + [vl]);
      forall k
        ensures Get(Collect(pairs), k) ==
                  if ValuesOf(pairs, k) == [] then None else Some(ValuesOf(pairs, k))
      {
        if k == kl {
          assert ValuesOf(pairs, k) == ValuesOf(init, k) + [vl];
          assert ListAt(Collect(init), k) == ValuesOf(init, k);
        } else {
          assert ValuesOf(pairs, k) == ValuesOf(init, k);
        }
      }
    }
  }

  lemma {:induction false} AllValuesAfterSet<K(!new), V>(d: Dict<K, seq<V>>, k: K, l: seq<V>)
    requires DistinctKeys(d)
    ensures multiset(AllValues(Set(d, k, l))) == multiset(AllValues(d)) - multiset(ListAt(d, k)) + multiset(l)
  {
    if d == [] {
    } else if d[0].0 == k {
      assert ([(k, l)] + d[1..])[1..] == d[1..];
      assert ListAt(d, k) == d[0].1;
    } else {
      var tail := d[1..];
      assert DistinctKeys(tail);
      AllValuesAfterSet(tail, k, l);
      AllValuesHoldsList(tail, k);
      assert ListAt(d, k) == ListAt(tail, k);
      assert ([d[0]] + Set(tail, k, l))[1..] == Set(tail, k, l);
      calc {
        multiset(AllValues(Set(d, k, l)));
        multiset(d[0].1) + multiset(AllValues(Set(tail, k, l)));
        multiset(d[0].1) + (multiset(AllValues(tail)) - multiset(ListAt(tail, k)) + multiset(l));
        multiset(AllValues(d)) - multiset(ListAt(d, k)) + multiset(l);
      }
    }
  }

  lemma AllValuesHoldsList<K, V>(d: Dict<K, seq<V>>, k: K)
    ensures multiset(ListAt(d, k)) <= multiset(AllValues(d))
  {
  }

  /** Every value given to the `setdefault(...).append` loop ends up in exactly
      one list of the dictionary, once per time it was given. */
  lemma {:induction false} CollectKeepsEveryValue<K(!new), V>(pairs: seq<(K, V)>)
    ensures multiset(AllValues(Collect(pairs))) == multiset(Seconds(pairs))
  {
    if pairs != [] {
      var init, k, v := pairs[..|pairs| - 1], pairs[|pairs| - 1].0, pairs[|pairs| - 1].1;
      CollectKeepsEveryValue(init);
      CollectLookup(init);
      AllValuesHoldsList(Collect(init), k);
      AllValuesAfterSet(Collect(init), k, ListAt(Collect(init), k) + [v]);
      assert Seconds(pairs) == Seconds(init) + [v];
    }
  }
}
