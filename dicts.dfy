/**
 * Python dictionaries as association lists in insertion order: the order in which a dict
 * is iterated decides the text the monitor builds, so the model keeps it. `ToMap` is the
 * plain key-to-value view.
 */
module Dicts {

  /** The keys in iteration order. */
  function Keys<K, V>(d: seq<(K, V)>): (ks: seq<K>)
    ensures |ks| == |d| && forall i :: 0 <= i < |d| ==> ks[i] == d[i].0
  {
    seq(|d|, i requires 0 <= i < |d| => d[i].0)
  }

  /** No key occurs twice, as in every Python dict. */
  predicate Distinct<K(==), V>(d: seq<(K, V)>)
  {
    forall i, j :: 0 <= i < j < |d| ==> d[i].0 != d[j].0
  }

  /** The mapping a list of pairs denotes; a later pair for the same key wins, as in `dict(pairs)`. */
  function ToMap<K(==), V>(d: seq<(K, V)>): map<K, V>
  {
    if d == [] then map[] else ToMap(d[..|d| - 1])[d[|d| - 1].0 := d[|d| - 1].1]
  }

  lemma {:induction false} ToMapKeys<K, V>(d: seq<(K, V)>)
    ensures forall k :: k in ToMap(d) <==> k in Keys(d)
  {
    if d != [] {
      var p := d[..|d| - 1];
      ToMapKeys(p);
      assert Keys(d) == Keys(p) + [d[|d| - 1].0];
    }
  }

  lemma ToMapKey<K, V>(d: seq<(K, V)>, x: K)
    ensures x in ToMap(d) <==> x in Keys(d)
  {
    ToMapKeys(d);
  }

  /** Without repeated keys, every pair of the list is an entry of the mapping. */
  lemma {:induction false} ToMapAt<K, V>(d: seq<(K, V)>)
    requires Distinct(d)
    ensures forall k :: k in ToMap(d) <==> k in Keys(d)
    ensures forall j :: 0 <= j < |d| ==> d[j].0 in ToMap(d) && ToMap(d)[d[j].0] == d[j].1
  {
    ToMapKeys(d);
    if d != [] {
      var p := d[..|d| - 1];
      ToMapAt(p);
    }
  }

  /** Without repeated keys, the pair at a position is an entry of the mapping. */
  lemma ToMapEntry<K, V>(d: seq<(K, V)>, j: nat)
    requires Distinct(d) && j < |d|
    ensures d[j].0 in ToMap(d) && ToMap(d)[d[j].0] == d[j].1
  {
    ToMapAt(d);
  }

  /** The value the mapping gives a key comes from a pair of the list. */
  lemma {:induction false} ToMapValue<K, V>(d: seq<(K, V)>, k: K)
    requires k in ToMap(d)
    ensures (k, ToMap(d)[k]) in d
  {
    var p := d[..|d| - 1];
    if k != d[|d| - 1].0 {
      ToMapValue(p, k);
      assert (k, ToMap(d)[k]) in p;
    }
  }

  /** The position of a key that is present. */
  function IndexOf<K(==), V>(d: seq<(K, V)>, k: K): (i: nat)
    requires k in Keys(d)
    ensures i < |d| && d[i].0 == k
    ensures forall j :: 0 <= j < i ==> d[j].0 != k
  {
    if d[0].0 == k then 0 else
      assert k in Keys(d[1..]) by { assert Keys(d) == [d[0].0] + Keys(d[1..]); }
      1 + IndexOf(d[1..], k)
  }

  /** `d[k] = v` (and `d.update({k: v})`): a present key keeps its place, a new key goes last. */
  function Put<K(==), V>(d: seq<(K, V)>, k: K, v: V): seq<(K, V)>
  {
    if k in Keys(d) then d[IndexOf(d, k) := (k, v)] else d + [(k, v)]
  }

  /** Setting a key adds no pair but the new one. */
  lemma PutElements<K, V>(d: seq<(K, V)>, k: K, v: V)
    ensures forall x :: x in Put(d, k, v) ==> x in d || x == (k, v)
  {
    if k in Keys(d) {
      var i := IndexOf(d, k);
      forall x | x in d[i := (k, v)] ensures x in d || x == (k, v) {
        var j :| 0 <= j < |d| && d[i := (k, v)][j] == x;
        if j != i {
          assert x == d[j];
        }
      }
    }
  }

  /** Setting one key changes the mapping at that key only, keeps the keys distinct and their order. */
  lemma {:induction false} PutProperties<K, V>(d: seq<(K, V)>, k: K, v: V)
    requires Distinct(d)
    ensures Distinct(Put(d, k, v))
    ensures ToMap(Put(d, k, v)) == ToMap(d)[k := v]
    ensures Keys(Put(d, k, v)) == if k in Keys(d) then Keys(d) else Keys(d) + [k]
  {
    if k in Keys(d) {
      PutPresent(d, k, v);
    } else {
      var r := Put(d, k, v);
      assert Distinct(r);
      assert Keys(r) == Keys(d) + [k];
      assert r[..|r| - 1] == d;
    }
  }

  lemma {:induction false} PutPresent<K, V>(d: seq<(K, V)>, k: K, v: V)
    requires Distinct(d) && k in Keys(d)
    ensures Distinct(Put(d, k, v)) && Keys(Put(d, k, v)) == Keys(d)
    ensures ToMap(Put(d, k, v)) == ToMap(d)[k := v]
  {
    var i := IndexOf(d, k);
    assert Put(d, k, v) == d[i := (k, v)];
    assert Keys(d[i := (k, v)]) == Keys(d);
    ReplaceAt(d, i, v);
  }

  /** Replacing the value at one position updates the mapping at that position's key. */
  lemma {:induction false} ReplaceAt<K, V>(d: seq<(K, V)>, i: nat, v: V)
    requires Distinct(d) && i < |d|
    ensures ToMap(d[i := (d[i].0, v)]) == ToMap(d)[d[i].0 := v]
  {
    var n := |d| - 1;
    var k := d[i].0;
    var r := d[i := (k, v)];
    assert r[..n] == if i == n then d[..n] else d[..n][i := (k, v)];
    if i < n {
      ReplaceAt(d[..n], i, v);
      assert d[n].0 != k;
      assert ToMap(r) == ToMap(d[..n])[k := v][d[n].0 := d[n].1];
    }
  }

  /** The entries whose key is not in `ks`, in their order. */
  function Without<K(==), V>(d: seq<(K, V)>, ks: set<K>): (r: seq<(K, V)>)
    ensures |r| <= |d|
    ensures forall x :: x in r ==> x in d && x.0 !in ks
  {
    if d == [] then []
    else
      var last := d[|d| - 1];
      var rest := Without(d[..|d| - 1], ks);
      if last.0 in ks then rest else rest + [last]
  }

  /** Dropping keys none of which is present changes nothing. */
  lemma {:induction false} WithoutNothing<K, V>(d: seq<(K, V)>, ks: set<K>)
    requires forall i :: 0 <= i < |d| ==> d[i].0 !in ks
    ensures Without(d, ks) == d
  {
    if d != [] {
      WithoutNothing(d[..|d| - 1], ks);
    }
  }

  /** `del d[k]`. */
  function Remove<K(==), V>(d: seq<(K, V)>, k: K): seq<(K, V)>
  {
    Without(d, {k})
  }

  /** Dropping a set of keys removes exactly those keys from the mapping. */
  lemma {:induction false} WithoutMap<K, V>(d: seq<(K, V)>, ks: set<K>)
    ensures ToMap(Without(d, ks)) == ToMap(d) - ks
  {
    if d != [] {
      var p := d[..|d| - 1];
      var last := d[|d| - 1];
      WithoutMap(p, ks);
      var rest := Without(p, ks);
      UpdateMinus(ToMap(p), last.0, last.1, ks);
      if last.0 !in ks {
        assert (rest + [last])[..|rest|] == rest;
      }
    }
  }

  /** Setting a key and then dropping some keys, against dropping them first. */
  lemma UpdateMinus<K, V>(m: map<K, V>, k: K, v: V, ks: set<K>)
    ensures m[k := v] - ks == if k in ks then m - ks else (m - ks)[k := v]
  {
  }

  /** Dropping keys keeps a list without repeated keys so. */
  lemma {:induction false} WithoutDistinct<K, V>(d: seq<(K, V)>, ks: set<K>)
    requires Distinct(d)
    ensures Distinct(Without(d, ks))
  {
    if d != [] {
      var p := d[..|d| - 1];
      var last := d[|d| - 1];
      WithoutDistinct(p, ks);
      var rest := Without(p, ks);
      if last.0 !in ks {
        forall x | x in rest ensures x.0 != last.0 {
          var j :| 0 <= j < |p| && p[j] == x;
        }
      }
    }
  }

  /** Deleting keys one at a time is the same as dropping all of them. */
  lemma {:induction false} RemoveAfterWithout<K, V>(d: seq<(K, V)>, ks: set<K>, k: K)
    ensures Remove(Without(d, ks), k) == Without(d, ks + {k})
  {
    if d != [] {
      var p := d[..|d| - 1];
      var last := d[|d| - 1];
      RemoveAfterWithout(p, ks, k);
      var rest := Without(p, ks);
      if last.0 !in ks {
        assert (rest + [last])[..|rest|] == rest;
      }
    }
  }

  /** Dropping two sets of keys that agree on the keys present drops the same entries. */
  lemma {:induction false} WithoutAgree<K, V>(d: seq<(K, V)>, ks1: set<K>, ks2: set<K>)
    requires forall i :: 0 <= i < |d| ==> (d[i].0 in ks1 <==> d[i].0 in ks2)
    ensures Without(d, ks1) == Without(d, ks2)
  {
    if d != [] {
      WithoutAgree(d[..|d| - 1], ks1, ks2);
    }
  }
}
