/**
 * Python dictionaries whose iteration order matters, as association lists in
 * insertion order. `Put` is `d[k] = v`: an existing key keeps its position,
 * a new key is appended; `Get` is `d.get(k)`.
 */
module Dicts {
  import opened Wrappers

  type Dict<K(==), V> = seq<(K, V)>

  /** The keys in iteration order, Python `list(d.keys())`. */
  function Keys<K(==), V>(d: Dict<K, V>): (ks: seq<K>)
    ensures |ks| == |d|
  {
    if d == [] then [] else [d[0].0] + Keys(d[1..])
  }

  /** The `i`-th key is the key of the `i`-th entry. */
  lemma {:induction false} KeysAt<K, V>(d: Dict<K, V>)
    ensures forall i :: 0 <= i < |d| ==> Keys(d)[i] == d[i].0
  {
    if d != [] {
      KeysAt(d[1..]);
    }
  }

  /** Reordering the entries of a dictionary keeps its keys. */
  lemma KeyInPermutation<K, V>(d: Dict<K, V>, p: Dict<K, V>, k: K)
    requires multiset(p) == multiset(d) && k in Keys(d)
    ensures k in Keys(p)
  {
    KeysAt(d);
    KeysAt(p);
    var m :| 0 <= m < |d| && Keys(d)[m] == k;
    assert d[m] in multiset(p);
    var q :| 0 <= q < |p| && p[q] == d[m];
    assert Keys(p)[q] == k;
  }

  /** The values in iteration order, Python `list(d.values())`. */
  function Values<K(==), V>(d: Dict<K, V>): (vs: seq<V>)
    ensures |vs| == |d| && forall i :: 0 <= i < |d| ==> vs[i] == d[i].1
  {
    if d == [] then [] else [d[0].1] + Values(d[1..])
  }

  predicate DistinctKeys<K(==), V>(d: Dict<K, V>) {
    forall i, j :: 0 <= i < j < |d| ==> d[i].0 != d[j].0
  }

  /** Python `d.get(k)`: the value stored under `k`, None when `k` is not a key. */
  function Get<K(==), V>(d: Dict<K, V>, k: K): (r: Option<V>)
    ensures r.None? <==> k !in Keys(d)
  {
    if d == [] then None
    else if d[0].0 == k then Some(d[0].1)
    else Get(d[1..], k)
  }

  /** A value found by `Get` is stored in some entry under that key. */
  lemma {:induction false} GetSome<K, V>(d: Dict<K, V>, k: K) returns (i: nat)
    requires Get(d, k).Some?
    ensures i < |d| && d[i] == (k, Get(d, k).value)
  {
    if d[0].0 == k {
      i := 0;
    } else {
      var j := GetSome(d[1..], k);
      i := j + 1;
    }
  }

  /** A value found by `Get` is one of the dictionary's values. */
  lemma GetInValues<K, V>(d: Dict<K, V>, k: K)
    requires Get(d, k).Some?
    ensures Get(d, k).value in Values(d)
  {
    var i := GetSome(d, k);
    assert Values(d)[i] == Get(d, k).value;
  }

  /** With distinct keys, every entry is found by its key. */
  lemma {:induction false} GetEntry<K, V>(d: Dict<K, V>, i: nat)
    requires DistinctKeys(d) && i < |d|
    ensures Get(d, d[i].0) == Some(d[i].1)
  {
    if i > 0 {
      GetEntry(d[1..], i - 1);
    }
  }

  /** Python `d[k] = v`. */
  function Put<K(==), V>(d: Dict<K, V>, k: K, v: V): (r: Dict<K, V>)
    ensures Get(r, k) == Some(v)
  {
    if d == [] then [(k, v)]
    else if d[0].0 == k then [(k, v)] + d[1..]
    else [d[0]] + Put(d[1..], k, v)
  }

  /** `d[k] = v` keeps the key order, appending `k` when it is new. */
  lemma {:induction false} PutKeys<K, V>(d: Dict<K, V>, k: K, v: V)
    ensures Keys(Put(d, k, v)) == if k in Keys(d) then Keys(d) else Keys(d) + [k]
  {
    if d == [] {
    } else if d[0].0 == k {
      assert Keys(d)[0] == k;
      assert Put(d, k, v) == [(k, v)] + d[1..];
      assert Keys(d) == [k] + Keys(d[1..]);
    } else {
      var d1 := d[1..];
      PutKeys(d1, k, v);
      var t := Keys(Put(d1, k, v));
      assert Put(d, k, v) == [d[0]] + Put(d1, k, v);
      assert Keys(Put(d, k, v)) == [d[0].0] + t;
      assert Keys(d) == [d[0].0] + Keys(d1);
      if k in Keys(d1) {
        assert t == Keys(d1);
      } else {
        assert k !in Keys(d);
        assert [d[0].0] + (Keys(d1) + [k]) == ([d[0].0] + Keys(d1)) + [k];
      }
    }
  }

  /** `d[k] = v` leaves every other key's value as it was. */
  lemma {:induction false} PutOther<K, V>(d: Dict<K, V>, k: K, v: V, k': K)
    requires k' != k
    ensures Get(Put(d, k, v), k') == Get(d, k')
  {
    if d != [] && d[0].0 != k {
      PutOther(d[1..], k, v, k');
    }
  }

  /** `d[k] = v` keeps the keys distinct. */
  lemma PutDistinct<K, V>(d: Dict<K, V>, k: K, v: V)
    requires DistinctKeys(d)
    ensures DistinctKeys(Put(d, k, v))
  {
    var r := Put(d, k, v);
    PutKeys(d, k, v);
    KeysAt(d);
    KeysAt(r);
    forall i, j | 0 <= i < j < |r| ensures r[i].0 != r[j].0 {
      if j < |d| {
        assert Keys(r)[i] == Keys(d)[i] && Keys(r)[j] == Keys(d)[j];
      } else {
        assert Keys(r)[j] == k && Keys(r)[i] == Keys(d)[i];
      }
    }
  }

  /** With distinct keys, `d[k] = v` replaces the entry of `k`, if any, and keeps every other entry. */
  lemma {:induction false} PutMembers<K, V>(d: Dict<K, V>, k: K, v: V)
    requires DistinctKeys(d)
    ensures forall e :: e in Put(d, k, v) <==> e == (k, v) || (e in d && e.0 != k)
  {
    if d != [] {
      assert DistinctKeys(d[1..]);
      assert forall e :: e in d <==> e == d[0] || e in d[1..];
      if d[0].0 == k {
        assert forall e :: e in d[1..] ==> e.0 != k;
      } else {
        PutMembers(d[1..], k, v);
      }
    }
  }

  /** Writing a key twice keeps only the second write. */
  lemma {:induction false} PutPut<K, V>(d: Dict<K, V>, k: K, v: V, w: V)
    ensures Put(Put(d, k, v), k, w) == Put(d, k, w)
  {
    if d != [] && d[0].0 != k {
      PutPut(d[1..], k, v, w);
    }
  }

  /** A new key is appended at the end, after every existing entry. */
  lemma {:induction false} PutNew<K, V>(d: Dict<K, V>, k: K, v: V)
    requires k !in Keys(d)
    ensures Put(d, k, v) == d + [(k, v)]
  {
    if d != [] {
      assert Keys(d) == [d[0].0] + Keys(d[1..]);
      assert d[0].0 != k && k !in Keys(d[1..]);
      PutNew(d[1..], k, v);
      assert Put(d, k, v) == [d[0]] + (d[1..] + [(k, v)]);
      assert d == [d[0]] + d[1..];
    }
  }
}
