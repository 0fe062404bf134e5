/**
 * Python's `sorted(s, key=..., reverse=...)`: a stable sort. It is modelled by
 * one insertion sort, parameterised by a key and a total preorder `le` on keys;
 * a descending sort passes the flipped order.
 */
module Sorting {
  ghost predicate TotalPreorder<K(!new)>(le: (K, K) -> bool) {
    && (forall a, b :: le(a, b) || le(b, a))
    && (forall a, b, c :: le(a, b) && le(b, c) ==> le(a, c))
  }

  predicate SortedBy<T, K>(s: seq<T>, key: T -> K, le: (K, K) -> bool) {
    forall i, j :: 0 <= i < j < |s| ==> le(key(s[i]), key(s[j]))
  }

  /** Inserts `x` in front of the first element it may precede, so `x` stays ahead of its equals. */
  function Insert<T, K>(x: T, s: seq<T>, key: T -> K, le: (K, K) -> bool): (r: seq<T>)
    ensures |r| == |s| + 1 && multiset(r) == multiset(s) + multiset{x}
  {
    if s == [] then [x]
    else if le(key(x), key(s[0])) then
      var r := [x] + s;
      assert multiset(r) == multiset(s) + multiset{x};
      r
    else
      var r := [s[0]] + Insert(x, s[1..], key, le);
      MultisetCons(s);
      assert multiset(r) == multiset(s) + multiset{x};
      r
  }

  lemma MultisetCons<T>(s: seq<T>)
    requires s != []
    ensures multiset(s) == multiset{s[0]} + multiset(s[1..])
  {
    assert s == [s[0]] + s[1..];
  }

  /** Inserting into a sorted sequence keeps it sorted. */
  lemma {:induction false} InsertSorted<T, K(!new)>(x: T, s: seq<T>, key: T -> K, le: (K, K) -> bool)
    ensures TotalPreorder(le) && SortedBy(s, key, le) ==> SortedBy(Insert(x, s, key, le), key, le)
  {
    if TotalPreorder(le) && SortedBy(s, key, le) && s != [] && !le(key(x), key(s[0])) {
      var t := Insert(x, s[1..], key, le);
      var r := [s[0]] + t;
      assert SortedBy(s[1..], key, le);
      InsertSorted(x, s[1..], key, le);
      forall j | 1 <= j < |r| ensures le(key(r[0]), key(r[j])) {
        assert r[j] == t[j - 1];
        assert t[j - 1] in multiset(t);
        if r[j] == x {
          assert le(key(x), key(s[0])) || le(key(s[0]), key(x));
        } else {
          assert r[j] in multiset(s[1..]);
          var m :| 0 <= m < |s[1..]| && s[1..][m] == r[j];
          assert s[m + 1] == r[j];
        }
      }
      assert Insert(x, s, key, le) == r;
    }
  }

  /** Python `sorted(s, key=key)` under the order `le`: a permutation of `s`, sorted by `SortBySorted`. */
  function SortBy<T, K(!new)>(s: seq<T>, key: T -> K, le: (K, K) -> bool): (r: seq<T>)
    ensures |r| == |s| && multiset(r) == multiset(s)
  {
    if s == [] then []
    else
      var rest := SortBy(s[1..], key, le);
      MultisetCons(s);
      Insert(s[0], rest, key, le)
  }

  /** Under a total preorder the result of `SortBy` is sorted. */
  lemma {:induction false} SortBySorted<T, K(!new)>(s: seq<T>, key: T -> K, le: (K, K) -> bool)
    requires TotalPreorder(le)
    ensures SortedBy(SortBy(s, key, le), key, le)
  {
    if s != [] {
      SortBySorted(s[1..], key, le);
      InsertSorted(s[0], SortBy(s[1..], key, le), key, le);
    }
  }

  /** The elements of `s` whose key is `k`, in their order in `s`. */
  function Filter<T, K(==)>(s: seq<T>, key: T -> K, k: K): seq<T>
  {
    if s == [] then []
    else (if key(s[0]) == k then [s[0]] else []) + Filter(s[1..], key, k)
  }

  /** The elements kept are elements of `s` with key `k`, no more of them than `s` has. */
  lemma {:induction false} FilterMembers<T, K>(s: seq<T>, key: T -> K, k: K)
    ensures |Filter(s, key, k)| <= |s|
    ensures forall i :: 0 <= i < |Filter(s, key, k)| ==> key(Filter(s, key, k)[i]) == k && Filter(s, key, k)[i] in s
  {
    if s != [] {
      FilterMembers(s[1..], key, k);
      var r := Filter(s, key, k);
      var t := Filter(s[1..], key, k);
      forall i | 0 <= i < |r| ensures key(r[i]) == k && r[i] in s {
        if key(s[0]) == k && i > 0 {
          assert r[i] == t[i - 1];
        } else if key(s[0]) != k {
          assert r[i] == t[i];
        }
      }
    }
  }

  lemma FilterCons<T, K>(x: T, s: seq<T>, key: T -> K, k: K)
    ensures Filter([x] + s, key, k) == (if key(x) == k then [x] else []) + Filter(s, key, k)
  {
    assert ([x] + s)[1..] == s;
  }

  ghost predicate Reflexive<K(!new)>(le: (K, K) -> bool) {
    forall a :: le(a, a)
  }

  lemma PreorderReflexive<K(!new)>(le: (K, K) -> bool)
    requires TotalPreorder(le)
    ensures Reflexive(le)
  {
    forall a ensures le(a, a) {
      assert le(a, a) || le(a, a);
    }
  }

  /** Putting `x` after the head of `s` instead of in front of it keeps the filter, when the head does not share `x`'s key `k`. */
  lemma FilterPassOver<T, K>(x: T, s: seq<T>, t: seq<T>, key: T -> K, k: K)
    requires s != [] && (key(x) == k ==> key(s[0]) != k)
    requires Filter(t, key, k) == (if key(x) == k then [x] else []) + Filter(s[1..], key, k)
    ensures Filter([s[0]] + t, key, k) == (if key(x) == k then [x] else []) + Filter(s, key, k)
  {
    FilterCons(s[0], t, key, k);
  }

  /** Inserting `x` passes over no element with the same key, so among those with key `k` it comes first. */
  lemma {:induction false} FilterInsert<T, K(!new)>(x: T, s: seq<T>, key: T -> K, le: (K, K) -> bool, k: K)
    requires Reflexive(le)
    ensures Filter(Insert(x, s, key, le), key, k) == (if key(x) == k then [x] else []) + Filter(s, key, k)
  {
    if s == [] {
    } else if le(key(x), key(s[0])) {
      FilterCons(x, s, key, k);
    } else {
      var t := Insert(x, s[1..], key, le);
      assert Insert(x, s, key, le) == [s[0]] + t;
      FilterInsert(x, s[1..], key, le, k);
      assert key(x) == k ==> key(s[0]) != k by {
        assert le(key(x), key(x));
      }
      FilterPassOver(x, s, t, key, k);
    }
  }

  /** Filtering a sequence extended at the end, as a loop that appends does. */
  lemma {:induction false} FilterSnoc<T, K>(s: seq<T>, x: T, key: T -> K, k: K)
    ensures Filter(s + [x], key, k) == Filter(s, key, k) + (if key(x) == k then [x] else [])
  {
    if s == [] {
      assert [x][1..] == [];
    } else {
      var h := if key(s[0]) == k then [s[0]] else [];
      assert (s + [x])[0] == s[0] && (s + [x])[1..] == s[1..] + [x];
      assert Filter(s + [x], key, k) == h + Filter(s[1..] + [x], key, k);
      FilterSnoc(s[1..], x, key, k);
      assert Filter(s, key, k) == h + Filter(s[1..], key, k);
    }
  }

  /** Filtering a non-empty sequence: its front, then its last element if kept. */
  lemma FilterLast<T, K>(s: seq<T>, key: T -> K, k: K)
    requires s != []
    ensures Filter(s, key, k) == Filter(s[..|s| - 1], key, k) + (if key(s[|s| - 1]) == k then [s[|s| - 1]] else [])
  {
    assert s == s[..|s| - 1] + [s[|s| - 1]];
    FilterSnoc(s[..|s| - 1], s[|s| - 1], key, k);
  }

  /** Filtering distributes over concatenation. */
  lemma {:induction false} FilterAppend<T, K>(a: seq<T>, b: seq<T>, key: T -> K, k: K)
    ensures Filter(a + b, key, k) == Filter(a, key, k) + Filter(b, key, k)
  {
    if a == [] {
      assert a + b == b;
    } else {
      var h := if key(a[0]) == k then [a[0]] else [];
      assert (a + b)[0] == a[0] && (a + b)[1..] == a[1..] + b;
      assert Filter(a + b, key, k) == h + Filter(a[1..] + b, key, k);
      FilterAppend(a[1..], b, key, k);
      assert Filter(a, key, k) == h + Filter(a[1..], key, k);
    }
  }

  /** A sequence whose elements all have key `k` is its own filter. */
  lemma {:induction false} FilterAll<T, K>(s: seq<T>, key: T -> K, k: K)
    requires forall x :: x in s ==> key(x) == k
    ensures Filter(s, key, k) == s
  {
    if s != [] {
      assert s[0] in s;
      assert forall x :: x in s[1..] ==> x in s;
      FilterAll(s[1..], key, k);
      assert s == [s[0]] + s[1..];
    }
  }

  /** A sequence none of whose elements has key `k` filters to nothing. */
  lemma {:induction false} FilterNone<T, K>(s: seq<T>, key: T -> K, k: K)
    requires forall x :: x in s ==> key(x) != k
    ensures Filter(s, key, k) == []
  {
    if s != [] {
      assert s[0] in s;
      assert forall x :: x in s[1..] ==> x in s;
      FilterNone(s[1..], key, k);
    }
  }

  /** Every element with key `k` is kept. */
  lemma {:induction false} FilterHas<T, K>(s: seq<T>, key: T -> K, k: K, x: T)
    requires x in s && key(x) == k
    ensures x in Filter(s, key, k)
  {
    if s[0] != x {
      FilterHas(s[1..], key, k, x);
    }
  }

  /**
   * Stability: the elements with any one key keep their relative order,
   * which is why Python's sort breaks ties by input position.
   */
  lemma {:induction false} SortByStable<T, K(!new)>(s: seq<T>, key: T -> K, le: (K, K) -> bool, k: K)
    requires TotalPreorder(le)
    ensures Filter(SortBy(s, key, le), key, k) == Filter(s, key, k)
  {
    if s != [] {
      SortByStable(s[1..], key, le, k);
      PreorderReflexive(le);
      FilterInsert(s[0], SortBy(s[1..], key, le), key, le, k);
    }
  }

  /** No two elements share their `proj` value. */
  predicate DistinctBy<T, P(==)>(s: seq<T>, proj: T -> P) {
    forall i, j :: 0 <= i < j < |s| ==> proj(s[i]) != proj(s[j])
  }

  lemma {:induction false} InsertDistinct<T, K, P>(x: T, s: seq<T>, key: T -> K, le: (K, K) -> bool, proj: T -> P)
    requires DistinctBy(s, proj) && forall y :: y in s ==> proj(y) != proj(x)
    ensures DistinctBy(Insert(x, s, key, le), proj)
  {
    if s != [] && !le(key(x), key(s[0])) {
      assert DistinctBy(s[1..], proj);
      InsertDistinct(x, s[1..], key, le, proj);
      var t := Insert(x, s[1..], key, le);
      forall j | 0 <= j < |t| ensures proj(s[0]) != proj(t[j]) {
        assert t[j] in multiset(t);
        if t[j] != x {
          assert t[j] in multiset(s[1..]);
          var m :| 0 <= m < |s[1..]| && s[1..][m] == t[j];
          assert s[m + 1] == t[j];
        }
      }
    }
  }

  /** Sorting keeps distinct elements distinct. */
  lemma {:induction false} SortByDistinct<T, K(!new), P>(s: seq<T>, key: T -> K, le: (K, K) -> bool, proj: T -> P)
    requires DistinctBy(s, proj)
    ensures DistinctBy(SortBy(s, key, le), proj)
  {
    if s != [] {
      assert DistinctBy(s[1..], proj);
      SortByDistinct(s[1..], key, le, proj);
      var rest := SortBy(s[1..], key, le);
      forall y | y in rest ensures proj(y) != proj(s[0]) {
        assert y in multiset(s[1..]);
        var m :| 0 <= m < |s[1..]| && s[1..][m] == y;
        assert s[m + 1] == y;
      }
      InsertDistinct(s[0], rest, key, le, proj);
    }
  }

  /** Taking the same element out of two permutations of each other leaves permutations. */
  lemma MultisetRemove<T>(a: seq<T>, b: seq<T>, j: nat)
    requires a != [] && j < |b| && b[j] == a[0] && multiset(a) == multiset(b)
    ensures multiset(b[..j] + b[j + 1..]) == multiset(a[1..])
  {
    var x := multiset{a[0]};
    var m := multiset(b[..j] + b[j + 1..]);
    assert b == (b[..j] + b[j + 1..])[..j] + [b[j]] + (b[..j] + b[j + 1..])[j..];
    assert multiset(b) == m + x;
    assert a == [a[0]] + a[1..];
    assert multiset(a) == multiset(a[1..]) + x;
    assert m == multiset(b) - x;
    assert multiset(a[1..]) == multiset(a) - x;
  }
}
