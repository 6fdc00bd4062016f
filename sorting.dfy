/**
  List comprehensions with a condition, and the stable sort Python's
  sorted(..., key=...) performs, written as an insertion sort on the keys.
*/
module Sorting {

  /** `[x for x in s if p(x)]`. */
  function Filter<T(==)>(s: seq<T>, p: T -> bool): (r: seq<T>)
    ensures |r| <= |s|
    ensures forall i :: 0 <= i < |r| ==> r[i] in s && p(r[i])
    ensures forall i :: 0 <= i < |s| && p(s[i]) ==> s[i] in r
  {
    if s == [] then [] else (if p(s[0]) then [s[0]] else []) + Filter(s[1..], p)
  }

  /** Filtering keeps the relative order: it distributes over concatenation. */
  lemma {:induction false} FilterConcat<T>(a: seq<T>, b: seq<T>, p: T -> bool)
    ensures Filter(a + b, p) == Filter(a, p) + Filter(b, p)
  {
    if a == [] {
      assert a + b == b;
    } else {
      assert (a + b)[1..] == a[1..] + b;
      FilterConcat(a[1..], b, p);
    }
  }

  /** A filter that every element passes returns its input. */
  lemma {:induction false} FilterAll<T>(s: seq<T>, p: T -> bool)
    requires forall i :: 0 <= i < |s| ==> p(s[i])
    ensures Filter(s, p) == s
  {
    if s != [] {
      FilterAll(s[1..], p);
    }
  }

  /** A filter that rejects some element returns fewer elements than it was given. */
  lemma {:induction false} FilterDrops<T>(s: seq<T>, p: T -> bool, k: int)
    requires 0 <= k < |s| && !p(s[k])
    ensures |Filter(s, p)| < |s|
  {
    if k > 0 {
      assert s[1..][k - 1] == s[k];
      FilterDrops(s[1..], p, k - 1);
    }
  }

  /** Two filters with complementary conditions split the input between them. */
  lemma {:induction false} FilterPartition<T>(s: seq<T>, p: T -> bool, q: T -> bool)
    requires forall i :: 0 <= i < |s| ==> (p(s[i]) <==> !q(s[i]))
    ensures multiset(Filter(s, p)) + multiset(Filter(s, q)) == multiset(s)
  {
    if s != [] {
      FilterPartition(s[1..], p, q);
      assert s == [s[0]] + s[1..];
    }
  }

  /** Concatenation keeps what held of each part at that part's positions. */
  lemma ConcatParts<T>(a: seq<T>, b: seq<T>, p: T -> bool, q: T -> bool)
    requires forall i :: 0 <= i < |a| ==> p(a[i])
    requires forall i :: 0 <= i < |b| ==> q(b[i])
    ensures forall i :: 0 <= i < |a| ==> p((a + b)[i])
    ensures forall i :: |a| <= i < |a + b| ==> q((a + b)[i])
  {
    forall i | |a| <= i < |a + b| ensures q((a + b)[i]) {
      assert (a + b)[i] == b[i - |a|];
    }
  }

  ghost predicate TotalOrder<K(!new)>(le: (K, K) -> bool) {
    && (forall a :: le(a, a))
    && (forall a, b :: le(a, b) && le(b, a) ==> a == b)
    && (forall a, b, c :: le(a, b) && le(b, c) ==> le(a, c))
    && (forall a, b :: le(a, b) || le(b, a))
  }

  ghost predicate SortedBy<T, K>(s: seq<T>, key: T -> K, le: (K, K) -> bool) {
    forall i, j :: 0 <= i < j < |s| ==> le(key(s[i]), key(s[j]))
  }

  /** The elements of `s` whose key is `k`, in their order in `s`. */
  function WithKey<T(==), K(==)>(s: seq<T>, key: T -> K, k: K): seq<T> {
    Filter(s, x => key(x) == k)
  }

  /** Places `x` before the first element of `r` whose key is not below its own. */
  function Insert<T, K>(x: T, r: seq<T>, key: T -> K, le: (K, K) -> bool): seq<T> {
    if r == [] || le(key(x), key(r[0])) then [x] + r
    else [r[0]] + Insert(x, r[1..], key, le)
  }

  /** `sorted(s, key=key)`. */
  function SortBy<T, K>(s: seq<T>, key: T -> K, le: (K, K) -> bool): seq<T> {
    if s == [] then [] else Insert(s[0], SortBy(s[1..], key, le), key, le)
  }

  lemma {:induction false} InsertPermutes<T, K>(x: T, r: seq<T>, key: T -> K, le: (K, K) -> bool)
    ensures multiset(Insert(x, r, key, le)) == multiset(r) + multiset{x}
  {
    if r != [] && !le(key(x), key(r[0])) {
      InsertPermutes(x, r[1..], key, le);
      assert r == [r[0]] + r[1..];
    }
  }

  /** A key below those of `x` and of every element of `r` stays below every element after inserting. */
  lemma {:induction false} InsertLowerBound<T, K>(x: T, r: seq<T>, key: T -> K, le: (K, K) -> bool, b: K)
    requires le(b, key(x)) && forall i :: 0 <= i < |r| ==> le(b, key(r[i]))
    ensures forall i :: 0 <= i < |Insert(x, r, key, le)| ==> le(b, key(Insert(x, r, key, le)[i]))
  {
    if r != [] && !le(key(x), key(r[0])) {
      var rest := Insert(x, r[1..], key, le);
      InsertLowerBound(x, r[1..], key, le, b);
      forall i | 1 <= i < |rest| + 1 ensures le(b, key(([r[0]] + rest)[i])) {
        assert ([r[0]] + rest)[i] == rest[i - 1];
      }
    }
  }

  lemma {:induction false} InsertSorted<T, K(!new)>(x: T, r: seq<T>, key: T -> K, le: (K, K) -> bool)
    requires TotalOrder(le) && SortedBy(r, key, le)
    ensures SortedBy(Insert(x, r, key, le), key, le)
  {
    if r != [] && !le(key(x), key(r[0])) {
      var rest := Insert(x, r[1..], key, le);
      assert SortedBy(r[1..], key, le);
      InsertSorted(x, r[1..], key, le);
      assert le(key(r[0]), key(x));
      forall i | 0 <= i < |r[1..]| ensures le(key(r[0]), key(r[1..][i])) {
        assert r[1..][i] == r[i + 1];
      }
      InsertLowerBound(x, r[1..], key, le, key(r[0]));
      var res := [r[0]] + rest;
      forall i, j | 0 <= i < j < |res| ensures le(key(res[i]), key(res[j])) {
        assert res[j] == rest[j - 1];
        if i > 0 {
          assert res[i] == rest[i - 1];
        }
      }
    }
  }

  /** Inserting adds `x` to its own key's group, in front, and leaves the other groups alone. */
  lemma {:induction false} InsertWithKey<T, K(!new)>(x: T, r: seq<T>, key: T -> K, le: (K, K) -> bool, k: K)
    requires TotalOrder(le)
    ensures WithKey(Insert(x, r, key, le), key, k) == (if key(x) == k then [x] else []) + WithKey(r, key, k)
  {
    var p := (y: T) => key(y) == k;
    if r == [] || le(key(x), key(r[0])) {
      assert ([x] + r)[1..] == r;
    } else {
      var rest := Insert(x, r[1..], key, le);
      InsertWithKey(x, r[1..], key, le, k);
      assert ([r[0]] + rest)[1..] == rest;
      assert key(r[0]) != key(x);
    }
  }

  lemma {:induction false} SortByPermutes<T, K>(s: seq<T>, key: T -> K, le: (K, K) -> bool)
    ensures multiset(SortBy(s, key, le)) == multiset(s)
  {
    if s != [] {
      SortByPermutes(s[1..], key, le);
      InsertPermutes(s[0], SortBy(s[1..], key, le), key, le);
      assert s == [s[0]] + s[1..];
    }
  }

  lemma {:induction false} SortBySorted<T, K(!new)>(s: seq<T>, key: T -> K, le: (K, K) -> bool)
    requires TotalOrder(le)
    ensures SortedBy(SortBy(s, key, le), key, le)
  {
    if s != [] {
      SortBySorted(s[1..], key, le);
      InsertSorted(s[0], SortBy(s[1..], key, le), key, le);
    }
  }

  /** Stability: every group of equal keys comes out in its input order. */
  lemma {:induction false} SortByStable<T, K(!new)>(s: seq<T>, key: T -> K, le: (K, K) -> bool, k: K)
    requires TotalOrder(le)
    ensures WithKey(SortBy(s, key, le), key, k) == WithKey(s, key, k)
  {
    if s != [] {
      SortByStable(s[1..], key, le, k);
      InsertWithKey(s[0], SortBy(s[1..], key, le), key, le, k);
    }
  }

  /** When every key is the same, sorting leaves the sequence as it was. */
  lemma SortByEqualKeys<T, K(!new)>(s: seq<T>, key: T -> K, le: (K, K) -> bool, k: K)
    requires TotalOrder(le)
    requires forall i :: 0 <= i < |s| ==> key(s[i]) == k
    ensures SortBy(s, key, le) == s
  {
    var r := SortBy(s, key, le);
    SortByStable(s, key, le, k);
    SortByPermutes(s, key, le);
    FilterAll(s, x => key(x) == k);
    forall i | 0 <= i < |r| ensures key(r[i]) == k {
      assert r[i] in multiset(s);
    }
    FilterAll(r, x => key(x) == k);
  }
}
