/** The stable descending sort both pipelines use (`.sort((a, b) => key(b) - key(a))`).
    `Array.prototype.sort` is stable, so elements with equal keys keep their
    input order. The sort is given here as insertion sort; `SortUnique` shows
    that any stable descending sort yields the same sequence, so the choice of
    algorithm does not matter. */
module StableSort {

  /** Keys never increase from left to right. */
  ghost predicate Descending<T>(s: seq<T>, key: T -> real) {
    forall i, j :: 0 <= i < j < |s| ==> key(s[i]) >= key(s[j])
  }

  /** The elements of `s` whose key is `v`, in their order in `s`. */
  function WithKey<T>(s: seq<T>, key: T -> real, v: real): seq<T> {
    if s == [] then []
    else if key(s[0]) == v then [s[0]] + WithKey(s[1..], key, v)
    else WithKey(s[1..], key, v)
  }

  function SumOf<T>(s: seq<T>, key: T -> real): real {
    if s == [] then 0.0 else key(s[0]) + SumOf(s[1..], key)
  }

  /** Places `x` before the first element whose key is not larger than its own. */
  function Insert<T>(x: T, s: seq<T>, key: T -> real): (r: seq<T>)
    ensures |r| == |s| + 1
    ensures multiset(r) == multiset(s) + multiset{x}
  {
    if s == [] || key(x) >= key(s[0]) then [x] + s
    else
      assert s == [s[0]] + s[1..];
      [s[0]] + Insert(x, s[1..], key)
  }

  function Sort<T>(s: seq<T>, key: T -> real): (r: seq<T>)
    ensures |r| == |s|
    ensures multiset(r) == multiset(s)
  {
    if s == [] then []
    else
      assert s == [s[0]] + s[1..];
      Insert(s[0], Sort(s[1..], key), key)
  }

  lemma {:induction false} InsertDescending<T>(x: T, s: seq<T>, key: T -> real)
    requires Descending(s, key)
    ensures Descending(Insert(x, s, key), key)
  {
    if s == [] || key(x) >= key(s[0]) {
    } else {
      var t := s[1..];
      InsertDescending(x, t, key);
      var r := Insert(x, t, key);
      assert Insert(x, s, key) == [s[0]] + r;
      forall k | 0 <= k < |r| ensures key(s[0]) >= key(r[k]) {
        assert r[k] in multiset(r);
        assert r[k] == x || r[k] in multiset(t);
      }
    }
  }

  lemma {:induction false} SortDescending<T>(s: seq<T>, key: T -> real)
    ensures Descending(Sort(s, key), key)
  {
    if s != [] {
      SortDescending(s[1..], key);
      InsertDescending(s[0], Sort(s[1..], key), key);
    }
  }

  lemma {:induction false} WithKeyInsert<T>(x: T, s: seq<T>, key: T -> real, v: real)
    ensures WithKey(Insert(x, s, key), key, v) == WithKey([x] + s, key, v)
  {
    if s == [] || key(x) >= key(s[0]) {
    } else {
      WithKeyInsert(x, s[1..], key, v);
      assert ([x] + s)[1..] == s;
      assert ([x] + s[1..])[1..] == s[1..];
      assert ([s[0]] + Insert(x, s[1..], key))[1..] == Insert(x, s[1..], key);
    }
  }

  /** Stability: for every key value, the elements carrying it appear in the
      output in the same order as in the input. */
  lemma {:induction false} SortStable<T>(s: seq<T>, key: T -> real, v: real)
    ensures WithKey(Sort(s, key), key, v) == WithKey(s, key, v)
  {
    if s != [] {
      SortStable(s[1..], key, v);
      WithKeyInsert(s[0], Sort(s[1..], key), key, v);
      assert ([s[0]] + Sort(s[1..], key))[1..] == Sort(s[1..], key);
    }
  }

  lemma {:induction false} SumOfInsert<T>(x: T, s: seq<T>, key: T -> real)
    ensures SumOf(Insert(x, s, key), key) == key(x) + SumOf(s, key)
  {
    if s == [] || key(x) >= key(s[0]) {
      assert ([x] + s)[1..] == s;
    } else {
      SumOfInsert(x, s[1..], key);
      assert ([s[0]] + Insert(x, s[1..], key))[1..] == Insert(x, s[1..], key);
    }
  }

  lemma {:induction false} SortSum<T>(s: seq<T>, key: T -> real)
    ensures SumOf(Sort(s, key), key) == SumOf(s, key)
  {
    if s != [] {
      SortSum(s[1..], key);
      SumOfInsert(s[0], Sort(s[1..], key), key);
    }
  }

  lemma {:induction false} WithKeyMember<T>(s: seq<T>, key: T -> real, k: nat)
    requires k < |s|
    ensures WithKey(s, key, key(s[k])) != []
  {
    if k > 0 {
      WithKeyMember(s[1..], key, k - 1);
      assert s[1..][k - 1] == s[k];
    }
  }

  lemma {:induction false} WithKeyBelowHead<T>(s: seq<T>, key: T -> real, v: real)
    requires Descending(s, key)
    requires WithKey(s, key, v) != []
    ensures s != [] && key(s[0]) >= v
  {
    if s != [] && key(s[0]) != v {
      WithKeyBelowHead(s[1..], key, v);
      assert s[1..][0] == s[1];
    }
  }

  /** Two descending sequences that agree on every key's subsequence are equal. */
  lemma {:induction false} DescendingDetermined<T>(u: seq<T>, w: seq<T>, key: T -> real)
    requires Descending(u, key) && Descending(w, key)
    requires forall v :: WithKey(u, key, v) == WithKey(w, key, v)
    ensures u == w
    decreases |u|
  {
    if u != [] {
      WithKeyMember(u, key, 0);
      assert WithKey(w, key, key(u[0])) != [];
      WithKeyBelowHead(w, key, key(u[0]));
      WithKeyMember(w, key, 0);
      WithKeyBelowHead(u, key, key(w[0]));
      var k := key(u[0]);
      assert key(w[0]) == k;
      assert WithKey(u, key, k)[0] == u[0];
      assert u[0] == w[0];
      forall v ensures WithKey(u[1..], key, v) == WithKey(w[1..], key, v) {
        assert WithKey(u, key, v) == WithKey(w, key, v);
        if v == k {
          assert WithKey(u, key, v)[1..] == WithKey(u[1..], key, v);
          assert WithKey(w, key, v)[1..] == WithKey(w[1..], key, v);
        }
      }
      DescendingDetermined(u[1..], w[1..], key);
      assert u == [u[0]] + u[1..] && w == [w[0]] + w[1..];
    }
  }

  /** Any stable descending arrangement of `s` is `Sort(s, key)`. */
  lemma SortUnique<T>(s: seq<T>, t: seq<T>, key: T -> real)
    requires Descending(t, key)
    requires forall v :: WithKey(t, key, v) == WithKey(s, key, v)
    ensures t == Sort(s, key)
  {
    SortDescending(s, key);
    forall v ensures WithKey(t, key, v) == WithKey(Sort(s, key), key, v) {
      SortStable(s, key, v);
    }
    DescendingDetermined(t, Sort(s, key), key);
  }

  /** No two elements share a projection (used for member ids). */
  ghost predicate DistinctBy<T, K>(s: seq<T>, proj: T -> K) {
    forall i, j :: 0 <= i < j < |s| ==> proj(s[i]) != proj(s[j])
  }

  lemma {:induction false} InsertDistinct<T, K>(x: T, s: seq<T>, key: T -> real, proj: T -> K)
    requires DistinctBy(s, proj)
    requires forall k :: 0 <= k < |s| ==> proj(s[k]) != proj(x)
    ensures DistinctBy(Insert(x, s, key), proj)
  {
    if s != [] && key(x) < key(s[0]) {
      var t := s[1..];
      InsertDistinct(x, t, key, proj);
      var r := Insert(x, t, key);
      forall k | 0 <= k < |r| ensures proj(s[0]) != proj(r[k]) {
        assert r[k] in multiset(r);
        assert r[k] == x || r[k] in multiset(t);
      }
      assert Insert(x, s, key) == [s[0]] + r;
    }
  }

  lemma {:induction false} SortDistinct<T, K>(s: seq<T>, key: T -> real, proj: T -> K)
    requires DistinctBy(s, proj)
    ensures DistinctBy(Sort(s, key), proj)
  {
    if s != [] {
      var t := Sort(s[1..], key);
      SortDistinct(s[1..], key, proj);
      forall k | 0 <= k < |t| ensures proj(t[k]) != proj(s[0]) {
        assert t[k] in multiset(t);
        assert t[k] in s[1..];
      }
      InsertDistinct(s[0], t, key, proj);
    }
  }
}
