/**
 * The ordering steps of a stream pipeline: a stable sort by a descending
 * key (`sorted` with a reversed comparator on an ordered stream) and
 * `limit`.
 */
module Ranking {

  ghost predicate IsSortedDesc<T>(s: seq<T>, key: T -> real) {
    forall i, j :: 0 <= i < j < |s| ==> key(s[i]) >= key(s[j])
  }

  /** Where a stable insertion puts `x`: after every element whose key is at least its own. */
  function InsertionPoint<T>(sorted: seq<T>, x: T, key: T -> real): (p: nat)
    ensures p <= |sorted|
    ensures forall i :: 0 <= i < p ==> key(sorted[i]) >= key(x)
    ensures p < |sorted| ==> key(sorted[p]) < key(x)
  {
    if sorted == [] then 0
    else if key(sorted[0]) < key(x) then 0
    else 1 + InsertionPoint(sorted[1..], x, key)
  }

  function InsertDesc<T>(sorted: seq<T>, x: T, key: T -> real): (r: seq<T>) {
    var p := InsertionPoint(sorted, x, key);
    sorted[..p] + [x] + sorted[p..]
  }

  /** A stable sort from the greatest key to the least: each element is inserted after its equals. */
  function SortDesc<T>(s: seq<T>, key: T -> real): (r: seq<T>)
    ensures |r| == |s|
  {
    if s == [] then []
    else InsertDesc(SortDesc(s[..|s| - 1], key), s[|s| - 1], key)
  }

  lemma InsertDescSorted<T>(sorted: seq<T>, x: T, key: T -> real)
    requires IsSortedDesc(sorted, key)
    ensures IsSortedDesc(InsertDesc(sorted, x, key), key)
    ensures multiset(InsertDesc(sorted, x, key)) == multiset(sorted) + multiset{x}
  {
    var p := InsertionPoint(sorted, x, key);
    var r := InsertDesc(sorted, x, key);
    assert sorted == sorted[..p] + sorted[p..];
    forall i, j | 0 <= i < j < |r| ensures key(r[i]) >= key(r[j]) {
      if j < p || i > p {
      } else if i == p {
        assert r[j] == sorted[j - 1];
        assert key(sorted[p]) >= key(sorted[j - 1]);
      } else if j == p {
        assert r[i] == sorted[i];
      } else {
        assert r[i] == sorted[i] && r[j] == sorted[j - 1];
      }
    }
  }

  /** The sort returns a permutation of its input, ordered by non-increasing key. */
  lemma {:induction false} SortDescCorrect<T>(s: seq<T>, key: T -> real)
    ensures IsSortedDesc(SortDesc(s, key), key)
    ensures multiset(SortDesc(s, key)) == multiset(s)
  {
    if s != [] {
      var init, last := s[..|s| - 1], s[|s| - 1];
      SortDescCorrect(init, key);
      InsertDescSorted(SortDesc(init, key), last, key);
      assert s == init + [last];
    }
  }

  /** The elements whose key is `k`, in order. */
  function WithKey<T>(s: seq<T>, key: T -> real, k: real): (r: seq<T>)
    ensures |r| <= |s|
  {
    if s == [] then []
    else WithKey(s[..|s| - 1], key, k) + (if key(s[|s| - 1]) == k then [s[|s| - 1]] else [])
  }

  lemma {:induction false} WithKeyAppend<T>(a: seq<T>, b: seq<T>, key: T -> real, k: real)
    ensures WithKey(a + b, key, k) == WithKey(a, key, k) + WithKey(b, key, k)
    decreases |b|
  {
    if b == [] {
      assert a + b == a;
    } else {
      var b' := b[..|b| - 1];
      assert (a + b)[..|a + b| - 1] == a + b';
      WithKeyAppend(a, b', key, k);
    }
  }

  lemma {:induction false} WithKeyNone<T>(s: seq<T>, key: T -> real, k: real)
    requires forall i :: 0 <= i < |s| ==> key(s[i]) < k
    ensures WithKey(s, key, k) == []
  {
    if s != [] {
      WithKeyNone(s[..|s| - 1], key, k);
    }
  }

  lemma WithKeySingle<T>(x: T, key: T -> real, k: real)
    ensures WithKey([x], key, k) == if key(x) == k then [x] else []
  {
    assert [x][..0] == [];
  }

  /** Inserting into a sorted sequence puts `x` after every element sharing its key. */
  lemma InsertDescWithKey<T>(sorted: seq<T>, x: T, key: T -> real, k: real)
    requires IsSortedDesc(sorted, key)
    ensures WithKey(InsertDesc(sorted, x, key), key, k) ==
            WithKey(sorted, key, k) + (if key(x) == k then [x] else [])
  {
    var p := InsertionPoint(sorted, x, key);
    var front, back := sorted[..p], sorted[p..];
    assert sorted == front + back;
    assert InsertDesc(sorted, x, key) == (front + [x]) + back;
    WithKeyAppend(front + [x], back, key, k);
    WithKeyAppend(front, [x], key, k);
    WithKeyAppend(front, back, key, k);
    WithKeySingle(x, key, k);
    if key(x) == k {
      TailBelow(sorted, p, key, k);
      WithKeyNone(back, key, k);
    }
  }

  /** Past a position whose key is below `k`, a sorted sequence stays below `k`. */
  lemma TailBelow<T>(sorted: seq<T>, p: nat, key: T -> real, k: real)
    requires IsSortedDesc(sorted, key) && p <= |sorted|
    requires p < |sorted| ==> key(sorted[p]) < k
    ensures forall i :: 0 <= i < |sorted[p..]| ==> key(sorted[p..][i]) < k
  {
    forall i | 0 <= i < |sorted[p..]| ensures key(sorted[p..][i]) < k {
      assert key(sorted[p]) >= key(sorted[p + i]);
    }
  }

  /** Stability: among elements of equal key the sort keeps the input order. */
  lemma {:induction false} SortDescStable<T>(s: seq<T>, key: T -> real, k: real)
    ensures WithKey(SortDesc(s, key), key, k) == WithKey(s, key, k)
  {
    if s != [] {
      var init, last := s[..|s| - 1], s[|s| - 1];
      SortDescStable(init, key, k);
      SortDescCorrect(init, key);
      InsertDescWithKey(SortDesc(init, key), last, key, k);
    }
  }

  /** `Stream.limit(n)` for a non-negative `n`. */
  function Take<T>(s: seq<T>, n: nat): (r: seq<T>)
    ensures |r| <= n && |r| <= |s|
    ensures r == s[..|r|]
    ensures |s| <= n ==> r == s
    ensures |s| > n ==> |r| == n
  {
    if |s| <= n then s else s[..n]
  }

  ghost predicate Distinct<T>(s: seq<T>) {
    forall i, j :: 0 <= i < j < |s| ==> s[i] != s[j]
  }

  lemma {:induction false} DistinctCountsOnce<T>(s: seq<T>, x: T)
    requires Distinct(s)
    ensures multiset(s)[x] <= 1
  {
    if s != [] {
      var init, last := s[..|s| - 1], s[|s| - 1];
      assert s == init + [last];
      DistinctCountsOnce(init, x);
      assert last !in init by {
        forall i | 0 <= i < |init| ensures init[i] != last {
          assert init[i] == s[i];
        }
      }
    }
  }

  /** The sort neither loses nor adds an element. */
  lemma SortDescSameElements<T>(s: seq<T>, key: T -> real)
    ensures forall x :: x in SortDesc(s, key) <==> x in s
  {
    SortDescCorrect(s, key);
    var r := SortDesc(s, key);
    forall x ensures x in r <==> x in s {
      assert x in r <==> x in multiset(r);
      assert x in s <==> x in multiset(s);
    }
  }

  lemma RepeatCountsTwice<T>(r: seq<T>, i: nat, j: nat)
    requires i < j < |r| && r[i] == r[j]
    ensures multiset(r)[r[i]] >= 2
  {
    assert r == r[..j] + r[j..];
    assert r[i] in r[..j] by {
      assert r[..j][i] == r[i];
    }
    assert r[j..][0] == r[j];
  }

  /** A list without repeats stays without repeats. */
  lemma SortDescDistinct<T>(s: seq<T>, key: T -> real)
    requires Distinct(s)
    ensures Distinct(SortDesc(s, key))
  {
    var r := SortDesc(s, key);
    SortDescCorrect(s, key);
    forall i, j | 0 <= i < j < |r| ensures r[i] != r[j] {
      if r[i] == r[j] {
        RepeatCountsTwice(r, i, j);
        DistinctCountsOnce(s, r[i]);
        assert false;
      }
    }
  }
}
