/**
 * Python's `list.sort(key=..., reverse=True)` on a real-valued key: a stable
 * sort into descending key order, modelled as insertion sort.
 */
module StableSort {
  import opened Lists

  predicate SortedDesc<T>(s: seq<T>, key: T -> real) {
    forall i, j :: 0 <= i < j < |s| ==> key(s[i]) >= key(s[j])
  }

  /** The elements of `s` whose key is `v`, in their order in `s`. */
  function KeyFilter<T>(s: seq<T>, key: T -> real, v: real): seq<T>
    decreases |s|
  {
    if |s| == 0 then []
    else KeyFilter(s[..|s| - 1], key, v) + (if key(s[|s| - 1]) == v then [s[|s| - 1]] else [])
  }

  /** Places `x` after every element whose key is at least `key(x)`. */
  function Insert<T>(s: seq<T>, x: T, key: T -> real): seq<T>
    decreases |s|
  {
    if |s| == 0 || key(s[|s| - 1]) >= key(x) then s + [x]
    else Insert(s[..|s| - 1], x, key) + [s[|s| - 1]]
  }

  lemma {:induction false} InsertMultiset<T>(s: seq<T>, x: T, key: T -> real)
    ensures multiset(Insert(s, x, key)) == multiset(s) + multiset{x}
    decreases |s|
  {
    if |s| > 0 && key(s[|s| - 1]) < key(x) {
      InsertMultiset(s[..|s| - 1], x, key);
      assert s == s[..|s| - 1] + [s[|s| - 1]];
    }
  }

  lemma {:induction false} InsertSorted<T>(s: seq<T>, x: T, key: T -> real)
    requires SortedDesc(s, key)
    ensures SortedDesc(Insert(s, x, key), key)
    decreases |s|
  {
    if |s| > 0 && key(s[|s| - 1]) < key(x) {
      var init, last := s[..|s| - 1], s[|s| - 1];
      InsertSorted(init, x, key);
      InsertMultiset(init, x, key);
      var t := Insert(init, x, key);
      forall y | y in t ensures key(y) >= key(last) {
        assert y in multiset(t);
        if y != x {
          assert y in multiset(init);
          var i :| 0 <= i < |init| && init[i] == y;
          assert s[i] == y;
        }
      }
      assert forall i :: 0 <= i < |t| ==> key(t[i]) >= key(last);
    }
  }

  lemma {:induction false} InsertKeyFilter<T>(s: seq<T>, x: T, key: T -> real, v: real)
    requires SortedDesc(s, key)
    ensures KeyFilter(Insert(s, x, key), key, v) == KeyFilter(s, key, v) + (if key(x) == v then [x] else [])
    decreases |s|
  {
    var r := Insert(s, x, key);
    if |s| == 0 || key(s[|s| - 1]) >= key(x) {
      assert r[..|r| - 1] == s;
    } else {
      var init, last := s[..|s| - 1], s[|s| - 1];
      InsertKeyFilter(init, x, key, v);
      assert r[..|r| - 1] == Insert(init, x, key);
    }
  }

  /**
   * Stable descending sort: the result is ordered by key from largest to
   * smallest, is a permutation of the input, and elements with equal keys
   * keep their input order.
   */
  function SortDesc<T>(s: seq<T>, key: T -> real): (r: seq<T>)
    ensures SortedDesc(r, key)
    ensures multiset(r) == multiset(s)
    ensures forall v :: KeyFilter(r, key, v) == KeyFilter(s, key, v)
    decreases |s|
  {
    if |s| == 0 then []
    else
      var init := SortDesc(s[..|s| - 1], key);
      SortStep(s, init, key);
      Insert(init, s[|s| - 1], key)
  }

  lemma {:induction false} SortStep<T>(s: seq<T>, init: seq<T>, key: T -> real)
    requires |s| > 0 && SortedDesc(init, key)
    requires multiset(init) == multiset(s[..|s| - 1])
    requires forall v :: KeyFilter(init, key, v) == KeyFilter(s[..|s| - 1], key, v)
    ensures var r := Insert(init, s[|s| - 1], key);
      SortedDesc(r, key) && multiset(r) == multiset(s)
      && forall v :: KeyFilter(r, key, v) == KeyFilter(s, key, v)
  {
    var x := s[|s| - 1];
    assert s == s[..|s| - 1] + [x];
    InsertMultiset(init, x, key);
    InsertSorted(init, x, key);
    forall v ensures KeyFilter(Insert(init, x, key), key, v) == KeyFilter(s, key, v) {
      InsertKeyFilter(init, x, key, v);
    }
  }

  /** A prefix of a descending sequence is descending. */
  lemma SortedDescPrefix<T>(s: seq<T>, key: T -> real, k: nat)
    requires SortedDesc(s, key) && k <= |s|
    ensures SortedDesc(s[..k], key)
  {
    forall i, j | 0 <= i < j < k
      ensures key(s[..k][i]) >= key(s[..k][j])
    {
      assert s[..k][i] == s[i] && s[..k][j] == s[j];
    }
  }

  /** The equal-key elements of a prefix are a prefix of the equal-key elements. */
  lemma {:induction false} KeyFilterPrefix<T>(s: seq<T>, k: nat, key: T -> real, v: real)
    requires k <= |s|
    ensures IsPrefix(KeyFilter(s[..k], key, v), KeyFilter(s, key, v))
    decreases |s|
  {
    if k < |s| {
      KeyFilterPrefix(s[..|s| - 1], k, key, v);
      assert s[..|s| - 1][..k] == s[..k];
    } else {
      assert s[..k] == s;
    }
  }

  /** Python's `s[:n]`, where a negative `n` counts from the end. */
  function PyHead<T>(s: seq<T>, n: int): (r: seq<T>)
    ensures n >= 0 ==> |r| == (if n < |s| then n else |s|)
    ensures n < 0 ==> |r| == (if |s| + n > 0 then |s| + n else 0)
    ensures r == s[..|r|]
  {
    if n >= 0 then (if n < |s| then s[..n] else s)
    else if |s| + n > 0 then s[..|s| + n]
    else []
  }
}
