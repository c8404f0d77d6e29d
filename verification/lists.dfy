/** Order-preserving sub-lists and list comprehensions with a condition. */
module Lists {
  import opened Wrappers

  /** `a` is obtained from `b` by deleting elements, keeping the order of the rest. */
  predicate Sublist<T(==)>(a: seq<T>, b: seq<T>)
    decreases |b|
  {
    if |a| == 0 then true
    else if |b| == 0 then false
    else if a[|a| - 1] == b[|b| - 1] then Sublist(a[..|a| - 1], b[..|b| - 1])
    else Sublist(a, b[..|b| - 1])
  }

  predicate Distinct<T(==)>(s: seq<T>) {
    forall i, j :: 0 <= i < j < |s| ==> s[i] != s[j]
  }

  /** `p` is a prefix of `s`. */
  ghost predicate IsPrefix<T>(p: seq<T>, s: seq<T>) {
    |p| <= |s| && p == s[..|p|]
  }

  /** A non-empty sequence is its prefix followed by its last element. */
  lemma SplitLast<T>(s: seq<T>)
    requires |s| > 0
    ensures s == s[..|s| - 1] + [s[|s| - 1]]
  {
  }

  /** Every element satisfies `ok` at its own position. */
  predicate AllAt<T>(s: seq<T>, ok: (T, nat) -> bool) {
    forall i :: 0 <= i < |s| ==> ok(s[i], i)
  }

  lemma AllAtStep<T>(s: seq<T>, ok: (T, nat) -> bool)
    requires |s| > 0
    ensures AllAt(s, ok) <==> AllAt(s[..|s| - 1], ok) && ok(s[|s| - 1], |s| - 1)
  {
    if AllAt(s[..|s| - 1], ok) && ok(s[|s| - 1], |s| - 1) {
      forall i | 0 <= i < |s|
        ensures ok(s[i], i)
      {
        if i < |s| - 1 {
          assert s[..|s| - 1][i] == s[i];
        }
      }
    }
  }

  /** `[x for x in s if p(x)]` */
  function Filter<T>(s: seq<T>, p: T -> bool): (r: seq<T>)
    ensures |r| <= |s|
    ensures forall x :: x in r ==> x in s && p(x)
    ensures forall x :: x in s && p(x) ==> x in r
    decreases |s|
  {
    if |s| == 0 then []
    else if p(s[|s| - 1]) then Filter(s[..|s| - 1], p) + [s[|s| - 1]]
    else Filter(s[..|s| - 1], p)
  }

  lemma {:induction false} FilterAppend<T>(a: seq<T>, b: seq<T>, p: T -> bool)
    ensures Filter(a + b, p) == Filter(a, p) + Filter(b, p)
    decreases |b|
  {
    if |b| > 0 {
      var b' := b[..|b| - 1];
      assert (a + b)[..|a + b| - 1] == a + b';
      FilterAppend(a, b', p);
    } else {
      assert a + b == a;
    }
  }

  lemma {:induction false} FilterAll<T>(s: seq<T>, p: T -> bool)
    requires forall x :: p(x)
    ensures Filter(s, p) == s
    decreases |s|
  {
    if |s| > 0 {
      FilterAll(s[..|s| - 1], p);
    }
  }

  lemma {:induction false} FilterExtensional<T>(s: seq<T>, p: T -> bool, q: T -> bool)
    requires forall x :: p(x) == q(x)
    ensures Filter(s, p) == Filter(s, q)
    decreases |s|
  {
    if |s| > 0 {
      FilterExtensional(s[..|s| - 1], p, q);
    }
  }

  /** Filtering twice is filtering once by the conjunction. */
  lemma {:induction false} FilterCompose<T>(s: seq<T>, p: T -> bool, q: T -> bool, both: T -> bool)
    requires forall x :: both(x) == (p(x) && q(x))
    ensures Filter(Filter(s, p), q) == Filter(s, both)
    decreases |s|
  {
    if |s| > 0 {
      var init, last := s[..|s| - 1], s[|s| - 1];
      FilterCompose(init, p, q, both);
      if p(last) {
        FilterAppend(Filter(init, p), [last], q);
        assert Filter([last], q) == Filter([], q) + (if q(last) then [last] else []);
      }
    }
  }

  lemma {:induction false} FilterIsSublist<T>(s: seq<T>, p: T -> bool)
    ensures Sublist(Filter(s, p), s)
    decreases |s|
  {
    if |s| > 0 {
      FilterIsSublist(s[..|s| - 1], p);
      if !p(s[|s| - 1]) {
        SublistDropLast(Filter(s, p), s);
      }
    }
  }

  /** Dropping the last element of the larger list keeps a sub-list relation that did not need it. */
  lemma {:induction false} SublistDropLast<T>(a: seq<T>, b: seq<T>)
    requires |b| > 0 && Sublist(a, b[..|b| - 1])
    ensures Sublist(a, b)
    decreases |b|, 0
  {
    if |a| > 0 && a[|a| - 1] == b[|b| - 1] {
      SublistShrink(a, b[..|b| - 1]);
    }
  }

  /** Removing the last element of the smaller list keeps the relation. */
  lemma {:induction false} SublistShrink<T>(a: seq<T>, b: seq<T>)
    requires |a| > 0 && Sublist(a, b)
    ensures Sublist(a[..|a| - 1], b)
    decreases |b|, 1
  {
    if |b| > 0 {
      if a[|a| - 1] == b[|b| - 1] {
        SublistDropLast(a[..|a| - 1], b);
      } else {
        SublistShrink(a, b[..|b| - 1]);
        SublistDropLast(a[..|a| - 1], b);
      }
    }
  }

  lemma {:induction false} SublistMembers<T>(a: seq<T>, b: seq<T>)
    requires Sublist(a, b)
    ensures forall x :: x in a ==> x in b
    ensures |a| <= |b|
    decreases |b|
  {
    if |a| > 0 {
      if a[|a| - 1] == b[|b| - 1] {
        SublistMembers(a[..|a| - 1], b[..|b| - 1]);
        assert a == a[..|a| - 1] + [a[|a| - 1]];
        assert b == b[..|b| - 1] + [b[|b| - 1]];
      } else {
        SublistMembers(a, b[..|b| - 1]);
      }
    }
  }

  /** A sub-list of a list without repetitions has none either. */
  lemma {:induction false} SublistDistinct<T>(a: seq<T>, b: seq<T>)
    requires Sublist(a, b) && Distinct(b)
    ensures Distinct(a)
    decreases |b|
  {
    if |a| > 0 {
      var a0, b0 := a[..|a| - 1], b[..|b| - 1];
      if a[|a| - 1] == b[|b| - 1] {
        SublistDistinct(a0, b0);
        SublistMembers(a0, b0);
        assert a[|a| - 1] !in b0;
        assert a == a0 + [a[|a| - 1]];
      } else {
        SublistDistinct(a, b0);
      }
    }
  }

  /** A filter keeps every copy of an element that passes and no copy of one that does not. */
  lemma {:induction false} FilterCount<T>(s: seq<T>, p: T -> bool)
    ensures forall x :: multiset(Filter(s, p))[x] == if p(x) then multiset(s)[x] else 0
    decreases |s|
  {
    if |s| > 0 {
      var init, last := s[..|s| - 1], s[|s| - 1];
      FilterCount(init, p);
      SplitLast(s);
      assert multiset(s) == multiset(init) + multiset([last]);
    }
  }

  /** The present values of `s`, in order. */
  function Somes<T>(s: seq<Option<T>>): seq<T>
    decreases |s|
  {
    if |s| == 0 then []
    else Somes(s[..|s| - 1]) + (if s[|s| - 1].Some? then [s[|s| - 1].value] else [])
  }

  /** How many entries of `s` are absent. */
  function CountNone<T>(s: seq<Option<T>>): nat
    decreases |s|
  {
    if |s| == 0 then 0
    else CountNone(s[..|s| - 1]) + (if s[|s| - 1].None? then 1 else 0)
  }
}
