/**
 * The list operations the screens build on: `Array.prototype.filter`,
 * `reduce` sums, `new Set(...)` in first-seen order and `find`.
 */
module Seqs {

  import opened Wrappers

  // ---------------------------------------------------------------------------
  // filter
  // ---------------------------------------------------------------------------

  /** `s.filter(p)` */
  function Filter<T>(s: seq<T>, p: T -> bool): seq<T>
  {
    if s == [] then []
    else if p(s[0]) then [s[0]] + Filter(s[1..], p)
    else Filter(s[1..], p)
  }

  /** `a` can be obtained from `b` by deleting elements: the order of `b` is kept. */
  predicate IsSubsequence<T(==)>(a: seq<T>, b: seq<T>)
    decreases |b|
  {
    a == [] || (b != [] && ((a[0] == b[0] && IsSubsequence(a[1..], b[1..])) || IsSubsequence(a, b[1..])))
  }

  /** The filtered list keeps the input's order. */
  lemma {:induction false} FilterIsSubsequence<T>(s: seq<T>, p: T -> bool)
    ensures IsSubsequence(Filter(s, p), s)
  {
    if s != [] {
      FilterIsSubsequence(s[1..], p);
      var r := Filter(s, p);
      if p(s[0]) {
        assert r[0] == s[0] && r[1..] == Filter(s[1..], p);
      }
    }
  }

  /**
   * The filtered list holds each element satisfying `p` as many times as the
   * input does, and no other element.
   */
  lemma {:induction false} FilterMultiset<T>(s: seq<T>, p: T -> bool)
    ensures forall x :: multiset(Filter(s, p))[x] == if p(x) then multiset(s)[x] else 0
  {
    if s != [] {
      FilterMultiset(s[1..], p);
      assert s == [s[0]] + s[1..];
      assert multiset(s) == multiset{s[0]} + multiset(s[1..]);
      if p(s[0]) {
        assert multiset(Filter(s, p)) == multiset{s[0]} + multiset(Filter(s[1..], p));
      }
    }
  }

  /** An element survives the filter exactly when it occurs and satisfies `p`. */
  lemma FilterMembership<T>(s: seq<T>, p: T -> bool)
    ensures forall x :: x in Filter(s, p) <==> x in s && p(x)
  {
    FilterMultiset(s, p);
    forall x ensures x in Filter(s, p) <==> x in s && p(x) {
      assert x in Filter(s, p) <==> multiset(Filter(s, p))[x] > 0;
      assert x in s <==> multiset(s)[x] > 0;
    }
  }

  /** Every element kept by the filter satisfies the predicate. */
  lemma {:induction false} FilterAllSatisfy<T>(s: seq<T>, p: T -> bool)
    ensures forall i :: 0 <= i < |Filter(s, p)| ==> p(Filter(s, p)[i])
  {
    if s != [] {
      FilterAllSatisfy(s[1..], p);
    }
  }

  /** A predicate that holds of every element keeps the whole list. */
  lemma {:induction false} FilterKeepsAll<T>(s: seq<T>, p: T -> bool)
    requires forall i :: 0 <= i < |s| ==> p(s[i])
    ensures Filter(s, p) == s
  {
    if s != [] {
      FilterKeepsAll(s[1..], p);
    }
  }

  /** Two tests that agree on every element keep the same elements. */
  lemma {:induction false} FilterSameTest<T>(s: seq<T>, p: T -> bool, q: T -> bool)
    requires forall i :: 0 <= i < |s| ==> p(s[i]) == q(s[i])
    ensures Filter(s, p) == Filter(s, q)
  {
    if s != [] {
      FilterSameTest(s[1..], p, q);
    }
  }

  /** Filtering a concatenation filters each part. */
  lemma {:induction false} FilterAppend<T>(a: seq<T>, b: seq<T>, p: T -> bool)
    ensures Filter(a + b, p) == Filter(a, p) + Filter(b, p)
  {
    if a == [] {
      assert a + b == b;
    } else {
      FilterAppend(a[1..], b, p);
      assert (a + b)[0] == a[0];
      assert (a + b)[1..] == a[1..] + b;
      if p(a[0]) {
        assert Filter(a + b, p) == [a[0]] + Filter(a[1..] + b, p);
      } else {
        assert Filter(a + b, p) == Filter(a[1..] + b, p);
      }
    }
  }

  /** The number of elements of `s` that satisfy `p`. */
  function Count<T>(s: seq<T>, p: T -> bool): nat
  {
    |Filter(s, p)|
  }

  lemma CountAppend<T>(a: seq<T>, b: seq<T>, p: T -> bool)
    ensures Count(a + b, p) == Count(a, p) + Count(b, p)
  {
    FilterAppend(a, b, p);
  }

  /** `s.map(f)` */
  function Map<T, U>(s: seq<T>, f: T -> U): (r: seq<U>)
    ensures |r| == |s|
    ensures forall i :: 0 <= i < |s| ==> r[i] == f(s[i])
  {
    seq(|s|, i requires 0 <= i < |s| => f(s[i]))
  }

  // ---------------------------------------------------------------------------
  // reduce((sum, x) => sum + f(x), 0)
  // ---------------------------------------------------------------------------

  /** `s.reduce((sum, x) => sum + f(x), 0)` */
  function SumBy<T>(s: seq<T>, f: T -> real): real
  {
    if s == [] then 0.0 else f(s[0]) + SumBy(s[1..], f)
  }

  lemma {:induction false} SumByAppend<T>(a: seq<T>, b: seq<T>, f: T -> real)
    ensures SumBy(a + b, f) == SumBy(a, f) + SumBy(b, f)
  {
    if a == [] {
      assert a + b == b;
    } else {
      SumByAppend(a[1..], b, f);
      assert (a + b)[1..] == a[1..] + b;
    }
  }

  /** Summing a difference is the difference of the sums. */
  lemma {:induction false} SumByDifference<T>(s: seq<T>, h: T -> real, f: T -> real, g: T -> real)
    requires forall i :: 0 <= i < |s| ==> h(s[i]) == f(s[i]) - g(s[i])
    ensures SumBy(s, h) == SumBy(s, f) - SumBy(s, g)
  {
    if s != [] {
      SumByDifference(s[1..], h, f, g);
    }
  }

  /** A sum of non-negative terms is non-negative. */
  lemma {:induction false} SumByNonNegative<T>(s: seq<T>, f: T -> real)
    requires forall i :: 0 <= i < |s| ==> f(s[i]) >= 0.0
    ensures SumBy(s, f) >= 0.0
  {
    if s != [] {
      SumByNonNegative(s[1..], f);
    }
  }

  /** A sum splits into the part over the elements `p` keeps and the part over those `q` keeps, when `q` is `!p`. */
  lemma {:induction false} SumByPartition<T>(s: seq<T>, f: T -> real, p: T -> bool, q: T -> bool)
    requires forall i :: 0 <= i < |s| ==> q(s[i]) == !p(s[i])
    ensures SumBy(s, f) == SumBy(Filter(s, p), f) + SumBy(Filter(s, q), f)
  {
    if s != [] {
      SumByPartition(s[1..], f, p, q);
    }
  }

  /** `xs.reduce((a, b) => a + b, 0)` */
  function Sum(xs: seq<real>): real
  {
    if xs == [] then 0.0 else xs[0] + Sum(xs[1..])
  }

  /** `n` copies of `c` add up to `n * c`. */
  lemma {:induction false} SumConstant(xs: seq<real>, c: real)
    requires forall i :: 0 <= i < |xs| ==> xs[i] == c
    ensures Sum(xs) == |xs| as real * c
  {
    if xs != [] {
      SumConstant(xs[1..], c);
    }
  }

  // ---------------------------------------------------------------------------
  // Distinct values in first-seen order (Array.from(new Set(s)), Object.keys of a dictionary)
  // ---------------------------------------------------------------------------

  predicate NoDuplicates<T(==)>(s: seq<T>)
  {
    forall i, j :: 0 <= i < j < |s| ==> s[i] != s[j]
  }

  /** The distinct values of `s`, each at the place it first occurs. */
  function Distinct<T(==,!new)>(s: seq<T>): (r: seq<T>)
    ensures NoDuplicates(r)
    ensures forall x :: x in r <==> x in s
  {
    if s == [] then []
    else
      var d := Distinct(s[..|s| - 1]);
      assert forall x :: x in s <==> x in s[..|s| - 1] || x == s[|s| - 1];
      if s[|s| - 1] in d then d else d + [s[|s| - 1]]
  }

  /** Index of the first occurrence of `x` in `s`. */
  function FirstIndex<T(==)>(s: seq<T>, x: T): (k: nat)
    requires x in s
    ensures k < |s| && s[k] == x
    ensures forall j :: 0 <= j < k ==> s[j] != x
  {
    if s[0] == x then 0 else 1 + FirstIndex(s[1..], x)
  }

  /** A value's first index is the same in a sequence and in any prefix that holds it. */
  lemma FirstIndexPrefix<T>(s: seq<T>, p: seq<T>, x: T)
    requires |p| <= |s| && forall t :: 0 <= t < |p| ==> p[t] == s[t]
    requires x in p
    ensures x in s && FirstIndex(p, x) == FirstIndex(s, x)
  {
    var k := FirstIndex(p, x);
    assert s[k] == x;
    var k' := FirstIndex(s, x);
    assert k' <= k;
    assert p[k'] == x;
  }

  /** `Distinct` lists the values in the order of their first occurrences. */
  lemma {:induction false} DistinctFirstSeenOrder<T(!new)>(s: seq<T>)
    ensures forall i, j :: 0 <= i < j < |Distinct(s)| ==>
              FirstIndex(s, Distinct(s)[i]) < FirstIndex(s, Distinct(s)[j])
    decreases |s|
  {
    if s != [] {
      DistinctFirstSeenOrder(s[..|s| - 1]);
      forall i, j | 0 <= i < j < |Distinct(s)| ensures FirstIndex(s, Distinct(s)[i]) < FirstIndex(s, Distinct(s)[j]) {
        var p := s[..|s| - 1];
        if j < |Distinct(p)| {
          assert FirstIndex(p, Distinct(p)[i]) < FirstIndex(p, Distinct(p)[j]);
        }
        DistinctOrderStep(s, p, i, j);
      }
    }
  }

  /** One pair of `DistinctFirstSeenOrder`, given its statement for the front of `s`. */
  lemma DistinctOrderStep<T(!new)>(s: seq<T>, p: seq<T>, i: nat, j: nat)
    requires s != [] && p == s[..|s| - 1]
    requires i < j < |Distinct(s)|
    requires j < |Distinct(p)| ==> FirstIndex(p, Distinct(p)[i]) < FirstIndex(p, Distinct(p)[j])
    ensures FirstIndex(s, Distinct(s)[i]) < FirstIndex(s, Distinct(s)[j])
  {
    var d := Distinct(p);
    var last := s[|s| - 1];
    var r := Distinct(s);
    assert r == if last in d then d else d + [last];
    assert forall t :: 0 <= t < |p| ==> p[t] == s[t];
    var x := r[i];
    assert x == d[i] && x in p;
    if j < |d| {
      var y := r[j];
      assert y == d[j] && y in p;
      FirstIndexPrefixOrder(s, p, x, y);
    } else {
      assert r[j] == last && last !in p;
      FirstIndexBeforeLast(s, p, x);
    }
  }

  /** First indices in a prefix keep their order in the whole sequence. */
  lemma FirstIndexPrefixOrder<T>(s: seq<T>, p: seq<T>, x: T, y: T)
    requires |p| <= |s| && forall t :: 0 <= t < |p| ==> p[t] == s[t]
    requires x in p && y in p && FirstIndex(p, x) < FirstIndex(p, y)
    ensures x in s && y in s && FirstIndex(s, x) < FirstIndex(s, y)
  {
    FirstIndexPrefix(s, p, x);
    FirstIndexPrefix(s, p, y);
  }

  /** A value of the front comes first before the last value when that value is new. */
  lemma FirstIndexBeforeLast<T>(s: seq<T>, p: seq<T>, x: T)
    requires s != [] && |p| == |s| - 1 && forall t :: 0 <= t < |p| ==> p[t] == s[t]
    requires x in p && s[|s| - 1] !in p
    ensures x in s && FirstIndex(s, x) < FirstIndex(s, s[|s| - 1])
  {
    FirstIndexPrefix(s, p, x);
  }

  /** In a list whose keys are distinct no element occurs twice. */
  lemma {:induction false} KeysDistinctOnce<T, K>(a: seq<T>, key: T -> K, x: T)
    requires forall i, j :: 0 <= i < j < |a| ==> key(a[i]) != key(a[j])
    ensures multiset(a)[x] <= 1
  {
    if a != [] {
      var rest := a[1..];
      assert a == [a[0]] + rest;
      KeysDistinctOnce(rest, key, x);
      if a[0] == x {
        assert forall m :: 0 <= m < |rest| ==> key(rest[m]) != key(a[0]);
        assert x !in rest;
      }
    }
  }

  lemma TwiceCounted<T>(b: seq<T>, i: nat, j: nat)
    requires i < j < |b|
    ensures b[i] == b[j] ==> multiset(b)[b[i]] >= 2
  {
    assert b == b[..j] + b[j..];
    assert b[i] == b[..j][i];
    assert b[j] == b[j..][0];
  }

  /** A permutation of a list whose keys are distinct has distinct keys too. */
  lemma PermutationKeepsKeysDistinct<T, K>(a: seq<T>, b: seq<T>, key: T -> K)
    requires multiset(a) == multiset(b)
    requires forall i, j :: 0 <= i < j < |a| ==> key(a[i]) != key(a[j])
    ensures forall i, j :: 0 <= i < j < |b| ==> key(b[i]) != key(b[j])
  {
    forall i, j | 0 <= i < j < |b| ensures key(b[i]) != key(b[j]) {
      assert b[i] in multiset(a) && b[j] in multiset(a);
      var i' :| 0 <= i' < |a| && a[i'] == b[i];
      var j' :| 0 <= j' < |a| && a[j'] == b[j];
      assert key(b[i]) == key(b[j]) ==> i' == j';
      TwiceCounted(b, i, j);
      KeysDistinctOnce(a, key, b[i]);
    }
  }

  // ---------------------------------------------------------------------------
  // find
  // ---------------------------------------------------------------------------

  /** `s.findIndex(p)`, with `None` for -1. */
  function FindIndex<T>(s: seq<T>, p: T -> bool): (r: Option<nat>)
    ensures r.None? <==> forall i :: 0 <= i < |s| ==> !p(s[i])
    ensures r.Some? ==> FirstMatchAt(s, p, r.value)
  {
    if s == [] then None
    else if p(s[0]) then Some(0)
    else
      var r := FindIndex(s[1..], p);
      if r.Some? then
        assert FirstMatchAt(s, p, r.value + 1);
        Some(r.value + 1)
      else None
  }

  /** `s.find(p)`, with `None` for `undefined`. */
  function Find<T>(s: seq<T>, p: T -> bool): (r: Option<T>)
    ensures r.None? <==> forall i :: 0 <= i < |s| ==> !p(s[i])
    ensures r.Some? ==> p(r.value) && exists k :: FirstMatchAt(s, p, k) && s[k] == r.value
  {
    var k := FindIndex(s, p);
    if k.Some? then Some(s[k.value]) else None
  }

  /** `k` is the position of the first element satisfying `p`. */
  predicate FirstMatchAt<T>(s: seq<T>, p: T -> bool, k: int)
  {
    0 <= k < |s| && p(s[k]) && forall j :: 0 <= j < k ==> !p(s[j])
  }

  /** The multiset of a non-empty sequence is that of its front plus its last element. */
  lemma MultisetSnoc<T>(xs: seq<T>)
    requires xs != []
    ensures multiset(xs) == multiset(xs[..|xs| - 1]) + multiset{xs[|xs| - 1]}
  {
    assert xs == xs[..|xs| - 1] + [xs[|xs| - 1]];
  }

  lemma HeadTail<T>(s: seq<T>)
    requires s != []
    ensures [s[0]] + s[1..] == s
  {
  }

  lemma FrontLast<T>(s: seq<T>)
    requires s != []
    ensures s[..|s| - 1] + [s[|s| - 1]] == s
  {
  }
}
