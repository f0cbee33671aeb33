/**
 * `Array.prototype.sort` with a comparator, on a copy of the list.
 *
 * The comparator is given as `le(a, b)`, standing for `compare(a, b) <= 0`.
 * `SortBy` is a stable insertion sort; for a comparator that is a total
 * preorder the stable sorted order is unique, so it is the order the
 * JavaScript sort (stable since ES2019) produces.
 */
module Sorting {

  ghost predicate Total<T(!new)>(le: (T, T) -> bool)
  {
    forall a, b :: le(a, b) || le(b, a)
  }

  ghost predicate Transitive<T(!new)>(le: (T, T) -> bool)
  {
    forall a, b, c :: le(a, b) && le(b, c) ==> le(a, c)
  }

  /** Every earlier element may stand before every later one. */
  predicate SortedBy<T>(s: seq<T>, le: (T, T) -> bool)
  {
    forall i, j :: 0 <= i < j < |s| ==> le(s[i], s[j])
  }

  /** Puts `x` in front of the first element it may precede. */
  function InsertBy<T>(x: T, s: seq<T>, le: (T, T) -> bool): seq<T>
  {
    if s == [] then [x]
    else if le(x, s[0]) then [x] + s
    else [s[0]] + InsertBy(x, s[1..], le)
  }

  /** The stable sort of `s` under `le`. */
  function SortBy<T>(s: seq<T>, le: (T, T) -> bool): seq<T>
  {
    if s == [] then [] else InsertBy(s[0], SortBy(s[1..], le), le)
  }

  lemma {:induction false} InsertByPermutation<T>(x: T, s: seq<T>, le: (T, T) -> bool)
    ensures multiset(InsertBy(x, s, le)) == multiset(s) + multiset{x}
    ensures |InsertBy(x, s, le)| == |s| + 1
  {
    if s != [] && !le(x, s[0]) {
      InsertByPermutation(x, s[1..], le);
      assert s == [s[0]] + s[1..];
    }
  }

  /** The sort returns the same elements, each as often as before. */
  lemma {:induction false} SortByPermutation<T>(s: seq<T>, le: (T, T) -> bool)
    ensures multiset(SortBy(s, le)) == multiset(s)
    ensures |SortBy(s, le)| == |s|
  {
    if s != [] {
      SortByPermutation(s[1..], le);
      InsertByPermutation(s[0], SortBy(s[1..], le), le);
      assert s == [s[0]] + s[1..];
    }
  }

  lemma {:induction false} InsertBySorted<T(!new)>(x: T, s: seq<T>, le: (T, T) -> bool)
    requires Total(le) && Transitive(le)
    requires SortedBy(s, le)
    ensures SortedBy(InsertBy(x, s, le), le)
  {
    if s != [] && !le(x, s[0]) {
      InsertBySorted(x, s[1..], le);
      InsertByPermutation(x, s[1..], le);
      InsertBehind(x, s, le);
    } else if s != [] {
      InsertInFront(x, s, le);
    }
  }

  /** When `x` goes in front, `[x] + s` is sorted. */
  lemma InsertInFront<T(!new)>(x: T, s: seq<T>, le: (T, T) -> bool)
    requires Transitive(le)
    requires SortedBy(s, le) && s != [] && le(x, s[0])
    ensures SortedBy([x] + s, le)
  {
    var r := [x] + s;
    forall i, j | 0 <= i < j < |r| ensures le(r[i], r[j]) {
      if i == 0 {
        if j > 1 {
          assert le(s[0], s[j - 1]);
        }
      } else {
        assert r[i] == s[i - 1] && r[j] == s[j - 1];
      }
    }
  }

  /** When `x` goes behind `s[0]`, the head may precede everything in the sorted tail. */
  lemma InsertBehind<T(!new)>(x: T, s: seq<T>, le: (T, T) -> bool)
    requires Total(le)
    requires SortedBy(s, le) && s != [] && !le(x, s[0])
    requires SortedBy(InsertBy(x, s[1..], le), le)
    requires multiset(InsertBy(x, s[1..], le)) == multiset(s[1..]) + multiset{x}
    ensures SortedBy(InsertBy(x, s, le), le)
  {
    var t := InsertBy(x, s[1..], le);
    var r := [s[0]] + t;
    assert InsertBy(x, s, le) == r;
    assert le(s[0], x);
    forall k | 0 <= k < |t| ensures le(s[0], t[k]) {
      assert t[k] in multiset(t);
      if t[k] != x {
        assert t[k] in multiset(s[1..]);
        var m :| 0 <= m < |s[1..]| && s[1..][m] == t[k];
        assert s[1 + m] == t[k];
      }
    }
    forall i, j | 0 <= i < j < |r| ensures le(r[i], r[j]) {
      if i == 0 {
        assert r[j] == t[j - 1];
      } else {
        assert r[i] == t[i - 1] && r[j] == t[j - 1];
      }
    }
  }

  /** Under a comparator that is a total preorder the result is sorted. */
  lemma {:induction false} SortBySorted<T(!new)>(s: seq<T>, le: (T, T) -> bool)
    requires Total(le) && Transitive(le)
    ensures SortedBy(SortBy(s, le), le)
  {
    if s != [] {
      SortBySorted(s[1..], le);
      InsertBySorted(s[0], SortBy(s[1..], le), le);
    }
  }

  /** A comparator that always answers 0 leaves the order as it was. */
  lemma {:induction false} SortByAllEqual<T>(s: seq<T>, le: (T, T) -> bool)
    requires forall i, j :: 0 <= i < |s| && 0 <= j < |s| ==> le(s[i], s[j])
    ensures SortBy(s, le) == s
  {
    if s != [] {
      SortByAllEqual(s[1..], le);
      assert forall j :: 0 <= j < |s[1..]| ==> s[1..][j] == s[j + 1];
      if |s| > 1 {
        assert le(s[0], s[1]);
      }
    }
  }
}
