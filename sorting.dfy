/** The two standard-library algorithms the evolutionary router leans on,
    `std::sort` and `std::merge`, over a strict weak order `lt` (the
    element type's `operator<`). `std::sort` may order equivalent elements
    in any way; the model sorts stably, which is one of the orders it may
    produce. */
module Sorting {

  /** `lt` is a strict weak order: irreflexive, transitive, and "not
      less" is transitive as well. */
  ghost predicate StrictWeakOrder<T(!new)>(lt: (T, T) -> bool)
  {
    (forall x :: !lt(x, x)) &&
    (forall x, y, z :: lt(x, y) && lt(y, z) ==> lt(x, z)) &&
    (forall x, y, z :: !lt(x, y) && !lt(y, z) ==> !lt(x, z))
  }

  /** No element is less than one before it. */
  ghost predicate SortedBy<T>(xs: seq<T>, lt: (T, T) -> bool)
  {
    forall i, j :: 0 <= i < j < |xs| ==> !lt(xs[j], xs[i])
  }

  /** Inserts `x` into sorted `s` after every element not greater than it. */
  function InsertBy<T>(s: seq<T>, x: T, lt: (T, T) -> bool): (r: seq<T>)
    ensures multiset(r) == multiset(s) + multiset{x}
    ensures |r| == |s| + 1
  {
    if |s| == 0 then [x]
    else if lt(x, s[|s| - 1]) then
      assert s == s[..|s| - 1] + [s[|s| - 1]];
      InsertBy(s[..|s| - 1], x, lt) + [s[|s| - 1]]
    else s + [x]
  }

  /** Insertion sort: sorts the prefix, then inserts the last element. */
  function SortBy<T>(xs: seq<T>, lt: (T, T) -> bool): (r: seq<T>)
    ensures multiset(r) == multiset(xs)
    ensures |r| == |xs|
  {
    if |xs| == 0 then []
    else
      assert xs == xs[..|xs| - 1] + [xs[|xs| - 1]];
      InsertBy(SortBy(xs[..|xs| - 1], lt), xs[|xs| - 1], lt)
  }

  lemma {:induction false} InsertSorted<T(!new)>(s: seq<T>, x: T, lt: (T, T) -> bool)
    requires StrictWeakOrder(lt) && SortedBy(s, lt)
    ensures SortedBy(InsertBy(s, x, lt), lt)
    decreases |s|
  {
    if |s| > 0 && lt(x, s[|s| - 1]) {
      var init, last := s[..|s| - 1], s[|s| - 1];
      InsertSorted(init, x, lt);
      var ins := InsertBy(init, x, lt);
      var r := ins + [last];
      forall e | e in multiset(ins)
        ensures !lt(last, e)
      {
        if e == x {
        } else {
          assert e in multiset(init);
          var t :| 0 <= t < |init| && init[t] == e;
          assert s[t] == e;
        }
      }
      forall i, j | 0 <= i < j < |r|
        ensures !lt(r[j], r[i])
      {
        if j == |r| - 1 {
          assert r[i] == ins[i] && r[i] in multiset(ins);
        } else {
          assert r[i] == ins[i] && r[j] == ins[j];
        }
      }
    } else if |s| > 0 {
      var r := s + [x];
      forall i, j | 0 <= i < j < |r|
        ensures !lt(r[j], r[i])
      {
        if j == |r| - 1 {
          assert !lt(x, s[|s| - 1]);
          if i < |s| - 1 {
            assert !lt(s[|s| - 1], s[i]);
          }
        } else {
          assert r[i] == s[i] && r[j] == s[j];
        }
      }
    }
  }

  /** The sorted result is in order. */
  lemma {:induction false} SortBySorted<T(!new)>(xs: seq<T>, lt: (T, T) -> bool)
    requires StrictWeakOrder(lt)
    ensures SortedBy(SortBy(xs, lt), lt)
    decreases |xs|
  {
    if |xs| > 0 {
      SortBySorted(xs[..|xs| - 1], lt);
      InsertSorted(SortBy(xs[..|xs| - 1], lt), xs[|xs| - 1], lt);
    }
  }

  /** `std::merge`: takes from `ys` only when its head is strictly less than
      the head of `xs`, so equivalent elements of `xs` come first. */
  function Merge<T>(xs: seq<T>, ys: seq<T>, lt: (T, T) -> bool): (r: seq<T>)
    ensures multiset(r) == multiset(xs) + multiset(ys)
    ensures |r| == |xs| + |ys|
    decreases |xs| + |ys|
  {
    if |xs| == 0 then ys
    else if |ys| == 0 then xs
    else if lt(ys[0], xs[0]) then
      assert ys == [ys[0]] + ys[1..];
      [ys[0]] + Merge(xs, ys[1..], lt)
    else
      assert xs == [xs[0]] + xs[1..];
      [xs[0]] + Merge(xs[1..], ys, lt)
  }

  lemma SortedTail<T>(xs: seq<T>, lt: (T, T) -> bool)
    requires SortedBy(xs, lt) && |xs| > 0
    ensures SortedBy(xs[1..], lt)
    ensures forall e :: e in multiset(xs[1..]) ==> !lt(e, xs[0])
  {
    forall e | e in multiset(xs[1..])
      ensures !lt(e, xs[0])
    {
      var t :| 0 <= t < |xs[1..]| && xs[1..][t] == e;
      assert xs[t + 1] == e;
    }
  }

  /** A head no greater than anything after it keeps a sorted tail sorted. */
  lemma ConsSorted<T>(h: T, rest: seq<T>, lt: (T, T) -> bool)
    requires SortedBy(rest, lt)
    requires forall e :: e in multiset(rest) ==> !lt(e, h)
    ensures SortedBy([h] + rest, lt)
  {
    var r := [h] + rest;
    forall i, j | 0 <= i < j < |r|
      ensures !lt(r[j], r[i])
    {
      if i == 0 {
        assert r[j] == rest[j - 1] && r[j] in multiset(rest);
      } else {
        assert r[i] == rest[i - 1] && r[j] == rest[j - 1];
      }
    }
  }

  /** Everything in a sorted sequence is no less than its head. */
  lemma NotBelowHead<T(!new)>(xs: seq<T>, h: T, lt: (T, T) -> bool)
    requires StrictWeakOrder(lt) && SortedBy(xs, lt) && |xs| > 0 && !lt(xs[0], h)
    ensures forall e :: e in multiset(xs) ==> !lt(e, h)
  {
    forall e | e in multiset(xs)
      ensures !lt(e, h)
    {
      var t :| 0 <= t < |xs| && xs[t] == e;
      if t > 0 {
        assert !lt(xs[t], xs[0]);
      }
    }
  }

  /** Merging two sorted sequences gives a sorted sequence. */
  lemma {:induction false} MergeSorted<T(!new)>(xs: seq<T>, ys: seq<T>, lt: (T, T) -> bool)
    requires StrictWeakOrder(lt) && SortedBy(xs, lt) && SortedBy(ys, lt)
    ensures SortedBy(Merge(xs, ys, lt), lt)
    decreases |xs| + |ys|
  {
    if |xs| > 0 && |ys| > 0 {
      if lt(ys[0], xs[0]) {
        SortedTail(ys, lt);
        MergeSorted(xs, ys[1..], lt);
        assert !lt(xs[0], ys[0]);
        NotBelowHead(xs, ys[0], lt);
        ConsSorted(ys[0], Merge(xs, ys[1..], lt), lt);
      } else {
        SortedTail(xs, lt);
        MergeSorted(xs[1..], ys, lt);
        NotBelowHead(ys, xs[0], lt);
        ConsSorted(xs[0], Merge(xs[1..], ys, lt), lt);
      }
    }
  }
}
