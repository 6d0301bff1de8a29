/** The monotone bucket priority queue of the evolutionary router's
    Dijkstra (`dijkPQ`): bucket p holds, in arrival order, the values
    pushed with priority p; a pointer that never moves back marks the
    lowest bucket that may still be nonempty. */
module BucketQueue {

  /** Bucket j of a bucket vector; a bucket past the end reads as empty. */
  function BucketAt(q: seq<seq<int>>, j: int): seq<int>
  {
    if 0 <= j < |q| then q[j] else []
  }

  /** The entries of bucket i as (priority, value) pairs, front first. */
  function Entries(i: int, b: seq<int>): (es: seq<(int, int)>)
    ensures |es| == |b|
    ensures forall t :: 0 <= t < |b| ==> es[t] == (i, b[t])
  {
    seq(|b|, t requires 0 <= t < |b| => (i, b[t]))
  }

  /** The entries of buckets i..m in the order the queue hands them out. */
  function Flat(q: seq<seq<int>>, i: int, m: int): seq<(int, int)>
    decreases m - i + 1
  {
    if i > m then [] else Entries(i, BucketAt(q, i)) + Flat(q, i + 1, m)
  }

  /** Buckets past `m` are empty, so scanning further adds nothing. */
  lemma {:induction false} FlatExtend(q: seq<seq<int>>, i: int, m: int, m2: int)
    requires m <= m2 && forall j :: m < j ==> BucketAt(q, j) == []
    ensures Flat(q, i, m) == Flat(q, i, m2)
    decreases m2 - i + 1
  {
    if i <= m2 {
      FlatExtend(q, i + 1, m, m2);
      if i > m {
        assert BucketAt(q, i) == [];
      }
    }
  }

  /** Flat depends only on the buckets from i on. */
  lemma {:induction false} FlatFrom(q: seq<seq<int>>, q2: seq<seq<int>>, i: int, m: int)
    requires forall j :: i <= j ==> BucketAt(q2, j) == BucketAt(q, j)
    ensures Flat(q2, i, m) == Flat(q, i, m)
    decreases m - i + 1
  {
    if i <= m {
      FlatFrom(q, q2, i + 1, m);
    }
  }

  /** Flat hands out priorities in nondecreasing order, all within i..m. */
  lemma {:induction false} FlatOrdered(q: seq<seq<int>>, i: int, m: int)
    ensures forall s :: 0 <= s < |Flat(q, i, m)| ==> i <= Flat(q, i, m)[s].0 <= m
    ensures forall s, t :: 0 <= s < t < |Flat(q, i, m)| ==> Flat(q, i, m)[s].0 <= Flat(q, i, m)[t].0
    decreases m - i + 1
  {
    if i <= m {
      FlatOrdered(q, i + 1, m);
      var e := Entries(i, BucketAt(q, i));
      var rest := Flat(q, i + 1, m);
      var f := Flat(q, i, m);
      assert f == e + rest;
      forall s | 0 <= s < |f|
        ensures i <= f[s].0 <= m
      {
        if s >= |e| {
          assert f[s] == rest[s - |e|];
        } else {
          assert f[s] == e[s];
        }
      }
      forall s, t | 0 <= s < t < |f|
        ensures f[s].0 <= f[t].0
      {
        if t < |e| {
          assert f[s] == e[s] && f[t] == e[t];
        } else if s < |e| {
          assert f[s] == e[s] && f[t] == rest[t - |e|];
        } else {
          assert f[s] == rest[s - |e|] && f[t] == rest[t - |e|];
        }
      }
    }
  }

  /** Appending v to bucket p (at or above i) adds exactly (p, v) to what
      buckets i.. hold. */
  lemma {:induction false} FlatPush(q: seq<seq<int>>, q2: seq<seq<int>>, i: int, m: int, p: int, v: int)
    requires i <= p <= m
    requires BucketAt(q2, p) == BucketAt(q, p) + [v]
    requires forall j :: j != p ==> BucketAt(q2, j) == BucketAt(q, j)
    ensures multiset(Flat(q2, i, m)) == multiset(Flat(q, i, m)) + multiset{(p, v)}
    decreases m - i + 1
  {
    var e, e2 := Entries(i, BucketAt(q, i)), Entries(i, BucketAt(q2, i));
    assert Flat(q, i, m) == e + Flat(q, i + 1, m);
    assert Flat(q2, i, m) == e2 + Flat(q2, i + 1, m);
    if i == p {
      FlatFrom(q, q2, i + 1, m);
      assert e2 == e + [(p, v)];
      assert multiset(e2) == multiset(e) + multiset{(p, v)};
    } else {
      assert e2 == e;
      FlatPush(q, q2, i + 1, m, p, v);
    }
  }

  /** The effect of a push on what buckets i.. hold: with v appended to
      bucket p and the scan raised from m0 to m2 over empty buckets, the
      entry (p, v) is added when p >= i and nothing changes otherwise. */
  lemma PushFlat(q0: seq<seq<int>>, q2: seq<seq<int>>, i: int, m0: int, m2: int, p: int, v: int)
    requires m0 <= m2 && p <= m2
    requires forall j :: m0 < j ==> BucketAt(q0, j) == []
    requires BucketAt(q2, p) == BucketAt(q0, p) + [v]
    requires forall j :: j != p ==> BucketAt(q2, j) == BucketAt(q0, j)
    ensures i <= p ==> multiset(Flat(q2, i, m2)) == multiset(Flat(q0, i, m0)) + multiset{(p, v)}
    ensures p < i ==> Flat(q2, i, m2) == Flat(q0, i, m0)
  {
    FlatExtend(q0, i, m0, m2);
    if i <= p {
      FlatPush(q0, q2, i, m2, p, v);
    } else {
      FlatFrom(q0, q2, i, m2);
    }
  }

  /** Dropping the front of bucket p (nonempty) drops the first entry of
      what buckets p..m hold. */
  lemma PopFlat(q: seq<seq<int>>, p: int, m: int)
    requires 0 <= p <= m && p < |q| && q[p] != []
    ensures Flat(q[p := q[p][1..]], p, m) == Flat(q, p, m)[1..]
  {
    var q2 := q[p := q[p][1..]];
    var e, rest := Entries(p, q[p]), Flat(q, p + 1, m);
    FlatFrom(q, q2, p + 1, m);
    assert BucketAt(q, p) == q[p] && BucketAt(q2, p) == q[p][1..];
    assert Entries(p, q[p][1..]) == e[1..];
    assert Flat(q, p, m) == e + rest;
    assert Flat(q2, p, m) == e[1..] + rest;
    assert (e + rest)[1..] == e[1..] + rest;
  }

  function Max(x: int, y: int): int
  {
    if x >= y then x else y
  }

  class DijkPQ {
    var queue: seq<seq<int>>
    var pointer: int
    var maxCandidate: int

    /** The pointer never passes the highest used bucket by more than one,
        and every bucket above `maxCandidate` is empty. */
    ghost predicate Valid()
      reads this
    {
      0 <= pointer <= maxCandidate + 1 && 0 <= maxCandidate < |queue| &&
      forall j :: maxCandidate < j < |queue| ==> queue[j] == []
    }

    /** What the queue still hands out, in order. */
    ghost function Pending(): seq<(int, int)>
      reads this
    {
      Flat(queue, pointer, maxCandidate)
    }

    /** `dijkPQ(initialSize)`: initialSize empty buckets. */
    constructor (initialSize: int)
      requires initialSize > 0
      ensures Valid() && |queue| == initialSize && pointer == 0 && maxCandidate == 0
      ensures forall j :: 0 <= j < |queue| ==> queue[j] == []
      ensures Pending() == []
    {
      queue := seq(initialSize, _ => []);
      pointer := 0;
      maxCandidate := 0;
      new;
      assert BucketAt(queue, 0) == [];
    }

    /** `getSize`: the number of buckets, which always exceeds every
        priority pushed. */
    function GetSize(): (n: int)
      reads this
      ensures Valid() ==> n > maxCandidate && n > 0
    {
      |queue|
    }

    /** `push({p, v})`: grows the bucket vector to max(p + 1, 2 * size) when
        p is past its end, appends v to bucket p and raises
        `maxCandidate` to p. An entry at or above the pointer joins what
        the queue hands out; one below it is never handed out. */
    method Push(p: int, v: int)
      requires Valid() && 0 <= p
      modifies this
      ensures Valid() && pointer == old(pointer) && maxCandidate == Max(old(maxCandidate), p)
      ensures |queue| == if p >= old(|queue|) then Max(p + 1, 2 * old(|queue|)) else old(|queue|)
      ensures queue[p] == BucketAt(old(queue), p) + [v]
      ensures forall j :: 0 <= j < |queue| && j != p ==> queue[j] == BucketAt(old(queue), j)
      ensures p >= pointer ==> multiset(Pending()) == multiset(old(Pending())) + multiset{(p, v)}
      ensures p < pointer ==> Pending() == old(Pending())
    {
      ghost var q0, m0 := queue, maxCandidate;
      if p >= |queue| {
        var size := Max(p + 1, 2 * |queue|);
        queue := queue + seq(size - |queue|, _ => []);
      }
      assert forall j :: BucketAt(queue, j) == BucketAt(q0, j);
      ghost var q1 := queue;
      queue := queue[p := queue[p] + [v]];
      maxCandidate := Max(maxCandidate, p);
      assert BucketAt(queue, p) == BucketAt(q0, p) + [v];
      assert forall j :: j != p ==> BucketAt(queue, j) == BucketAt(q0, j);
      assert forall j :: m0 < j ==> BucketAt(q0, j) == [];
      PushFlat(q0, queue, pointer, m0, maxCandidate, p, v);
    }

    /** `top`: moves the pointer past empty buckets and returns the front
        entry of the lowest nonempty one, (-1, -1) when there is none.
        Nothing pending changes, and the entry has the least priority of
        all pending entries. */
    method Top() returns (prio: int, v: int)
      requires Valid()
      modifies this
      ensures Valid() && queue == old(queue) && maxCandidate == old(maxCandidate) && old(pointer) <= pointer
      ensures Pending() == old(Pending())
      ensures |Pending()| == 0 ==> (prio, v) == (-1, -1)
      ensures |Pending()| > 0 ==> (prio, v) == Pending()[0] && forall e :: e in Pending() ==> prio <= e.0
    {
      while pointer <= maxCandidate
        invariant Valid() && old(pointer) <= pointer && queue == old(queue) && maxCandidate == old(maxCandidate)
        invariant Pending() == old(Pending())
        decreases maxCandidate - pointer
      {
        if queue[pointer] != [] {
          FlatOrdered(queue, pointer, maxCandidate);
          forall e | e in Pending()
            ensures pointer <= e.0
          {
            var s :| 0 <= s < |Pending()| && Pending()[s] == e;
          }
          return pointer, queue[pointer][0];
        }
        pointer := pointer + 1;
      }
      return -1, -1;
    }

    /** `pop`: moves the pointer like `top` and removes the front entry of
        that bucket; with nothing pending it only moves the pointer. */
    method Pop()
      requires Valid()
      modifies this
      ensures Valid() && maxCandidate == old(maxCandidate) && old(pointer) <= pointer && |queue| == old(|queue|)
      ensures |old(Pending())| > 0 ==> Pending() == old(Pending())[1..]
      ensures |old(Pending())| == 0 ==> Pending() == [] && queue == old(queue)
    {
      while pointer <= maxCandidate
        invariant Valid() && old(pointer) <= pointer && queue == old(queue) && maxCandidate == old(maxCandidate)
        invariant Pending() == old(Pending())
        decreases maxCandidate - pointer
      {
        if queue[pointer] != [] {
          PopFlat(queue, pointer, maxCandidate);
          queue := queue[pointer := queue[pointer][1..]];
          return;
        }
        pointer := pointer + 1;
      }
    }

    /** `empty`: moves the pointer like `top`; true exactly when nothing is
        pending. */
    method Empty() returns (r: bool)
      requires Valid()
      modifies this
      ensures Valid() && queue == old(queue) && maxCandidate == old(maxCandidate) && old(pointer) <= pointer
      ensures Pending() == old(Pending())
      ensures r <==> |Pending()| == 0
    {
      while pointer <= maxCandidate
        invariant Valid() && old(pointer) <= pointer && queue == old(queue) && maxCandidate == old(maxCandidate)
        invariant Pending() == old(Pending())
        decreases maxCandidate - pointer
      {
        if queue[pointer] != [] {
          return false;
        }
        pointer := pointer + 1;
      }
      return true;
    }
  }
}
