/** The crossover operators of the evolutionary router. A baby takes n of
    the 2n routes of its two parents: `makeDiverseBaby2` and
    `makeDiverseBaby` try every choice of n routes, enumerated through a
    bitmask, and keep the first one with the strictly least distance score
    (respectively rounded Frank-Wolfe score); `makeHeuristicBaby` starts
    from a drawn route and fills each further slot greedily. The binomial
    coefficient sizes the inner-island crossover. */
module EaCrossover {
  import opened Common
  import opened Network
  import Data
  import opened EaData
  import opened EaUtil

  // ---------------------------------------------------------------------
  // binomialCoeff

  /** The binomial coefficient, by Pascal's rule. */
  function Choose(n: nat, k: nat): nat
  {
    if k == 0 then 1
    else if n == 0 then 0
    else Choose(n - 1, k - 1) + Choose(n - 1, k)
  }

  lemma {:induction false} ChooseAbove(n: nat, k: nat)
    requires k > n
    ensures Choose(n, k) == 0
  {
    if n > 0 {
      ChooseAbove(n - 1, k - 1);
      ChooseAbove(n - 1, k);
    }
  }

  lemma {:induction false} ChooseOne(n: nat)
    ensures Choose(n, 1) == n
  {
    if n > 0 {
      ChooseOne(n - 1);
    }
  }

  lemma {:induction false} ChooseAll(n: nat)
    ensures Choose(n, n) == 1
  {
    if n > 0 {
      ChooseAll(n - 1);
      ChooseAbove(n - 1, n);
    }
  }

  lemma Distribute(x: int, y: int, z: int)
    ensures x * (y + z) == x * y + x * z
  {
  }

  lemma AbsorptionStep(n: int, k: int, a: int, b: int, c: int, d: int)
    requires a == c + d && k * b == (n - 1) * d && (k - 1) * a == (n - 1) * c
    ensures k * (a + b) == n * a
  {
    Distribute(k, a, b);
    Distribute(a, k - 1, 1);
    Distribute(n - 1, c, d);
    Distribute(a, n - 1, 1);
  }

  /** k·C(n, k) = n·C(n-1, k-1). */
  lemma {:induction false} Absorption(n: nat, k: nat)
    requires 1 <= k && 1 <= n
    ensures k * Choose(n, k) == n * Choose(n - 1, k - 1)
  {
    if k == 1 {
      ChooseOne(n);
    } else if n == 1 {
      ChooseAbove(1, k);
      ChooseAbove(0, k - 1);
    } else {
      Absorption(n - 1, k);
      Absorption(n - 1, k - 1);
      AbsorptionStep(n, k, Choose(n - 1, k - 1), Choose(n - 1, k), Choose(n - 2, k - 2), Choose(n - 2, k - 1));
    }
  }

  lemma StepShift(n: int, i: int, c: int, a: int, b: int)
    requires c == a + b && i * c == n * a
    ensures c * (n - i) == n * b
  {
    Distribute(c, n, -i);
    Distribute(n, a, b);
  }

  /** (i+1)·C(n, i+1) = (n-i)·C(n, i): each step of the loop divides exactly. */
  lemma StepExact(n: nat, i: nat)
    requires i < n
    ensures Choose(n, i) * (n - i) == Choose(n, i + 1) * (i + 1)
  {
    Absorption(n, i + 1);
    if i == 0 {
      ChooseOne(n);
    } else {
      Absorption(n, i);
      StepShift(n, i, Choose(n, i), Choose(n - 1, i - 1), Choose(n - 1, i));
    }
  }

  /** C(n, k) = C(n, n-k). */
  lemma {:induction false} ChooseSymmetric(n: nat, k: nat)
    requires k <= n
    ensures Choose(n, k) == Choose(n, n - k)
  {
    if k == 0 || k == n {
      ChooseAll(n);
    } else {
      ChooseSymmetric(n - 1, k - 1);
      ChooseSymmetric(n - 1, k);
    }
  }

  lemma DivExact(a: int, m: int)
    requires m > 0
    ensures (a * m) / m == a
  {
    var q, r := (a * m) / m, (a * m) % m;
    assert a * m == q * m + r && 0 <= r < m;
    Distribute(m, a, -q);
    assert (a - q) * m == r;
    if a - q >= 1 {
      Distribute(m, a - q - 1, 1);
    } else if a - q <= -1 {
      Distribute(m, a - q + 1, -1);
    }
  }

  /** `binomialCoeff(n, k)`: C(n, k) for 0 <= k <= n, computed over the
      smaller of k and n-k with an exact division in every step; any other
      k leaves the loop empty and gives 1. */
  method BinomialCoeff(n: int, k: int) returns (res: int)
    requires n >= 0
    ensures 0 <= k <= n ==> res == Choose(n, k)
    ensures k < 0 || k > n ==> res == 1
  {
    res := 1;
    var k' := k;
    if k' > n - k' {
      k' := n - k';
    }
    if 0 <= k <= n {
      ChooseSymmetric(n, k);
    }
    var i := 0;
    while i < k'
      invariant 0 <= k' <= n ==> 0 <= i <= k' && res == Choose(n, i)
      invariant k' < 0 ==> i == 0 && res == 1
    {
      StepExact(n, i);
      res := res * (n - i);
      DivExact(Choose(n, i + 1), i + 1);
      res := res / (i + 1);
      i := i + 1;
    }
  }

  // ---------------------------------------------------------------------
  // The bitmask enumeration of makeDiverseBaby and makeDiverseBaby2

  /** The number of set positions. */
  function Ones(mask: seq<bool>): nat
  {
    if |mask| == 0 then 0 else (if mask[0] then 1 else 0) + Ones(mask[1..])
  }

  lemma {:induction false} OnesSnoc(mask: seq<bool>, b: bool)
    ensures Ones(mask + [b]) == Ones(mask) + (if b then 1 else 0)
    decreases |mask|
  {
    if |mask| > 0 {
      assert (mask + [b])[1..] == mask[1..] + [b];
      OnesSnoc(mask[1..], b);
    }
  }

  /** How many of the masks of `len` positions with `ones` set start with
      a set position. */
  function Leading(len: nat, ones: nat): nat
    requires len > 0
  {
    if ones > 0 then Choose(len - 1, ones - 1) else 0
  }

  lemma LeadingSplit(len: nat, ones: nat)
    requires len > 0
    ensures Choose(len, ones) == Leading(len, ones) + Choose(len - 1, ones)
  {
  }

  /** Mask number `r` of `len` positions with `ones` of them set, counting
      in decreasing lexicographic order (set above unset): the order in
      which `std::prev_permutation` visits them when it starts from the
      set positions first. */
  function MaskOfRank(len: nat, ones: nat, r: nat): seq<bool>
    requires r < Choose(len, ones)
    decreases len
  {
    if len == 0 then []
    else
      LeadingSplit(len, ones);
      var t := Leading(len, ones);
      if r < t then [true] + MaskOfRank(len - 1, ones - 1, r)
      else [false] + MaskOfRank(len - 1, ones, r - t)
  }

  /** The number of a mask in that order. */
  function RankOf(mask: seq<bool>): nat
  {
    if |mask| == 0 then 0
    else if mask[0] then RankOf(mask[1..])
    else Leading(|mask|, Ones(mask)) + RankOf(mask[1..])
  }

  /** Every mask has `len` positions, `ones` of them set. */
  lemma {:induction false} MaskShape(len: nat, ones: nat, r: nat)
    requires r < Choose(len, ones)
    ensures |MaskOfRank(len, ones, r)| == len && Ones(MaskOfRank(len, ones, r)) == ones
    decreases len
  {
    if len > 0 {
      LeadingSplit(len, ones);
      var t := Leading(len, ones);
      var m := MaskOfRank(len, ones, r);
      if r < t {
        MaskShape(len - 1, ones - 1, r);
        assert m[1..] == MaskOfRank(len - 1, ones - 1, r);
      } else {
        MaskShape(len - 1, ones, r - t);
        assert m[1..] == MaskOfRank(len - 1, ones, r - t);
      }
    }
  }

  /** Every mask with `ones` set positions has a number below
      C(|mask|, ones), and that number gives the mask back: the enumeration
      misses none. */
  lemma {:induction false} RankOfComplete(mask: seq<bool>)
    ensures RankOf(mask) < Choose(|mask|, Ones(mask))
    ensures MaskOfRank(|mask|, Ones(mask), RankOf(mask)) == mask
    decreases |mask|
  {
    if |mask| > 0 {
      var len, ones, rest := |mask|, Ones(mask), mask[1..];
      RankOfComplete(rest);
      LeadingSplit(len, ones);
      assert mask == [mask[0]] + rest;
    }
  }

  /** Earlier numbers give lexicographically greater masks, so no mask is
      visited twice. */
  lemma {:induction false} MasksDescending(len: nat, ones: nat, r: nat, s: nat)
    requires r < s < Choose(len, ones)
    ensures LexAbove(MaskOfRank(len, ones, r), MaskOfRank(len, ones, s))
    decreases len
  {
    LeadingSplit(len, ones);
    var t := Leading(len, ones);
    var x, y := MaskOfRank(len, ones, r), MaskOfRank(len, ones, s);
    if s < t {
      MasksDescending(len - 1, ones - 1, r, s);
      PrefixKeepsOrder(true, MaskOfRank(len - 1, ones - 1, r), MaskOfRank(len - 1, ones - 1, s));
    } else if r >= t {
      MasksDescending(len - 1, ones, r - t, s - t);
      PrefixKeepsOrder(false, MaskOfRank(len - 1, ones, r - t), MaskOfRank(len - 1, ones, s - t));
    } else {
      assert x[0] && !y[0] && x[..0] == y[..0];
    }
  }

  /** `a` comes after `b` in lexicographic order: at the first position where
      they differ, `a` is set and `b` is not. */
  predicate LexAbove(a: seq<bool>, b: seq<bool>)
  {
    exists p :: 0 <= p < |a| && p < |b| && a[..p] == b[..p] && a[p] && !b[p]
  }

  lemma PrefixKeepsOrder(b: bool, x: seq<bool>, y: seq<bool>)
    requires LexAbove(x, y)
    ensures LexAbove([b] + x, [b] + y)
  {
    var p :| 0 <= p < |x| && p < |y| && x[..p] == y[..p] && x[p] && !y[p];
    assert ([b] + x)[..p + 1] == [b] + x[..p];
    assert ([b] + y)[..p + 1] == [b] + y[..p];
    assert ([b] + x)[p + 1] == x[p];
  }

  lemma {:induction false} OnesAppend(a: seq<bool>, b: seq<bool>)
    ensures Ones(a + b) == Ones(a) + Ones(b)
    decreases |a|
  {
    if |a| > 0 {
      assert (a + b)[1..] == a[1..] + b;
      OnesAppend(a[1..], b);
    } else {
      assert a + b == b;
    }
  }

  // ---------------------------------------------------------------------
  // Building a candidate from a mask

  /** A default-constructed route: no links. Its cached sums are left
      uninitialised by the source and are 0 here. */
  const EmptyRoute := Data.Route([], 0.0, 0.0)

  /** `n` default-constructed routes. */
  function Blank(n: nat): (r: seq<Data.Route>)
    ensures |r| == n && forall i :: 0 <= i < n ==> r[i] == EmptyRoute
  {
    seq(n, _ => EmptyRoute)
  }

  /** `individual(n)`: `n` default routes, empty usages, score -1. */
  function Fresh(n: nat): Individual
  {
    Individual(Blank(n), Usage([], map[]), Usage([], map[]), -1.0)
  }

  /** The routes at the set positions of the mask, in index order. */
  function Picked(mask: seq<bool>, routes: seq<Data.Route>): seq<Data.Route>
    requires |mask| == |routes|
  {
    if |mask| == 0 then []
    else (if mask[0] then [routes[0]] else []) + Picked(mask[1..], routes[1..])
  }

  /** As many routes as set positions. */
  lemma {:induction false} PickedLength(mask: seq<bool>, routes: seq<Data.Route>)
    requires |mask| == |routes|
    ensures |Picked(mask, routes)| == Ones(mask)
    decreases |mask|
  {
    if |mask| > 0 {
      PickedLength(mask[1..], routes[1..]);
    }
  }

  /** Picking over two halves: the routes picked from the first half come
      first, then those picked from the second. */
  lemma {:induction false} PickedSplit(m1: seq<bool>, m2: seq<bool>, r1: seq<Data.Route>, r2: seq<Data.Route>)
    requires |m1| == |r1| && |m2| == |r2|
    ensures Picked(m1 + m2, r1 + r2) == Picked(m1, r1) + Picked(m2, r2)
    decreases |m1|
  {
    if |m1| > 0 {
      assert (m1 + m2)[1..] == m1[1..] + m2 && (r1 + r2)[1..] == r1[1..] + r2;
      PickedSplit(m1[1..], m2, r1[1..], r2);
    } else {
      assert m1 + m2 == m2 && r1 + r2 == r2;
    }
  }

  /** One more position of the mask: one more set position counted, and
      its route picked when it is set. */
  lemma SelectStep(mask: seq<bool>, all: seq<Data.Route>, i: int)
    requires |mask| == |all| && 0 <= i < |mask|
    ensures Ones(mask[..i + 1]) == Ones(mask[..i]) + (if mask[i] then 1 else 0) <= Ones(mask)
    ensures |Picked(mask[..i], all[..i])| == Ones(mask[..i])
    ensures Picked(mask[..i + 1], all[..i + 1]) == Picked(mask[..i], all[..i]) + (if mask[i] then [all[i]] else [])
  {
    OnesAppend(mask[..i], [mask[i]]);
    OnesAppend(mask[..i + 1], mask[i + 1..]);
    assert mask[..i + 1] == mask[..i] + [mask[i]] && mask == mask[..i + 1] + mask[i + 1..];
    assert Ones([mask[i]]) == if mask[i] then 1 else 0;
    PickedSplit(mask[..i], [mask[i]], all[..i], [all[i]]);
    assert all[..i + 1] == all[..i] + [all[i]];
    PickedLength(mask[..i], all[..i]);
  }

  /** The loop over the bitmask in `makeDiverseBaby` and
      `makeDiverseBaby2`: every set position i copies route i of the
      parents (parent2's when i >= n) into the next free slot of a vector
      of n default routes. The result is exactly the picked routes. */
  method SelectRoutes(mask: seq<bool>, parent1: seq<Data.Route>, parent2: seq<Data.Route>) returns (routes: seq<Data.Route>)
    requires |parent1| == |parent2| && |mask| == 2 * |parent1| && Ones(mask) == |parent1|
    ensures routes == Picked(mask, parent1 + parent2)
  {
    var n := |parent1|;
    ghost var all := parent1 + parent2;
    routes := Blank(n);
    var next := 0;
    for i := 0 to 2 * n
      invariant next == Ones(mask[..i]) && next <= n
      invariant routes == Picked(mask[..i], all[..i]) + Blank(n - next)
    {
      SelectStep(mask, all, i);
      if mask[i] {
        var r := if i < n then parent1[i] else parent2[i - n];
        assert r == all[i];
        assert Blank(n - next) == [EmptyRoute] + Blank(n - next - 1);
        routes := routes[next := r];
        next := next + 1;
      }
    }
    assert mask[..2 * n] == mask && all[..2 * n] == all;
  }

  // ---------------------------------------------------------------------
  // makeDiverseBaby2 and makeDiverseBaby

  /** Candidate number `r`: the routes its mask picks from parent1's routes
      followed by parent2's. */
  function Candidate(parent1: seq<Data.Route>, parent2: seq<Data.Route>, r: nat): (c: seq<Data.Route>)
    requires |parent1| == |parent2| && r < Choose(2 * |parent1|, |parent1|)
    ensures |c| == |parent1|
  {
    var n := |parent1|;
    MaskShape(2 * n, n, r);
    PickedLength(MaskOfRank(2 * n, n, r), parent1 + parent2);
    Picked(MaskOfRank(2 * n, n, r), parent1 + parent2)
  }

  /** The distance score of every candidate, in enumeration order. */
  function DistScores(parent1: seq<Data.Route>, parent2: seq<Data.Route>): (d: seq<real>)
    requires |parent1| == |parent2|
    ensures |d| == Choose(2 * |parent1|, |parent1|)
  {
    seq(Choose(2 * |parent1|, |parent1|), r requires 0 <= r < Choose(2 * |parent1|, |parent1|) =>
      DistScore(Candidate(parent1, parent2, r)))
  }

  /** The rounded score of every candidate under `score`, in enumeration
      order. */
  function RoundedScores(parent1: seq<Data.Route>, parent2: seq<Data.Route>, score: seq<Data.Route> -> real): (d: seq<real>)
    requires |parent1| == |parent2|
    ensures |d| == Choose(2 * |parent1|, |parent1|)
  {
    seq(Choose(2 * |parent1|, |parent1|), r requires 0 <= r < Choose(2 * |parent1|, |parent1|) =>
      Round(score(Candidate(parent1, parent2, r))) as real)
  }

  /** The baby a scan over the candidates keeps: the first one whose score
      is the least and below `init`, or `n` default routes when none is. */
  function Kept(parent1: seq<Data.Route>, parent2: seq<Data.Route>, scores: seq<real>, init: real): (baby: Individual)
    requires |parent1| == |parent2| && |scores| == Choose(2 * |parent1|, |parent1|)
  {
    var best := FirstMin(scores, init);
    Fresh(|parent1|).(routes := if best == -1 then Blank(|parent1|) else Candidate(parent1, parent2, best))
  }

  /** The scan itself over precomputed candidate scores; shared by the
      two diverse crossovers, each of which computes its scores in the
      loop. */
  ghost predicate ScanState(parent1: seq<Data.Route>, parent2: seq<Data.Route>, scores: seq<real>, init: real,
                            r: int, best: int, current: real, baby: Individual)
    requires |parent1| == |parent2| && |scores| == Choose(2 * |parent1|, |parent1|) && 0 <= r <= |scores|
  {
    IsFirstMinBelow(scores[..r], init, best) &&
    (best == -1 ==> current == init && baby == Fresh(|parent1|)) &&
    (best != -1 ==> 0 <= best < r && current == scores[best] &&
                    baby == Fresh(|parent1|).(routes := Candidate(parent1, parent2, best)))
  }

  /** Candidate `r` is what its mask picks. */
  lemma CandidateIsPicked(parent1: seq<Data.Route>, parent2: seq<Data.Route>, r: nat)
    requires |parent1| == |parent2| && r < Choose(2 * |parent1|, |parent1|)
    ensures |MaskOfRank(2 * |parent1|, |parent1|, r)| == 2 * |parent1|
    ensures Ones(MaskOfRank(2 * |parent1|, |parent1|, r)) == |parent1|
    ensures Candidate(parent1, parent2, r) == Picked(MaskOfRank(2 * |parent1|, |parent1|, r), parent1 + parent2)
  {
    MaskShape(2 * |parent1|, |parent1|, r);
  }

  /** One value more for a running-best scan that replaces its best only on
      a strictly smaller value. */
  lemma FirstMinBelowStep(xs: seq<real>, init: real, r: int, best: int, bestVal: real)
    requires 0 <= r < |xs| && IsFirstMinBelow(xs[..r], init, best)
    requires best == -1 ==> bestVal == init
    requires best != -1 ==> 0 <= best < r && bestVal == xs[best]
    ensures xs[r] < bestVal ==> IsFirstMinBelow(xs[..r + 1], init, r)
    ensures !(xs[r] < bestVal) ==> IsFirstMinBelow(xs[..r + 1], init, best)
  {
    var pre, ext := xs[..r], xs[..r + 1];
    assert forall j :: 0 <= j < r ==> ext[j] == pre[j];
  }

  /** One candidate more: the scan moves to it exactly when its score is
      strictly below the best so far. */
  lemma ScanStep(parent1: seq<Data.Route>, parent2: seq<Data.Route>, scores: seq<real>, init: real,
                 r: int, best: int, current: real, baby: Individual)
    requires |parent1| == |parent2| && |scores| == Choose(2 * |parent1|, |parent1|) && 0 <= r < |scores|
    requires ScanState(parent1, parent2, scores, init, r, best, current, baby)
    ensures scores[r] < current ==>
              ScanState(parent1, parent2, scores, init, r + 1, r, scores[r],
                        baby.(routes := Candidate(parent1, parent2, r)))
    ensures !(scores[r] < current) ==> ScanState(parent1, parent2, scores, init, r + 1, best, current, baby)
  {
    FirstMinBelowStep(scores, init, r, best, current);
  }

  /** After the last candidate the scan state is the kept baby. */
  lemma ScanDone(parent1: seq<Data.Route>, parent2: seq<Data.Route>, scores: seq<real>, init: real,
                 best: int, current: real, baby: Individual)
    requires |parent1| == |parent2| && |scores| == Choose(2 * |parent1|, |parent1|)
    requires ScanState(parent1, parent2, scores, init, |scores|, best, current, baby)
    ensures baby == Kept(parent1, parent2, scores, init)
  {
    assert scores[..|scores|] == scores;
    FirstMinBelowUnique(scores, init, best, FirstMin(scores, init));
  }

  /** The body of `makeDiverseBaby2`'s loop up to the comparison: builds
      candidate `r` and its distance score. */
  method DistScoreCandidate(parent1: seq<Data.Route>, parent2: seq<Data.Route>, r: nat)
    returns (routes: seq<Data.Route>, score: real)
    requires |parent1| == |parent2| && r < Choose(2 * |parent1|, |parent1|)
    ensures routes == Candidate(parent1, parent2, r)
    ensures score == DistScores(parent1, parent2)[r] == DistScore(routes)
  {
    var n := |parent1|;
    CandidateIsPicked(parent1, parent2, r);
    routes := SelectRoutes(MaskOfRank(2 * n, n, r), parent1, parent2);
    score := DistScoreRoutes(routes);
  }

  /** `makeDiverseBaby2`: visits every choice of n of the 2n parent routes
      and keeps the first one with the strictly least distance score
      (starting from `DBL_MAX`). */
  method MakeDiverseBaby2(parent1: Individual, parent2: Individual, n: nat) returns (baby: Individual)
    requires |parent1.routes| == n && |parent2.routes| == n
    ensures baby == Kept(parent1.routes, parent2.routes, DistScores(parent1.routes, parent2.routes), DblMax)
  {
    ghost var scores := DistScores(parent1.routes, parent2.routes);
    baby := Fresh(n);
    var current := DblMax;
    ghost var best := -1;
    for r := 0 to Choose(2 * n, n)
      invariant ScanState(parent1.routes, parent2.routes, scores, DblMax, r, best, current, baby)
    {
      var routes, score := DistScoreCandidate(parent1.routes, parent2.routes, r);
      ScanStep(parent1.routes, parent2.routes, scores, DblMax, r, best, current, baby);
      if score < current {
        baby := baby.(routes := routes);
        current := score;
        best := r;
      }
    }
    ScanDone(parent1.routes, parent2.routes, scores, DblMax, best, current, baby);
  }

  /** `makeDiverseBaby`: the same scan over the rounded score `score`
      gives each candidate (the 50-iteration Frank-Wolfe scorer of the
      source, whose model is in EaScoring), starting from `INT_MAX`. */
  method MakeDiverseBaby(parent1: Individual, parent2: Individual, n: nat, score: seq<Data.Route> -> real)
    returns (baby: Individual)
    requires |parent1.routes| == n && |parent2.routes| == n
    ensures baby == Kept(parent1.routes, parent2.routes, RoundedScores(parent1.routes, parent2.routes, score), IntMax as real)
  {
    ghost var scores := RoundedScores(parent1.routes, parent2.routes, score);
    baby := Fresh(n);
    var curScr := IntMax;
    ghost var best := -1;
    for r := 0 to Choose(2 * n, n)
      invariant ScanState(parent1.routes, parent2.routes, scores, IntMax as real, r, best, curScr as real, baby)
    {
      CandidateIsPicked(parent1.routes, parent2.routes, r);
      var routes := SelectRoutes(MaskOfRank(2 * n, n, r), parent1.routes, parent2.routes);
      var scr := Round(score(routes));
      assert scr as real == scores[r];
      ScanStep(parent1.routes, parent2.routes, scores, IntMax as real, r, best, curScr as real, baby);
      if scr < curScr {
        baby := baby.(routes := routes);
        curScr := scr;
        best := r;
      }
    }
    ScanDone(parent1.routes, parent2.routes, scores, IntMax as real, best, curScr as real, baby);
  }

  // ---------------------------------------------------------------------
  // makeHeuristicBaby

  /** The distance score of `current` with each route of `all` appended:
      the scores the greedy step compares. */
  function GreedyScores(current: seq<Data.Route>, all: seq<Data.Route>): (d: seq<real>)
    ensures |d| == |all|
  {
    if |all| == 0 then []
    else GreedyScores(current, all[..|all| - 1]) + [DistScore(current + [all[|all| - 1]])]
  }

  /** Entry `j` of the greedy scores is the score with `all[j]` appended. */
  lemma {:induction false} GreedyScoresAt(current: seq<Data.Route>, all: seq<Data.Route>, j: nat)
    requires j < |all|
    ensures GreedyScores(current, all)[j] == DistScore(current + [all[j]])
  {
    var m := |all| - 1;
    if j < m {
      GreedyScoresAt(current, all[..m], j);
    }
  }

  /** The baby's routes once slots `0 .. i-1` are filled, or `None` when a
      greedy step found no route scoring below `DBL_MAX`. Slot 0 holds the
      drawn route `all[start]`; slot `i-1` the first route of `all` whose
      appended score is the least. Unfilled slots keep default routes. */
  function Greedy(all: seq<Data.Route>, n: nat, start: nat, i: nat): (g: Option<seq<Data.Route>>)
    requires 0 < i <= n && start < |all|
    ensures g.Some? ==> |g.value| == n
    decreases i
  {
    if i == 1 then Some(Blank(n)[0 := all[start]])
    else
      match Greedy(all, n, start, i - 1)
      case None => None
      case Some(r) =>
        var k := FirstMin(GreedyScores(r, all), DblMax);
        if k == -1 then None else Some(r[i - 1 := all[k]])
  }

  /** Once a greedy step fails, the fill stays failed. */
  lemma {:induction false} GreedyStaysNone(all: seq<Data.Route>, n: nat, start: nat, i: nat, m: nat)
    requires 0 < i <= m <= n && start < |all| && Greedy(all, n, start, i) == None
    ensures Greedy(all, n, start, m) == None
    decreases m - i
  {
    if i < m {
      GreedyStaysNone(all, n, start, i + 1, m);
    }
  }

  /** The shape of the fill after `i` slots: `n` routes, the drawn one
      first, slots `1 .. i-1` taken from the parents, the rest default. */
  lemma {:induction false} GreedyShape(all: seq<Data.Route>, n: nat, start: nat, i: nat)
    requires 0 < i <= n && start < |all| && Greedy(all, n, start, i).Some?
    ensures Greedy(all, n, start, i).value[0] == all[start]
    ensures forall j :: 0 < j < i ==> Greedy(all, n, start, i).value[j] in all
    ensures forall j :: i <= j < n ==> Greedy(all, n, start, i).value[j] == EmptyRoute
    decreases i
  {
    if i > 1 {
      GreedyShape(all, n, start, i - 1);
    }
  }

  /** Later steps leave the slots already filled alone. */
  lemma {:induction false} GreedyKeepsPrefix(all: seq<Data.Route>, n: nat, start: nat, i: nat, m: nat)
    requires 0 < i <= m <= n && start < |all| && Greedy(all, n, start, m).Some?
    ensures Greedy(all, n, start, i).Some?
    ensures Greedy(all, n, start, i).value[..i] == Greedy(all, n, start, m).value[..i]
    decreases m - i
  {
    if i < m {
      GreedyKeepsPrefix(all, n, start, i + 1, m);
      GreedyStepPrefix(all, n, start, i);
      var r' := Greedy(all, n, start, i + 1).value;
      var rm := Greedy(all, n, start, m).value;
      assert rm[..i + 1][..i] == rm[..i];
      assert r'[..i + 1][..i] == r'[..i];
    }
  }

  /** A successful step i + 1 follows a successful step i and changes no
      slot below i. */
  lemma GreedyStepPrefix(all: seq<Data.Route>, n: nat, start: nat, i: nat)
    requires 0 < i < n && start < |all| && Greedy(all, n, start, i + 1).Some?
    ensures Greedy(all, n, start, i).Some?
    ensures Greedy(all, n, start, i + 1).value[..i] == Greedy(all, n, start, i).value[..i]
  {
    var r := Greedy(all, n, start, i).value;
    var k := FirstMin(GreedyScores(r, all), DblMax);
    assert Greedy(all, n, start, i + 1) == Some(r[i := all[k]]);
    assert r[i := all[k]][..i] == r[..i];
  }

  /** The route a successful step puts in slot `i` scores, appended to
      the routes before the step, below `DBL_MAX` and no worse than any
      other route of either parent. */
  lemma GreedyChoice(all: seq<Data.Route>, n: nat, start: nat, i: nat, c: nat)
    requires 0 < i < n && start < |all| && c < |all| && Greedy(all, n, start, i + 1).Some?
    ensures Greedy(all, n, start, i).Some?
    ensures var r := Greedy(all, n, start, i).value;
            var chosen := Greedy(all, n, start, i + 1).value[i];
            DistScore(r + [chosen]) < DblMax && DistScore(r + [chosen]) <= DistScore(r + [all[c]])
  {
    var r := Greedy(all, n, start, i).value;
    var k := FirstMin(GreedyScores(r, all), DblMax);
    GreedyScoresAt(r, all, k);
    GreedyScoresAt(r, all, c);
  }

  /** The greedy property of a completed fill: each route after the first
      is the one that, appended to the routes chosen before it (and the
      default routes still in the later slots), gives the least distance
      score, a score below `DBL_MAX`; no route of either parent does
      better. */
  lemma HeuristicIsGreedy(all: seq<Data.Route>, n: nat, start: nat, j: nat, c: nat)
    requires 0 < j < n && start < |all| && c < |all| && Greedy(all, n, start, n).Some?
    ensures var r := Greedy(all, n, start, n).value;
            var before := r[..j] + Blank(n - j);
            DistScore(before + [r[j]]) < DblMax &&
            DistScore(before + [r[j]]) <= DistScore(before + [all[c]])
  {
    var r := Greedy(all, n, start, n).value;
    GreedyKeepsPrefix(all, n, start, j, n);
    GreedyKeepsPrefix(all, n, start, j + 1, n);
    var rj, rj' := Greedy(all, n, start, j).value, Greedy(all, n, start, j + 1).value;
    GreedyShape(all, n, start, j);
    assert rj == r[..j] + Blank(n - j) by {
      assert rj[..j] == r[..j];
      assert forall t :: j <= t < n ==> rj[t] == EmptyRoute;
    }
    assert r[j] == rj'[..j + 1][j] == rj'[j];
    GreedyChoice(all, n, start, j, c);
  }

  /** A greedy step fails exactly when every route of either parent,
      appended to the routes so far, scores at least `DBL_MAX`. */
  lemma GreedyStepFails(all: seq<Data.Route>, n: nat, start: nat, i: nat)
    requires 0 < i < n && start < |all| && Greedy(all, n, start, i).Some?
    ensures Greedy(all, n, start, i + 1).None? <==>
            forall c :: 0 <= c < |all| ==> DistScore(Greedy(all, n, start, i).value + [all[c]]) >= DblMax
  {
    var r := Greedy(all, n, start, i).value;
    var xs := GreedyScores(r, all);
    forall c | 0 <= c < |all|
      ensures xs[c] == DistScore(r + [all[c]])
    {
      GreedyScoresAt(r, all, c);
    }
  }

  /** The result of `makeHeuristicBaby` once the starting route is drawn:
      the greedily filled routes, or a copy of parent1 when a step fails. */
  function HeuristicBaby(parent1: Individual, parent2: Individual, n: nat, start: nat): Individual
    requires 0 < n && |parent1.routes| == n && |parent2.routes| == n && start < 2 * n
  {
    match Greedy(parent1.routes + parent2.routes, n, start, n)
    case None => parent1
    case Some(routes) => Fresh(n).(routes := routes)
  }

  /** The score of `current` with `all[j]` appended. */
  method GreedyScore(current: seq<Data.Route>, all: seq<Data.Route>, j: nat) returns (score: real)
    requires j < |all|
    ensures score == GreedyScores(current, all)[j]
  {
    score := DistScoreRoutes(current + [all[j]]);
    GreedyScoresAt(current, all, j);
  }

  /** One more slot of the greedy fill. */
  lemma GreedyNext(all: seq<Data.Route>, n: nat, start: nat, i: nat, r: seq<Data.Route>)
    requires 0 < i < n && start < |all| && Greedy(all, n, start, i) == Some(r)
    ensures FirstMin(GreedyScores(r, all), DblMax) == -1 ==> Greedy(all, n, start, i + 1) == None
    ensures FirstMin(GreedyScores(r, all), DblMax) != -1 ==>
              Greedy(all, n, start, i + 1) == Some(r[i := all[FirstMin(GreedyScores(r, all), DblMax)]])
  {
  }

  /** The running-best scan over `all[lo..hi]`, continuing from the best
      index `pick0` (or -1) and its score `dist0` found on `all[..lo]`. */
  method GreedyScan(current: seq<Data.Route>, all: seq<Data.Route>, lo: nat, hi: nat, pick0: int, dist0: real)
    returns (pick: int, dist: real)
    requires lo <= hi <= |all|
    requires IsFirstMinBelow(GreedyScores(current, all)[..lo], DblMax, pick0)
    requires pick0 == -1 ==> dist0 == DblMax
    requires pick0 != -1 ==> 0 <= pick0 < lo && dist0 == GreedyScores(current, all)[pick0]
    ensures IsFirstMinBelow(GreedyScores(current, all)[..hi], DblMax, pick)
    ensures pick == -1 ==> dist == DblMax
    ensures pick != -1 ==> 0 <= pick < hi && dist == GreedyScores(current, all)[pick]
    ensures pick == pick0 || lo <= pick < hi
  {
    ghost var xs := GreedyScores(current, all);
    pick, dist := pick0, dist0;
    for j := lo to hi
      invariant IsFirstMinBelow(xs[..j], DblMax, pick)
      invariant pick == -1 ==> dist == DblMax
      invariant pick != -1 ==> 0 <= pick < j && dist == xs[pick]
      invariant pick == pick0 || lo <= pick < j
    {
      var score := GreedyScore(current, all, j);
      FirstMinBelowStep(xs, DblMax, j, pick, dist);
      if score < dist {
        pick, dist := j, score;
      }
    }
  }

  /** One greedy step: scans parent1's routes and then parent2's, keeping
      the first whose appended score is strictly below the best so far
      (starting from `DBL_MAX`). Returns its index and which parent holds
      it, or -1. The two loops of the source are one scan over parent1's
      routes followed by parent2's. */
  method GreedyStep(current: seq<Data.Route>, parent1: seq<Data.Route>, parent2: seq<Data.Route>)
    returns (best: int, second: bool)
    ensures -1 <= best
    ensures best != -1 ==> best < (if second then |parent2| else |parent1|)
    ensures FirstMin(GreedyScores(current, parent1 + parent2), DblMax) ==
            (if best == -1 then -1 else if second then |parent1| + best else best)
  {
    var all := parent1 + parent2;
    ghost var xs := GreedyScores(current, all);
    assert xs[..0] == [];
    var pick, dist := GreedyScan(current, all, 0, |parent1|, -1, DblMax);
    pick, dist := GreedyScan(current, all, |parent1|, |all|, pick, dist);
    assert xs[..|xs|] == xs;
    FirstMinBelowUnique(xs, DblMax, pick, FirstMin(xs, DblMax));
    if pick == -1 {
      best, second := -1, false;
    } else if pick < |parent1| {
      best, second := pick, false;
    } else {
      best, second := pick - |parent1|, true;
    }
  }

  /** Slot `i` of the greedy fill: the routes with the best route of the
      step in place, or `None` when the step finds none. */
  method FillSlot(current: seq<Data.Route>, parent1: seq<Data.Route>, parent2: seq<Data.Route>,
                  n: nat, start: nat, i: nat)
    returns (next: Option<seq<Data.Route>>)
    requires 0 < i < n && |parent1| == n && |parent2| == n && start < 2 * n
    requires Greedy(parent1 + parent2, n, start, i) == Some(current)
    ensures next == Greedy(parent1 + parent2, n, start, i + 1)
  {
    var best, second := GreedyStep(current, parent1, parent2);
    GreedyNext(parent1 + parent2, n, start, i, current);
    if best == -1 {
      return None;
    }
    var route := if second then parent2[best] else parent1[best];
    assert route == (parent1 + parent2)[if second then n + best else best];
    next := Some(current[i := route]);
  }

  /** `makeHeuristicBaby` with its weighted draw of the starting route
      given as `start` (an index into parent1's routes followed by
      parent2's). */
  method MakeHeuristicBaby(parent1: Individual, parent2: Individual, n: nat, start: nat)
    returns (baby: Individual)
    requires 0 < n && |parent1.routes| == n && |parent2.routes| == n && start < 2 * n
    ensures baby == HeuristicBaby(parent1, parent2, n, start)
  {
    ghost var all := parent1.routes + parent2.routes;
    baby := Fresh(n);
    var first := if start < n then parent1.routes[start] else parent2.routes[start - n];
    assert first == all[start];
    baby := baby.(routes := baby.routes[0 := first]);
    var i := 1;
    assert Greedy(all, n, start, 1) == Some(baby.routes);
    while i < n
      invariant 1 <= i <= n
      invariant Greedy(all, n, start, i) == Some(baby.routes)
      invariant baby == Fresh(n).(routes := baby.routes)
    {
      var next := FillSlot(baby.routes, parent1.routes, parent2.routes, n, start, i);
      if next.None? {
        GreedyStaysNone(all, n, start, i + 1, n);
        baby := parent1;
        return;
      }
      baby := baby.(routes := next.value);
      i := i + 1;
    }
  }
}
