/** Helpers of the evolutionary router: removing circles from a route,
    searching and intersecting node vectors, the distance score of a set
    of routes, the best individual across islands, the latency of a route
    under a link flow, and the size of the bucket queue. */
module EaUtil {
  import opened Common
  import opened Network
  import Data
  import opened Sorting
  import opened EaData

  // ---------------------------------------------------------------------
  // delete_circle

  /** No node is the source of two links of the route. */
  predicate NoRepeatedSource(links: seq<Link>)
  {
    forall s, t :: 0 <= s < t < |links| ==> links[s].from != links[t].from
  }

  /** The scan of `delete_circle` from position `i`, where `seen` maps the
      source of each link scanned since the last restart to its position.
      A link whose source was seen at `p` closes the circle `links[p..i)`,
      which is erased; the scan then restarts with an empty map at
      `restart`. */
  function CircleScan(links: seq<Link>, i: nat, seen: map<int, nat>, restart: nat): seq<Link>
    requires i <= |links| && restart <= 1
    requires forall v :: v in seen ==> seen[v] < i
    decreases |links|, |links| - i
  {
    if i == |links| then links
    else if links[i].from in seen then
      var p := seen[links[i].from];
      CircleScan(links[..p] + links[i..], restart, map[], restart)
    else CircleScan(links, i + 1, seen[links[i].from := i], restart)
  }

  /** Every entry of `seen` names the position of a link leaving that node. */
  predicate SeenSound(links: seq<Link>, seen: map<int, nat>)
  {
    forall v :: v in seen ==> seen[v] < |links| && links[seen[v]].from == v
  }

  /** Erasing a circle keeps a walk a walk between the same endpoints, and
      the scan only ever removes links. */
  lemma {:induction false} CircleScanWalk(links: seq<Link>, i: nat, seen: map<int, nat>, restart: nat, s: int, t: int)
    requires i <= |links| && restart <= 1
    requires forall v :: v in seen ==> seen[v] < i
    requires SeenSound(links, seen)
    ensures |CircleScan(links, i, seen, restart)| <= |links|
    ensures forall l :: l in CircleScan(links, i, seen, restart) ==> l in links
    ensures IsWalk(links, s, t) ==> IsWalk(CircleScan(links, i, seen, restart), s, t)
    decreases |links|, |links| - i
  {
    if i < |links| {
      if links[i].from in seen {
        var p := seen[links[i].from];
        var shorter := links[..p] + links[i..];
        CircleScanWalk(shorter, restart, map[], restart, s, t);
        forall l | l in shorter
          ensures l in links
        {
          if l in links[..p] {
            var u :| 0 <= u < p && links[..p][u] == l;
            assert links[u] == l;
          } else {
            var u :| 0 <= u < |links[i..]| && links[i..][u] == l;
            assert links[i + u] == l;
          }
        }
        if IsWalk(links, s, t) {
          var m := links[i].from;
          assert IsWalk(links[i..], m, t) by {
            if i > 0 {
              WalkSplit(links, s, t, i);
            }
          }
          if p > 0 {
            WalkSplit(links, s, t, p);
            WalkAppend(links[..p], links[i..], s, m, t);
          } else {
            assert shorter == links[i..];
          }
        }
      } else {
        CircleScanWalk(links, i + 1, seen[links[i].from := i], restart, s, t);
      }
    }
  }

  /** With the restart at 0, `seen` indexes exactly the scanned prefix, so
      the finished scan leaves no node as the source of two links. */
  lemma {:induction false} CircleScanNoRepeat(links: seq<Link>, i: nat, seen: map<int, nat>)
    requires i <= |links|
    requires forall v :: v in seen ==> seen[v] < i
    requires forall u :: 0 <= u < i ==> links[u].from in seen && seen[links[u].from] == u
    ensures NoRepeatedSource(CircleScan(links, i, seen, 0))
    decreases |links|, |links| - i
  {
    if i == |links| {
      forall s, t | 0 <= s < t < |links|
        ensures links[s].from != links[t].from
      {
        assert seen[links[s].from] == s && seen[links[t].from] == t;
      }
    } else if links[i].from in seen {
      var p := seen[links[i].from];
      CircleScanNoRepeat(links[..p] + links[i..], 0, map[]);
    } else {
      CircleScanNoRepeat(links, i + 1, seen[links[i].from := i]);
    }
  }

  /** `delete_circle`: scans the links, erasing `links[p..i)` whenever the
      source of link i was the source of link p, and restarts the scan at
      position `restart` with an empty map. The route keeps its endpoints
      and loses only links; with the restart at 0 no node is left as the
      source of two links. */
  method DeleteCircleLoop(links: seq<Link>, restart: nat) returns (r: seq<Link>)
    requires restart <= 1
    ensures r == CircleScan(links, 0, map[], restart)
    ensures |r| <= |links| && forall l :: l in r ==> l in links
    ensures forall s, t :: IsWalk(links, s, t) ==> IsWalk(r, s, t)
    ensures restart == 0 ==> NoRepeatedSource(r)
  {
    r := links;
    var seen: map<int, nat> := map[];
    var i: nat := 0;
    while i < |r|
      invariant i <= |r| && forall v :: v in seen ==> seen[v] < i
      invariant CircleScan(r, i, seen, restart) == CircleScan(links, 0, map[], restart)
      decreases |r|, |r| - i
    {
      if r[i].from in seen {
        var p := seen[r[i].from];
        r := r[..p] + r[i..];
        seen := map[];
        i := restart;
      } else {
        seen := seen[r[i].from := i];
        i := i + 1;
      }
    }
    forall s, t | IsWalk(links, s, t)
      ensures IsWalk(r, s, t)
    {
      CircleScanWalk(links, 0, map[], restart, s, t);
    }
    CircleScanWalk(links, 0, map[], restart, 0, 0);
    if restart == 0 {
      CircleScanNoRepeat(links, 0, map[]);
    }
  }

  /** `delete_circle` as written resumes the scan at position 1 after an
      erase (it sets `i = 0` and the loop increments it), so the source of
      the first link is never recorded again: in the walk 1-2-3-2-1-4 the
      circle 2-3-2 is erased and the circle 1-2-1 survives. */
  lemma CircleSurvivesRestart()
    ensures var links := [Link(10, 1, 2, 1.0, 1.0, 1.0), Link(11, 2, 3, 1.0, 1.0, 1.0),
                          Link(12, 3, 2, 1.0, 1.0, 1.0), Link(13, 2, 1, 1.0, 1.0, 1.0),
                          Link(14, 1, 4, 1.0, 1.0, 1.0)];
            IsWalk(links, 1, 4) &&
            CircleScan(links, 0, map[], 1) == [links[0], links[3], links[4]] &&
            !NoRepeatedSource(CircleScan(links, 0, map[], 1)) &&
            NoRepeatedSource(CircleScan(links, 0, map[], 0))
  {
    var links := [Link(10, 1, 2, 1.0, 1.0, 1.0), Link(11, 2, 3, 1.0, 1.0, 1.0),
                  Link(12, 3, 2, 1.0, 1.0, 1.0), Link(13, 2, 1, 1.0, 1.0, 1.0),
                  Link(14, 1, 4, 1.0, 1.0, 1.0)];
    var seen3: map<int, nat> := map[1 := 0, 2 := 1, 3 := 2];
    assert CircleScan(links, 0, map[], 1) == CircleScan(links, 3, seen3, 1);
    var shorter := [links[0], links[3], links[4]];
    assert links[..1] + links[3..] == shorter;
    assert CircleScan(links, 3, seen3, 1) == CircleScan(shorter, 1, map[], 1);
    assert CircleScan(shorter, 1, map[], 1) == CircleScan(shorter, 3, map[2 := 1, 1 := 2], 1);
    assert shorter[0].from == shorter[2].from;
    CircleScanNoRepeat(links, 0, map[]);
  }

  // ---------------------------------------------------------------------
  // findInVector, intersection

  /** `findInVector`: (true, first index of x) or (false, -1). */
  function FindInVector(xs: seq<int>, x: int): (r: (bool, int))
    ensures r.0 <==> x in xs
    ensures r.0 ==> 0 <= r.1 < |xs| && xs[r.1] == x && forall j :: 0 <= j < r.1 ==> xs[j] != x
    ensures !r.0 ==> r.1 == -1
  {
    if |xs| == 0 then (false, -1)
    else if xs[0] == x then (true, 0)
    else
      var r := FindInVector(xs[1..], x);
      assert xs == [xs[0]] + xs[1..];
      if r.0 then (true, r.1 + 1) else (false, -1)
  }

  function IntLess(x: int, y: int): bool
  {
    x < y
  }

  /** `std::set_intersection` of two sorted ranges. */
  function SetIntersection(a: seq<int>, b: seq<int>): seq<int>
    decreases |a| + |b|
  {
    if |a| == 0 || |b| == 0 then []
    else if a[0] < b[0] then SetIntersection(a[1..], b)
    else if b[0] < a[0] then SetIntersection(a, b[1..])
    else [a[0]] + SetIntersection(a[1..], b[1..])
  }

  /** A value below the head of a sorted sequence is not in it. */
  lemma BelowHeadAbsent(b: seq<int>, x: int)
    requires SortedBy(b, IntLess) && |b| > 0 && x < b[0]
    ensures multiset(b)[x] == 0
  {
    forall t | 0 <= t < |b|
      ensures b[t] != x
    {
      if t > 0 {
        assert !IntLess(b[t], b[0]);
      }
    }
  }

  /** A head that the other side does not hold drops out of the
      intersection, on either side. */
  lemma DropAbsent(h: int, rest: seq<int>, b: seq<int>)
    requires multiset(b)[h] == 0
    ensures multiset([h] + rest) * multiset(b) == multiset(rest) * multiset(b)
    ensures multiset(b) * multiset([h] + rest) == multiset(b) * multiset(rest)
  {
    assert multiset([h] + rest) == multiset{h} + multiset(rest);
  }

  /** A common head stays once in the intersection. */
  lemma KeepCommon(h: int, r1: seq<int>, r2: seq<int>)
    ensures multiset([h] + r1) * multiset([h] + r2) == multiset{h} + multiset(r1) * multiset(r2)
  {
    assert multiset([h] + r1) == multiset{h} + multiset(r1);
    assert multiset([h] + r2) == multiset{h} + multiset(r2);
  }

  /** On sorted inputs the merge keeps each value as often as both hold it. */
  lemma {:induction false} SetIntersectionCounts(a: seq<int>, b: seq<int>)
    requires SortedBy(a, IntLess) && SortedBy(b, IntLess)
    ensures multiset(SetIntersection(a, b)) == multiset(a) * multiset(b)
    decreases |a| + |b|
  {
    if |a| == 0 || |b| == 0 {
      assert multiset(a) * multiset(b) == multiset{};
    } else if a[0] < b[0] {
      SortedTail(a, IntLess);
      SetIntersectionCounts(a[1..], b);
      BelowHeadAbsent(b, a[0]);
      assert a == [a[0]] + a[1..];
      DropAbsent(a[0], a[1..], b);
    } else if b[0] < a[0] {
      SortedTail(b, IntLess);
      SetIntersectionCounts(a, b[1..]);
      BelowHeadAbsent(a, b[0]);
      assert b == [b[0]] + b[1..];
      DropAbsent(b[0], b[1..], a);
    } else {
      SortedTail(a, IntLess);
      SortedTail(b, IntLess);
      SetIntersectionCounts(a[1..], b[1..]);
      assert a == [a[0]] + a[1..] && b == [a[0]] + b[1..];
      KeepCommon(a[0], a[1..], b[1..]);
    }
  }

  lemma {:induction false} SetIntersectionSorted(a: seq<int>, b: seq<int>)
    requires SortedBy(a, IntLess) && SortedBy(b, IntLess)
    ensures SortedBy(SetIntersection(a, b), IntLess)
    decreases |a| + |b|
  {
    if |a| > 0 && |b| > 0 {
      SortedTail(a, IntLess);
      SortedTail(b, IntLess);
      if a[0] < b[0] {
        SetIntersectionSorted(a[1..], b);
      } else if b[0] < a[0] {
        SetIntersectionSorted(a, b[1..]);
      } else {
        var rest := SetIntersection(a[1..], b[1..]);
        SetIntersectionSorted(a[1..], b[1..]);
        SetIntersectionCounts(a[1..], b[1..]);
        forall e | e in multiset(rest)
          ensures !IntLess(e, a[0])
        {
          assert e in multiset(a[1..]);
        }
        ConsSorted(a[0], rest, IntLess);
      }
    }
  }

  /** `intersection`: sorts copies of both vectors and returns their sorted
      intersection, each value as often as both hold it. */
  function Intersection(v1: seq<int>, v2: seq<int>): (v3: seq<int>)
    ensures SortedBy(v3, IntLess)
    ensures multiset(v3) == multiset(v1) * multiset(v2)
  {
    var s1, s2 := SortBy(v1, IntLess), SortBy(v2, IntLess);
    SortBySorted(v1, IntLess);
    SortBySorted(v2, IntLess);
    SetIntersectionCounts(s1, s2);
    SetIntersectionSorted(s1, s2);
    SetIntersection(s1, s2)
  }

  // ---------------------------------------------------------------------
  // distScoreRoutes

  /** How often `l` occurs in `links`. */
  function Count(l: Link, links: seq<Link>): nat
  {
    if |links| == 0 then 0
    else Count(l, links[..|links| - 1]) + (if links[|links| - 1] == l then 1 else 0)
  }

  lemma {:induction false} CountPositive(l: Link, links: seq<Link>)
    ensures l in links <==> Count(l, links) > 0
  {
    if |links| > 0 {
      var init := links[..|links| - 1];
      CountPositive(l, init);
      assert links == init + [links[|links| - 1]];
    }
  }

  /** All links of all routes, route after route. */
  function AllLinks(routes: seq<Data.Route>): seq<Link>
  {
    if |routes| == 0 then [] else AllLinks(routes[..|routes| - 1]) + routes[|routes| - 1].links
  }

  /** The distinct links in order of first occurrence. */
  function Distinct(links: seq<Link>): (d: seq<Link>)
    ensures forall l :: l in d <==> l in links
    ensures forall s, t :: 0 <= s < t < |d| ==> d[s] != d[t]
  {
    if |links| == 0 then []
    else
      var d := Distinct(links[..|links| - 1]);
      assert links == links[..|links| - 1] + [links[|links| - 1]];
      if links[|links| - 1] in d then d else d + [links[|links| - 1]]
  }

  /** Σ occ² over the keys occurring more than once in `all`. */
  function SharedSum(keys: seq<Link>, all: seq<Link>): nat
  {
    if |keys| == 0 then 0
    else
      var c := Count(keys[|keys| - 1], all);
      SharedSum(keys[..|keys| - 1], all) + (if c > 1 then c * c else 0)
  }

  /** The number of keys occurring exactly once in `all`. */
  function Singles(keys: seq<Link>, all: seq<Link>): nat
  {
    if |keys| == 0 then 0
    else Singles(keys[..|keys| - 1], all) + (if Count(keys[|keys| - 1], all) == 1 then 1 else 0)
  }

  /** The distance score of the link occurrences `all`: shared
      occurrences squared over the number of links used once (at least
      1). */
  function OccurrenceScore(all: seq<Link>): real
  {
    var keys := Distinct(all);
    var singles := Singles(keys, all);
    SharedSum(keys, all) as real / (if singles == 0 then 1 else singles) as real
  }

  /** The distance score of a set of routes. */
  function DistScore(routes: seq<Data.Route>): real
  {
    OccurrenceScore(AllLinks(routes))
  }

  lemma {:induction false} SharedSumZero(keys: seq<Link>, all: seq<Link>)
    ensures SharedSum(keys, all) == 0 <==> forall l :: l in keys ==> Count(l, all) <= 1
  {
    if |keys| > 0 {
      var init, last := keys[..|keys| - 1], keys[|keys| - 1];
      SharedSumZero(init, all);
      assert keys == init + [last];
      assert forall l :: l in keys <==> l in init || l == last;
      var c := Count(last, all);
      assert SharedSum(keys, all) == SharedSum(init, all) + (if c > 1 then c * c else 0);
      if c > 1 {
        assert c * c > 0;
        assert last in keys && Count(last, all) > 1;
      }
    }
  }

  /** The score is never negative, and it is zero exactly when no link
      occurs twice. */
  lemma OccurrenceScoreZero(all: seq<Link>)
    ensures OccurrenceScore(all) >= 0.0
    ensures OccurrenceScore(all) == 0.0 <==> forall l :: l in all ==> Count(l, all) == 1
  {
    var keys := Distinct(all);
    SharedSumZero(keys, all);
    forall l | l in all
      ensures Count(l, all) >= 1
    {
      CountPositive(l, all);
    }
    var singles := Singles(keys, all);
    var den := (if singles == 0 then 1 else singles) as real;
    var num := SharedSum(keys, all) as real;
    assert OccurrenceScore(all) == num / den;
    assert den > 0.0 && num >= 0.0;
    assert num / den == 0.0 <==> num == 0.0;
    if forall l :: l in keys ==> Count(l, all) <= 1 {
      forall l | l in all
        ensures Count(l, all) == 1
      {
        assert l in keys;
      }
    }
    if forall l :: l in all ==> Count(l, all) == 1 {
      forall l | l in keys
        ensures Count(l, all) <= 1
      {
        assert l in all;
      }
    }
  }

  lemma AllLinksStep(routes: seq<Data.Route>, i: int)
    requires 0 <= i < |routes|
    ensures AllLinks(routes[..i + 1]) == AllLinks(routes[..i]) + routes[i].links
  {
    assert routes[..i + 1][..i] == routes[..i];
  }

  /** `occ` holds the number of occurrences of every link in `all`. */
  ghost predicate OccCounts(occ: map<Link, nat>, all: seq<Link>)
  {
    (forall l :: l in occ <==> l in all) && forall l :: l in occ ==> occ[l] == Count(l, all)
  }

  /** `occurences[l]++`, where a missing entry starts at 0. */
  function Bump(occ: map<Link, nat>, l: Link): map<Link, nat>
  {
    if l in occ then occ[l := occ[l] + 1] else occ[l := 1]
  }

  /** Counting one more occurrence keeps the map exact, and a link not yet
      in the map goes last among the distinct links. */
  lemma BumpCounts(occ: map<Link, nat>, keys: seq<Link>, cur: seq<Link>, l: Link)
    requires keys == Distinct(cur) && OccCounts(occ, cur)
    ensures OccCounts(Bump(occ, l), cur + [l])
    ensures Distinct(cur + [l]) == if l in occ then keys else keys + [l]
  {
    assert (cur + [l])[..|cur|] == cur;
    var occ' := Bump(occ, l);
    forall x | x in occ'
      ensures occ'[x] == Count(x, cur + [l])
    {
      if x != l {
        assert x in occ;
      } else if l !in occ {
        CountPositive(l, cur);
      }
    }
  }

  /** The first loop of `distScoreRoutes` over one route: increments the
      count of each of its links, recording newly seen links in order. */
  method CountInto(occ: map<Link, nat>, keys: seq<Link>, ghost all: seq<Link>, links: seq<Link>)
    returns (occ': map<Link, nat>, keys': seq<Link>)
    requires keys == Distinct(all) && OccCounts(occ, all)
    ensures keys' == Distinct(all + links) && OccCounts(occ', all + links)
  {
    occ', keys' := occ, keys;
    assert all + links[..0] == all;
    for j := 0 to |links|
      invariant keys' == Distinct(all + links[..j]) && OccCounts(occ', all + links[..j])
    {
      var l := links[j];
      assert all + links[..j + 1] == all + links[..j] + [l];
      BumpCounts(occ', keys', all + links[..j], l);
      if l !in occ' {
        keys' := keys' + [l];
      }
      occ' := Bump(occ', l);
    }
    assert links[..|links|] == links;
  }

  /** `distScoreRoutes`: counts every link occurrence into a map, then sums
      occ² over the links occurring more than once and counts those
      occurring once. */
  method DistScoreRoutes(routes: seq<Data.Route>) returns (d: real)
    ensures d == DistScore(routes)
    ensures d >= 0.0
    ensures d == 0.0 <==> forall l :: l in AllLinks(routes) ==> Count(l, AllLinks(routes)) == 1
  {
    var occ: map<Link, nat> := map[];
    var keys: seq<Link> := [];
    for i := 0 to |routes|
      invariant keys == Distinct(AllLinks(routes[..i])) && OccCounts(occ, AllLinks(routes[..i]))
    {
      AllLinksStep(routes, i);
      occ, keys := CountInto(occ, keys, AllLinks(routes[..i]), routes[i].links);
    }
    assert routes[..|routes|] == routes;
    var singles, shared := SumCounts(occ, keys, AllLinks(routes));
    singles := if singles == 0 then 1 else singles;
    d := shared as real / singles as real;
    OccurrenceScoreZero(AllLinks(routes));
  }

  /** The second loop of `distScoreRoutes`: counts the links seen once and
      sums the squared counts of the others. */
  method SumCounts(occ: map<Link, nat>, keys: seq<Link>, ghost all: seq<Link>) returns (singles: nat, shared: nat)
    requires keys == Distinct(all) && OccCounts(occ, all)
    ensures singles == Singles(keys, all) && shared == SharedSum(keys, all)
  {
    singles, shared := 0, 0;
    for t := 0 to |keys|
      invariant singles == Singles(keys[..t], all) && shared == SharedSum(keys[..t], all)
    {
      assert keys[..t + 1][..t] == keys[..t];
      var c := occ[keys[t]];
      if c == 1 {
        singles := singles + 1;
      } else {
        CountPositive(keys[t], all);
        shared := shared + c * c;
      }
    }
    assert keys[..|keys|] == keys;
  }

  // ---------------------------------------------------------------------
  // getBestIndividual

  /** The score of an island's best parent. */
  function TopScore(isl: Island): real
    requires |isl.parents| > 0
  {
    isl.parents[0].score
  }

  /** `getBestIndividual`: the island whose first parent has the least
      score; on ties the earliest such island. */
  method GetBestIndividual(islands: seq<Island>) returns (best: int)
    requires |islands| > 0 && forall i :: 0 <= i < |islands| ==> |islands[i].parents| > 0
    ensures 0 <= best < |islands|
    ensures forall i :: 0 <= i < |islands| ==> TopScore(islands[best]) <= TopScore(islands[i])
    ensures forall i :: 0 <= i < best ==> TopScore(islands[best]) < TopScore(islands[i])
  {
    best := 0;
    for i := 0 to |islands|
      invariant 0 <= best < |islands| && best <= i
      invariant forall j :: 0 <= j < i ==> TopScore(islands[best]) <= TopScore(islands[j])
      invariant forall j :: 0 <= j < best ==> TopScore(islands[best]) < TopScore(islands[j])
    {
      if TopScore(islands[best]) > TopScore(islands[i]) {
        best := i;
      }
    }
  }

  // ---------------------------------------------------------------------
  // route_latency

  /** The flow a map holds for `l`; a missing entry reads as 0. */
  function FlowAt(edgeFlow: map<Link, real>, l: Link): real
  {
    if l in edgeFlow then edgeFlow[l] else 0.0
  }

  /** Σ latency(flow) over the links, front to back. */
  function RouteLatencyOf(edgeFlow: map<Link, real>, links: seq<Link>): real
  {
    if |links| == 0 then 0.0
    else RouteLatencyOf(edgeFlow, links[..|links| - 1]) + LinkLatency(links[|links| - 1], FlowAt(edgeFlow, links[|links| - 1]))
  }

  /** A route's latency under any flow is at least its free-flow time, and
      equal to it when no link of the route carries flow. */
  lemma {:induction false} RouteLatencyAtLeastFreeFlow(edgeFlow: map<Link, real>, links: seq<Link>)
    ensures RouteLatencyOf(edgeFlow, links) >= SumB(links)
    ensures (forall l :: l in links ==> FlowAt(edgeFlow, l) == 0.0) ==> RouteLatencyOf(edgeFlow, links) == SumB(links)
  {
    if |links| > 0 {
      var init, l := links[..|links| - 1], links[|links| - 1];
      RouteLatencyAtLeastFreeFlow(edgeFlow, init);
      var x := FlowAt(edgeFlow, l);
      assert x * x >= 0.0;
      MulLeft(LinkA(l), 0.0, x * x);
      assert LinkA(l) * x * x == LinkA(l) * (x * x);
      assert LinkLatency(l, x) >= LinkB(l);
    }
  }

  /** Two maps that read the same everywhere give every route the same
      latency. */
  lemma {:induction false} RouteLatencySameFlows(m1: map<Link, real>, m2: map<Link, real>, links: seq<Link>)
    requires forall l :: FlowAt(m1, l) == FlowAt(m2, l)
    ensures RouteLatencyOf(m1, links) == RouteLatencyOf(m2, links)
  {
    if |links| > 0 {
      RouteLatencySameFlows(m1, m2, links[..|links| - 1]);
    }
  }

  /** `route_latency`: sums latency(edgeFlow[l]) over the route's links;
      reading a missing link inserts a 0 entry, which changes no route's
      latency. */
  method RouteLatency(edgeFlow: map<Link, real>, links: seq<Link>) returns (lat: real, edgeFlow': map<Link, real>)
    ensures lat == RouteLatencyOf(edgeFlow, links)
    ensures forall l :: l in edgeFlow' <==> l in edgeFlow || l in links
    ensures forall l :: l in edgeFlow ==> edgeFlow'[l] == edgeFlow[l]
    ensures forall l :: l in edgeFlow' && l !in edgeFlow ==> edgeFlow'[l] == 0.0
    ensures forall r :: RouteLatencyOf(edgeFlow', r) == RouteLatencyOf(edgeFlow, r)
  {
    lat, edgeFlow' := 0.0, edgeFlow;
    for i := 0 to |links|
      invariant lat == RouteLatencyOf(edgeFlow, links[..i])
      invariant forall l :: l in edgeFlow' <==> l in edgeFlow || l in links[..i]
      invariant forall l :: FlowAt(edgeFlow', l) == FlowAt(edgeFlow, l)
      invariant forall l :: l in edgeFlow ==> edgeFlow'[l] == edgeFlow[l]
      invariant forall l :: l in edgeFlow' && l !in edgeFlow ==> edgeFlow'[l] == 0.0
    {
      var l := links[i];
      if l !in edgeFlow' {
        edgeFlow' := edgeFlow'[l := 0.0];
      }
      assert links[..i + 1][..i] == links[..i];
      lat := lat + LinkLatency(l, edgeFlow'[l]);
    }
    assert links[..|links|] == links;
    forall r
      ensures RouteLatencyOf(edgeFlow', r) == RouteLatencyOf(edgeFlow, r)
    {
      RouteLatencySameFlows(edgeFlow', edgeFlow, r);
    }
  }

  // ---------------------------------------------------------------------
  // determineQueueSize

  const MinimumQueueSize: int := 65565

  /** The double nearest to 0.3, the queue size factor. */
  const QueueSizeFactor: real := 0.299999999999999988897769753748434595763683319091796875

  function MaxOf(xs: seq<int>): (m: int)
    requires |xs| > 0
    ensures exists i :: 0 <= i < |xs| && xs[i] == m
    ensures forall i :: 0 <= i < |xs| ==> xs[i] <= m
  {
    if |xs| == 1 then xs[0]
    else
      var init := xs[..|xs| - 1];
      var m := MaxOf(init);
      assert forall i :: 0 <= i < |init| ==> xs[i] == init[i];
      if xs[|xs| - 1] > m then xs[|xs| - 1] else m
  }

  lemma TruncMonotone(x: real, y: real)
    requires 0.0 <= x <= y
    ensures Trunc(x) <= Trunc(y)
  {
  }

  /** Each route's latency at k agents, truncated to an int. */
  function QueueLatencies(routes: seq<Data.Route>, k: int): (lats: seq<int>)
    ensures |lats| == |routes|
  {
    seq(|routes|, i requires 0 <= i < |routes| => Trunc(Latency(routes[i].a, routes[i].b, k as real)))
  }

  /** `determineQueueSize`: the largest truncated route latency times the
      queue size factor, truncated, but at least the minimum queue size.
      The result covers every route's scaled latency and is either the
      minimum or one of them. */
  function DetermineQueueSize(routes: seq<Data.Route>, k: int): (q: int)
    requires |routes| > 0
    ensures q >= MinimumQueueSize
    ensures forall i :: 0 <= i < |routes| && QueueLatencies(routes, k)[i] >= 0 ==>
              Trunc(QueueLatencies(routes, k)[i] as real * QueueSizeFactor) <= q
    ensures q == MinimumQueueSize ||
            exists i :: 0 <= i < |routes| && q == Trunc(QueueLatencies(routes, k)[i] as real * QueueSizeFactor)
  {
    var lats := QueueLatencies(routes, k);
    var m := MaxOf(lats);
    var scaled := Trunc(m as real * QueueSizeFactor);
    forall i | 0 <= i < |routes| && lats[i] >= 0
      ensures Trunc(lats[i] as real * QueueSizeFactor) <= scaled
    {
      MulLeft(QueueSizeFactor, lats[i] as real, m as real);
      TruncMonotone(lats[i] as real * QueueSizeFactor, m as real * QueueSizeFactor);
    }
    if scaled > MinimumQueueSize then scaled else MinimumQueueSize
  }
}
