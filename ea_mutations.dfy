/** The mutation operators of the evolutionary router. `mutate` draws a
    number of operators from five weights (`update_probs`); the three
    segment operators (randpair, weightpair, capacity) cut a stretch out of
    a route and splice in a new path, `newroute` replaces a whole route,
    and `exchangepart` swaps the stretches of two routes between a
    divergence point and a later shared node. Every route is checked to be
    connected after each operator. All random draws, and the paths the
    randomised Dijkstra search returns, are parameters here. */
module EaMutations {
  import opened Common
  import opened Network
  import Data
  import opened EaData
  import opened EaUtil

  // ---------------------------------------------------------------------
  // Constants of the operator weights

  const ProbRandpair: real := 10.0
  const ProbWeightpair: real := 30.0
  const ProbNewroute: real := 30.0
  const ProbCapacity: real := 50.0
  const ProbExchange: real := 15.0

  /** Iterations during which the newroute weight stays at its base. */
  const NewrouteConstantIterations: int := 10
  /** Iterations after which the newroute weight reaches 1. */
  const NewrouteIterationsToOne: real := 500.0

  /** Iterations that must pass after an exchange before the next one. */
  const GapBetweenExchanges: int := 4
  const MaxProbExchange: int := 40
  /** The single-precision constant `0.2F`, exactly. */
  const MaxProbReachedAfter: real := 0.20000000298023223876953125

  /** Positions of the operators in the weight vector. */
  const Randpair: int := 0
  const Weightpair: int := 1
  const Newroute: int := 2
  const Capacity: int := 3
  const Exchange: int := 4

  // ---------------------------------------------------------------------
  // update_probs

  /** The newroute weight: its base for the first iterations, then falling
      linearly from the base and never below 1. */
  function NewrouteWeight(iteration: int): real
  {
    if iteration > NewrouteConstantIterations then
      if ProbNewroute > 0.0 then
        var linear := (1.0 - ProbNewroute) / NewrouteIterationsToOne * iteration as real + ProbNewroute;
        if linear > 1.0 then linear else 1.0
      else 0.0
    else ProbNewroute
  }

  /** The rise of the exchange weight per stagnating iteration. */
  function ExchangeSlope(convergence: int): real
    requires convergence > 0
  {
    (MaxProbExchange as real - ProbExchange) / (MaxProbReachedAfter * convergence as real)
  }

  /** The uncapped exchange weight: the base plus the slope times the
      stagnation count. */
  function ExchangeRise(stagnation: int, convergence: int): real
    requires convergence > 0
  {
    ExchangeSlope(convergence) * stagnation as real + ProbExchange
  }

  /** The exchange weight: 0 until more than `GapBetweenExchanges`
      iterations have passed since this individual's last exchange, then
      rising with the island's stagnation from the base to at most
      `MaxProbExchange`, truncated to an integer. `convergence` is the
      number of stagnating iterations after which the router stops. */
  function ExchangeWeight(iteration: int, lastExchange: int, stagnation: int, convergence: int): real
    requires convergence > 0
  {
    if iteration - lastExchange > GapBetweenExchanges && ProbExchange > 0.0 then
      ExchangeLevel(stagnation, convergence) as real
    else 0.0
  }

  /** The exchange weight once the gap has passed: the linear rise,
      truncated toward zero and capped at `MaxProbExchange`. */
  function ExchangeLevel(stagnation: int, convergence: int): int
    requires convergence > 0
  {
    var w := Trunc(ExchangeRise(stagnation, convergence));
    if w < MaxProbExchange then w else MaxProbExchange
  }

  /** `update_probs`: the five operator weights of individual `indiv`. */
  method UpdateProbs(iteration: int, lastExchanges: seq<int>, indiv: nat, stagnation: int, convergence: int)
    returns (result: seq<real>)
    requires indiv < |lastExchanges| && convergence > 0
    ensures result == [ProbRandpair, ProbWeightpair, NewrouteWeight(iteration), ProbCapacity,
                       ExchangeWeight(iteration, lastExchanges[indiv], stagnation, convergence)]
  {
    result := [ProbRandpair, ProbWeightpair, ProbNewroute, ProbCapacity, ProbExchange];
    if iteration > NewrouteConstantIterations {
      var weight := 0.0;
      if ProbNewroute > 0.0 {
        weight := (1.0 - ProbNewroute) / NewrouteIterationsToOne * iteration as real + ProbNewroute;
        if weight < 1.0 {
          weight := 1.0;
        }
      }
      result := result[Newroute := weight];
    }
    if iteration - lastExchanges[indiv] > GapBetweenExchanges && ProbExchange > 0.0 {
      var slope := ExchangeSlope(convergence);
      var w := Trunc(slope * stagnation as real + ProbExchange);
      assert w == Trunc(ExchangeRise(stagnation, convergence));
      if MaxProbExchange < w {
        w := MaxProbExchange;
      }
      assert w == ExchangeLevel(stagnation, convergence);
      result := result[Exchange := w as real];
    } else {
      result := result[Exchange := 0.0];
    }
    assert result[Newroute] == NewrouteWeight(iteration);
    assert result[Exchange] == ExchangeWeight(iteration, lastExchanges[indiv], stagnation, convergence);
  }

  /** The newroute weight keeps its base for the first ten iterations,
      then lies in [1, base) and reaches 1 exactly from iteration 500 on. */
  lemma NewrouteWeightBounds(iteration: int)
    ensures iteration <= NewrouteConstantIterations ==> NewrouteWeight(iteration) == ProbNewroute
    ensures iteration > NewrouteConstantIterations ==> 1.0 <= NewrouteWeight(iteration) < ProbNewroute
    ensures NewrouteWeight(iteration) == 1.0 <==> iteration >= 500
  {
  }

  /** The newroute weight never grows with the iteration. */
  lemma NewrouteWeightFalls(i: int, j: int)
    requires i <= j
    ensures NewrouteWeight(j) <= NewrouteWeight(i)
  {
    if i > NewrouteConstantIterations {
      MulLeft(29.0 / 500.0, i as real, j as real);
    }
  }

  /** The slope of the exchange weight is positive. */
  lemma SlopePositive(convergence: int)
    requires convergence > 0
    ensures ExchangeSlope(convergence) > 0.0
  {
    PositiveProduct(MaxProbReachedAfter, convergence as real);
  }

  /** Within the gap after an exchange the weight is 0; after it, with a
      stagnation count of at least 0, it lies between the base 15 and the
      cap 40. */
  lemma ExchangeWeightBounds(iteration: int, lastExchange: int, stagnation: nat, convergence: int)
    requires convergence > 0
    ensures iteration - lastExchange <= GapBetweenExchanges ==>
              ExchangeWeight(iteration, lastExchange, stagnation, convergence) == 0.0
    ensures iteration - lastExchange > GapBetweenExchanges ==>
              ProbExchange <= ExchangeWeight(iteration, lastExchange, stagnation, convergence) <= MaxProbExchange as real
  {
    var slope := ExchangeSlope(convergence);
    SlopePositive(convergence);
    MulLeft(slope, 0.0, stagnation as real);
  }

  /** Truncation toward zero keeps the order. */
  lemma TruncMonotone(x: real, y: real)
    requires x <= y
    ensures Trunc(x) <= Trunc(y)
  {
    if x < 0.0 && y >= 0.0 {
      assert Trunc(x) <= 0 <= Trunc(y);
    }
  }

  /** The uncapped exchange weight grows with the stagnation count. */
  lemma ExchangeRiseGrows(s: int, t: int, convergence: int)
    requires convergence > 0 && s <= t
    ensures ExchangeRise(s, convergence) <= ExchangeRise(t, convergence)
  {
    SlopePositive(convergence);
    MulLeft(ExchangeSlope(convergence), s as real, t as real);
  }

  /** The exchange weight grows with the stagnation count. */
  lemma ExchangeWeightGrows(iteration: int, lastExchange: int, s: int, t: int, convergence: int)
    requires convergence > 0 && s <= t
    ensures ExchangeWeight(iteration, lastExchange, s, convergence) <= ExchangeWeight(iteration, lastExchange, t, convergence)
  {
    ExchangeRiseGrows(s, t, convergence);
    TruncMonotone(ExchangeRise(s, convergence), ExchangeRise(t, convergence));
  }

  /** Once the island has stagnated for a fifth (`0.2F`) of the convergence
      count, the exchange weight is at its cap. */
  lemma ExchangeWeightSaturates(iteration: int, lastExchange: int, stagnation: int, convergence: int)
    requires convergence > 0 && iteration - lastExchange > GapBetweenExchanges
    requires stagnation as real >= MaxProbReachedAfter * convergence as real
    ensures ExchangeWeight(iteration, lastExchange, stagnation, convergence) == MaxProbExchange as real
  {
    var c := MaxProbReachedAfter * convergence as real;
    PositiveProduct(MaxProbReachedAfter, convergence as real);
    SlopePositive(convergence);
    var slope := ExchangeSlope(convergence);
    assert slope * c == MaxProbExchange as real - ProbExchange;
    MulLeft(slope, c, stagnation as real);
    assert ExchangeRise(stagnation, convergence) >= MaxProbExchange as real;
  }

  // ---------------------------------------------------------------------
  // The operator list of mutate

  /** The operator list `mutate` builds from its draws: the draws in order,
      unless an exchange is drawn, which then is the only operator; it
      also records the iteration of that exchange for the individual. */
  method OperatorList(draws: seq<int>, lastExchanges: seq<int>, indiv: nat, iteration: int)
    returns (ops: seq<int>, lastExchanges': seq<int>)
    requires indiv < |lastExchanges|
    ensures Exchange in draws ==> ops == [Exchange] && lastExchanges' == lastExchanges[indiv := iteration]
    ensures Exchange !in draws ==> ops == draws && lastExchanges' == lastExchanges
  {
    ops, lastExchanges' := [], lastExchanges;
    for i := 0 to |draws|
      invariant ops == draws[..i] && Exchange !in ops && lastExchanges' == lastExchanges
    {
      var op := draws[i];
      if op != Exchange {
        ops := ops + [op];
      } else {
        ops := [op];
        lastExchanges' := lastExchanges'[indiv := iteration];
        return;
      }
    }
    assert draws[..|draws|] == draws;
  }

  /** After an exchange the individual's exchange weight is 0 for the next
      `GapBetweenExchanges` iterations. */
  lemma ExchangePause(draws: seq<int>, lastExchanges: seq<int>, lastExchanges': seq<int>, indiv: nat,
                      iteration: int, later: int, stagnation: int, convergence: int)
    requires indiv < |lastExchanges| && convergence > 0 && Exchange in draws
    requires lastExchanges' == lastExchanges[indiv := iteration]
    requires iteration <= later <= iteration + GapBetweenExchanges
    ensures ExchangeWeight(later, lastExchanges'[indiv], stagnation, convergence) == 0.0
  {
  }

  // ---------------------------------------------------------------------
  // check_route_sanity

  /** `check_route_sanity`: true unless some link does not start where the
      previous one ended (where the source ends the process). */
  method CheckRouteSanity(links: seq<Link>) returns (sane: bool)
    requires |links| > 0
    ensures sane <==> Connected(links)
    ensures sane <==> IsWalk(links, links[0].from, links[|links| - 1].to)
  {
    var last := links[0].from;
    for i := 0 to |links|
      invariant Connected(links[..i])
      invariant i == 0 ==> last == links[0].from
      invariant i > 0 ==> last == links[i - 1].to
    {
      if links[i].from != last {
        assert !Connected(links) by {
          assert i > 0 && links[i - 1].to != links[i].from;
        }
        return false;
      }
      assert forall j :: 0 <= j < i ==> links[..i + 1][j] == links[..i][j];
      last := links[i].to;
    }
    assert links[..|links|] == links;
    return true;
  }

  /** The check over all routes of an individual after an operator. */
  method CheckRoutes(routes: seq<Data.Route>) returns (sane: bool)
    requires forall j :: 0 <= j < |routes| ==> |routes[j].links| > 0
    ensures sane <==> forall j :: 0 <= j < |routes| ==> Connected(routes[j].links)
  {
    for j := 0 to |routes|
      invariant forall i :: 0 <= i < j ==> Connected(routes[i].links)
    {
      var ok := CheckRouteSanity(routes[j].links);
      if !ok {
        return false;
      }
    }
    return true;
  }

  // ---------------------------------------------------------------------
  // Choosing the stretch a segment operator replaces

  /** A stretch `[start, stop)` of a route with `size` links, cut out and
      replaced by a path from the source of link `start` to the target of
      link `stop - 1`. */
  predicate InRange(size: int, cut: (int, int))
  {
    0 <= cut.0 < cut.1 <= size
  }

  /** randpair as written: `drawStart` is the uniform draw in
      `[0, size - 2]`, `drawLength` the rounded normal length draw. Gives
      the first and last link to replace, or `None` where the guard skips
      the route. */
  function RandpairCutAsWritten(size: int, drawStart: int, drawLength: int): Option<(int, int)>
  {
    var start := if drawStart < size - 3 then drawStart else size - 3;
    var offset := if 2 < drawLength then drawLength else 2;
    var end := if start + offset < size - 1 then start + offset else size - 1;
    if end <= start then None else Some((start, end))
  }

  /** On a route of two links the only start draw, 0, becomes -1: the
      guard lets it through and link -1 is read and erased. */
  lemma RandpairShortRoute(drawLength: int)
    ensures RandpairCutAsWritten(2, 0, drawLength) == Some((-1, 1))
  {
  }

  /** randpair with routes of fewer than three links left alone. Then the
      cut is never skipped: it covers at least two links, and `stop` is
      one past the last link replaced. */
  function RandpairCut(size: nat, drawStart: nat, drawLength: int): (cut: Option<(int, int)>)
    requires drawStart <= size - 2
    ensures cut.Some? <==> size >= 3
    ensures cut.Some? ==> InRange(size, cut.value) && cut.value.1 - cut.value.0 >= 2
    ensures size >= 3 ==> cut == (var c := RandpairCutAsWritten(size, drawStart, drawLength).value; Some((c.0, c.1 + 1)))
  {
    if size < 3 then None
    else
      var c := RandpairCutAsWritten(size, drawStart, drawLength).value;
      Some((c.0, c.1 + 1))
  }

  /** weightpair: `drawStart` is drawn from the first `size - 2` link
      weights and `drawEnd` from the weights from `drawStart + 2` on (both
      0 for an empty range). The chosen end link is kept; the stretch ends
      just before it. */
  function WeightpairCut(size: nat, drawStart: nat, drawEnd: nat): (cut: Option<(int, int)>)
    requires size >= 2 && (size >= 3 ==> drawStart <= size - 3) && (size < 3 ==> drawStart == 0)
    ensures cut.Some? ==> InRange(size, cut.value) && cut.value.1 - cut.value.0 >= 2 && cut.value.1 < size
    ensures size >= 3 && drawEnd <= size - 3 - drawStart ==> cut.Some?
    ensures size < 3 ==> cut.None?
  {
    var end := drawEnd + drawStart + 2;
    if end >= size || end <= drawStart then None else Some((drawStart, end))
  }

  /** capacity as written: `drawStart` is the weighted link draw plus the
      Gaussian noise truncated toward zero, `drawAdvance` the weighted advance draw plus
      its noise. Gives the start link and the kept end link, or `None`
      where the guard skips the route. */
  function CapacityCutAsWritten(size: int, drawStart: int, drawAdvance: int): Option<(int, int)>
  {
    var start := if drawStart > 0 then drawStart else 0;
    var start' := if start < size - 4 then start else size - 4;
    var advance := if drawAdvance > 4 then drawAdvance else 4;
    var end := if advance + start' < size - 1 then advance + start' else size - 1;
    if end >= size || end <= start' then None else Some((start', end))
  }

  /** On a route of three links every draw gives start -1, which the guard
      lets through: link -1 is read and erased. */
  lemma CapacityShortRoute(drawStart: int, drawAdvance: int)
    ensures CapacityCutAsWritten(3, drawStart, drawAdvance) == Some((-1, 2))
  {
  }

  /** capacity with routes of fewer than four links left alone. Then the
      cut is never skipped and stays inside the route. */
  function CapacityCut(size: nat, drawStart: int, drawAdvance: int): (cut: Option<(int, int)>)
    ensures cut.Some? <==> size >= 4
    ensures cut.Some? ==> InRange(size, cut.value) && cut.value.1 < size && cut.value.1 - cut.value.0 >= 1
    ensures size >= 4 ==> cut == CapacityCutAsWritten(size, drawStart, drawAdvance)
  {
    if size < 4 then None else CapacityCutAsWritten(size, drawStart, drawAdvance)
  }

  // ---------------------------------------------------------------------
  // Replacing a stretch of a route (randpair, weightpair, capacity)

  /** The links with `links[start..stop)` replaced by `path`. */
  function Spliced(links: seq<Link>, start: nat, stop: nat, path: seq<Link>): (r: seq<Link>)
    requires start < stop <= |links|
    ensures |r| == |links| - (stop - start) + |path|
  {
    links[..start] + path + links[stop..]
  }

  /** The route after one segment operator: when the new path has more
      than one link it replaces the stretch, circles are erased and the
      sums recomputed; otherwise the route is unchanged. */
  function Replaced(r: Data.Route, start: nat, stop: nat, path: seq<Link>): Data.Route
    requires start < stop <= |r.links|
  {
    if |path| > 1 then Data.RouteOf(CircleScan(Spliced(r.links, start, stop, path), 0, map[], 0)) else r
  }

  /** A walk with a stretch replaced by a walk between the same two nodes
      is a walk between the same endpoints. */
  lemma SplicedWalk(links: seq<Link>, start: nat, stop: nat, path: seq<Link>, s: int, t: int)
    requires start < stop <= |links| && IsWalk(links, s, t)
    requires IsWalk(path, links[start].from, links[stop - 1].to)
    ensures IsWalk(Spliced(links, start, stop, path), s, t)
  {
    var a, b := links[start].from, links[stop - 1].to;
    assert IsWalk(links[..start], s, a) by {
      if start > 0 {
        WalkSplit(links, s, t, start);
      }
    }
    assert IsWalk(links[stop..], b, t) by {
      if stop < |links| {
        WalkSplit(links, s, t, stop);
      }
    }
    WalkAppend(links[..start], path, s, a, b);
    WalkAppend(links[..start] + path, links[stop..], s, b, t);
  }

  /** Erasing circles keeps a nonempty route nonempty. */
  lemma {:induction false} CircleScanNonEmpty(links: seq<Link>, i: nat, seen: map<int, nat>)
    requires i <= |links|
    requires forall v :: v in seen ==> seen[v] < i
    ensures |links| > 0 ==> |CircleScan(links, i, seen, 0)| > 0
    decreases |links|, |links| - i
  {
    if i < |links| {
      if links[i].from in seen {
        CircleScanNonEmpty(links[..seen[links[i].from]] + links[i..], 0, map[]);
      } else {
        CircleScanNonEmpty(links, i + 1, seen[links[i].from := i]);
      }
    }
  }

  /** A replaced route keeps the endpoints of a walk when the new path
      connects the two ends of the stretch; it holds only links of the old
      route and the path, with sums that agree with its links. */
  lemma ReplacedWalk(r: Data.Route, start: nat, stop: nat, path: seq<Link>, s: int, t: int)
    requires start < stop <= |r.links| && IsWalk(r.links, s, t)
    requires IsWalk(path, r.links[start].from, r.links[stop - 1].to)
    ensures IsWalk(Replaced(r, start, stop, path).links, s, t)
    ensures |path| > 1 ==> Data.Consistent(Replaced(r, start, stop, path))
    ensures forall l :: l in Replaced(r, start, stop, path).links ==> l in r.links || l in path
  {
    if |path| > 1 {
      var spliced := Spliced(r.links, start, stop, path);
      SplicedWalk(r.links, start, stop, path, s, t);
      CircleScanWalk(spliced, 0, map[], 0, s, t);
      forall l | l in spliced
        ensures l in r.links || l in path
      {
        if l in r.links[..start] {
          var u :| 0 <= u < start && r.links[..start][u] == l;
          assert r.links[u] == l;
        } else if l in r.links[stop..] {
          var u :| 0 <= u < |r.links| - stop && r.links[stop..][u] == l;
          assert r.links[stop + u] == l;
        }
      }
    }
  }

  /** The splice of the segment operators: erase the stretch, insert the
      new path, erase circles, recompute the sums (when the new path has
      more than one link). */
  method ReplaceStretch(r: Data.Route, start: nat, stop: nat, path: seq<Link>) returns (r': Data.Route)
    requires start < stop <= |r.links|
    ensures r' == Replaced(r, start, stop, path)
  {
    r' := r;
    if |path| > 1 {
      var links := r.links[..start] + r.links[stop..];
      links := links[..start] + path + links[start..];
      assert links == Spliced(r.links, start, stop, path) by {
        assert (r.links[..start] + r.links[stop..])[..start] == r.links[..start];
        assert (r.links[..start] + r.links[stop..])[start..] == r.links[stop..];
      }
      links := DeleteCircleLoop(links, 0);
      r' := Data.CalculateParams(links);
    }
  }

  /** One route chosen by a segment operator: its index, the stretch the
      draws selected (`None` where the operator skips the route) and the
      path the randomised search returned for it. */
  datatype Edit = Edit(route: nat, cut: Option<(int, int)>, path: seq<Link>)

  /** The edits are in increasing route order (the operator iterates a
      `std::set` of drawn routes) and their stretches lie inside their
      routes. */
  predicate EditsFit(routes: seq<Data.Route>, edits: seq<Edit>)
  {
    (forall k :: 0 <= k < |edits| ==> edits[k].route < |routes|) &&
    (forall k, m :: 0 <= k < m < |edits| ==> edits[k].route < edits[m].route) &&
    (forall k :: 0 <= k < |edits| && edits[k].cut.Some? ==>
                   InRange(|routes[edits[k].route].links|, edits[k].cut.value))
  }

  /** The edit for route `j`, if any: the last one naming it. */
  function EditOf(edits: seq<Edit>, j: nat): (e: Option<Edit>)
    ensures e.Some? ==> e.value in edits && e.value.route == j
    ensures e.None? <==> forall k :: 0 <= k < |edits| ==> edits[k].route != j
  {
    if |edits| == 0 then None
    else if edits[|edits| - 1].route == j then Some(edits[|edits| - 1])
    else EditOf(edits[..|edits| - 1], j)
  }

  /** Route `j` after the edits. */
  function Edited(routes: seq<Data.Route>, edits: seq<Edit>, j: nat): Data.Route
    requires j < |routes| && EditsFit(routes, edits)
  {
    match EditOf(edits, j)
    case None => routes[j]
    case Some(e) =>
      if e.cut.None? then routes[j] else Replaced(routes[j], e.cut.value.0, e.cut.value.1, e.path)
  }

  /** One more edit changes only the route it names, which no earlier edit
      touched. */
  lemma EditedStep(routes: seq<Data.Route>, edits: seq<Edit>, k: nat)
    requires EditsFit(routes, edits) && k < |edits|
    ensures EditsFit(routes, edits[..k]) && EditsFit(routes, edits[..k + 1])
    ensures Edited(routes, edits[..k], edits[k].route) == routes[edits[k].route]
    ensures edits[k].cut.None? ==> Edited(routes, edits[..k + 1], edits[k].route) == routes[edits[k].route]
    ensures edits[k].cut.Some? ==>
              Edited(routes, edits[..k + 1], edits[k].route) ==
              Replaced(routes[edits[k].route], edits[k].cut.value.0, edits[k].cut.value.1, edits[k].path)
    ensures forall j :: 0 <= j < |routes| && j != edits[k].route ==>
              Edited(routes, edits[..k + 1], j) == Edited(routes, edits[..k], j)
  {
    var e := edits[k];
    assert edits[..k + 1][..k] == edits[..k];
    assert EditOf(edits[..k + 1], e.route) == Some(e);
    assert EditOf(edits[..k], e.route) == None;
  }

  /** The body of randpair, weightpair and capacity once their draws are
      made: each chosen route with a stretch gets it replaced. */
  method SegmentMutation(indiv: Individual, edits: seq<Edit>) returns (indiv': Individual)
    requires EditsFit(indiv.routes, edits)
    ensures indiv' == indiv.(routes := indiv'.routes) && |indiv'.routes| == |indiv.routes|
    ensures forall j :: 0 <= j < |indiv.routes| ==> indiv'.routes[j] == Edited(indiv.routes, edits, j)
  {
    var routes := indiv.routes;
    for k := 0 to |edits|
      invariant |routes| == |indiv.routes| && EditsFit(indiv.routes, edits[..k])
      invariant forall j :: 0 <= j < |routes| ==> routes[j] == Edited(indiv.routes, edits[..k], j)
    {
      var e := edits[k];
      EditedStep(indiv.routes, edits, k);
      assert routes[e.route] == indiv.routes[e.route];
      if e.cut.Some? {
        var (start, stop) := e.cut.value;
        assert InRange(|indiv.routes[e.route].links|, e.cut.value);
        var r := ReplaceStretch(routes[e.route], start, stop, e.path);
        routes := routes[e.route := r];
      }
    }
    assert edits[..|edits|] == edits;
    indiv' := indiv.(routes := routes);
  }

  /** All routes of an individual lead from `o` to `d`. */
  predicate AllWalks(routes: seq<Data.Route>, o: int, d: int)
  {
    forall j :: 0 <= j < |routes| ==> IsWalk(routes[j].links, o, d)
  }

  /** Every path reconnects the two ends of the stretch it replaces. */
  predicate PathsReconnect(routes: seq<Data.Route>, edits: seq<Edit>)
    requires EditsFit(routes, edits)
  {
    forall k :: 0 <= k < |edits| && edits[k].cut.Some? ==>
      var links := routes[edits[k].route].links;
      IsWalk(edits[k].path, links[edits[k].cut.value.0].from, links[edits[k].cut.value.1 - 1].to)
  }

  /** A segment operator keeps every route a walk from the origin to the
      destination, so the sanity check after it passes. */
  lemma SegmentMutationKeepsWalks(routes: seq<Data.Route>, edits: seq<Edit>, o: int, d: int)
    requires EditsFit(routes, edits) && PathsReconnect(routes, edits) && AllWalks(routes, o, d)
    ensures forall j :: 0 <= j < |routes| ==> IsWalk(Edited(routes, edits, j).links, o, d)
  {
    forall j | 0 <= j < |routes|
      ensures IsWalk(Edited(routes, edits, j).links, o, d)
    {
      var e := EditOf(edits, j);
      if e.Some? && e.value.cut.Some? {
        var k :| 0 <= k < |edits| && edits[k] == e.value;
        ReplacedWalk(routes[j], e.value.cut.value.0, e.value.cut.value.1, e.value.path, o, d);
      }
    }
  }

  // ---------------------------------------------------------------------
  // newroute

  /** `mutation_newroute`: route `which` (drawn by inverse flow) becomes
      the path the randomised search returned, with its sums computed. */
  method NewRoute(indiv: Individual, which: nat, path: seq<Link>) returns (indiv': Individual)
    requires which < |indiv.routes|
    ensures indiv' == indiv.(routes := indiv.routes[which := Data.RouteOf(path)])
  {
    var r := Data.CalculateParams(path);
    indiv' := indiv.(routes := indiv.routes[which := r]);
  }

  /** newroute keeps every route a walk from the origin to the destination
      when the new path is one, and every route consistent with its sums. */
  lemma NewRouteKeepsWalks(routes: seq<Data.Route>, which: nat, path: seq<Link>, o: int, d: int)
    requires which < |routes| && AllWalks(routes, o, d) && IsWalk(path, o, d)
    ensures AllWalks(routes[which := Data.RouteOf(path)], o, d)
    ensures Data.Consistent(routes[which := Data.RouteOf(path)][which])
  {
  }

  // ---------------------------------------------------------------------
  // exchangepart

  /** `delete_circle` applied to a route in place: the links lose their
      circles, the cached sums are left as they were. */
  function Cleaned(r: Data.Route): (c: Data.Route)
    ensures c.a == r.a && c.b == r.b
    ensures |r.links| > 0 ==> |c.links| > 0
    ensures forall s, t :: IsWalk(r.links, s, t) ==> IsWalk(c.links, s, t)
  {
    CircleScanNonEmpty(r.links, 0, map[]);
    forall s, t | IsWalk(r.links, s, t)
      ensures IsWalk(CircleScan(r.links, 0, map[], 0), s, t)
    {
      CircleScanWalk(r.links, 0, map[], 0, s, t);
    }
    r.(links := CircleScan(r.links, 0, map[], 0))
  }

  /** A shared node is a divergence point when both routes go on after it
      (from its first occurrence) and they go on to different nodes. */
  predicate Diverges(nodes1: seq<int>, nodes2: seq<int>, v: int)
  {
    var i1, i2 := FindInVector(nodes1, v).1, FindInVector(nodes2, v).1;
    i1 + 1 < |nodes1| && i2 + 1 < |nodes2| && nodes1[i1 + 1] != nodes2[i2 + 1]
  }

  /** The shared nodes that are divergence points, in order. */
  function Divergences(shared: seq<int>, nodes1: seq<int>, nodes2: seq<int>): (ds: seq<int>)
    ensures forall v :: v in ds <==> v in shared && Diverges(nodes1, nodes2, v)
  {
    if |shared| == 0 then []
    else
      var v := shared[|shared| - 1];
      assert shared == shared[..|shared| - 1] + [v];
      Divergences(shared[..|shared| - 1], nodes1, nodes2) + (if Diverges(nodes1, nodes2, v) then [v] else [])
  }

  /** A shared node other than `dp` is a goto point when both routes reach
      it (first occurrence) after they reach `dp` (positions `i1`, `i2`). */
  predicate Follows(nodes1: seq<int>, nodes2: seq<int>, dp: int, i1: int, i2: int, v: int)
  {
    v != dp && FindInVector(nodes1, v).1 > i1 && FindInVector(nodes2, v).1 > i2
  }

  /** The shared nodes that are goto points, in order. */
  function Gotos(shared: seq<int>, nodes1: seq<int>, nodes2: seq<int>, dp: int, i1: int, i2: int): (gs: seq<int>)
    ensures forall v :: v in gs <==> v in shared && Follows(nodes1, nodes2, dp, i1, i2, v)
  {
    if |shared| == 0 then []
    else
      var v := shared[|shared| - 1];
      assert shared == shared[..|shared| - 1] + [v];
      Gotos(shared[..|shared| - 1], nodes1, nodes2, dp, i1, i2) + (if Follows(nodes1, nodes2, dp, i1, i2, v) then [v] else [])
  }

  /** The position of the first link leaving `v`, or -1. */
  function FirstFrom(links: seq<Link>, v: int): (i: int)
    ensures -1 <= i < |links|
    ensures i >= 0 ==> links[i].from == v
    ensures forall q :: 0 <= q < |links| && (i < 0 || q < i) ==> links[q].from != v
  {
    if |links| == 0 then -1
    else if links[0].from == v then 0
    else
      var i := FirstFrom(links[1..], v);
      if i < 0 then -1 else i + 1
  }

  /** The position of the first link entering `v`, or -1. */
  function FirstTo(links: seq<Link>, v: int): (i: int)
    ensures -1 <= i < |links|
    ensures i >= 0 ==> links[i].to == v
    ensures forall q :: 0 <= q < |links| && (i < 0 || q < i) ==> links[q].to != v
  {
    if |links| == 0 then -1
    else if links[0].to == v then 0
    else
      var i := FirstTo(links[1..], v);
      if i < 0 then -1 else i + 1
  }

  /** What the exchange decides for two cleaned routes and two draws (each
      taken modulo the number of candidates): no divergence point, no goto
      point, links not found, or the four link positions to swap between.
      `l1..l3` is route 1's part from `dp` to `goto`, `l2..l4` route 2's. */
  datatype Plan = NoDivergence
                | NoGoto(dp: int)
                | LinksMissing(dp: int, goto: int)
                | Swap(dp: int, goto: int, l1: nat, l2: nat, l3: nat, l4: nat)

  /** The plan once `dp` and `goto` are chosen: the first links leaving
      `dp` and entering `goto` in each route. */
  function LinkPlan(links1: seq<Link>, links2: seq<Link>, dp: int, goto: int): (p: Plan)
    ensures p.Swap? || p.LinksMissing?
    ensures p.Swap? ==> p.l1 < |links1| && p.l3 < |links1| && p.l2 < |links2| && p.l4 < |links2|
    ensures p.Swap? ==> p.l1 <= p.l3 + 1 && p.l2 <= p.l4 + 1
    ensures p.Swap? ==> links1[p.l1].from == dp == links2[p.l2].from
    ensures p.Swap? ==> links1[p.l3].to == goto == links2[p.l4].to
    ensures p.dp == dp && p.goto == goto
  {
    var l1, l2 := FirstFrom(links1, dp), FirstFrom(links2, dp);
    var l3, l4 := FirstTo(links1, goto), FirstTo(links2, goto);
    if l1 < 0 || l2 < 0 || l3 < 0 || l4 < 0 || l3 + 1 < l1 || l4 + 1 < l2 then LinksMissing(dp, goto)
    else Swap(dp, goto, l1, l2, l3, l4)
  }

  function ExchangePlan(links1: seq<Link>, links2: seq<Link>, dpDraw: nat, gotoDraw: nat): (p: Plan)
    requires |links1| > 0 && |links2| > 0
    ensures p.Swap? ==> p.l1 < |links1| && p.l3 < |links1| && p.l2 < |links2| && p.l4 < |links2|
    ensures p.Swap? ==> p.l1 <= p.l3 + 1 && p.l2 <= p.l4 + 1
    ensures p.Swap? ==> links1[p.l1].from == p.dp == links2[p.l2].from
    ensures p.Swap? ==> links1[p.l3].to == p.goto == links2[p.l4].to
  {
    var nodes1, nodes2 := Data.ToNodeVec(links1), Data.ToNodeVec(links2);
    var shared := Intersection(nodes1, nodes2);
    var divergences := Divergences(shared, nodes1, nodes2);
    if |divergences| == 0 then NoDivergence
    else
      var dp := divergences[dpDraw % |divergences|];
      var gotos := Gotos(shared, nodes1, nodes2, dp, FindInVector(nodes1, dp).1, FindInVector(nodes2, dp).1);
      if |gotos| == 0 then NoGoto(dp)
      else
        LinkPlan(links1, links2, dp, gotos[gotoDraw % |gotos|])
  }

  /** The two routes' links after the swap: route 1's part `l1..l3` and
      route 2's part `l2..l4` trade places. */
  function Swapped(links1: seq<Link>, links2: seq<Link>, p: Plan): (r: (seq<Link>, seq<Link>))
    requires p.Swap? && p.l1 <= p.l3 + 1 <= |links1| && p.l2 <= p.l4 + 1 <= |links2|
    ensures |r.0| + |r.1| == |links1| + |links2|
  {
    (links1[..p.l1] + links2[p.l2..p.l4 + 1] + links1[p.l3 + 1..],
     links2[..p.l2] + links1[p.l1..p.l3 + 1] + links2[p.l4 + 1..])
  }

  /** `mutation_exchangepart` on the routes, once two distinct routes are
      drawn: both lose their circles and, when the plan finds a part to
      swap, trade it and get their sums recomputed. */
  function ExchangeRoutes(routes: seq<Data.Route>, i: nat, j: nat, dpDraw: nat, gotoDraw: nat): (rs: seq<Data.Route>)
    requires i < |routes| && j < |routes| && i != j
    requires |routes[i].links| > 0 && |routes[j].links| > 0
    ensures |rs| == |routes|
    ensures forall k :: 0 <= k < |routes| && k != i && k != j ==> rs[k] == routes[k]
  {
    var c1, c2 := Cleaned(routes[i]), Cleaned(routes[j]);
    var p := ExchangePlan(c1.links, c2.links, dpDraw, gotoDraw);
    if p.Swap? then
      var (s1, s2) := Swapped(c1.links, c2.links, p);
      routes[i := Data.RouteOf(s1)][j := Data.RouteOf(s2)]
    else routes[i := c1][j := c2]
  }

  /** The two routes the exchange rewrites. */
  lemma ExchangedAt(routes: seq<Data.Route>, i: nat, j: nat, dpDraw: nat, gotoDraw: nat)
    requires i < |routes| && j < |routes| && i != j
    requires |routes[i].links| > 0 && |routes[j].links| > 0
    ensures var c1, c2 := Cleaned(routes[i]), Cleaned(routes[j]);
            var p := ExchangePlan(c1.links, c2.links, dpDraw, gotoDraw);
            var rs := ExchangeRoutes(routes, i, j, dpDraw, gotoDraw);
            if p.Swap? then rs[i] == Data.RouteOf(Swapped(c1.links, c2.links, p).0) &&
                            rs[j] == Data.RouteOf(Swapped(c1.links, c2.links, p).1)
            else rs[i] == c1 && rs[j] == c2
  {
  }

  /** When both routes are walks, the positions `FirstFrom`/`FirstTo` find
      are those of `dp` and `goto` in the node vectors. */
  lemma NodePositions(links: seq<Link>, v: int)
    requires |links| > 0 && Connected(links)
    ensures var i := FindInVector(Data.ToNodeVec(links), v).1;
            0 <= i < |links| ==> FirstFrom(links, v) == i
    ensures var i := FindInVector(Data.ToNodeVec(links), v).1;
            0 < i ==> FirstTo(links, v) == i - 1
  {
    var nodes := Data.ToNodeVec(links);
    Data.NodeVecOfWalk(links, links[0].from, links[|links| - 1].to);
    var i := FindInVector(nodes, v).1;
    if 0 <= i < |links| {
      var f := FirstFrom(links, v);
      assert links[i].from == v;
      assert f >= 0 && f <= i;
      assert nodes[f] == v;
    }
    if 0 < i {
      var f := FirstTo(links, v);
      assert links[i - 1].to == v;
      assert f >= 0 && f <= i - 1;
      assert nodes[f + 1] == v;
    }
  }

  /** On connected routes the links the exchange looks for are always found
      (the error path is never taken), and route 1's part starts at `dp`,
      ends at `goto` and is not empty; so is route 2's. */
  lemma ExchangeFindsLinks(links1: seq<Link>, links2: seq<Link>, dpDraw: nat, gotoDraw: nat)
    requires |links1| > 0 && |links2| > 0 && Connected(links1) && Connected(links2)
    ensures !ExchangePlan(links1, links2, dpDraw, gotoDraw).LinksMissing?
    ensures var p := ExchangePlan(links1, links2, dpDraw, gotoDraw);
            p.Swap? ==> p.dp != p.goto && p.l1 <= p.l3 && p.l2 <= p.l4
  {
    var nodes1, nodes2 := Data.ToNodeVec(links1), Data.ToNodeVec(links2);
    var shared := Intersection(nodes1, nodes2);
    var divergences := Divergences(shared, nodes1, nodes2);
    if |divergences| > 0 {
      var dp := divergences[dpDraw % |divergences|];
      var i1, i2 := FindInVector(nodes1, dp).1, FindInVector(nodes2, dp).1;
      var gotos := Gotos(shared, nodes1, nodes2, dp, i1, i2);
      assert dp in divergences;
      assert Diverges(nodes1, nodes2, dp);
      assert dp in multiset(shared);
      assert dp in nodes1 && dp in nodes2;
      NodePositions(links1, dp);
      NodePositions(links2, dp);
      if |gotos| > 0 {
        var goto := gotos[gotoDraw % |gotos|];
        assert goto in gotos;
        assert goto in multiset(shared);
        assert goto in nodes1 && goto in nodes2;
        NodePositions(links1, goto);
        NodePositions(links2, goto);
      }
    }
  }

  /** Trading the part `l1..l3` of one walk from `o` to `d` for the part
      `l2..l4` of another, where both parts lead from the same node to the
      same node, gives two walks from `o` to `d`. */
  lemma SwapPiecesWalk(links1: seq<Link>, links2: seq<Link>, l1: nat, l2: nat, l3: nat, l4: nat, o: int, d: int)
    requires IsWalk(links1, o, d) && IsWalk(links2, o, d)
    requires l1 <= l3 < |links1| && l2 <= l4 < |links2|
    requires links1[l1].from == links2[l2].from && links1[l3].to == links2[l4].to
    ensures IsWalk(links1[..l1] + links2[l2..l4 + 1] + links1[l3 + 1..], o, d)
    ensures IsWalk(links2[..l2] + links1[l1..l3 + 1] + links2[l4 + 1..], o, d)
  {
    var dp, goto := links1[l1].from, links1[l3].to;
    WalkPieces(links1, o, d, l1, l3);
    WalkPieces(links2, o, d, l2, l4);
    WalkAppend(links1[..l1], links2[l2..l4 + 1], o, dp, goto);
    WalkAppend(links1[..l1] + links2[l2..l4 + 1], links1[l3 + 1..], o, goto, d);
    WalkAppend(links2[..l2], links1[l1..l3 + 1], o, dp, goto);
    WalkAppend(links2[..l2] + links1[l1..l3 + 1], links2[l4 + 1..], o, goto, d);
  }

  /** Trading two parts keeps, over both routes together, exactly the
      links they had. */
  lemma SwapPiecesLinks(links1: seq<Link>, links2: seq<Link>, l1: nat, l2: nat, l3: nat, l4: nat)
    requires l1 <= l3 + 1 <= |links1| && l2 <= l4 + 1 <= |links2|
    ensures multiset(links1[..l1] + links2[l2..l4 + 1] + links1[l3 + 1..]) +
            multiset(links2[..l2] + links1[l1..l3 + 1] + links2[l4 + 1..]) ==
            multiset(links1) + multiset(links2)
  {
    assert links1 == links1[..l1] + links1[l1..l3 + 1] + links1[l3 + 1..];
    assert links2 == links2[..l2] + links2[l2..l4 + 1] + links2[l4 + 1..];
  }

  /** Swapping parts between two walks from `o` to `d` gives two walks from
      `o` to `d`, and the two routes together keep exactly their links. */
  lemma SwapKeepsWalks(links1: seq<Link>, links2: seq<Link>, dpDraw: nat, gotoDraw: nat, o: int, d: int)
    requires IsWalk(links1, o, d) && IsWalk(links2, o, d) && |links1| > 0 && |links2| > 0
    requires ExchangePlan(links1, links2, dpDraw, gotoDraw).Swap?
    ensures var r := Swapped(links1, links2, ExchangePlan(links1, links2, dpDraw, gotoDraw));
            IsWalk(r.0, o, d) && IsWalk(r.1, o, d) &&
            multiset(r.0) + multiset(r.1) == multiset(links1) + multiset(links2)
  {
    var p := ExchangePlan(links1, links2, dpDraw, gotoDraw);
    ExchangeFindsLinks(links1, links2, dpDraw, gotoDraw);
    SwapPiecesWalk(links1, links2, p.l1, p.l2, p.l3, p.l4, o, d);
    SwapPiecesLinks(links1, links2, p.l1, p.l2, p.l3, p.l4);
  }

  /** A walk cut before position `i` and after position `j` is three walks
      meeting at the source of link `i` and the target of link `j`. */
  lemma WalkPieces(links: seq<Link>, s: int, t: int, i: nat, j: nat)
    requires IsWalk(links, s, t) && i <= j < |links|
    ensures IsWalk(links[..i], s, links[i].from)
    ensures IsWalk(links[i..j + 1], links[i].from, links[j].to)
    ensures IsWalk(links[j + 1..], links[j].to, t)
  {
    if i > 0 {
      WalkSplit(links, s, t, i);
    }
    if j + 1 < |links| {
      WalkSplit(links, s, t, j + 1);
    }
    var mid := links[i..j + 1];
    assert mid[0] == links[i] && mid[|mid| - 1] == links[j];
    forall q | 0 <= q < |mid| - 1
      ensures mid[q].to == mid[q + 1].from
    {
      assert mid[q] == links[i + q] && mid[q + 1] == links[i + q + 1];
    }
  }

  /** The exchange keeps every route a walk from the origin to the
      destination, and every route whose sums were recomputed agrees with
      its links. */
  lemma ExchangeKeepsWalks(routes: seq<Data.Route>, i: nat, j: nat, dpDraw: nat, gotoDraw: nat, o: int, d: int)
    requires i < |routes| && j < |routes| && i != j
    requires |routes[i].links| > 0 && |routes[j].links| > 0
    requires AllWalks(routes, o, d)
    ensures AllWalks(ExchangeRoutes(routes, i, j, dpDraw, gotoDraw), o, d)
    ensures var p := ExchangePlan(Cleaned(routes[i]).links, Cleaned(routes[j]).links, dpDraw, gotoDraw);
            p.Swap? ==> Data.Consistent(ExchangeRoutes(routes, i, j, dpDraw, gotoDraw)[i]) &&
                        Data.Consistent(ExchangeRoutes(routes, i, j, dpDraw, gotoDraw)[j])
  {
    var rs := ExchangeRoutes(routes, i, j, dpDraw, gotoDraw);
    var c1, c2 := Cleaned(routes[i]), Cleaned(routes[j]);
    var p := ExchangePlan(c1.links, c2.links, dpDraw, gotoDraw);
    ExchangedAt(routes, i, j, dpDraw, gotoDraw);
    if p.Swap? {
      SwapKeepsWalks(c1.links, c2.links, dpDraw, gotoDraw, o, d);
    }
    forall k | 0 <= k < |rs|
      ensures IsWalk(rs[k].links, o, d)
    {
      if k != i && k != j {
        assert rs[k] == routes[k];
      }
    }
  }

  /** The loop collecting the divergence points. */
  method DivergencePoints(shared: seq<int>, nodes1: seq<int>, nodes2: seq<int>) returns (ds: seq<int>)
    ensures ds == Divergences(shared, nodes1, nodes2)
  {
    ds := [];
    for k := 0 to |shared|
      invariant ds == Divergences(shared[..k], nodes1, nodes2)
    {
      assert shared[..k + 1][..k] == shared[..k];
      var v := shared[k];
      if Diverges(nodes1, nodes2, v) {
        ds := ds + [v];
      }
    }
    assert shared[..|shared|] == shared;
  }

  /** The loop collecting the goto points. */
  method GotoPoints(shared: seq<int>, nodes1: seq<int>, nodes2: seq<int>, dp: int, i1: int, i2: int) returns (gs: seq<int>)
    ensures gs == Gotos(shared, nodes1, nodes2, dp, i1, i2)
  {
    gs := [];
    for k := 0 to |shared|
      invariant gs == Gotos(shared[..k], nodes1, nodes2, dp, i1, i2)
    {
      assert shared[..k + 1][..k] == shared[..k];
      var v := shared[k];
      if Follows(nodes1, nodes2, dp, i1, i2, v) {
        gs := gs + [v];
      }
    }
    assert shared[..|shared|] == shared;
  }

  /** The loop finding the first link leaving `v`. */
  method LinkFrom(links: seq<Link>, v: int) returns (i: int)
    ensures i == FirstFrom(links, v)
  {
    i := -1;
    var q := 0;
    while q < |links|
      invariant 0 <= q <= |links|
      invariant forall u :: 0 <= u < q ==> links[u].from != v
    {
      if links[q].from == v {
        i := q;
        FirstIsUnique(links, v, q, true);
        return;
      }
      q := q + 1;
    }
    FirstIsUnique(links, v, -1, true);
  }

  /** The loop finding the first link entering `v`. */
  method LinkTo(links: seq<Link>, v: int) returns (i: int)
    ensures i == FirstTo(links, v)
  {
    i := -1;
    var q := 0;
    while q < |links|
      invariant 0 <= q <= |links|
      invariant forall u :: 0 <= u < q ==> links[u].to != v
    {
      if links[q].to == v {
        i := q;
        FirstIsUnique(links, v, q, false);
        return;
      }
      q := q + 1;
    }
    FirstIsUnique(links, v, -1, false);
  }

  /** `FirstFrom` (or, with `leaving` false, `FirstTo`) is the only
      position with its defining property. */
  lemma FirstIsUnique(links: seq<Link>, v: int, i: int, leaving: bool)
    requires -1 <= i < |links|
    requires i >= 0 ==> (if leaving then links[i].from else links[i].to) == v
    requires forall q :: 0 <= q < |links| && (i < 0 || q < i) ==> (if leaving then links[q].from else links[q].to) != v
    ensures leaving ==> i == FirstFrom(links, v)
    ensures !leaving ==> i == FirstTo(links, v)
  {
  }

  /** The search of the exchange: node vectors, shared nodes, divergence
      and goto points, and the four link positions. */
  method PlanExchange(links1: seq<Link>, links2: seq<Link>, dpDraw: nat, gotoDraw: nat) returns (p: Plan)
    requires |links1| > 0 && |links2| > 0
    ensures p == ExchangePlan(links1, links2, dpDraw, gotoDraw)
  {
    var nodes1, nodes2 := Data.ToNodeVec(links1), Data.ToNodeVec(links2);
    var shared := Intersection(nodes1, nodes2);
    var divergences := DivergencePoints(shared, nodes1, nodes2);
    if |divergences| == 0 {
      return NoDivergence;
    }
    var dp := divergences[dpDraw % |divergences|];
    var gotos := GotoPoints(shared, nodes1, nodes2, dp, FindInVector(nodes1, dp).1, FindInVector(nodes2, dp).1);
    if |gotos| == 0 {
      return NoGoto(dp);
    }
    var goto := gotos[gotoDraw % |gotos|];
    var l1 := LinkFrom(links1, dp);
    var l2 := LinkFrom(links2, dp);
    var l3 := LinkTo(links1, goto);
    var l4 := LinkTo(links2, goto);
    if l1 < 0 || l2 < 0 || l3 < 0 || l4 < 0 || l3 + 1 < l1 || l4 + 1 < l2 {
      return LinksMissing(dp, goto);
    }
    p := Swap(dp, goto, l1, l2, l3, l4);
  }

  /** The erase/insert pairs of the exchange: route 1's part is saved, erased
      and replaced by route 2's part, which is then erased from route 2 and
      replaced by the saved part. */
  method SwapParts(links1: seq<Link>, links2: seq<Link>, p: Plan) returns (s1: seq<Link>, s2: seq<Link>)
    requires p.Swap? && p.l1 <= p.l3 + 1 <= |links1| && p.l2 <= p.l4 + 1 <= |links2|
    ensures (s1, s2) == Swapped(links1, links2, p)
  {
    var part1 := links1[p.l1..p.l3 + 1];
    s1 := links1[..p.l1] + links1[p.l3 + 1..];
    assert s1[..p.l1] == links1[..p.l1] && s1[p.l1..] == links1[p.l3 + 1..];
    s1 := s1[..p.l1] + links2[p.l2..p.l4 + 1] + s1[p.l1..];
    s2 := links2[..p.l2] + links2[p.l4 + 1..];
    assert s2[..p.l2] == links2[..p.l2] && s2[p.l2..] == links2[p.l4 + 1..];
    s2 := s2[..p.l2] + part1 + s2[p.l2..];
  }

  /** `mutation_exchangepart` once its draws are made: with more than one
      route, the two (distinct) drawn routes lose their circles and, when
      the search finds a part to swap, trade it and have their sums
      recomputed. The plan (`None` with a single route) is returned. */
  method ExchangePart(indiv: Individual, route1: nat, route2: nat, dpDraw: nat, gotoDraw: nat)
    returns (indiv': Individual, plan: Option<Plan>)
    requires |indiv.routes| > 1 ==> route1 < |indiv.routes| && route2 < |indiv.routes| && route1 != route2
    requires |indiv.routes| > 1 ==> |indiv.routes[route1].links| > 0 && |indiv.routes[route2].links| > 0
    ensures |indiv.routes| <= 1 ==> indiv' == indiv && plan.None?
    ensures |indiv.routes| > 1 ==>
              plan == Some(ExchangePlan(Cleaned(indiv.routes[route1]).links, Cleaned(indiv.routes[route2]).links, dpDraw, gotoDraw)) &&
              indiv' == indiv.(routes := ExchangeRoutes(indiv.routes, route1, route2, dpDraw, gotoDraw))
  {
    indiv', plan := indiv, None;
    if |indiv.routes| > 1 {
      var r1, r2 := indiv.routes[route1], indiv.routes[route2];
      var links1 := DeleteCircleLoop(r1.links, 0);
      var links2 := DeleteCircleLoop(r2.links, 0);
      assert links1 == Cleaned(r1).links && links2 == Cleaned(r2).links;
      var p := PlanExchange(links1, links2, dpDraw, gotoDraw);
      plan := Some(p);
      if p.Swap? {
        var s1, s2 := SwapParts(links1, links2, p);
        var n1 := Data.CalculateParams(s1);
        var n2 := Data.CalculateParams(s2);
        indiv' := indiv.(routes := indiv.routes[route1 := n1][route2 := n2]);
      } else {
        indiv' := indiv.(routes := indiv.routes[route1 := r1.(links := links1)][route2 := r2.(links := links2)]);
      }
    }
  }
}
