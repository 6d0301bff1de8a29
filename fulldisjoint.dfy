/** The fully disjoint driver (`ssotd_fulldisjoint`): one bounded search
    from the origin with every reference link inactive, so that an
    alternative shares no link with the reference route, and no shared
    costs anywhere. The optimization option is ignored. */
module FullDisjoint {
  import opened Common
  import opened Network
  import opened Elements
  import Pareto
  import Psych
  import Data
  import ShortestPaths
  import opened SsotdShared

  /** `lower_bound_score_dijkstra` of this file: the element completed by
      the backward bests at `v`, with nothing shared; when the best usage
      is positive, the score, and as relaxation value the score again at
      the destination and -1 elsewhere; otherwise (HUGE_VAL, -1). */
  function DijkstraBound(ctx: RefCtx, to: int, bestAs: seq<XReal>, bestBs: seq<XReal>): (bound: Pareto.Bound)
    ensures forall par, v :: bound(par, v).1 == -1.0 || (v == to && bound(par, v).0 == Fin(bound(par, v).1))
    ensures forall par, v :: bound(par, v).0.PosInf? ==> bound(par, v).1 == -1.0
  {
    (par: Elem, v: int) =>
      var s := ScoreAgainst(ctx, XPlus(Fin(par.agg.a), BestAt(bestAs, v)), XPlus(Fin(par.agg.b), BestAt(bestBs, v)),
                            0.0, 0.0, ctx.k);
      if s.usage > 0 then (Fin(s.score), if to == v then s.score else -1.0) else (PosInf, -1.0)
  }

  /** The costs an element at the destination is scored with: its sums,
      nothing shared. */
  function ElemCosts(e: Elem, orig: Data.Route): Psych.Costs
  {
    Psych.Costs(e.agg.a, e.agg.b, orig.a, orig.b, 0.0, 0.0)
  }

  function FrontOts(arena: seq<Elem>, front: seq<nat>, orig: Data.Route, k: int, sc: Psych.Scorer): (ots: seq<real>)
    requires forall t :: 0 <= t < |front| ==> front[t] < |arena|
    ensures |ots| == |front|
  {
    seq(|front|, t requires 0 <= t < |front| => sc(ElemCosts(arena[front[t]], orig), k).score)
  }

  /** The selection: the reference route with usage 0 for an empty
      frontier or when the best score exceeds qot; otherwise the best
      element's links and usage. */
  function DecisionFull(arena: seq<Elem>, front: seq<nat>, orig: Data.Route, k: int, qot: real,
                        sc: Psych.Scorer): Choice
    requires WellFormed(arena) && forall t :: 0 <= t < |front| ==> front[t] < |arena|
  {
    if |front| == 0 then Choice(orig.links, 0)
    else
      var ots := FrontOts(arena, front, orig, k, sc);
      var b := MinElement(ots);
      if ots[b] > qot then Choice(orig.links, 0)
      else Choice(CollectLinks(arena, front[b]), sc(ElemCosts(arena[front[b]], orig), k).usage)
  }

  /** The scan over the destination's frontier and the decision. */
  method DecideFull(arena: seq<Elem>, front: seq<nat>, orig: Data.Route, k: int, qot: real, sc: Psych.Scorer)
    returns (r: Choice)
    requires WellFormed(arena) && forall t :: 0 <= t < |front| ==> front[t] < |arena|
    ensures r == DecisionFull(arena, front, orig, k, qot, sc)
  {
    if |front| == 0 {
      return Choice(orig.links, 0);
    }
    var ots := FrontOts(arena, front, orig, k, sc);
    // the scan from {HUGE_VAL, 0}: every finite score beats HUGE_VAL, so
    // the first element is taken and a later one replaces it when lower
    var m, bestOt := FirstMinBelow(ots, ots[0]);
    var best := if m == -1 then 0 else m;
    if ots[best] > qot {
      return Choice(orig.links, 0);
    }
    return Choice(CollectLinks(arena, front[best]), sc(ElemCosts(arena[front[best]], orig), k).usage);
  }

  /** `ssotd_route`: every reference link inactive, the backward bests to
      `b`, and the bounded search from `a` starting from qot. The result is
      the reference route or a walk from a to b sharing no link with it. */
  method SsotdRoute(adj: Graph, a: int, b: int, orig: Data.Route, k: nat, sc: Psych.Scorer, fuel: nat)
    returns (r: Choice, ghost bound: Pareto.Bound, ghost run: SearchRun,
             ghost bestAs: seq<XReal>, ghost bestBs: seq<XReal>, ghost filled: bool)
    requires ValidGraph(adj) && 0 <= a < |adj| && 0 <= b < |adj|
    ensures BackwardBests(adj, b, bestAs, bestBs, filled)
    ensures bound == DijkstraBound(RefCtx(orig, map[], [], [], k, sc), b, bestAs, bestBs)
    ensures WellFormed(run.arena) && |run.pareto| == |adj| &&
            forall t :: 0 <= t < |run.pareto[b]| ==> run.pareto[b][t] < |run.arena|
    ensures run.complete ==>
              Pareto.SearchClosed(adj, a, Pareto.Config(false, false, Ids(orig.links), {}), k, Some(bound),
                                  run.arena, run.pareto, run.upper)
    ensures r == DecisionFull(run.arena, run.pareto[b], orig, k, k as real * Latency(orig.a, orig.b, k as real), sc)
    ensures r == Choice(orig.links, 0) || (IsWalk(r.links, a, b) && Ids(r.links) !! Ids(orig.links))
  {
    var inactive := Ids(orig.links);
    var qot := k as real * Latency(orig.a, orig.b, k as real);
    var ctx := RefCtx(orig, map[], [], [], k, sc);
    var back := new ShortestPaths.BestPars();
    var complete := back.FillBestParsDijkstra(adj, b, {}, fuel);
    var bnd := DijkstraBound(ctx, b, back.bestAs, back.bestBs);
    var prio := AstarPrioDijkstra(ctx, back.bestAs, back.bestBs, k);
    var arena, pareto, upper, visits, done := Pareto.LocalOpt(adj, a, k, qot, inactive, bnd, prio, fuel);
    bound, run := bnd, SearchRun(arena, pareto, upper, done);
    bestAs, bestBs, filled := back.bestAs, back.bestBs, complete;
    var front := pareto[b];
    assert forall t :: 0 <= t < |front| ==> front[t] in pareto[b];
    r := DecideFull(arena, front, orig, k, qot, sc);
    if r != Choice(orig.links, 0) {
      var best := MinElement(FrontOts(arena, front, orig, k, sc));
      assert front[best] in pareto[b];
    }
  }

  /** `ssotd(source, destination, pids, optimization)`: the reference route
      and, as a check-up, the shortest route avoiding it; either search
      failing to reach the destination is an error (None). Otherwise every
      person is assigned by its draw. */
  method Ssotd(adj: Graph, source: int, destination: int, pids: seq<int>, draws: seq<int>,
               sc: Psych.Scorer, routes: map<int, seq<Link>>, fuel: nat)
    returns (r: Option<map<int, seq<Link>>>, ghost reference: seq<Link>, ghost choice: Choice)
    requires ValidGraph(adj) && 0 <= source < |adj| && 0 <= destination < |adj| && |draws| == |pids|
    ensures r.Some? ==> IsWalk(reference, source, destination) && |reference| > 0
    ensures r.Some? ==> choice == Choice(reference, 0) || IsWalk(choice.links, source, destination)
    ensures r.Some? ==> Assigned(routes, pids, draws, UsageShare(choice.usage, |pids|), choice.links, reference, r.value)
    ensures r.Some? ==> forall p :: p in routes && p !in pids ==> p in r.value && r.value[p] == routes[p]
    ensures r.Some? ==> forall p :: p in pids ==> p in r.value && IsWalk(r.value[p], source, destination)
  {
    var out := ShortestPaths.Dijkstra(adj, source, destination, None, fuel);
    if !out.Found? {
      return None, [], Choice([], 0);
    }
    var checkup := ShortestPaths.Dijkstra(adj, source, destination, Some(out.links), fuel);
    if !checkup.Found? {
      return None, [], Choice([], 0);
    }
    var orig := Data.RouteOf(out.links);
    var k := |pids|;
    var res, bound, run, bestAs, bestBs, filled := SsotdRoute(adj, source, destination, orig, k, sc, fuel);
    reference, choice := orig.links, res;
    var usage := UsageShare(res.usage, k);
    var placed := Assign(routes, pids, draws, usage, res.links, orig.links);
    AssignedWalks(routes, pids, draws, usage, res.links, orig.links, placed, source, destination);
    r := Some(placed);
  }
}
