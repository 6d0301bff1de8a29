/** The single-search drivers `ssotd_newnodisjoint` (arbitrary
    disjointness) and `ssotd_newonedisjoint` (one detour): one bounded
    four-dimensional search from the origin, whose elements carry their
    shared costs, and a choice among the elements reaching the
    destination. Both ignore the optimization option. */
module NewDisjoint {
  import opened Common
  import opened Network
  import opened Elements
  import Pareto
  import Psych
  import Data
  import Reference
  import ShortestPaths
  import opened SsotdShared

  /** `lower_bound_score_dijkstra` of both files: the element completed by
      the backward bests at `v`, with its own shared costs; the relaxation
      value at the positions of the search's start `c` and of `v`. */
  function DijkstraBound(ctx: RefCtx, c: int, bestAs: seq<XReal>, bestBs: seq<XReal>): Pareto.Bound
  {
    (par: Elem, v: int) =>
      BoundValue(ctx, XPlus(Fin(par.agg.a), BestAt(bestAs, v)), XPlus(Fin(par.agg.b), BestAt(bestBs, v)),
                 par.agg.sa, par.agg.sb, par, c, v)
  }

  /** With admissible backward bests at `v`, the bound scores costs no more
      than those of the element followed by any completion from `v`, so a
      bound above qot rules the element out. */
  lemma DijkstraBoundAdmissible(par: Elem, v: int, bestAs: seq<XReal>, bestBs: seq<XReal>, after: seq<Link>)
    requires ShortestPaths.LowerBoundOf(BestAt(bestAs, v), SumA(after))
    requires ShortestPaths.LowerBoundOf(BestAt(bestBs, v), SumB(after))
    ensures var ea := XPlus(Fin(par.agg.a), BestAt(bestAs, v));
            var eb := XPlus(Fin(par.agg.b), BestAt(bestBs, v));
            ea.Fin? && eb.Fin? && ea.v <= par.agg.a + SumA(after) && eb.v <= par.agg.b + SumB(after)
  {
  }

  /** The bound `Prepare` builds is admissible once the fill ran to the
      end: for any walk from `v` to the destination, it scores costs no
      more than those of the element followed by that walk. */
  lemma FilledBoundAdmissible(adj: Graph, b: int, bestAs: seq<XReal>, bestBs: seq<XReal>,
                              par: Elem, v: int, after: seq<Link>)
    requires BackwardBests(adj, b, bestAs, bestBs, true)
    requires IsWalk(after, v, b) && InGraph(adj, after)
    ensures var ea := XPlus(Fin(par.agg.a), BestAt(bestAs, v));
            var eb := XPlus(Fin(par.agg.b), BestAt(bestBs, v));
            ea.Fin? && eb.Fin? && ea.v <= par.agg.a + SumA(after) && eb.v <= par.agg.b + SumB(after)
  {
    DijkstraBoundAdmissible(par, v, bestAs, bestBs, after);
  }

  /** The costs an element at the destination is scored with: its own
      sums and shared sums against the reference totals. */
  function ElemCosts(e: Elem, orig: Data.Route): Psych.Costs
  {
    Psych.Costs(e.agg.a, e.agg.b, orig.a, orig.b, e.agg.sa, e.agg.sb)
  }

  function FrontOts(arena: seq<Elem>, front: seq<nat>, orig: Data.Route, k: int, sc: Psych.Scorer): (ots: seq<real>)
    requires forall t :: 0 <= t < |front| ==> front[t] < |arena|
    ensures |ots| == |front|
  {
    seq(|front|, t requires 0 <= t < |front| => sc(ElemCosts(arena[front[t]], orig), k).score)
  }

  /** The selection over the destination's frontier: the reference route
      with usage 0 for an empty frontier; otherwise the first element with
      the least score below DBL_MAX, whose absence is the null dereference
      of the report that follows (None); the reference route again when
      that score exceeds qot; else the element's links and usage. */
  function DecisionFront(arena: seq<Elem>, front: seq<nat>, orig: Data.Route, k: int, qot: real,
                         sc: Psych.Scorer): Option<Choice>
    requires WellFormed(arena) && forall t :: 0 <= t < |front| ==> front[t] < |arena|
  {
    if |front| == 0 then Some(Choice(orig.links, 0))
    else
      var ots := FrontOts(arena, front, orig, k, sc);
      var b := FirstMin(ots, DblMax);
      if b == -1 then None
      else if ots[b] > qot then Some(Choice(orig.links, 0))
      else Some(Choice(CollectLinks(arena, front[b]), sc(ElemCosts(arena[front[b]], orig), k).usage))
  }

  /** The scan over the destination's frontier and the decision. */
  method DecideFront(arena: seq<Elem>, front: seq<nat>, orig: Data.Route, k: int, qot: real, sc: Psych.Scorer)
    returns (r: Option<Choice>)
    requires WellFormed(arena) && forall t :: 0 <= t < |front| ==> front[t] < |arena|
    ensures r == DecisionFront(arena, front, orig, k, qot, sc)
  {
    if |front| == 0 {
      return Some(Choice(orig.links, 0));
    }
    var ots := FrontOts(arena, front, orig, k, sc);
    var best, bestOt := FirstMinBelow(ots, DblMax);
    if best == -1 {
      return None;
    }
    if bestOt > qot {
      return Some(Choice(orig.links, 0));
    }
    var e := arena[front[best]];
    return Some(Choice(CollectLinks(arena, front[best]), sc(ElemCosts(e, orig), k).usage));
  }

  /** The chosen element scores no worse than any element of the frontier
      and strictly better than every element before it. */
  lemma DecideFrontIsBest(arena: seq<Elem>, front: seq<nat>, orig: Data.Route, k: int, sc: Psych.Scorer)
    requires forall t :: 0 <= t < |front| ==> front[t] < |arena|
    ensures var ots := FrontOts(arena, front, orig, k, sc);
            var b := FirstMin(ots, DblMax);
            b != -1 ==> (forall j :: 0 <= j < |front| ==> ots[b] <= ots[j]) && (forall j :: 0 <= j < b ==> ots[b] < ots[j])
  {
  }

  /** The preparation both drivers share: the reference route, qot, the
      backward bests to `b`, and the Dijkstra bound for the search from `a`
      with the Dijkstra A* order. The context and the bests are handed
      back as ghosts so that callers can name the bound. */
  method Prepare(adj: Graph, a: int, b: int, orig: Data.Route, k: nat, sc: Psych.Scorer, fuel: nat)
    returns (qot: real, bound: Pareto.Bound, prio: Pareto.Prio,
             ghost ctx: RefCtx, ghost bestAs: seq<XReal>, ghost bestBs: seq<XReal>, ghost filled: bool)
    requires ValidGraph(adj) && 0 <= b < |adj| && |orig.links| > 0
    ensures qot == k as real * Latency(orig.a, orig.b, k as real)
    ensures PreparedCtx(ctx, orig, k, sc) && BackwardBests(adj, b, bestAs, bestBs, filled)
    ensures bound == DijkstraBound(ctx, a, bestAs, bestBs)
    ensures prio == AstarPrioDijkstra(ctx, bestAs, bestBs, k) && Pareto.StrictOrder(prio)
  {
    var rr := new Reference.ReferenceRoute();
    var isOrigEdge := rr.Prepare(orig.links, {});
    qot := k as real * Latency(orig.a, orig.b, k as real);
    var context := RefCtx(orig, rr.nodeIndex, rr.origPartA, rr.origPartB, k, sc);
    var back := new ShortestPaths.BestPars();
    var complete := back.FillBestParsDijkstra(adj, b, {}, fuel);
    bound := DijkstraBound(context, a, back.bestAs, back.bestBs);
    prio := AstarPrioDijkstra(context, back.bestAs, back.bestBs, k);
    ctx, bestAs, bestBs, filled := context, back.bestAs, back.bestBs, complete;
  }

  /** `ssotd_route` of `ssotd_newnodisjoint`: the four-dimensional search
      from `a` with the route's links as the shared ones. An alternative is
      a walk from a to b, scored with its own sums over its links and over
      its reference links. */
  method SsotdRouteAnyDetour(adj: Graph, a: int, b: int, orig: Data.Route, k: nat, sc: Psych.Scorer, fuel: nat)
    returns (r: Option<Choice>, ghost bound: Pareto.Bound, ghost run: SearchRun,
             ghost ctx: RefCtx, ghost bestAs: seq<XReal>, ghost bestBs: seq<XReal>, ghost filled: bool)
    requires ValidGraph(adj) && 0 <= a < |adj| && 0 <= b < |adj| && |orig.links| > 0
    ensures PreparedCtx(ctx, orig, k, sc) && BackwardBests(adj, b, bestAs, bestBs, filled)
    ensures bound == DijkstraBound(ctx, a, bestAs, bestBs)
    ensures WellFormed(run.arena) && |run.pareto| == |adj| &&
            forall t :: 0 <= t < |run.pareto[b]| ==> run.pareto[b][t] < |run.arena|
    ensures run.complete ==>
              Pareto.SearchClosed(adj, a, Pareto.Config(true, false, {}, Ids(orig.links)), k, Some(bound), run.arena, run.pareto, run.upper)
    ensures r == DecisionFront(run.arena, run.pareto[b], orig, k, k as real * Latency(orig.a, orig.b, k as real), sc)
    ensures r.Some? ==>
              r.value == Choice(orig.links, 0) ||
              (IsWalk(r.value.links, a, b) &&
               var g := SumAgg(r.value.links, (l: Link) => l.id in Ids(orig.links), k);
               r.value.usage == sc(Psych.Costs(g.a, g.b, orig.a, orig.b, g.sa, g.sb), k).usage)
  {
    var qot, bnd, prio, cx, bA, bB, done := Prepare(adj, a, b, orig, k, sc, fuel);
    var arena, pareto, upper, visits, complete := Pareto.LocalOpt4d(adj, a, k, qot, Ids(orig.links), bnd, prio, fuel);
    bound, run := bnd, SearchRun(arena, pareto, upper, complete);
    ctx, bestAs, bestBs, filled := cx, bA, bB, done;
    var front := pareto[b];
    assert forall t :: 0 <= t < |front| ==> front[t] in pareto[b];
    r := DecideFront(arena, front, orig, k, qot, sc);
    if r.Some? && r.value != Choice(orig.links, 0) {
      var best := FirstMin(FrontOts(arena, front, orig, k, sc), DblMax);
      assert front[best] in pareto[b];
    }
  }

  /** `ssotd_route` of `ssotd_newonedisjoint`: the single-split variant of
      the search. An alternative is a walk from a to b that rejoins the
      reference route at most once. */
  method SsotdRouteOneDetour(adj: Graph, a: int, b: int, orig: Data.Route, k: nat, sc: Psych.Scorer, fuel: nat)
    returns (r: Option<Choice>, ghost bound: Pareto.Bound, ghost run: SearchRun,
             ghost ctx: RefCtx, ghost bestAs: seq<XReal>, ghost bestBs: seq<XReal>, ghost filled: bool)
    requires ValidGraph(adj) && 0 <= a < |adj| && 0 <= b < |adj| && |orig.links| > 0
    ensures PreparedCtx(ctx, orig, k, sc) && BackwardBests(adj, b, bestAs, bestBs, filled)
    ensures bound == DijkstraBound(ctx, a, bestAs, bestBs)
    ensures WellFormed(run.arena) && |run.pareto| == |adj| &&
            forall t :: 0 <= t < |run.pareto[b]| ==> run.pareto[b][t] < |run.arena|
    ensures run.complete ==>
              Pareto.SearchClosed(adj, a, Pareto.Config(true, true, {}, Ids(orig.links)), k, Some(bound), run.arena, run.pareto, run.upper)
    ensures r == DecisionFront(run.arena, run.pareto[b], orig, k, k as real * Latency(orig.a, orig.b, k as real), sc)
    ensures r.Some? ==>
              r.value == Choice(orig.links, 0) ||
              (IsWalk(r.value.links, a, b) && Pareto.Rejoins(r.value.links, Ids(orig.links)) <= 1)
  {
    var qot, bnd, prio, cx, bA, bB, done := Prepare(adj, a, b, orig, k, sc, fuel);
    var arena, pareto, upper, visits, complete := Pareto.LocalOpt4d1D(adj, a, k, qot, Ids(orig.links), bnd, prio, fuel);
    bound, run := bnd, SearchRun(arena, pareto, upper, complete);
    ctx, bestAs, bestBs, filled := cx, bA, bB, done;
    var front := pareto[b];
    assert forall t :: 0 <= t < |front| ==> front[t] in pareto[b];
    r := DecideFront(arena, front, orig, k, qot, sc);
    if r.Some? && r.value != Choice(orig.links, 0) {
      var best := FirstMin(FrontOts(arena, front, orig, k, sc), DblMax);
      assert front[best] in pareto[b];
    }
  }

  /** `ssotd(source, destination, pids, optimization)` of both files: no
      limit on the reference route's length; `oneDetour` picks the
      single-split driver. An unreachable destination or a failing
      `ssotd_route` is None; otherwise every person is assigned by its
      draw. */
  method Ssotd(adj: Graph, source: int, destination: int, pids: seq<int>, draws: seq<int>, oneDetour: bool,
               sc: Psych.Scorer, routes: map<int, seq<Link>>, fuel: nat)
    returns (r: Option<map<int, seq<Link>>>, ghost reference: seq<Link>, ghost choice: Choice)
    requires ValidGraph(adj) && 0 <= source < |adj| && 0 <= destination < |adj| && |draws| == |pids|
    ensures r.Some? ==> IsWalk(reference, source, destination) && |reference| > 0
    ensures r.Some? ==> choice == Choice(reference, 0) || IsWalk(choice.links, source, destination)
    ensures r.Some? ==> Assigned(routes, pids, draws, UsageShare(choice.usage, |pids|), choice.links, reference, r.value)
    ensures r.Some? ==> forall p :: p in routes && p !in pids ==> p in r.value && r.value[p] == routes[p]
    ensures r.Some? ==> forall p :: p in pids ==> p in r.value && IsWalk(r.value[p], source, destination)
  {
    var out := ShortestPaths.Dijkstra(adj, source, destination, None, fuel);
    if !out.Found? {
      return None, [], Choice([], 0);
    }
    var orig := Data.RouteOf(out.links);
    var k := |pids|;
    var res;
    if oneDetour {
      var one, bound, run, ctx, bestAs, bestBs, filled := SsotdRouteOneDetour(adj, source, destination, orig, k, sc, fuel);
      res := one;
    } else {
      var any, bound, run, ctx, bestAs, bestBs, filled := SsotdRouteAnyDetour(adj, source, destination, orig, k, sc, fuel);
      res := any;
    }
    if res.None? {
      return None, [], Choice([], 0);
    }
    reference, choice := orig.links, res.value;
    var usage := UsageShare(res.value.usage, k);
    var placed := Assign(routes, pids, draws, usage, res.value.links, orig.links);
    AssignedWalks(routes, pids, draws, usage, res.value.links, orig.links, placed, source, destination);
    r := Some(placed);
  }
}
