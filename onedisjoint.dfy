/** The single-detour driver (`ssotd_onedisjoint`): alternatives that
    follow the reference route up to position i, take one bridge of the
    front (i, j) off the route, and follow the route again from position
    j. Its lower bounds, the candidate scan over all (i, j), the splice,
    the route sanity check, and `ssotd_route` / `ssotd`. */
module OneDisjoint {
  import opened Common
  import opened Network
  import opened Elements
  import opened Fragments
  import Pareto
  import Psych
  import Data
  import Reference
  import ShortestPaths
  import opened SsotdShared

  // ---------------------------------------------------------------------
  // Lower bounds
  // ---------------------------------------------------------------------

  /** `origPartA[idc]`: the prefix sum at a route position. Searches only
      start at route nodes, so the position is always in range. */
  function PrefixAt(p: seq<real>, i: int): real
  {
    if 0 <= i < |p| then p[i] else 0.0
  }

  /** `lower_bound_score_zero`: the element completed by the route before
      the anchor `c`, which is also the shared part. */
  function ZeroBound(ctx: RefCtx, c: int): Pareto.Bound
  {
    (par: Elem, v: int) =>
      var sa := PrefixAt(ctx.pa, Position(ctx, c));
      var sb := PrefixAt(ctx.pb, Position(ctx, c));
      BoundValue(ctx, Fin(par.agg.a + sa), Fin(par.agg.b + sb), sa, sb, par, c, v)
  }

  /** `lower_bound_score_airline`: as the zero bound, plus the airline
      coefficients from `v` to the destination `to`. */
  function AirlineBound(ctx: RefCtx, to: int, c: int, airline: (int, int) -> NonNegReal): Pareto.Bound
  {
    (par: Elem, v: int) =>
      var sa := PrefixAt(ctx.pa, Position(ctx, c));
      var sb := PrefixAt(ctx.pb, Position(ctx, c));
      var back := Airval(v, to, airline);
      BoundValue(ctx, XPlus(Fin(par.agg.a + sa), back.0), XPlus(Fin(par.agg.b + sb), back.1), sa, sb, par, c, v)
  }

  /** `lower_bound_score_dijkstra`: as the zero bound, plus the backward
      bests at `v`. */
  function DijkstraBound(ctx: RefCtx, c: int, bestAs: seq<XReal>, bestBs: seq<XReal>): Pareto.Bound
  {
    (par: Elem, v: int) =>
      var sa := PrefixAt(ctx.pa, Position(ctx, c));
      var sb := PrefixAt(ctx.pb, Position(ctx, c));
      BoundValue(ctx, XPlus(Fin(par.agg.a + sa), BestAt(bestAs, v)), XPlus(Fin(par.agg.b + sb), BestAt(bestBs, v)),
                 sa, sb, par, c, v)
  }

  /** On prepared prefix sums, with the anchor at route position idc and
      admissible backward bests, the Dijkstra bound scores costs no more
      than those of the route before idc, the element, and any completion
      `after` from v, sharing exactly the route before idc. */
  lemma DijkstraBoundAdmissible(ctx: RefCtx, route: seq<Link>, par: Elem, c: int, v: int,
                                bestAs: seq<XReal>, bestBs: seq<XReal>, after: seq<Link>)
    requires |ctx.pa| == |route| + 1 && |ctx.pb| == |route| + 1
    requires forall i :: 0 <= i <= |route| ==> ctx.pa[i] == SumA(route[..i]) && ctx.pb[i] == SumB(route[..i])
    requires 0 <= Position(ctx, c) <= |route|
    requires ShortestPaths.LowerBoundOf(BestAt(bestAs, v), SumA(after))
    requires ShortestPaths.LowerBoundOf(BestAt(bestBs, v), SumB(after))
    ensures var idc := Position(ctx, c);
            var ea := XPlus(Fin(par.agg.a + PrefixAt(ctx.pa, idc)), BestAt(bestAs, v));
            var eb := XPlus(Fin(par.agg.b + PrefixAt(ctx.pb, idc)), BestAt(bestBs, v));
            ea.Fin? && eb.Fin? &&
            ea.v <= SumA(route[..idc]) + par.agg.a + SumA(after) &&
            eb.v <= SumB(route[..idc]) + par.agg.b + SumB(after) &&
            PrefixAt(ctx.pa, idc) == SumA(route[..idc]) && PrefixAt(ctx.pb, idc) == SumB(route[..idc])
  {
  }

  /** On the context `Configure` prepares, with the backward fill run to
      the end, the Dijkstra bound from an anchor on the route is
      admissible for every walk from `v` to the destination. */
  lemma FilledBoundAdmissible(adj: Graph, b: int, ctx: RefCtx, orig: Data.Route, k: int, sc: Psych.Scorer,
                              bestAs: seq<XReal>, bestBs: seq<XReal>, par: Elem, c: int, v: int, after: seq<Link>)
    requires PreparedCtx(ctx, orig, k, sc) && BackwardBests(adj, b, bestAs, bestBs, true)
    requires 0 <= Position(ctx, c) <= |orig.links|
    requires IsWalk(after, v, b) && InGraph(adj, after)
    ensures var idc := Position(ctx, c);
            var ea := XPlus(Fin(par.agg.a + PrefixAt(ctx.pa, idc)), BestAt(bestAs, v));
            var eb := XPlus(Fin(par.agg.b + PrefixAt(ctx.pb, idc)), BestAt(bestBs, v));
            ea.Fin? && eb.Fin? &&
            ea.v <= SumA(orig.links[..idc]) + par.agg.a + SumA(after) &&
            eb.v <= SumB(orig.links[..idc]) + par.agg.b + SumB(after)
  {
    DijkstraBoundAdmissible(ctx, orig.links, par, c, v, bestAs, bestBs, after);
  }

  /** The bound every search of an option uses from anchor `c`. */
  function BoundFor(opt: Optimization, ctx: RefCtx, b: int, airline: (int, int) -> NonNegReal,
                    bestAs: seq<XReal>, bestBs: seq<XReal>)
    : (r: int -> Option<Pareto.Bound>)
    ensures opt == NoOpt ==> forall c :: r(c).None?
    ensures opt != NoOpt ==> forall c :: r(c).Some?
  {
    match opt
    case NoOpt => (c: int) => None
    case SimpleLocalOpt => (c: int) => Some(ZeroBound(ctx, c))
    case AirlineLocalOpt => (c: int) => Some(AirlineBound(ctx, b, c, airline))
    case AirlineAstarOpt => (c: int) => Some(AirlineBound(ctx, b, c, airline))
    case DijkstraLocalOpt => (c: int) => Some(DijkstraBound(ctx, c, bestAs, bestBs))
    case DijkstraAstarOpt => (c: int) => Some(DijkstraBound(ctx, c, bestAs, bestBs))
  }

  /** The queue order of an option: the A* orders for the two A* options,
      `standard_prio` otherwise. */
  function PrioFor(opt: Optimization, ctx: RefCtx, b: int, airline: (int, int) -> NonNegReal,
                   bestAs: seq<XReal>, bestBs: seq<XReal>, d: int): (prio: Pareto.Prio)
    ensures Pareto.StrictOrder(prio)
    ensures opt != AirlineAstarOpt && opt != DijkstraAstarOpt ==> prio == Pareto.StandardPrio()
  {
    Pareto.StandardPrioStrict();
    match opt
    case AirlineAstarOpt => AstarPrioAirline(ctx, b, airline, d)
    case DijkstraAstarOpt => AstarPrioDijkstra(ctx, bestAs, bestBs, d)
    case _ => Pareto.StandardPrio()
  }

  // ---------------------------------------------------------------------
  // Candidates
  // ---------------------------------------------------------------------

  /** A bridge `f` of the front (i, j): leave the route at position i and
      rejoin it at position j. */
  datatype Cand = Cand(i: int, j: int, f: Frag)

  function FrontCands(fronts: Fronts, i: int, j: int): (cs: seq<Cand>)
    ensures forall c :: c in cs <==> c.i == i && c.j == j && c.f in FrontOf(fronts, i, j)
  {
    var fs := FrontOf(fronts, i, j);
    var cs := seq(|fs|, t requires 0 <= t < |fs| => Cand(i, j, fs[t]));
    assert forall c :: c in cs ==> c.i == i && c.j == j && c.f in fs;
    assert forall t :: 0 <= t < |fs| ==> cs[t] == Cand(i, j, fs[t]);
    cs
  }

  /** The candidates leaving at i and rejoining before j, in scan order. */
  function CandsOfRow(fronts: Fronts, i: int, j: int): seq<Cand>
    decreases j - i
  {
    if j <= i + 1 then [] else CandsOfRow(fronts, i, j - 1) + FrontCands(fronts, i, j - 1)
  }

  /** The candidates leaving before position n of a route with L links,
      in the scan order of the evaluation loop: i ascending, then j, then
      the front's order. */
  function CandsBelow(fronts: Fronts, L: int, n: int): seq<Cand>
    decreases n
  {
    if n <= 0 then [] else CandsBelow(fronts, L, n - 1) + CandsOfRow(fronts, n - 1, L + 1)
  }

  lemma {:induction false} CandsOfRowMembers(fronts: Fronts, i: int, j: int)
    ensures forall c :: c in CandsOfRow(fronts, i, j) <==> c.i == i && i < c.j < j && c.f in FrontOf(fronts, i, c.j)
    decreases j - i
  {
    if j > i + 1 {
      CandsOfRowMembers(fronts, i, j - 1);
    }
  }

  /** The scan visits exactly the bridges of every front (i, j) with
      0 <= i < j <= L. */
  lemma {:induction false} CandsBelowMembers(fronts: Fronts, L: int, n: int)
    ensures forall c :: c in CandsBelow(fronts, L, n) <==>
              0 <= c.i < n && c.i < c.j <= L && c.f in FrontOf(fronts, c.i, c.j)
    decreases n
  {
    if n > 0 {
      CandsBelowMembers(fronts, L, n - 1);
      CandsOfRowMembers(fronts, n - 1, L + 1);
    }
  }

  /** The nested evaluation loops, collecting the candidates in the order
      they are scored. */
  method EvaluationOrder(fronts: Fronts, L: nat) returns (cands: seq<Cand>)
    ensures cands == CandsBelow(fronts, L, L)
  {
    cands := [];
    for i := 0 to L
      invariant cands == CandsBelow(fronts, L, i)
    {
      var row := [];
      for j := i + 1 to L + 1
        invariant row == CandsOfRow(fronts, i, j)
      {
        row := row + FrontCands(fronts, i, j);
      }
      cands := cands + row;
    }
  }

  // ---------------------------------------------------------------------
  // Scoring a candidate and splicing it into the route
  // ---------------------------------------------------------------------

  /** `origPartA[i] + origPartA.back() - origPartA[j]`. */
  function Shared(p: seq<real>, i: int, j: int): real
    requires 0 <= i < |p| && 0 <= j < |p|
  {
    p[i] + p[|p| - 1] - p[j]
  }

  predicate CandsIn(cands: seq<Cand>, n: int)
  {
    forall t :: 0 <= t < |cands| ==> 0 <= cands[t].i <= cands[t].j < n
  }

  /** The costs a candidate is scored with: the bridge plus the shared part,
      against the route totals. */
  function CandCosts(c: Cand, pa: seq<real>, pb: seq<real>, d: int): Psych.Costs
    requires 0 <= c.i <= c.j < |pa| && |pb| == |pa|
  {
    var g := FragAgg(c.f, d);
    var sa := Shared(pa, c.i, c.j);
    var sb := Shared(pb, c.i, c.j);
    Psych.Costs(g.a + sa, g.b + sb, pa[|pa| - 1], pb[|pb| - 1], sa, sb)
  }

  function CandOts(cands: seq<Cand>, pa: seq<real>, pb: seq<real>, k: int, d: int, sc: Psych.Scorer)
    : (ots: seq<real>)
    requires CandsIn(cands, |pa|) && |pb| == |pa|
    ensures |ots| == |cands|
  {
    seq(|cands|, t requires 0 <= t < |cands| => sc(CandCosts(cands[t], pa, pb, d), k).score)
  }

  /** On prepared prefix sums, the shared part of a candidate is what the
      route costs outside the stretch from position i to position j. */
  lemma SharedIsOutside(route: seq<Link>, pa: seq<real>, pb: seq<real>, i: int, j: int)
    requires |pa| == |route| + 1 && |pb| == |route| + 1 && 0 <= i <= j <= |route|
    requires forall t :: 0 <= t <= |route| ==> pa[t] == SumA(route[..t]) && pb[t] == SumB(route[..t])
    ensures Shared(pa, i, j) == SumA(route[..i]) + SumA(route[j..])
    ensures Shared(pb, i, j) == SumB(route[..i]) + SumB(route[j..])
  {
    assert route[..|route|] == route;
    Reference.OutsideDetour(route, i, j);
  }

  /** The alternative of a candidate: the route up to position i, the
      bridge, and the route from position j on. */
  function Splice(route: seq<Link>, c: Cand): seq<Link>
    requires 0 <= c.i <= c.j <= |route|
  {
    route[..c.i] + Mat(c.f) + route[c.j..]
  }

  /** A spliced bridge of a well-formed front gives a walk between the
      route's ends that leaves the route's links in one stretch: exactly
      the positions of the bridge use links off the route. */
  lemma SpliceIsWalk(route: seq<Link>, a: int, b: int, fronts: Fronts, c: Cand)
    requires |route| > 0 && IsWalk(route, a, b) && FrontsOk(route, a, fronts)
    requires 0 <= c.i < c.j <= |route| && c.f in FrontOf(fronts, c.i, c.j)
    ensures IsWalk(Splice(route, c), a, b)
    ensures var s := Splice(route, c);
            forall t :: 0 <= t < |s| ==> (s[t].id in Ids(route) <==> !(c.i <= t < c.i + |Mat(c.f)|))
  {
    assert (c.i, c.j) in fronts;
    assert FrontOk(route, a, c.i, c.j, fronts[(c.i, c.j)]);
    var m := Mat(c.f);
    var s1, s2 := NodeAt(route, a, c.i), NodeAt(route, a, c.j);
    assert IsWalk(m, s1, s2) && Ids(m) !! Ids(route);
    assert IsWalk(route[..c.i], a, s1) by {
      if c.i > 0 {
        WalkSplit(route, a, b, c.i);
      }
    }
    assert IsWalk(route[c.j..], s2, b) by {
      if c.j < |route| {
        WalkSplit(route, a, b, c.j);
      }
    }
    WalkAppend(route[..c.i], m, a, s1, s2);
    WalkAppend(route[..c.i] + m, route[c.j..], a, s2, b);
    var s := Splice(route, c);
    forall t | 0 <= t < |s|
      ensures s[t].id in Ids(route) <==> !(c.i <= t < c.i + |m|)
    {
      if t < c.i {
        assert s[t] == route[t] && route[t] in route;
      } else if t < c.i + |m| {
        assert s[t] == m[t - c.i] && m[t - c.i] in m;
        assert s[t].id in Ids(m);
      } else {
        assert s[t] == route[t - c.i - |m| + c.j] && route[t - c.i - |m| + c.j] in route;
      }
    }
  }

  /** The decision on the candidates: for the first candidate with the
      least score below DBL_MAX, the reference route with usage 0 when the
      best score (DBL_MAX when there is none) exceeds qot; a missing best
      candidate otherwise is the null dereference (None); else the splice
      and the candidate's usage. */
  function Decision(cands: seq<Cand>, route: seq<Link>, pa: seq<real>, pb: seq<real>, k: int, d: int,
                    qot: real, sc: Psych.Scorer): Option<Choice>
    requires |pa| == |route| + 1 && |pb| == |pa| && CandsIn(cands, |pa|)
  {
    var ots := CandOts(cands, pa, pb, k, d, sc);
    var b := FirstMin(ots, DblMax);
    var bestOt := if b == -1 then DblMax else ots[b];
    if bestOt > qot then Some(Choice(route, 0))
    else if b == -1 then None
    else Some(Choice(Splice(route, cands[b]), sc(CandCosts(cands[b], pa, pb, d), k).usage))
  }

  /** The best-candidate scan and the decision. */
  method Decide(cands: seq<Cand>, route: seq<Link>, pa: seq<real>, pb: seq<real>, k: int, d: int,
                qot: real, sc: Psych.Scorer)
    returns (r: Option<Choice>)
    requires |pa| == |route| + 1 && |pb| == |pa| && CandsIn(cands, |pa|)
    ensures r == Decision(cands, route, pa, pb, k, d, qot, sc)
  {
    var ots := CandOts(cands, pa, pb, k, d, sc);
    var best, bestOt := FirstMinBelow(ots, DblMax);
    if bestOt > qot {
      return Some(Choice(route, 0));
    }
    if best == -1 {
      return None;
    }
    var c := cands[best];
    return Some(Choice(Splice(route, c), sc(CandCosts(c, pa, pb, d), k).usage));
  }

  /** The chosen candidate scores no worse than any candidate, and strictly
      better than every candidate scanned before it. */
  lemma DecideIsBest(cands: seq<Cand>, pa: seq<real>, pb: seq<real>, k: int, d: int, sc: Psych.Scorer)
    requires CandsIn(cands, |pa|) && |pb| == |pa|
    ensures var ots := CandOts(cands, pa, pb, k, d, sc);
            var b := FirstMin(ots, DblMax);
            b != -1 ==> (forall j :: 0 <= j < |cands| ==> ots[b] <= ots[j]) && (forall j :: 0 <= j < b ==> ots[b] < ots[j])
    ensures var ots := CandOts(cands, pa, pb, k, d, sc);
            FirstMin(ots, DblMax) == -1 <==> forall j :: 0 <= j < |cands| ==> ots[j] >= DblMax
  {
  }

  // ---------------------------------------------------------------------
  // The route sanity check
  // ---------------------------------------------------------------------

  /** Link t starts a stretch off the route. */
  predicate RunStart(links: seq<Link>, isOrig: set<int>, t: int)
    requires 0 <= t < |links|
  {
    links[t].id !in isOrig && (t == 0 || links[t - 1].id in isOrig)
  }

  /** Number of stretches off the route among the first n links. */
  function Splits(links: seq<Link>, isOrig: set<int>, n: nat): nat
    requires n <= |links|
  {
    if n == 0 then 0 else Splits(links, isOrig, n - 1) + (if RunStart(links, isOrig, n - 1) then 1 else 0)
  }

  /** Link t continues a stretch off the route from a node on the reference
      route: the detour touches the route without following it. */
  predicate CrossAt(links: seq<Link>, isOrig: set<int>, orig: seq<Link>, t: int)
    requires 0 <= t < |links| && |orig| > 0
  {
    t > 0 && links[t].id !in isOrig && links[t - 1].id !in isOrig && links[t].from in Data.ToNodeVec(orig)
  }

  function Crosses(links: seq<Link>, isOrig: set<int>, orig: seq<Link>, n: nat): nat
    requires n <= |links| && |orig| > 0
  {
    if n == 0 then 0 else Crosses(links, isOrig, orig, n - 1) + (if CrossAt(links, isOrig, orig, n - 1) then 1 else 0)
  }

  /** The crossing test as the sanity check writes it: the result of
      `is_orig_node` used as a truth value, so that -1 (off the route)
      counts and 0 (the start node) does not. */
  predicate CrossAtAsWritten(links: seq<Link>, isOrig: set<int>, orig: seq<Link>, t: int)
    requires 0 <= t < |links| && |orig| > 0
  {
    t > 0 && links[t].id !in isOrig && links[t - 1].id !in isOrig && Reference.IsOrigNode(links[t].from, orig) != 0
  }

  function CrossesAsWritten(links: seq<Link>, isOrig: set<int>, orig: seq<Link>, n: nat): nat
    requires n <= |links| && |orig| > 0
  {
    if n == 0 then 0
    else CrossesAsWritten(links, isOrig, orig, n - 1) + (if CrossAtAsWritten(links, isOrig, orig, n - 1) then 1 else 0)
  }

  /** A detour 0 -> 5 -> 1 around the one-link route 0 -> 1 touches the
      route only at its ends, yet the written test counts the off-route
      node 5 as a crossing. */
  lemma OffRouteNodeCounted()
    ensures var orig := [Link(1, 0, 1, 1.0, 1.0, 1.0)];
            var alt := [Link(2, 0, 5, 1.0, 1.0, 1.0), Link(3, 5, 1, 1.0, 1.0, 1.0)];
            CrossesAsWritten(alt, {1}, orig, 2) == 1 && Crosses(alt, {1}, orig, 2) == 0
  {
    var orig := [Link(1, 0, 1, 1.0, 1.0, 1.0)];
    var alt := [Link(2, 0, 5, 1.0, 1.0, 1.0), Link(3, 5, 1, 1.0, 1.0, 1.0)];
    assert Data.ToNodeVec(orig) == [0, 1];
    assert Reference.IsOrigNode(5, orig) == -1;
  }

  /** The corrected count is zero exactly when no link that continues a
      stretch off the route starts at a node of the reference route. */
  lemma {:induction false} NoCrossesIffNoTouch(links: seq<Link>, isOrig: set<int>, orig: seq<Link>, n: nat)
    requires n <= |links| && |orig| > 0
    ensures Crosses(links, isOrig, orig, n) == 0 <==>
              forall t :: 0 < t < n && links[t].id !in isOrig && links[t - 1].id !in isOrig ==>
                links[t].from !in Data.ToNodeVec(orig)
  {
    if n > 0 {
      NoCrossesIffNoTouch(links, isOrig, orig, n - 1);
    }
  }

  /** The links of a sequence that are reference links, in order. */
  function OnRoute(links: seq<Link>, isOrig: set<int>): seq<Link>
  {
    if |links| == 0 then []
    else OnRoute(links[..|links| - 1], isOrig) + (if links[|links| - 1].id in isOrig then [links[|links| - 1]] else [])
  }

  lemma SumsSnoc(p: seq<Link>, l: Link)
    ensures SumA(p + [l]) == SumA(p) + LinkA(l) && SumB(p + [l]) == SumB(p) + LinkB(l)
  {
    assert (p + [l])[..|p|] == p;
  }

  /** Extending the prefix by link i adds that link's costs to the
      reference-link sums exactly when it is a reference link. */
  lemma OnRouteStep(links: seq<Link>, isOrig: set<int>, i: int)
    requires 0 <= i < |links|
    ensures var l := links[i];
            SumA(OnRoute(links[..i + 1], isOrig)) == SumA(OnRoute(links[..i], isOrig)) + (if l.id in isOrig then LinkA(l) else 0.0) &&
            SumB(OnRoute(links[..i + 1], isOrig)) == SumB(OnRoute(links[..i], isOrig)) + (if l.id in isOrig then LinkB(l) else 0.0)
  {
    assert links[..i + 1][..i] == links[..i];
    var l := links[i];
    if l.id in isOrig {
      SumsSnoc(OnRoute(links[..i], isOrig), l);
    } else {
      assert OnRoute(links[..i + 1], isOrig) == OnRoute(links[..i], isOrig) + [];
      assert OnRoute(links[..i + 1], isOrig) == OnRoute(links[..i], isOrig);
    }
  }

  datatype SanityReport = SanityReport(splits: nat, crosses: nat, a: real, b: real, sa: real, sb: real,
                                       paramsOk: bool, scoreOk: bool)

  /** `sanity_check_1D`: counts the stretches off the route and the places
      where a detour passes a route node, recomputes the costs and the
      shared costs over the reference links, and compares them with the
      route's cached sums and with the claimed score and usage. The
      crossing test asks whether the node lies on the reference route. */
  method SanityCheck1D(isOrig: set<int>, alt: Data.Route, orig: Data.Route, score: real, usage: int, k: int,
                       sc: Psych.Scorer)
    returns (rep: SanityReport)
    requires |orig.links| > 0
    ensures rep.splits == Splits(alt.links, isOrig, |alt.links|)
    ensures rep.crosses == Crosses(alt.links, isOrig, orig.links, |alt.links|)
    ensures rep.a == SumA(alt.links) && rep.b == SumB(alt.links)
    ensures rep.sa == SumA(OnRoute(alt.links, isOrig)) && rep.sb == SumB(OnRoute(alt.links, isOrig))
    ensures rep.paramsOk <==> rep.a == alt.a && rep.b == alt.b
    ensures rep.scoreOk <==> sc(Psych.Costs(rep.a, rep.b, orig.a, orig.b, rep.sa, rep.sb), k) == Psych.Scored(score, usage)
  {
    var splits, crosses := CountStretches(isOrig, alt.links, orig.links);
    var a, b, sa, sb := RecomputeCosts(isOrig, alt.links);
    var actual := sc(Psych.Costs(a, b, orig.a, orig.b, sa, sb), k);
    rep := SanityReport(splits, crosses, a, b, sa, sb, a == alt.a && b == alt.b,
                        actual.score == score && actual.usage == usage);
  }

  /** The first loop of the sanity check. */
  method CountStretches(isOrig: set<int>, links: seq<Link>, orig: seq<Link>) returns (splits: nat, crosses: nat)
    requires |orig| > 0
    ensures splits == Splits(links, isOrig, |links|)
    ensures crosses == Crosses(links, isOrig, orig, |links|)
  {
    crosses, splits := 0, 0;
    var splitted := false;
    for i := 0 to |links|
      invariant splitted == (i > 0 && links[i - 1].id !in isOrig)
      invariant splits == Splits(links, isOrig, i)
      invariant crosses == Crosses(links, isOrig, orig, i)
    {
      var l := links[i];
      if l.id in isOrig {
        splitted := false;
      } else {
        if !splitted {
          splits := splits + 1;
        }
        splitted := true;
        if i > 0 && links[i - 1].id !in isOrig && Reference.IsOrigNode(l.from, orig) != -1 {
          crosses := crosses + 1;
        }
      }
    }
  }

  /** The second loop of the sanity check: all costs, and the costs of the
      reference links. */
  method RecomputeCosts(isOrig: set<int>, links: seq<Link>) returns (a: real, b: real, sa: real, sb: real)
    ensures a == SumA(links) && b == SumB(links)
    ensures sa == SumA(OnRoute(links, isOrig)) && sb == SumB(OnRoute(links, isOrig))
  {
    a, b, sa, sb := 0.0, 0.0, 0.0, 0.0;
    for i := 0 to |links|
      invariant a == SumA(links[..i]) && b == SumB(links[..i])
      invariant sa == SumA(OnRoute(links[..i], isOrig)) && sb == SumB(OnRoute(links[..i], isOrig))
    {
      var l := links[i];
      Reference.PrefixSumStep(links, i);
      OnRouteStep(links, isOrig, i);
      a := a + LinkA(l);
      b := b + LinkB(l);
      if l.id in isOrig {
        sa := sa + LinkA(l);
        sb := sb + LinkB(l);
      }
    }
    assert links[..|links|] == links;
  }

  /** No stretch off the route exactly when every link is a reference
      link. */
  lemma {:induction false} NoSplitsOnRoute(links: seq<Link>, isOrig: set<int>, n: nat)
    requires n <= |links|
    ensures Splits(links, isOrig, n) == 0 <==> forall t :: 0 <= t < n ==> links[t].id in isOrig
  {
    if n > 0 {
      NoSplitsOnRoute(links, isOrig, n - 1);
    }
  }

  /** With one link t starting a stretch off the route, the count is 1. */
  lemma {:induction false} SplitsSingle(links: seq<Link>, isOrig: set<int>, n: nat, p: int)
    requires n <= |links|
    requires forall t :: 0 <= t < n ==> (RunStart(links, isOrig, t) <==> t == p)
    ensures Splits(links, isOrig, n) == if 0 <= p < n then 1 else 0
  {
    if n > 0 {
      SplitsSingle(links, isOrig, n - 1, p);
    }
  }

  /** Every splice of a well-formed front passes the sanity check's split
      count: against the reference links it leaves the route once (none
      for an empty bridge). */
  lemma SpliceSplitsOnce(route: seq<Link>, a: int, b: int, fronts: Fronts, c: Cand)
    requires |route| > 0 && IsWalk(route, a, b) && FrontsOk(route, a, fronts)
    requires 0 <= c.i < c.j <= |route| && c.f in FrontOf(fronts, c.i, c.j)
    ensures var s := Splice(route, c);
            Splits(s, Ids(route), |s|) == if |Mat(c.f)| > 0 then 1 else 0
  {
    SpliceIsWalk(route, a, b, fronts, c);
    var s := Splice(route, c);
    var m := |Mat(c.f)|;
    var p := if m > 0 then c.i else -1;
    forall t | 0 <= t < |s|
      ensures RunStart(s, Ids(route), t) <==> t == p
    {
    }
    SplitsSingle(s, Ids(route), |s|, p);
  }

  // ---------------------------------------------------------------------
  // The drivers
  // ---------------------------------------------------------------------

  /** The preparation of `ssotd_route` for an option: the reference route
      prepared (its prefix sums are handed back for the evaluation), the
      backward bests the option asks for (Dijkstra bests, or zero airline
      bests), and from them the bound of every anchor and the queue order.
      Only the option without optimization has no bound. The context and
      the bests are handed back as ghosts so that callers can name the
      bound. */
  method Configure(adj: Graph, b: int, orig: Data.Route, k: nat, o: Optimization, sc: Psych.Scorer,
                   airline: (int, int) -> NonNegReal, fuel: nat)
    returns (pa: seq<real>, pb: seq<real>, bounds: int -> Option<Pareto.Bound>, prio: Pareto.Prio,
             ghost ctx: RefCtx, ghost bestAs: seq<XReal>, ghost bestBs: seq<XReal>, ghost filled: bool)
    requires ValidGraph(adj) && 0 <= b < |adj| && |orig.links| > 0
    ensures PreparedCtx(ctx, orig, k, sc) && pa == ctx.pa && pb == ctx.pb
    ensures PrefixSums(orig.links, pa, pb)
    ensures bounds == BoundFor(o, ctx, b, airline, bestAs, bestBs)
    ensures prio == PrioFor(o, ctx, b, airline, bestAs, bestBs, k)
    ensures o == NoOpt <==> forall c :: bounds(c).None?
    ensures (o == DijkstraLocalOpt || o == DijkstraAstarOpt) ==> BackwardBests(adj, b, bestAs, bestBs, filled)
    ensures (o == AirlineLocalOpt || o == AirlineAstarOpt) ==> ZeroBests(adj, bestAs, bestBs)
  {
    var rr := new Reference.ReferenceRoute();
    var inactive := rr.Prepare(orig.links, {});
    var context := RefCtx(orig, rr.nodeIndex, rr.origPartA, rr.origPartB, k, sc);
    var back := new ShortestPaths.BestPars();
    var done := false;
    if o == DijkstraLocalOpt || o == DijkstraAstarOpt {
      done := back.FillBestParsDijkstra(adj, b, {}, fuel);
    } else if o == AirlineLocalOpt || o == AirlineAstarOpt {
      back.bestAs, back.bestBs := seq(|adj|, _ => Fin(0.0)), seq(|adj|, _ => Fin(0.0));
    }
    pa, pb := rr.origPartA, rr.origPartB;
    bounds := BoundFor(o, context, b, airline, back.bestAs, back.bestBs);
    prio := PrioFor(o, context, b, airline, back.bestAs, back.bestBs, k);
    ctx, bestAs, bestBs, filled := context, back.bestAs, back.bestBs, done;
    assert o != NoOpt ==> bounds(b).Some?;
  }

  /** `ssotd_route(a, b, original, k, optimization)`: prepares the
      reference route, runs one search from every route node (each starting
      from the route's own qot), scores every bridge of every front with
      the rest of the route, and splices the best one in. An option that
      is not one of the accepted strings leaves no search to call: None. */
  method SsotdRoute(adj: Graph, a: int, b: int, orig: Data.Route, k: nat, opt: Option<Optimization>,
                    sc: Psych.Scorer, airline: (int, int) -> NonNegReal, fuel: nat)
    returns (r: Option<Choice>, ghost boundAt: int -> Option<Pareto.Bound>, ghost runs: seq<SearchRun>,
             ghost fronts: Fronts, ghost pa: seq<real>, ghost pb: seq<real>, ghost ctx: RefCtx,
             ghost bestAs: seq<XReal>, ghost bestBs: seq<XReal>, ghost filled: bool)
    requires ValidGraph(adj) && 0 <= a < |adj| && 0 <= b < |adj|
    requires |orig.links| > 0 && IsWalk(orig.links, a, b) && InGraph(adj, orig.links)
    ensures opt.None? ==> r.None?
    ensures opt.Some? ==>
              PreparedCtx(ctx, orig, k, sc) &&
              boundAt == BoundFor(opt.value, ctx, b, airline, bestAs, bestBs) &&
              ((opt.value == DijkstraLocalOpt || opt.value == DijkstraAstarOpt) ==>
                 BackwardBests(adj, b, bestAs, bestBs, filled)) &&
              ((opt.value == AirlineLocalOpt || opt.value == AirlineAstarOpt) ==> ZeroBests(adj, bestAs, bestBs)) &&
              (opt.value == NoOpt <==> forall c :: boundAt(c).None?) &&
              FrontsFrom(adj, orig.links, a, k, boundAt, runs, fronts) &&
              PrefixSums(orig.links, pa, pb) &&
              CandsIn(CandsBelow(fronts, |orig.links|, |orig.links|), |pa|) &&
              r == Decision(CandsBelow(fronts, |orig.links|, |orig.links|), orig.links, pa, pb, k, k,
                            k as real * Latency(orig.a, orig.b, k as real), sc)
    ensures r.Some? ==>
              r.value == Choice(orig.links, 0) ||
              (IsWalk(r.value.links, a, b) && Splits(r.value.links, Ids(orig.links), |r.value.links|) <= 1)
  {
    if opt.None? {
      return None, (c: int) => None, [], map[], [], [], RefCtx(orig, map[], [], [], k, sc), [], [], false;
    }
    var route := orig.links;
    var qot := k as real * Latency(orig.a, orig.b, k as real);
    var partA, partB, bounds, prio, cx, bA, bB, done := Configure(adj, b, orig, k, opt.value, sc, airline, fuel);
    assert NodeAt(route, a, 0) == a;
    var fr, upper, complete, rs := AssembleFronts(adj, route, a, k, qot, false, bounds, prio, fuel);
    r := Evaluate(route, a, b, fr, partA, partB, k, qot, sc);
    boundAt, runs, fronts, pa, pb := bounds, rs, fr, partA, partB;
    ctx, bestAs, bestBs, filled := cx, bA, bB, done;
  }

  /** pa and pb hold the route's prefix sums of the two coefficients: entry
      i sums the first i links. */
  ghost predicate PrefixSums(route: seq<Link>, pa: seq<real>, pb: seq<real>)
  {
    |pa| == |route| + 1 && |pb| == |route| + 1 &&
    forall i :: 0 <= i <= |route| ==> pa[i] == SumA(route[..i]) && pb[i] == SumB(route[..i])
  }

  /** The evaluation of `ssotd_route` over the fronts: every alternative it
      returns other than the reference route is a walk between the route's
      ends leaving the route at most once. */
  method Evaluate(route: seq<Link>, a: int, b: int, fronts: Fronts, pa: seq<real>, pb: seq<real>, k: int,
                  qot: real, sc: Psych.Scorer)
    returns (r: Option<Choice>)
    requires |route| > 0 && IsWalk(route, a, b) && FrontsOk(route, a, fronts)
    requires |pa| == |route| + 1 && |pb| == |pa|
    ensures CandsIn(CandsBelow(fronts, |route|, |route|), |pa|) &&
            r == Decision(CandsBelow(fronts, |route|, |route|), route, pa, pb, k, k, qot, sc)
    ensures r.Some? ==>
              r.value == Choice(route, 0) ||
              (IsWalk(r.value.links, a, b) && Splits(r.value.links, Ids(route), |r.value.links|) <= 1)
  {
    var cands := EvaluationOrder(fronts, |route|);
    CandsBelowMembers(fronts, |route|, |route|);
    assert forall t :: 0 <= t < |cands| ==> cands[t] in cands;
    r := Decide(cands, route, pa, pb, k, k, qot, sc);
    if r.Some? && r.value != Choice(route, 0) {
      var best := FirstMin(CandOts(cands, pa, pb, k, k, sc), DblMax);
      assert cands[best] in cands;
      SpliceIsWalk(route, a, b, fronts, cands[best]);
      SpliceSplitsOnce(route, a, b, fronts, cands[best]);
    }
  }

  /** `ssotd(source, destination, pids, optimization)`: as for the
      arbitrary-disjointness driver, with the single-detour `ssotd_route`. */
  method Ssotd(adj: Graph, source: int, destination: int, pids: seq<int>, draws: seq<int>,
               opt: Option<Optimization>, sc: Psych.Scorer, airline: (int, int) -> NonNegReal,
               routes: map<int, seq<Link>>, fuel: nat)
    returns (r: Option<map<int, seq<Link>>>, ghost reference: seq<Link>, ghost choice: Choice)
    requires ValidGraph(adj) && 0 <= source < |adj| && 0 <= destination < |adj| && |draws| == |pids|
    ensures r.Some? ==> IsWalk(reference, source, destination) && 0 < |reference| <= MaxOriginalRouteLinks
    ensures r.Some? ==> choice == Choice(reference, 0) || IsWalk(choice.links, source, destination)
    ensures r.Some? ==> Assigned(routes, pids, draws, UsageShare(choice.usage, |pids|), choice.links, reference, r.value)
    ensures r.Some? ==> forall p :: p in routes && p !in pids ==> p in r.value && r.value[p] == routes[p]
    ensures r.Some? ==> forall p :: p in pids ==> p in r.value && IsWalk(r.value[p], source, destination)
  {
    var out := ShortestPaths.Dijkstra(adj, source, destination, None, fuel);
    if !out.Found? || |out.links| > MaxOriginalRouteLinks {
      return None, [], Choice([], 0);
    }
    var orig := Data.RouteOf(out.links);
    var k := |pids|;
    var res, boundAt, runs, fronts, pa, pb, ctx, bestAs, bestBs, filled := SsotdRoute(adj, source, destination, orig, k, opt, sc, airline, fuel);
    if res.None? {
      return None, [], Choice([], 0);
    }
    reference, choice := orig.links, res.value;
    var alt := res.value.links;
    var usage := UsageShare(res.value.usage, k);
    var placed := Assign(routes, pids, draws, usage, alt, orig.links);
    AssignedWalks(routes, pids, draws, usage, alt, orig.links, placed, source, destination);
    r := Some(placed);
  }
}
