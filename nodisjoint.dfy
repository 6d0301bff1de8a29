/** The arbitrary-disjointness driver (`ssotd_nodisjoint`): its lower
    bounds, the dynamic program that combines reference links and search
    bridges between route positions into fragments, the choice of the best
    fragment, and `ssotd_route` / `ssotd` themselves. */
module NoDisjoint {
  import opened Common
  import opened Network
  import opened Elements
  import opened Fragments
  import Pareto
  import Psych
  import Data
  import Reference
  import ShortestPaths
  import opened SsotdShared

  // ---------------------------------------------------------------------
  // Lower bounds
  // ---------------------------------------------------------------------

  /** `lower_bound_score_zero` for searches from `c`: nothing added. */
  function ZeroBound(ctx: RefCtx, c: int): Pareto.Bound
  {
    (par: Elem, v: int) => BoundValue(ctx, Fin(par.agg.a), Fin(par.agg.b), 0.0, 0.0, par, c, v)
  }

  /** `lower_bound_score_airline`: adds the airline coefficients from `v`
      to the destination `to` and from the origin `from` to `c`. */
  function AirlineBound(ctx: RefCtx, from: int, to: int, c: int, airline: (int, int) -> NonNegReal): Pareto.Bound
  {
    (par: Elem, v: int) =>
      var back := Airval(v, to, airline);
      var fwd := Airval(from, c, airline);
      BoundValue(ctx, XPlus(Fin(par.agg.a), XPlus(back.0, fwd.0)), XPlus(Fin(par.agg.b), XPlus(back.1, fwd.1)),
                 0.0, 0.0, par, c, v)
  }

  /** `lower_bound_score_dijkstra`: adds the forward bests at `c` and the
      backward bests at `v`. */
  function DijkstraBound(ctx: RefCtx, c: int, bestAs: seq<XReal>, bestBs: seq<XReal>,
                         fwdAs: seq<XReal>, fwdBs: seq<XReal>): Pareto.Bound
  {
    (par: Elem, v: int) =>
      BoundValue(ctx, XPlus(Fin(par.agg.a), XPlus(BestAt(fwdAs, c), BestAt(bestAs, v))),
                 XPlus(Fin(par.agg.b), XPlus(BestAt(fwdBs, c), BestAt(bestBs, v))), 0.0, 0.0, par, c, v)
  }

  /** With admissible bests (each no more than what any completion through
      the route before `c` and after `v` costs), the costs the Dijkstra
      bound scores are no more than those of the completed route: the
      bound never overestimates the costs it scores. */
  lemma DijkstraBoundAdmissible(par: Elem, c: int, v: int, bestAs: seq<XReal>, bestBs: seq<XReal>,
                                fwdAs: seq<XReal>, fwdBs: seq<XReal>, before: seq<Link>, after: seq<Link>)
    requires ShortestPaths.LowerBoundOf(BestAt(fwdAs, c), SumA(before))
    requires ShortestPaths.LowerBoundOf(BestAt(fwdBs, c), SumB(before))
    requires ShortestPaths.LowerBoundOf(BestAt(bestAs, v), SumA(after))
    requires ShortestPaths.LowerBoundOf(BestAt(bestBs, v), SumB(after))
    ensures var ea := XPlus(Fin(par.agg.a), XPlus(BestAt(fwdAs, c), BestAt(bestAs, v)));
            var eb := XPlus(Fin(par.agg.b), XPlus(BestAt(fwdBs, c), BestAt(bestBs, v)));
            ea.Fin? && eb.Fin? &&
            ea.v <= SumA(before) + par.agg.a + SumA(after) && eb.v <= SumB(before) + par.agg.b + SumB(after)
  {
  }

  /** The bests `Configure` fills for the Dijkstra options are admissible
      once both fills ran to the end: for any walk from the origin to the
      anchor `c` and any walk from `v` to the destination, the bound scores
      costs no more than those of the route through the element. */
  lemma FilledBoundAdmissible(adj: Graph, a: int, b: int, bestAs: seq<XReal>, bestBs: seq<XReal>,
                              fwdAs: seq<XReal>, fwdBs: seq<XReal>, par: Elem, c: int, v: int,
                              before: seq<Link>, after: seq<Link>)
    requires BackwardBests(adj, b, bestAs, bestBs, true) && ForwardBests(adj, a, fwdAs, fwdBs, true)
    requires IsWalk(before, a, c) && InGraph(adj, before) && IsWalk(after, v, b) && InGraph(adj, after)
    ensures var ea := XPlus(Fin(par.agg.a), XPlus(BestAt(fwdAs, c), BestAt(bestAs, v)));
            var eb := XPlus(Fin(par.agg.b), XPlus(BestAt(fwdBs, c), BestAt(bestBs, v)));
            ea.Fin? && eb.Fin? &&
            ea.v <= SumA(before) + par.agg.a + SumA(after) && eb.v <= SumB(before) + par.agg.b + SumB(after)
  {
    DijkstraBoundAdmissible(par, c, v, bestAs, bestBs, fwdAs, fwdBs, before, after);
  }

  // ---------------------------------------------------------------------
  // The dynamic program
  // ---------------------------------------------------------------------

  /** The fragments the DP can assemble for position i: the empty fragment
      at 0; at i > 0, a fragment for position i - 1 followed by link i - 1,
      or a fragment for some position j < i followed by a bridge of front
      (j, i). */
  ghost predicate Assembled(route: seq<Link>, fronts: Fronts, i: nat, g: Frag)
    decreases i
  {
    if i == 0 then g == EmptyFrag
    else
      g.Composite? && |g.components| == 2 && i <= |route| &&
      ((Assembled(route, fronts, i - 1, g.components[0]) && g.components[1] == LinkFrag(route[i - 1], i - 1)) ||
       (exists j: nat :: j < i && Assembled(route, fronts, j, g.components[0]) &&
                         g.components[1] in FrontOf(fronts, j, i)))
  }

  /** Every fragment of the row walks from s to t. */
  ghost predicate Walks(row: seq<Frag>, s: int, t: int)
  {
    forall f :: f in row ==> IsWalk(Mat(f), s, t)
  }

  /** A DP row: nonempty, mutually non-dominating, and walking from s to t. */
  ghost predicate RowOk(row: seq<Frag>, s: int, t: int, d: int)
  {
    |row| > 0 && Antichain(row, d) && Walks(row, s, t)
  }

  /** A covering fragment of `Pair(x, t)` also covers `Pair(f, t)` when `x`
      covers `f`. */
  lemma CoverLift(row: seq<Frag>, x: Frag, f: Frag, t: Frag, d: int)
    requires Covers(row, Pair(x, t), d)
    requires x == f || FragDom(x, f, d)
    ensures Covers(row, Pair(f, t), d)
  {
    if x != f {
      PairMonotone(x, f, t, d);
      var y :| y in row && (y == Pair(x, t) || FragDom(y, Pair(x, t), d));
      Psych.DominanceOrders(ParElem(y, d), ParElem(Pair(x, t), d), ParElem(Pair(f, t), d));
    }
  }

  /** When every fragment of `heads` followed by `t` is covered, so is
      every fragment `heads` covers followed by `t`. */
  lemma CoverLiftRow(row: seq<Frag>, heads: seq<Frag>, f: Frag, t: Frag, d: int)
    requires Covers(heads, f, d)
    requires forall h :: h in heads ==> Covers(row, Pair(h, t), d)
    ensures Covers(row, Pair(f, t), d)
  {
    var x :| x in heads && (x == f || FragDom(x, f, d));
    CoverLift(row, x, f, t, d);
  }

  /** The composition loop for one head: `insert_and_dominate(A[i],
      Composite(head, tail))` for every tail in order. */
  method OfferTails(row: seq<Frag>, head: Frag, tails: seq<Frag>, d: int, ghost s: int, ghost m: int, ghost t: int)
    returns (row': seq<Frag>)
    requires Antichain(row, d) && Walks(row, s, t)
    requires IsWalk(Mat(head), s, m) && Walks(tails, m, t)
    ensures Antichain(row', d) && Walks(row', s, t)
    ensures |row| > 0 || |tails| > 0 ==> |row'| > 0
    ensures forall g :: Covers(row, g, d) ==> Covers(row', g, d)
    ensures forall b :: b in tails ==> Covers(row', Pair(head, b), d)
  {
    row' := row;
    for bi := 0 to |tails|
      invariant Antichain(row', d) && Walks(row', s, t)
      invariant |row| > 0 || bi > 0 ==> |row'| > 0
      invariant forall g :: Covers(row, g, d) ==> Covers(row', g, d)
      invariant forall b :: b in tails[..bi] ==> Covers(row', Pair(head, b), d)
    {
      var frag := Pair(head, tails[bi]);
      assert tails[bi] in tails;
      PairMat(head, tails[bi]);
      WalkAppend(Mat(head), Mat(tails[bi]), s, m, t);
      InsertKeepsAntichain(row', frag, d);
      var next, inserted := InsertAndDominate(row', frag, d);
      forall g | Covers(row', g, d) || g == frag
        ensures Covers(next, g, d)
      {
        InsertCovers(row', frag, d, g);
      }
      assert tails[..bi + 1] == tails[..bi] + [tails[bi]];
      row' := next;
    }
    assert tails[..|tails|] == tails;
  }

  /** The composition loop over heads and tails. */
  method OfferPairs(row: seq<Frag>, heads: seq<Frag>, tails: seq<Frag>, d: int,
                    ghost s: int, ghost m: int, ghost t: int)
    returns (row': seq<Frag>)
    requires Antichain(row, d) && Walks(row, s, t)
    requires Walks(heads, s, m) && Walks(tails, m, t)
    ensures Antichain(row', d) && Walks(row', s, t)
    ensures |row| > 0 || (|heads| > 0 && |tails| > 0) ==> |row'| > 0
    ensures forall g :: Covers(row, g, d) ==> Covers(row', g, d)
    ensures forall h, b :: h in heads && b in tails ==> Covers(row', Pair(h, b), d)
  {
    row' := row;
    for hi := 0 to |heads|
      invariant Antichain(row', d) && Walks(row', s, t)
      invariant |row| > 0 || (hi > 0 && |tails| > 0) ==> |row'| > 0
      invariant forall g :: Covers(row, g, d) ==> Covers(row', g, d)
      invariant forall h, b :: h in heads[..hi] && b in tails ==> Covers(row', Pair(h, b), d)
    {
      assert heads[hi] in heads;
      var next := OfferTails(row', heads[hi], tails, d, s, m, t);
      assert heads[..hi + 1] == heads[..hi] + [heads[hi]];
      row' := next;
    }
    assert heads[..|heads|] == heads;
  }

  /** Row i of the DP: every fragment of row i - 1 followed by link i - 1,
      then, for j = 0 .. i - 1, every fragment of row j followed by every
      bridge of front (j, i). The row covers every fragment the DP can
      assemble for position i. */
  method BuildRow(route: seq<Link>, a: int, fronts: Fronts, A: seq<seq<Frag>>, i: int, d: int)
    returns (row: seq<Frag>)
    requires Connected(route) && NodeAt(route, a, 0) == a && FrontsOk(route, a, fronts) && 0 < i <= |route| && |A| == i
    requires forall h :: 0 <= h < i ==> RowOk(A[h], a, NodeAt(route, a, h), d)
    requires forall h, g :: 0 <= h < i && Assembled(route, fronts, h, g) ==> Covers(A[h], g, d)
    ensures RowOk(row, a, NodeAt(route, a, i), d)
    ensures forall g :: Assembled(route, fronts, i, g) ==> Covers(row, g, d)
  {
    var s, t := a, NodeAt(route, a, i);
    var link := LinkFrag(route[i - 1], i - 1);
    assert IsWalk(Mat(link), NodeAt(route, a, i - 1), t) by {
      if i < |route| {
        assert route[i - 1].to == route[i].from;
      }
    }
    row := OfferPairs([], A[i - 1], [link], d, s, NodeAt(route, a, i - 1), t);
    forall f | Assembled(route, fronts, i - 1, f)
      ensures Covers(row, Pair(f, link), d)
    {
      assert link in [link];
      CoverLiftRow(row, A[i - 1], f, link, d);
    }
    var j := 0;
    while j < i
      invariant 0 <= j <= i
      invariant RowOk(row, s, t, d)
      invariant forall f :: Assembled(route, fronts, i - 1, f) ==> Covers(row, Pair(f, link), d)
      invariant forall jj: nat, f, b :: jj < j && Assembled(route, fronts, jj, f) && b in FrontOf(fronts, jj, i)
                  ==> Covers(row, Pair(f, b), d)
    {
      var bridges := FrontOf(fronts, j, i);
      assert Walks(bridges, NodeAt(route, a, j), t) by {
        if (j, i) in fronts {
          assert FrontOk(route, a, j, i, fronts[(j, i)]);
        }
      }
      var next := OfferPairs(row, A[j], bridges, d, s, NodeAt(route, a, j), t);
      forall f, b | Assembled(route, fronts, j, f) && b in bridges
        ensures Covers(next, Pair(f, b), d)
      {
        CoverLiftRow(next, A[j], f, b, d);
      }
      row := next;
      j := j + 1;
    }
    forall g | Assembled(route, fronts, i, g)
      ensures Covers(row, g, d)
    {
      assert g.components == [g.components[0], g.components[1]];
      assert g == Pair(g.components[0], g.components[1]);
    }
  }

  /** What the DP of `ssotd_route` computes from the fronts: A[0] holds
      the empty fragment, and every row is nonempty, free of strongly
      dominated pairs, made of walks from the start to its position, and
      covers (holds or strongly dominates) every fragment the DP can
      assemble for that position. */
  ghost predicate Combined(route: seq<Link>, a: int, fronts: Fronts, d: int, A: seq<seq<Frag>>)
  {
    |A| == |route| + 1 && A[0] == [EmptyFrag] &&
    (forall i :: 0 <= i <= |route| ==> RowOk(A[i], a, NodeAt(route, a, i), d)) &&
    (forall i, g :: 0 <= i <= |route| && Assembled(route, fronts, i, g) ==> Covers(A[i], g, d))
  }

  /** The DP of `ssotd_route`. */
  method Combine(route: seq<Link>, a: int, fronts: Fronts, d: int) returns (A: seq<seq<Frag>>)
    requires Connected(route) && NodeAt(route, a, 0) == a && FrontsOk(route, a, fronts)
    ensures Combined(route, a, fronts, d, A)
  {
    A := [[EmptyFrag]];
    assert Antichain([EmptyFrag], d);
    assert EmptyFrag in [EmptyFrag];
    assert Covers([EmptyFrag], EmptyFrag, d);
    var i := 1;
    while i <= |route|
      invariant 1 <= i <= |route| + 1 && |A| == i && A[0] == [EmptyFrag]
      invariant forall h :: 0 <= h < i ==> RowOk(A[h], a, NodeAt(route, a, h), d)
      invariant forall h, g :: 0 <= h < i && Assembled(route, fronts, h, g) ==> Covers(A[h], g, d)
    {
      var row := BuildRow(route, a, fronts, A, i, d);
      A := A + [row];
      i := i + 1;
    }
  }

  // ---------------------------------------------------------------------
  // Selecting the best fragment
  // ---------------------------------------------------------------------

  /** The costs `score_route` is given for a fragment. */
  function FragCosts(f: Frag, orig: Data.Route, d: int): Psych.Costs
  {
    var g := FragAgg(f, d);
    Psych.Costs(g.a, g.b, orig.a, orig.b, g.sa, g.sb)
  }

  function Ots(row: seq<Frag>, orig: Data.Route, k: int, d: int, sc: Psych.Scorer): (ots: seq<real>)
    ensures |ots| == |row|
  {
    seq(|row|, i requires 0 <= i < |row| => sc(FragCosts(row[i], orig, d), k).score)
  }

  /** The decision on a row: None when no fragment scores below DBL_MAX;
      otherwise, for the first fragment with the least score, the
      reference route with usage 0 when that score exceeds qot and the
      fragment's links and usage when it does not. */
  function Decision(row: seq<Frag>, orig: Data.Route, k: int, d: int, qot: real, sc: Psych.Scorer): Option<Choice>
  {
    var b := FirstMin(Ots(row, orig, k, d, sc), DblMax);
    if b == -1 then None
    else if sc(FragCosts(row[b], orig, d), k).score > qot then Some(Choice(orig.links, 0))
    else Some(Choice(Mat(row[b]), sc(FragCosts(row[b], orig, d), k).usage))
  }

  /** The best-fragment scan and the final decision. */
  method Decide(row: seq<Frag>, orig: Data.Route, k: int, d: int, qot: real, sc: Psych.Scorer)
    returns (r: Option<Choice>)
    ensures r == Decision(row, orig, k, d, qot, sc)
  {
    var ots := Ots(row, orig, k, d, sc);
    var best, bestOt := FirstMinBelow(ots, DblMax);
    if best == -1 {
      return None;
    }
    var usage := sc(FragCosts(row[best], orig, d), k).usage;
    if bestOt > qot {
      return Some(Choice(orig.links, 0));
    }
    return Some(Choice(Mat(row[best]), usage));
  }

  /** The chosen fragment scores no worse than any fragment of the row,
      and strictly better than every fragment before it. */
  lemma DecideIsBest(row: seq<Frag>, orig: Data.Route, k: int, d: int, sc: Psych.Scorer)
    ensures var ots := Ots(row, orig, k, d, sc);
            var b := FirstMin(ots, DblMax);
            b != -1 ==> (forall j :: 0 <= j < |row| ==> ots[b] <= ots[j]) && (forall j :: 0 <= j < b ==> ots[b] < ots[j])
    ensures var ots := Ots(row, orig, k, d, sc);
            FirstMin(ots, DblMax) == -1 <==> forall j :: 0 <= j < |row| ==> ots[j] >= DblMax
  {
  }

  /** The bound every search of an option uses from anchor `c`. */
  function BoundFor(opt: Optimization, ctx: RefCtx, a: int, b: int, airline: (int, int) -> NonNegReal,
                    bestAs: seq<XReal>, bestBs: seq<XReal>, fwdAs: seq<XReal>, fwdBs: seq<XReal>)
    : (r: int -> Option<Pareto.Bound>)
    ensures opt == NoOpt ==> forall c :: r(c).None?
    ensures opt != NoOpt ==> forall c :: r(c).Some?
  {
    match opt
    case NoOpt => (c: int) => None
    case SimpleLocalOpt => (c: int) => Some(ZeroBound(ctx, c))
    case AirlineLocalOpt => (c: int) => Some(AirlineBound(ctx, a, b, c, airline))
    case AirlineAstarOpt => (c: int) => Some(AirlineBound(ctx, a, b, c, airline))
    case DijkstraLocalOpt => (c: int) => Some(DijkstraBound(ctx, c, bestAs, bestBs, fwdAs, fwdBs))
    case DijkstraAstarOpt => (c: int) => Some(DijkstraBound(ctx, c, bestAs, bestBs, fwdAs, fwdBs))
  }

  /** The queue order of an option: the A* orders for the two A* options,
      `standard_prio` otherwise. */
  function PrioFor(opt: Optimization, ctx: RefCtx, b: int, airline: (int, int) -> NonNegReal,
                   bestAs: seq<XReal>, bestBs: seq<XReal>, d: int): (prio: Pareto.Prio)
    ensures Pareto.StrictOrder(prio)
    ensures opt != AirlineAstarOpt && opt != DijkstraAstarOpt ==> prio == Pareto.StandardPrio()
  {
    Pareto.StandardPrioStrict();
    match opt
    case AirlineAstarOpt => AstarPrioAirline(ctx, b, airline, d)
    case DijkstraAstarOpt => AstarPrioDijkstra(ctx, bestAs, bestBs, d)
    case _ => Pareto.StandardPrio()
  }

  /** The preparation of `ssotd_route` for an option: the reference route
      prepared, the bests the option asks for (backward and forward
      Dijkstra bests, or zero airline bests), and from them the bound of
      every anchor and the queue order. Only the option without
      optimization has no bound. The context and the bests are handed back
      as ghosts so that callers can name the bound. */
  method Configure(adj: Graph, a: int, b: int, orig: Data.Route, k: nat, o: Optimization, sc: Psych.Scorer,
                   airline: (int, int) -> NonNegReal, fuel: nat)
    returns (bounds: int -> Option<Pareto.Bound>, prio: Pareto.Prio, ghost ctx: RefCtx,
             ghost bestAs: seq<XReal>, ghost bestBs: seq<XReal>, ghost fwdAs: seq<XReal>, ghost fwdBs: seq<XReal>,
             ghost filled: bool)
    requires ValidGraph(adj) && 0 <= a < |adj| && 0 <= b < |adj| && |orig.links| > 0
    ensures PreparedCtx(ctx, orig, k, sc)
    ensures bounds == BoundFor(o, ctx, a, b, airline, bestAs, bestBs, fwdAs, fwdBs)
    ensures prio == PrioFor(o, ctx, b, airline, bestAs, bestBs, k)
    ensures o == NoOpt <==> forall c :: bounds(c).None?
    ensures (o == DijkstraLocalOpt || o == DijkstraAstarOpt) ==>
              BackwardBests(adj, b, bestAs, bestBs, filled) && ForwardBests(adj, a, fwdAs, fwdBs, filled)
    ensures (o == AirlineLocalOpt || o == AirlineAstarOpt) ==> ZeroBests(adj, bestAs, bestBs)
  {
    var rr := new Reference.ReferenceRoute();
    var inactive := rr.Prepare(orig.links, {});
    var context := RefCtx(orig, rr.nodeIndex, rr.origPartA, rr.origPartB, k, sc);
    var back := new ShortestPaths.BestPars();
    var fwd := new ShortestPaths.BestPars();
    var done := false;
    if o == DijkstraLocalOpt || o == DijkstraAstarOpt {
      var c1 := back.FillBestParsDijkstra(adj, b, {}, fuel);
      var c2 := fwd.FillBestParsForward(adj, a, {}, fuel);
      done := c1 && c2;
    } else if o == AirlineLocalOpt || o == AirlineAstarOpt {
      back.bestAs, back.bestBs := seq(|adj|, _ => Fin(0.0)), seq(|adj|, _ => Fin(0.0));
    }
    bounds := BoundFor(o, context, a, b, airline, back.bestAs, back.bestBs, fwd.bestAs, fwd.bestBs);
    prio := PrioFor(o, context, b, airline, back.bestAs, back.bestBs, k);
    ctx, bestAs, bestBs, fwdAs, fwdBs, filled := context, back.bestAs, back.bestBs, fwd.bestAs, fwd.bestBs, done;
    assert o != NoOpt ==> bounds(a).Some?;
  }

  /** `ssotd_route(a, b, original, k, optimization)` with k persons (who are
      also the number of agents): prepares the reference route, computes
      the fronts, runs the DP and decides. An option that is not one of the
      accepted strings leaves no search to call: None on a nonempty
      route. */
  method SsotdRoute(adj: Graph, a: int, b: int, orig: Data.Route, k: nat, opt: Option<Optimization>,
                    sc: Psych.Scorer, airline: (int, int) -> NonNegReal, fuel: nat)
    returns (r: Option<Choice>, ghost boundAt: int -> Option<Pareto.Bound>, ghost runs: seq<SearchRun>,
             ghost fronts: Fronts, ghost A: seq<seq<Frag>>, ghost ctx: RefCtx,
             ghost bestAs: seq<XReal>, ghost bestBs: seq<XReal>, ghost fwdAs: seq<XReal>, ghost fwdBs: seq<XReal>,
             ghost filled: bool)
    requires ValidGraph(adj) && 0 <= a < |adj| && 0 <= b < |adj|
    requires |orig.links| > 0 && IsWalk(orig.links, a, b) && InGraph(adj, orig.links)
    ensures opt.None? ==> r.None?
    ensures opt.Some? ==>
              PreparedCtx(ctx, orig, k, sc) &&
              boundAt == BoundFor(opt.value, ctx, a, b, airline, bestAs, bestBs, fwdAs, fwdBs) &&
              ((opt.value == DijkstraLocalOpt || opt.value == DijkstraAstarOpt) ==>
                 BackwardBests(adj, b, bestAs, bestBs, filled) && ForwardBests(adj, a, fwdAs, fwdBs, filled)) &&
              ((opt.value == AirlineLocalOpt || opt.value == AirlineAstarOpt) ==> ZeroBests(adj, bestAs, bestBs)) &&
              (opt.value == NoOpt <==> forall c :: boundAt(c).None?) &&
              FrontsFrom(adj, orig.links, a, k, boundAt, runs, fronts) &&
              Combined(orig.links, a, fronts, k, A) &&
              r == Decision(A[|orig.links|], orig, k, k, k as real * Latency(orig.a, orig.b, k as real), sc)
    ensures r.Some? ==> r.value == Choice(orig.links, 0) || IsWalk(r.value.links, a, b)
  {
    if opt.None? {
      return None, (c: int) => None, [], map[], [], RefCtx(orig, map[], [], [], k, sc), [], [], [], [], false;
    }
    var route := orig.links;
    var qot := k as real * Latency(orig.a, orig.b, k as real);
    var bounds, prio, cx, bA, bB, fA, fB, done := Configure(adj, a, b, orig, k, opt.value, sc, airline, fuel);
    var fr, upper, complete, rs := AssembleFronts(adj, route, a, k, qot, true, bounds, prio, fuel);
    var table := Combine(route, a, fr, k);
    boundAt, runs, fronts, A := bounds, rs, fr, table;
    ctx, bestAs, bestBs, fwdAs, fwdBs, filled := cx, bA, bB, fA, fB, done;
    assert NodeAt(route, a, |route|) == b;
    r := Decide(table[|route|], orig, k, k, qot, sc);
    if r.Some? && r.value != Choice(orig.links, 0) {
      var best := FirstMin(Ots(table[|route|], orig, k, k, sc), DblMax);
      assert table[|route|][best] in table[|route|];
    }
  }

  /** `ssotd(source, destination, pids, optimization)`: the reference route
      is the shortest free-flow route; a route longer than 1024 links, an
      unreachable destination, or a failing `ssotd_route` is an error
      (None); otherwise every person is assigned by its draw, with the
      usage normalised by the number of persons. */
  method Ssotd(adj: Graph, source: int, destination: int, pids: seq<int>, draws: seq<int>,
               opt: Option<Optimization>, sc: Psych.Scorer, airline: (int, int) -> NonNegReal,
               routes: map<int, seq<Link>>, fuel: nat)
    returns (r: Option<map<int, seq<Link>>>, ghost reference: seq<Link>, ghost choice: Choice)
    requires ValidGraph(adj) && 0 <= source < |adj| && 0 <= destination < |adj| && |draws| == |pids|
    ensures r.Some? ==> IsWalk(reference, source, destination) && 0 < |reference| <= MaxOriginalRouteLinks
    ensures r.Some? ==> choice == Choice(reference, 0) || IsWalk(choice.links, source, destination)
    ensures r.Some? ==> Assigned(routes, pids, draws, UsageShare(choice.usage, |pids|), choice.links, reference, r.value)
    ensures r.Some? ==> forall p :: p in routes && p !in pids ==> p in r.value && r.value[p] == routes[p]
    ensures r.Some? ==> forall p :: p in pids ==> p in r.value && IsWalk(r.value[p], source, destination)
  {
    var out := ShortestPaths.Dijkstra(adj, source, destination, None, fuel);
    if !out.Found? || |out.links| > MaxOriginalRouteLinks {
      return None, [], Choice([], 0);
    }
    var orig := Data.RouteOf(out.links);
    var k := |pids|;
    var res, boundAt, runs, fronts, A, ctx, bestAs, bestBs, fwdAs, fwdBs, filled := SsotdRoute(adj, source, destination, orig, k, opt, sc, airline, fuel);
    if res.None? {
      return None, [], Choice([], 0);
    }
    reference, choice := orig.links, res.value;
    var alt := res.value.links;
    var usage := UsageShare(res.value.usage, k);
    var placed := Assign(routes, pids, draws, usage, alt, orig.links);
    AssignedWalks(routes, pids, draws, usage, alt, orig.links, placed, source, destination);
    r := Some(placed);
  }
}
