/** The scorers of the evolutionary router. Both distribute the k agents of
    an individual over its routes and score the result by the total travel
    time Σ flow·latency(flow) over the used links: the Frank-Wolfe scorer
    approaches the user equilibrium by line searches along the direction
    of the currently fastest route, the simulation scorer sends the agents
    one at a time to the currently fastest route. */
module EaScoring {
  import opened Common
  import opened Network
  import Data
  import opened EaData
  import opened EaUtil

  // ---------------------------------------------------------------------
  // Flows

  /** The flow `f` agents on a route put on `l`: `f` for every time the
      route crosses `l`. */
  function Carried(l: Link, links: seq<Link>, f: real): real
  {
    if |links| == 0 then 0.0
    else Carried(l, links[..|links| - 1], f) + (if links[|links| - 1] == l then f else 0.0)
  }

  lemma CarriedSnoc(l: Link, xs: seq<Link>, x: Link, f: real)
    ensures Carried(l, xs + [x], f) == Carried(l, xs, f) + (if x == l then f else 0.0)
  {
    assert (xs + [x])[..|xs|] == xs;
  }

  /** What a route carries is additive in its flow. */
  lemma {:induction false} CarriedAdd(l: Link, links: seq<Link>, f: real, g: real)
    ensures Carried(l, links, f + g) == Carried(l, links, f) + Carried(l, links, g)
  {
    if |links| > 0 {
      CarriedAdd(l, links[..|links| - 1], f, g);
    }
  }

  lemma {:induction false} CarriedZero(l: Link, links: seq<Link>)
    ensures Carried(l, links, 0.0) == 0.0
  {
    if |links| > 0 {
      CarriedZero(l, links[..|links| - 1]);
    }
  }

  /** A route with non-negative flow carries non-negative flow. */
  lemma {:induction false} CarriedNonNeg(l: Link, links: seq<Link>, f: real)
    requires f >= 0.0
    ensures Carried(l, links, f) >= 0.0
  {
    if |links| > 0 {
      CarriedNonNeg(l, links[..|links| - 1], f);
    }
  }

  /** A route visiting no link twice carries its flow over each of its
      links once. */
  lemma {:induction false} CarriedDistinct(l: Link, links: seq<Link>, f: real)
    requires forall s, t :: 0 <= s < t < |links| ==> links[s] != links[t]
    ensures Carried(l, links, f) == if l in links then f else 0.0
  {
    if |links| > 0 {
      var n := |links| - 1;
      CarriedDistinct(l, links[..n], f);
      if links[n] == l {
        assert l !in links[..n];
      }
      assert links == links[..n] + [links[n]];
    }
  }

  /** The flow on `l` caused by `flow[i]` agents on each route i. */
  function EdgeFlowOf(routes: seq<Data.Route>, flow: seq<real>, l: Link): real
    requires |flow| == |routes|
  {
    if |routes| == 0 then 0.0
    else
      var n := |routes| - 1;
      EdgeFlowOf(routes[..n], flow[..n], l) + Carried(l, routes[n].links, flow[n])
  }

  lemma EdgeFlowStep(routes: seq<Data.Route>, flow: seq<real>, i: int, l: Link)
    requires |flow| == |routes| && 0 <= i < |routes|
    ensures EdgeFlowOf(routes[..i + 1], flow[..i + 1], l)
         == EdgeFlowOf(routes[..i], flow[..i], l) + Carried(l, routes[i].links, flow[i])
  {
    assert routes[..i + 1][..i] == routes[..i];
    assert flow[..i + 1][..i] == flow[..i];
  }

  /** The edge flows are the flows the route flows cause: exactly the links
      of the routes have an entry, and each holds its flow. */
  ghost predicate FlowsAgree(routes: seq<Data.Route>, u: Usage)
  {
    |u.routeFlow| == |routes| &&
    (forall l :: l in u.edgeFlow <==> l in AllLinks(routes)) &&
    forall l :: FlowAt(u.edgeFlow, l) == EdgeFlowOf(routes, u.routeFlow, l)
  }

  /** No flow is negative. */
  ghost predicate NonNegFlows(u: Usage)
  {
    (forall i :: 0 <= i < |u.routeFlow| ==> u.routeFlow[i] >= 0.0) &&
    forall l :: l in u.edgeFlow ==> u.edgeFlow[l] >= 0.0
  }

  /** Non-negative route flows cause non-negative edge flows. */
  lemma {:induction false} EdgeFlowNonNeg(routes: seq<Data.Route>, flow: seq<real>, l: Link)
    requires |flow| == |routes| && forall i :: 0 <= i < |flow| ==> flow[i] >= 0.0
    ensures EdgeFlowOf(routes, flow, l) >= 0.0
  {
    if |routes| > 0 {
      var n := |routes| - 1;
      EdgeFlowNonNeg(routes[..n], flow[..n], l);
      CarriedNonNeg(l, routes[n].links, flow[n]);
    }
  }

  /** Route flows that are zero except for `v` on route `c` cause exactly
      what `v` agents on route `c` carry. */
  lemma {:induction false} EdgeFlowSingle(routes: seq<Data.Route>, flow: seq<real>, c: int, v: real, l: Link)
    requires |flow| == |routes| && 0 <= c
    requires forall i :: 0 <= i < |flow| ==> flow[i] == if i == c then v else 0.0
    ensures EdgeFlowOf(routes, flow, l) == if c < |routes| then Carried(l, routes[c].links, v) else 0.0
  {
    if |routes| > 0 {
      var n := |routes| - 1;
      EdgeFlowSingle(routes[..n], flow[..n], c, v, l);
      if c < n {
        assert routes[..n][c] == routes[c];
      }
      if c != n {
        CarriedZero(l, routes[n].links);
      }
    }
  }

  /** Adding `d` to the flow of route `c` adds what `d` agents on route `c`
      carry to every edge flow. */
  lemma {:induction false} EdgeFlowBump(routes: seq<Data.Route>, flow: seq<real>, c: int, d: real, l: Link)
    requires |flow| == |routes| && 0 <= c < |routes|
    ensures EdgeFlowOf(routes, flow[c := flow[c] + d], l) == EdgeFlowOf(routes, flow, l) + Carried(l, routes[c].links, d)
  {
    var n := |routes| - 1;
    var flow' := flow[c := flow[c] + d];
    if c == n {
      assert flow'[..n] == flow[..n];
      CarriedAdd(l, routes[n].links, flow[n], d);
    } else {
      assert flow'[..n] == flow[..n][c := flow[c] + d];
      EdgeFlowBump(routes[..n], flow[..n], c, d, l);
      assert routes[..n][c] == routes[c];
    }
  }

  /** `edgeFlow[l] += f` for every occurrence of `l` in `links`, a missing
      entry starting at 0. */
  method AddRouteFlow(edgeFlow: map<Link, real>, links: seq<Link>, f: real) returns (edgeFlow': map<Link, real>)
    ensures forall l :: l in edgeFlow' <==> l in edgeFlow || l in links
    ensures forall l :: FlowAt(edgeFlow', l) == FlowAt(edgeFlow, l) + Carried(l, links, f)
  {
    edgeFlow' := edgeFlow;
    for j := 0 to |links|
      invariant forall l :: l in edgeFlow' <==> l in edgeFlow || l in links[..j]
      invariant forall l :: FlowAt(edgeFlow', l) == FlowAt(edgeFlow, l) + Carried(l, links[..j], f)
    {
      var x := links[j];
      assert links[..j + 1] == links[..j] + [x];
      ghost var prev := edgeFlow';
      edgeFlow' := edgeFlow'[x := FlowAt(edgeFlow', x) + f];
      forall l
        ensures FlowAt(edgeFlow', l) == FlowAt(edgeFlow, l) + Carried(l, links[..j + 1], f)
      {
        CarriedSnoc(l, links[..j], x, f);
        if l != x {
          assert FlowAt(edgeFlow', l) == FlowAt(prev, l);
        }
      }
    }
    assert links[..|links|] == links;
  }

  /** `calcEdgeFlow`: recomputes the edge flows from the route flows. */
  method CalcEdgeFlow(indiv: Individual) returns (indiv': Individual)
    requires |indiv.u.routeFlow| == |indiv.routes|
    ensures indiv' == indiv.(u := indiv'.u) && indiv'.u.routeFlow == indiv.u.routeFlow
    ensures FlowsAgree(indiv'.routes, indiv'.u)
  {
    var ef := EdgeFlows(indiv.routes, indiv.u.routeFlow);
    indiv' := indiv.(u := indiv.u.(edgeFlow := ef));
  }

  /** The edge flows the route flows cause, accumulated route by route. */
  method EdgeFlows(routes: seq<Data.Route>, flow: seq<real>) returns (ef: map<Link, real>)
    requires |flow| == |routes|
    ensures forall l :: l in ef <==> l in AllLinks(routes)
    ensures forall l :: FlowAt(ef, l) == EdgeFlowOf(routes, flow, l)
  {
    ef := map[];
    for i := 0 to |routes|
      invariant forall l :: l in ef <==> l in AllLinks(routes[..i])
      invariant forall l :: FlowAt(ef, l) == EdgeFlowOf(routes[..i], flow[..i], l)
    {
      ghost var prev := ef;
      ef := AddRouteFlow(ef, routes[i].links, flow[i]);
      AllLinksStep(routes, i);
      forall l
        ensures FlowAt(ef, l) == EdgeFlowOf(routes[..i + 1], flow[..i + 1], l)
      {
        EdgeFlowStep(routes, flow, i, l);
      }
    }
    assert routes[..|routes|] == routes && flow[..|flow|] == flow;
  }

  /** Route flows summing to `k`. */
  function Zeros(n: nat): (z: seq<real>)
    ensures |z| == n && forall i :: 0 <= i < n ==> z[i] == 0.0
  {
    seq(n, _ => 0.0)
  }

  lemma {:induction false} SumZeros(n: nat)
    ensures Sum(Zeros(n)) == 0.0
  {
    if n > 0 {
      assert Zeros(n)[..n - 1] == Zeros(n - 1);
      SumZeros(n - 1);
    }
  }

  /** A sequence that is zero except for `v` at `c` sums to `v`. */
  lemma {:induction false} SumSingle(xs: seq<real>, c: int, v: real)
    requires 0 <= c < |xs| && xs[c] == v && forall i :: 0 <= i < |xs| && i != c ==> xs[i] == 0.0
    ensures Sum(xs) == v
  {
    var n := |xs| - 1;
    if c == n {
      assert xs[..n] == Zeros(n);
      SumZeros(n);
    } else {
      SumSingle(xs[..n], c, v);
    }
  }

  // ---------------------------------------------------------------------
  // calcInitialUsage

  /** Each route's free-flow travel time. */
  function FreeFlowTimes(routes: seq<Data.Route>): (ts: seq<real>)
    ensures |ts| == |routes|
  {
    seq(|routes|, i requires 0 <= i < |routes| => SumB(routes[i].links))
  }

  /** The map with a 0 entry for every link of the routes. */
  method ZeroEdgeFlow(routes: seq<Data.Route>) returns (ef: map<Link, real>)
    ensures forall l :: l in ef <==> l in AllLinks(routes)
    ensures forall l :: l in ef ==> ef[l] == 0.0
  {
    ef := map[];
    for i := 0 to |routes|
      invariant forall l :: l in ef <==> l in AllLinks(routes[..i])
      invariant forall l :: l in ef ==> ef[l] == 0.0
    {
      var links := routes[i].links;
      for j := 0 to |links|
        invariant forall l :: l in ef <==> l in AllLinks(routes[..i]) || l in links[..j]
        invariant forall l :: l in ef ==> ef[l] == 0.0
      {
        assert links[..j + 1] == links[..j] + [links[j]];
        ef := ef[links[j] := 0.0];
      }
      assert links[..|links|] == links;
      AllLinksStep(routes, i);
    }
    assert routes[..|routes|] == routes;
  }

  /** The latency of every route under `edgeFlow`, each read inserting the
      missing entries of its links as 0. */
  method Latencies(edgeFlow: map<Link, real>, routes: seq<Data.Route>) returns (lats: seq<real>, edgeFlow': map<Link, real>)
    ensures |lats| == |routes|
    ensures forall i :: 0 <= i < |routes| ==> lats[i] == RouteLatencyOf(edgeFlow, routes[i].links)
    ensures forall l :: FlowAt(edgeFlow', l) == FlowAt(edgeFlow, l)
    ensures forall l :: l in edgeFlow' <==> l in edgeFlow || l in AllLinks(routes)
  {
    lats, edgeFlow' := [], edgeFlow;
    for i := 0 to |routes|
      invariant |lats| == i
      invariant forall t :: 0 <= t < i ==> lats[t] == RouteLatencyOf(edgeFlow, routes[t].links)
      invariant forall l :: FlowAt(edgeFlow', l) == FlowAt(edgeFlow, l)
      invariant forall l :: l in edgeFlow' <==> l in edgeFlow || l in AllLinks(routes[..i])
    {
      var lat, next := RouteLatency(edgeFlow', routes[i].links);
      RouteLatencySameFlows(edgeFlow', edgeFlow, routes[i].links);
      LatenciesStep(edgeFlow, edgeFlow', next, routes, i);
      lats, edgeFlow' := lats + [lat], next;
    }
    assert routes[..|routes|] == routes;
  }

  /** Reading route i's latency (which adds its missing links as 0) keeps
      the flows read and adds route i's links to the keys. */
  lemma LatenciesStep(edgeFlow: map<Link, real>, cur: map<Link, real>, next: map<Link, real>,
                      routes: seq<Data.Route>, i: int)
    requires 0 <= i < |routes|
    requires forall l :: FlowAt(cur, l) == FlowAt(edgeFlow, l)
    requires forall l :: l in cur <==> l in edgeFlow || l in AllLinks(routes[..i])
    requires forall l :: l in next <==> l in cur || l in routes[i].links
    requires forall l :: l in cur ==> next[l] == cur[l]
    requires forall l :: l in next && l !in cur ==> next[l] == 0.0
    ensures forall l :: FlowAt(next, l) == FlowAt(edgeFlow, l)
    ensures forall l :: l in next <==> l in edgeFlow || l in AllLinks(routes[..i + 1])
  {
    AllLinksStep(routes, i);
  }

  /** `calcInitialUsage`: resets both usages and sends all k agents over
      the route of least free-flow travel time (the first one on ties):
      its route flow and the edge flow of its links become k, every other
      flow 0. */
  method CalcInitialUsage(k: int, indiv: Individual) returns (indiv': Individual)
    requires |indiv.routes| > 0
    ensures indiv'.routes == indiv.routes && indiv'.score == indiv.score
    ensures indiv'.oldUsage == Usage(Zeros(|indiv.routes|), map[])
    ensures var c := MinElement(FreeFlowTimes(indiv.routes));
            indiv'.u.routeFlow == Zeros(|indiv.routes|)[c := k as real] &&
            (forall l :: l in indiv'.u.edgeFlow <==> l in AllLinks(indiv.routes)) &&
            (forall l :: l in indiv'.u.edgeFlow ==>
               indiv'.u.edgeFlow[l] == if l in indiv.routes[c].links then k as real else 0.0)
  {
    var routes := indiv.routes;
    var ef := ZeroEdgeFlow(routes);
    var lats, ef1 := Latencies(ef, routes);
    ZeroFlowLatencies(ef, routes, lats);
    var c := MinElement(lats);
    var chosen := routes[c].links;
    var ef2 := ef1;
    forall l | l in ef2
      ensures ef2[l] == 0.0
    {
      assert FlowAt(ef1, l) == FlowAt(ef, l);
    }
    forall l | l in chosen
      ensures l in ef2
    {
      AllLinksContains(routes, c, l);
    }
    ef2 := LoadLinks(ef2, chosen, k as real);
    var flow := Zeros(|routes|)[c := k as real];
    indiv' := indiv.(u := Usage(flow, ef2), oldUsage := Usage(Zeros(|routes|), map[]));
  }

  /** The edge-flow loop of `calcInitialUsage`: every link of `links` gets
      flow `x`; the other entries and the key set stay. */
  method LoadLinks(ef: map<Link, real>, links: seq<Link>, x: real) returns (ef': map<Link, real>)
    requires forall l :: l in links ==> l in ef
    ensures ef'.Keys == ef.Keys
    ensures forall l :: l in ef' ==> ef'[l] == if l in links then x else ef[l]
  {
    ef' := ef;
    for j := 0 to |links|
      invariant ef'.Keys == ef.Keys
      invariant forall l :: l in ef' ==> ef'[l] == if l in links[..j] then x else ef[l]
    {
      assert links[..j + 1] == links[..j] + [links[j]];
      ef' := ef'[links[j] := x];
    }
    assert links[..|links|] == links;
  }

  /** Under the all-zero edge flow every route's latency is its free-flow
      travel time. */
  lemma ZeroFlowLatencies(ef: map<Link, real>, routes: seq<Data.Route>, lats: seq<real>)
    requires forall l :: l in ef <==> l in AllLinks(routes)
    requires forall l :: l in ef ==> ef[l] == 0.0
    requires |lats| == |routes|
    requires forall i :: 0 <= i < |routes| ==> lats[i] == RouteLatencyOf(ef, routes[i].links)
    ensures lats == FreeFlowTimes(routes)
  {
    forall i | 0 <= i < |routes|
      ensures lats[i] == FreeFlowTimes(routes)[i]
    {
      forall l | l in routes[i].links
        ensures FlowAt(ef, l) == 0.0
      {
        assert l in AllLinks(routes) by {
          AllLinksContains(routes, i, l);
        }
      }
      RouteLatencyAtLeastFreeFlow(ef, routes[i].links);
    }
  }

  /** Every link of route i is among all the links. */
  lemma {:induction false} AllLinksContains(routes: seq<Data.Route>, i: int, l: Link)
    requires 0 <= i < |routes| && l in routes[i].links
    ensures l in AllLinks(routes)
  {
    var n := |routes| - 1;
    if i < n {
      AllLinksContains(routes[..n], i, l);
    }
  }

  /** The initial usage puts exactly k agents on the routes, none of its
      flows is negative when k is not, and when the chosen route `c`
      visits no link twice its edge flows are the flows its route flows
      cause. */
  lemma InitialUsageAgrees(routes: seq<Data.Route>, u: Usage, k: int, c: int)
    requires 0 <= c < |routes|
    requires u.routeFlow == Zeros(|routes|)[c := k as real]
    requires forall l :: l in u.edgeFlow <==> l in AllLinks(routes)
    requires forall l :: l in u.edgeFlow ==> u.edgeFlow[l] == if l in routes[c].links then k as real else 0.0
    ensures Sum(u.routeFlow) == k as real
    ensures k >= 0 ==> NonNegFlows(u)
    ensures (forall s, t :: 0 <= s < t < |routes[c].links| ==> routes[c].links[s] != routes[c].links[t]) ==>
            FlowsAgree(routes, u)
  {
    SumSingle(u.routeFlow, c, k as real);
    var chosen := routes[c].links;
    if forall s, t :: 0 <= s < t < |chosen| ==> chosen[s] != chosen[t] {
      InitialFlowsAgree(routes, u, k, c);
    }
  }

  lemma InitialFlowsAgree(routes: seq<Data.Route>, u: Usage, k: int, c: int)
    requires 0 <= c < |routes|
    requires u.routeFlow == Zeros(|routes|)[c := k as real]
    requires forall l :: l in u.edgeFlow <==> l in AllLinks(routes)
    requires forall l :: l in u.edgeFlow ==> u.edgeFlow[l] == if l in routes[c].links then k as real else 0.0
    requires forall s, t :: 0 <= s < t < |routes[c].links| ==> routes[c].links[s] != routes[c].links[t]
    ensures FlowsAgree(routes, u)
  {
    forall l
      ensures FlowAt(u.edgeFlow, l) == EdgeFlowOf(routes, u.routeFlow, l)
    {
      EdgeFlowSingle(routes, u.routeFlow, c, k as real, l);
      CarriedDistinct(l, routes[c].links, k as real);
      if l in routes[c].links {
        AllLinksContains(routes, c, l);
      }
    }
  }

  // ---------------------------------------------------------------------
  // captureOldUsage

  /** `captureOldUsage`: copies every edge flow into the old usage (other
      old entries stay) and the first |routes| route flows. */
  method CaptureOldUsage(indiv: Individual) returns (indiv': Individual)
    requires |indiv.u.routeFlow| >= |indiv.routes| && |indiv.oldUsage.routeFlow| >= |indiv.routes|
    ensures indiv' == indiv.(oldUsage := indiv'.oldUsage)
    ensures indiv'.oldUsage.edgeFlow == indiv.oldUsage.edgeFlow + indiv.u.edgeFlow
    ensures indiv'.oldUsage.routeFlow
         == indiv.u.routeFlow[..|indiv.routes|] + indiv.oldUsage.routeFlow[|indiv.routes|..]
  {
    var ef := CopyEdgeFlows(indiv.oldUsage.edgeFlow, indiv.u.edgeFlow);
    var rf := CopyRouteFlows(indiv.oldUsage.routeFlow, indiv.u.routeFlow, |indiv.routes|);
    indiv' := indiv.(oldUsage := Usage(rf, ef));
  }

  /** The edge-flow loop of `captureOldUsage`, entry by entry. */
  method CopyEdgeFlows(target: map<Link, real>, source: map<Link, real>) returns (target': map<Link, real>)
    ensures target' == target + source
  {
    target' := target;
    var rest := source.Keys;
    while rest != {}
      invariant rest <= source.Keys
      invariant forall l :: l in target' <==> l in target || (l in source && l !in rest)
      invariant forall l :: l in target' ==>
                  target'[l] == if l in source && l !in rest then source[l] else target[l]
      decreases |rest|
    {
      var l :| l in rest;
      target' := target'[l := source[l]];
      rest := rest - {l};
    }
    MergeEq(target', target, source);
  }

  /** A map with the keys and values of `target + source` is that map. */
  lemma MergeEq(m: map<Link, real>, target: map<Link, real>, source: map<Link, real>)
    requires forall l :: l in m <==> l in target || l in source
    requires forall l :: l in m ==> m[l] == if l in source then source[l] else target[l]
    ensures m == target + source
  {
  }

  /** The route-flow loop of `captureOldUsage`: the first n entries. */
  method CopyRouteFlows(target: seq<real>, source: seq<real>, n: int) returns (target': seq<real>)
    requires 0 <= n <= |source| && n <= |target|
    ensures target' == source[..n] + target[n..]
  {
    target' := target;
    for i := 0 to n
      invariant |target'| == |target|
      invariant target' == source[..i] + target[i..]
    {
      target' := target'[i := source[i]];
      assert target' == source[..i + 1] + target[i + 1..];
    }
  }

  // ---------------------------------------------------------------------
  // lineSearch, findGamma

  /** The coefficients of a quadratic A·γ² + B·γ + C. */
  datatype Quad = Quad(a: real, b: real, c: real)

  function Eval(q: Quad, g: real): real
  {
    q.a * g * g + q.b * g + q.c
  }

  function AddQuad(p: Quad, q: Quad): Quad
  {
    Quad(p.a + q.a, p.b + q.b, p.c + q.c)
  }

  lemma EvalAdd(p: Quad, q: Quad, g: real)
    ensures Eval(AddQuad(p, q), g) == Eval(p, g) + Eval(q, g)
  {
  }

  /** The flow on `l` at γ on the segment from `x` to `y`. */
  function Between(x: map<Link, real>, y: map<Link, real>, l: Link, g: real): real
  {
    (1.0 - g) * FlowAt(x, l) + g * FlowAt(y, l)
  }

  /** One link's share of the coefficients `lineSearch` accumulates, with
      d = y[l] - x[l]: a·d³, 2·a·x[l]·d² and (a·x[l]² + b)·d. */
  function LinkCoeffs(x: map<Link, real>, y: map<Link, real>, l: Link): Quad
  {
    var a, b, xl, d := LinkA(l), LinkB(l), FlowAt(x, l), FlowAt(y, l) - FlowAt(x, l);
    Quad(a * d * d * d, 2.0 * a * xl * d * d, (a * xl * xl + b) * d)
  }

  function Coeffs(x: map<Link, real>, y: map<Link, real>, keys: seq<Link>): Quad
  {
    if |keys| == 0 then Quad(0.0, 0.0, 0.0)
    else AddQuad(Coeffs(x, y, keys[..|keys| - 1]), LinkCoeffs(x, y, keys[|keys| - 1]))
  }

  /** One link's term of the objective: a/3·u³ + b·u at the flow u at γ,
      whose derivative in u is the link latency a·u² + b. */
  function LinkObjective(x: map<Link, real>, y: map<Link, real>, l: Link, g: real): real
  {
    var u := Between(x, y, l, g);
    LinkA(l) / 3.0 * u * u * u + LinkB(l) * u
  }

  /** The objective `lineSearch` compares at the ends of the interval. */
  function Objective(x: map<Link, real>, y: map<Link, real>, keys: seq<Link>, g: real): real
  {
    if |keys| == 0 then 0.0
    else Objective(x, y, keys[..|keys| - 1], g) + LinkObjective(x, y, keys[|keys| - 1], g)
  }

  /** One link's term of the slope: latency(u)·(y - x). */
  function LinkSlope(x: map<Link, real>, y: map<Link, real>, l: Link, g: real): real
  {
    LinkLatency(l, Between(x, y, l, g)) * (FlowAt(y, l) - FlowAt(x, l))
  }

  /** The derivative of the objective along the segment from x to y. */
  function Slope(x: map<Link, real>, y: map<Link, real>, keys: seq<Link>, g: real): real
  {
    if |keys| == 0 then 0.0
    else Slope(x, y, keys[..|keys| - 1], g) + LinkSlope(x, y, keys[|keys| - 1], g)
  }

  lemma PolySlope(a: real, b: real, x: real, y: real, g: real)
    ensures var u := (1.0 - g) * x + g * y; var d := y - x;
            (a * u * u + b) * d == (a * d * d * d) * g * g + (2.0 * a * x * d * d) * g + (a * x * x + b) * d
  {
  }

  /** Per link, the slope is the quadratic of the link's coefficients. */
  lemma LinkSlopeIsQuadratic(x: map<Link, real>, y: map<Link, real>, l: Link, g: real)
    ensures LinkSlope(x, y, l, g) == Eval(LinkCoeffs(x, y, l), g)
  {
    var a, b, xl, yl := LinkA(l), LinkB(l), FlowAt(x, l), FlowAt(y, l);
    PolySlope(a, b, xl, yl, g);
    LinkSlopeForm(x, y, l, g);
    LinkCoeffsForm(x, y, l, g);
  }

  lemma LinkSlopeForm(x: map<Link, real>, y: map<Link, real>, l: Link, g: real)
    ensures var u, d := (1.0 - g) * FlowAt(x, l) + g * FlowAt(y, l), FlowAt(y, l) - FlowAt(x, l);
            LinkSlope(x, y, l, g) == (LinkA(l) * u * u + LinkB(l)) * d
  {
  }

  lemma LinkCoeffsForm(x: map<Link, real>, y: map<Link, real>, l: Link, g: real)
    ensures var a, xl, d := LinkA(l), FlowAt(x, l), FlowAt(y, l) - FlowAt(x, l);
            Eval(LinkCoeffs(x, y, l), g) == (a * d * d * d) * g * g + (2.0 * a * xl * d * d) * g + (a * xl * xl + LinkB(l)) * d
  {
  }

  /** The accumulated coefficients are those of the slope: a root of the
      quadratic is a point where the objective is stationary. */
  lemma {:induction false} SlopeIsQuadratic(x: map<Link, real>, y: map<Link, real>, keys: seq<Link>, g: real)
    ensures Slope(x, y, keys, g) == Eval(Coeffs(x, y, keys), g)
  {
    if |keys| > 0 {
      var init, l := keys[..|keys| - 1], keys[|keys| - 1];
      SlopeIsQuadratic(x, y, init, g);
      LinkSlopeIsQuadratic(x, y, l, g);
      EvalAdd(Coeffs(x, y, init), LinkCoeffs(x, y, l), g);
    }
  }

  /** The two roots `gsl_poly_solve_quadratic` reports; a root it does not
      write is None, which no range check accepts. */
  type Roots = (Option<real>, Option<real>)

  predicate IsRoot(q: Quad, r: Option<real>)
  {
    r.Some? ==> Eval(q, r.value) == 0.0
  }

  predicate InInterval(r: Option<real>, lo: real, hi: real)
  {
    r.Some? && lo <= r.value <= hi
  }

  /** The keys enumerate the entries of a map, each once. */
  ghost predicate Enumerates(keys: seq<Link>, m: map<Link, real>)
  {
    (forall l :: l in m <==> l in keys) && forall s, t :: 0 <= s < t < |keys| ==> keys[s] != keys[t]
  }

  /** `lineSearch(x, y, min, max)`: accumulates the coefficients of the
      objective's slope over the entries of `x` (in the order `keys`),
      takes the first root the solver reports inside [lo, hi], and
      otherwise the end of the interval with the smaller objective (`hi`
      on ties). The result lies in the interval, and unless it is an end
      it is a point where the objective is stationary when the solver's
      roots are roots. */
  method LineSearch(x: map<Link, real>, y: map<Link, real>, keys: seq<Link>, lo: real, hi: real,
                    solve: Quad -> Roots) returns (g: real)
    requires Enumerates(keys, x)
    ensures InInterval(solve(Coeffs(x, y, keys)).0, lo, hi) ==> g == solve(Coeffs(x, y, keys)).0.value
    ensures !InInterval(solve(Coeffs(x, y, keys)).0, lo, hi) && InInterval(solve(Coeffs(x, y, keys)).1, lo, hi) ==>
              g == solve(Coeffs(x, y, keys)).1.value
    ensures !InInterval(solve(Coeffs(x, y, keys)).0, lo, hi) && !InInterval(solve(Coeffs(x, y, keys)).1, lo, hi) ==>
              (g == lo && Objective(x, y, keys, lo) < Objective(x, y, keys, hi)) ||
              (g == hi && Objective(x, y, keys, hi) <= Objective(x, y, keys, lo))
    ensures lo <= hi ==> lo <= g <= hi
    ensures g == lo || g == hi ||
            ((IsRoot(Coeffs(x, y, keys), solve(Coeffs(x, y, keys)).0) &&
              IsRoot(Coeffs(x, y, keys), solve(Coeffs(x, y, keys)).1)) ==> Slope(x, y, keys, g) == 0.0)
  {
    var q := AccumulateCoeffs(x, y, keys);
    var roots := solve(q);
    var zMin, zMax := EndObjectives(x, y, keys, lo, hi);
    if roots.0.Some? && roots.0.value >= lo && roots.0.value <= hi {
      g := roots.0.value;
    } else if roots.1.Some? && roots.1.value >= lo && roots.1.value <= hi {
      g := roots.1.value;
    } else {
      g := if zMin < zMax then lo else hi;
    }
    SlopeIsQuadratic(x, y, keys, g);
  }

  lemma CoeffsStep(x: map<Link, real>, y: map<Link, real>, keys: seq<Link>, t: int)
    requires 0 <= t < |keys|
    ensures Coeffs(x, y, keys[..t + 1]) == AddQuad(Coeffs(x, y, keys[..t]), LinkCoeffs(x, y, keys[t]))
  {
    assert keys[..t + 1][..t] == keys[..t];
  }

  lemma ObjectiveStep(x: map<Link, real>, y: map<Link, real>, keys: seq<Link>, t: int, g: real)
    requires 0 <= t < |keys|
    ensures Objective(x, y, keys[..t + 1], g) == Objective(x, y, keys[..t], g) + LinkObjective(x, y, keys[t], g)
  {
    assert keys[..t + 1][..t] == keys[..t];
  }

  /** The first loop of `lineSearch`: the coefficients A, B, C. */
  method AccumulateCoeffs(x: map<Link, real>, y: map<Link, real>, keys: seq<Link>) returns (q: Quad)
    requires Enumerates(keys, x)
    ensures q == Coeffs(x, y, keys)
  {
    q := Quad(0.0, 0.0, 0.0);
    for t := 0 to |keys|
      invariant q == Coeffs(x, y, keys[..t])
    {
      CoeffsStep(x, y, keys, t);
      q := AddQuad(q, LinkCoeffs(x, y, keys[t]));
    }
    assert keys[..|keys|] == keys;
  }

  /** The second loop of `lineSearch`: the objective at both ends. */
  method EndObjectives(x: map<Link, real>, y: map<Link, real>, keys: seq<Link>, lo: real, hi: real)
    returns (zMin: real, zMax: real)
    requires Enumerates(keys, x)
    ensures zMin == Objective(x, y, keys, lo) && zMax == Objective(x, y, keys, hi)
  {
    zMin, zMax := 0.0, 0.0;
    for t := 0 to |keys|
      invariant zMin == Objective(x, y, keys[..t], lo) && zMax == Objective(x, y, keys[..t], hi)
    {
      ObjectiveStep(x, y, keys, t, lo);
      ObjectiveStep(x, y, keys, t, hi);
      zMin := zMin + LinkObjective(x, y, keys[t], lo);
      zMax := zMax + LinkObjective(x, y, keys[t], hi);
    }
    assert keys[..|keys|] == keys;
  }

  /** The target of a Frank-Wolfe step: all k agents on `links`. */
  function Target(links: seq<Link>, k: int): map<Link, real>
  {
    map l | l in links :: k as real
  }

  lemma LinkSameCoeffs(x: map<Link, real>, y: map<Link, real>, y': map<Link, real>, l: Link)
    requires FlowAt(y, l) == FlowAt(y', l)
    ensures LinkCoeffs(x, y, l) == LinkCoeffs(x, y', l)
  {
  }

  lemma LinkSameObjective(x: map<Link, real>, y: map<Link, real>, y': map<Link, real>, l: Link, g: real)
    requires FlowAt(y, l) == FlowAt(y', l)
    ensures LinkObjective(x, y, l, g) == LinkObjective(x, y', l, g)
  {
    assert Between(x, y, l, g) == Between(x, y', l, g);
  }

  lemma LinkSameSlope(x: map<Link, real>, y: map<Link, real>, y': map<Link, real>, l: Link, g: real)
    requires FlowAt(y, l) == FlowAt(y', l)
    ensures LinkSlope(x, y, l, g) == LinkSlope(x, y', l, g)
  {
    assert Between(x, y, l, g) == Between(x, y', l, g);
  }

  /** Maps that read the same give the same coefficients, objective and
      slope. */
  lemma {:induction false} SameReadings(x: map<Link, real>, y: map<Link, real>, y': map<Link, real>, keys: seq<Link>, g: real)
    requires forall l :: FlowAt(y, l) == FlowAt(y', l)
    ensures Coeffs(x, y, keys) == Coeffs(x, y', keys)
    ensures Objective(x, y, keys, g) == Objective(x, y', keys, g)
    ensures Slope(x, y, keys, g) == Slope(x, y', keys, g)
  {
    if |keys| > 0 {
      var l := keys[|keys| - 1];
      SameReadings(x, y, y', keys[..|keys| - 1], g);
      LinkSameCoeffs(x, y, y', l);
      LinkSameObjective(x, y, y', l, g);
      LinkSameSlope(x, y, y', l, g);
    }
  }

  /** `findGamma`: the line search over [0, 1] from the current edge flows
      toward all k agents on the chosen route (every current entry of `y`
      set to 0 first). The step lies in [0, 1]. */
  method FindGamma(edgeFlow: map<Link, real>, keys: seq<Link>, chosen: seq<Link>, k: int,
                   solve: Quad -> Roots) returns (g: real)
    requires Enumerates(keys, edgeFlow)
    ensures 0.0 <= g <= 1.0
    ensures var q := Coeffs(edgeFlow, Target(chosen, k), keys);
            g == 0.0 || g == 1.0 ||
            ((IsRoot(q, solve(q).0) && IsRoot(q, solve(q).1)) ==> Slope(edgeFlow, Target(chosen, k), keys, g) == 0.0)
    ensures var q := Coeffs(edgeFlow, Target(chosen, k), keys);
            !InInterval(solve(q).0, 0.0, 1.0) && !InInterval(solve(q).1, 0.0, 1.0) ==>
              (g == 0.0 && Objective(edgeFlow, Target(chosen, k), keys, 0.0) < Objective(edgeFlow, Target(chosen, k), keys, 1.0)) ||
              (g == 1.0 && Objective(edgeFlow, Target(chosen, k), keys, 1.0) <= Objective(edgeFlow, Target(chosen, k), keys, 0.0))
  {
    var y: map<Link, real> := map[];
    for t := 0 to |keys|
      invariant forall l :: l in y ==> y[l] == 0.0
    {
      y := y[keys[t] := 0.0];
    }
    for j := 0 to |chosen|
      invariant forall l :: l in y ==> y[l] == if l in chosen[..j] then k as real else 0.0
      invariant forall l :: l in chosen[..j] ==> l in y
    {
      assert chosen[..j + 1] == chosen[..j] + [chosen[j]];
      y := y[chosen[j] := k as real];
    }
    assert chosen[..|chosen|] == chosen;
    g := LineSearch(edgeFlow, y, keys, 0.0, 1.0, solve);
    SameReadings(edgeFlow, y, Target(chosen, k), keys, 0.0);
    SameReadings(edgeFlow, y, Target(chosen, k), keys, 1.0);
    SameReadings(edgeFlow, y, Target(chosen, k), keys, g);
  }

  // ---------------------------------------------------------------------
  // Sums over route flows

  /** Raising one entry by `d` raises the sum by `d`. */
  lemma {:induction false} SumBump(xs: seq<real>, c: int, d: real)
    requires 0 <= c < |xs|
    ensures Sum(xs[c := xs[c] + d]) == Sum(xs) + d
  {
    var n := |xs| - 1;
    var ys := xs[c := xs[c] + d];
    assert ys[..n] == if c < n then xs[..n][c := xs[c] + d] else xs[..n];
    if c < n {
      SumBump(xs[..n], c, d);
    }
  }

  /** Every entry scaled by `s`. */
  function Scaled(xs: seq<real>, s: real): (ys: seq<real>)
    ensures |ys| == |xs| && forall i :: 0 <= i < |xs| ==> ys[i] == s * xs[i]
  {
    seq(|xs|, i requires 0 <= i < |xs| => s * xs[i])
  }

  lemma Distribute(s: real, x: real, y: real)
    ensures s * (x + y) == s * x + s * y
  {
  }

  /** Scaling every entry scales the sum. */
  lemma {:induction false} SumScaled(xs: seq<real>, s: real)
    ensures Sum(Scaled(xs, s)) == s * Sum(xs)
  {
    if |xs| > 0 {
      var n := |xs| - 1;
      assert Scaled(xs, s)[..n] == Scaled(xs[..n], s) by {
        forall i | 0 <= i < n
          ensures Scaled(xs, s)[..n][i] == Scaled(xs[..n], s)[i]
        {
          assert xs[..n][i] == xs[i];
        }
      }
      SumScaled(xs[..n], s);
      Distribute(s, Sum(xs[..n]), xs[n]);
    }
  }

  lemma NonNegProduct(x: real, y: real)
    requires x >= 0.0 && y >= 0.0
    ensures x * y >= 0.0
  {
    MulLeft(x, 0.0, y);
  }

  // ---------------------------------------------------------------------
  // scoreIndividual (Frank-Wolfe)

  /** `iterations_RSMEBelowTen`: consecutive iterations with an error
      below 10 after which the search stops. */
  const RmseBelowTenIterations := 5
  /** `iterations_RSMENotChanging`: consecutive iterations with the same
      rounded error after which the search stops. */
  const RmseNotChangingIterations := 10
  /** `iterations_hardlimit`: the default iteration limit. */
  const HardLimit := 10000

  /** The interpolation of one Frank-Wolfe step, called with the share
      `keep` = 1 - γ of every route flow that stays and the flow `gain` =
      γ·k moved onto the chosen route `c`. The total moves from Σ to
      keep·Σ + gain, and no flow turns negative when neither share is
      negative. */
  method Interpolate(flow: seq<real>, c: int, keep: real, gain: real) returns (flow': seq<real>)
    requires 0 <= c < |flow|
    ensures |flow'| == |flow|
    ensures forall i :: 0 <= i < |flow| && i != c ==> flow'[i] == keep * flow[i]
    ensures flow'[c] == keep * flow[c] + gain
    ensures Sum(flow') == keep * Sum(flow) + gain
    ensures keep >= 0.0 && gain >= 0.0 && (forall i :: 0 <= i < |flow| ==> flow[i] >= 0.0) ==>
              forall i :: 0 <= i < |flow'| ==> flow'[i] >= 0.0
  {
    flow' := flow;
    for i := 0 to |flow|
      invariant |flow'| == |flow|
      invariant forall t :: 0 <= t < i && t != c ==> flow'[t] == keep * flow[t]
      invariant c < i ==> flow'[c] == keep * flow[c] + gain
      invariant forall t :: i <= t < |flow| ==> flow'[t] == flow[t]
    {
      if i == c {
        flow' := flow'[i := keep * flow'[i] + gain];
      } else {
        flow' := flow'[i := keep * flow'[i]];
      }
    }
    InterpolateSum(flow, flow', c, keep, gain);
    if keep >= 0.0 && gain >= 0.0 && (forall i :: 0 <= i < |flow| ==> flow[i] >= 0.0) {
      InterpolateNonNeg(flow, flow', c, keep, gain);
    }
  }

  /** The total after a step: keep·Σ + gain. */
  lemma InterpolateSum(flow: seq<real>, flow': seq<real>, c: int, s: real, d: real)
    requires 0 <= c < |flow| && |flow'| == |flow|
    requires forall i :: 0 <= i < |flow| && i != c ==> flow'[i] == s * flow[i]
    requires flow'[c] == s * flow[c] + d
    ensures Sum(flow') == s * Sum(flow) + d
  {
    var scaled := Scaled(flow, s);
    assert flow' == scaled[c := scaled[c] + d];
    SumScaled(flow, s);
    SumBump(scaled, c, d);
  }

  /** Shares that are not negative keep every route flow not negative. */
  lemma InterpolateNonNeg(flow: seq<real>, flow': seq<real>, c: int, s: real, d: real)
    requires 0 <= c < |flow| && |flow'| == |flow|
    requires forall i :: 0 <= i < |flow| && i != c ==> flow'[i] == s * flow[i]
    requires flow'[c] == s * flow[c] + d
    requires s >= 0.0 && d >= 0.0 && forall i :: 0 <= i < |flow| ==> flow[i] >= 0.0
    ensures forall i :: 0 <= i < |flow'| ==> flow'[i] >= 0.0
  {
    forall i | 0 <= i < |flow'|
      ensures flow'[i] >= 0.0
    {
      NonNegProduct(s, flow[i]);
    }
  }

  /** With keep = 1 - γ and gain = γ·k a step keeps the total k, and with
      γ in [0, 1] and k not negative neither share is negative. */
  lemma StepShares(keep: real, gain: real, g: real, k: int)
    requires keep == 1.0 - g && gain == g * k as real
    ensures keep * k as real + gain == k as real
    ensures 0.0 <= g <= 1.0 && k >= 0 ==> keep >= 0.0 && gain >= 0.0
  {
    if 0.0 <= g <= 1.0 && k >= 0 {
      NonNegProduct(g, k as real);
    }
  }

  /** Arithmetic mean of the latencies. */
  function Mean(xs: seq<real>): real
  {
    if |xs| == 0 then 0.0 else Sum(xs) / |xs| as real
  }

  function Square(x: real): real
  {
    x * x
  }

  /** (x - m)² for every entry. */
  function SquaredErrors(xs: seq<real>, m: real): (es: seq<real>)
    ensures |es| == |xs| && forall i :: 0 <= i < |xs| ==> es[i] == Square(xs[i] - m)
  {
    seq(|xs|, i requires 0 <= i < |xs| => Square(xs[i] - m))
  }

  /** The root mean square error of the route latencies around their
      mean; `sqrt` stands for `std::sqrt`. */
  function Rmse(xs: seq<real>, sqrt: real -> real): real
  {
    if |xs| == 0 then sqrt(0.0) else sqrt(Sum(SquaredErrors(xs, Mean(xs))) / |xs| as real)
  }

  /** Entries that all equal the reference value leave no error. */
  lemma {:induction false} SquaredErrorsZero(xs: seq<real>, m: real)
    requires forall i :: 0 <= i < |xs| ==> xs[i] == m
    ensures Sum(SquaredErrors(xs, m)) == 0.0
  {
    if |xs| > 0 {
      var n := |xs| - 1;
      assert SquaredErrors(xs, m)[..n] == SquaredErrors(xs[..n], m) by {
        forall i | 0 <= i < n
          ensures SquaredErrors(xs, m)[..n][i] == SquaredErrors(xs[..n], m)[i]
        {
          assert xs[..n][i] == xs[i];
        }
      }
      SquaredErrorsZero(xs[..n], m);
      assert xs[n] - m == 0.0;
    }
  }

  /** n copies of v sum to n·v. */
  lemma {:induction false} SumConstant(xs: seq<real>, v: real)
    requires forall i :: 0 <= i < |xs| ==> xs[i] == v
    ensures Sum(xs) == |xs| as real * v
  {
    if |xs| > 0 {
      var n := |xs| - 1;
      SumConstant(xs[..n], v);
      Distribute(v, n as real, 1.0);
    }
  }

  /** Latencies all equal to v have mean v. */
  lemma MeanConstant(xs: seq<real>, v: real)
    requires |xs| > 0 && forall i :: 0 <= i < |xs| ==> xs[i] == v
    ensures Mean(xs) == v
  {
    SumConstant(xs, v);
    var n := |xs| as real;
    assert (n * v) / n == v;
  }

  /** At the user equilibrium the search approaches, where every route
      has the same latency, the mean is that latency and the error is the
      root of zero. */
  lemma RmseZeroAtEquilibrium(xs: seq<real>, sqrt: real -> real)
    requires |xs| > 0 && forall i :: 0 <= i < |xs| ==> xs[i] == xs[0]
    ensures Mean(xs) == xs[0]
    ensures Sum(SquaredErrors(xs, Mean(xs))) == 0.0
    ensures Rmse(xs, sqrt) == sqrt(0.0)
  {
    MeanConstant(xs, xs[0]);
    SquaredErrorsZero(xs, xs[0]);
  }

  /** One link's term of the score: flow times latency at that flow. */
  function LinkCost(edgeFlow: map<Link, real>, l: Link): real
  {
    FlowAt(edgeFlow, l) * LinkLatency(l, FlowAt(edgeFlow, l))
  }

  /** The total travel time Σ f·latency(f) over the links `keys`. */
  function Cost(edgeFlow: map<Link, real>, keys: seq<Link>): real
  {
    if |keys| == 0 then 0.0 else Cost(edgeFlow, keys[..|keys| - 1]) + LinkCost(edgeFlow, keys[|keys| - 1])
  }

  /** No negative flow, no negative travel time. */
  lemma {:induction false} CostNonNeg(edgeFlow: map<Link, real>, keys: seq<Link>)
    requires forall l :: l in edgeFlow ==> edgeFlow[l] >= 0.0
    ensures Cost(edgeFlow, keys) >= 0.0
  {
    if |keys| > 0 {
      var l := keys[|keys| - 1];
      CostNonNeg(edgeFlow, keys[..|keys| - 1]);
      var f := FlowAt(edgeFlow, l);
      LatencyMonotone(LinkA(l), LinkB(l), f, f);
      NonNegProduct(f, LinkLatency(l, f));
    }
  }

  /** The score loop of both scorers: Σ f·latency(f) over the entries of
      the edge flows, in the order `keys`. */
  method TotalCost(edgeFlow: map<Link, real>, keys: seq<Link>) returns (score: real)
    requires Enumerates(keys, edgeFlow)
    ensures score == Cost(edgeFlow, keys)
    ensures (forall l :: l in edgeFlow ==> edgeFlow[l] >= 0.0) ==> score >= 0.0
  {
    score := 0.0;
    for t := 0 to |keys|
      invariant score == Cost(edgeFlow, keys[..t])
    {
      assert keys[..t + 1][..t] == keys[..t];
      var l := keys[t];
      score := score + LinkCost(edgeFlow, l);
    }
    assert keys[..|keys|] == keys;
    if forall l :: l in edgeFlow ==> edgeFlow[l] >= 0.0 {
      CostNonNeg(edgeFlow, keys);
    }
  }

  /** The `hardlimit_reached` flag as written: it compares with the
      default limit, not with the scorer's own. */
  function HardlimitFlagAsWritten(iterations: int): bool
  {
    iterations >= HardLimit
  }

  /** A scorer built with limit 50 that stops at its limit does not report
      it. */
  lemma SmallLimitNotReported()
    ensures var hardlimit, iterations := 50, 50;
            iterations >= hardlimit && !HardlimitFlagAsWritten(iterations)
  {
  }

  /** The flag as evidently intended: the scorer's own limit was reached. */
  function HardlimitFlag(iterations: int, hardlimit: int): (r: bool)
    ensures r <==> iterations >= hardlimit
    ensures hardlimit == HardLimit ==> r == HardlimitFlagAsWritten(iterations)
  {
    iterations >= hardlimit
  }

  /** Refreshing the edge flows with reads that change no value keeps the
      usage's properties. */
  lemma SameUsage(routes: seq<Data.Route>, u: Usage, ef: map<Link, real>)
    requires forall l :: FlowAt(ef, l) == FlowAt(u.edgeFlow, l)
    requires forall l :: l in ef <==> l in u.edgeFlow
    ensures FlowsAgree(routes, u) ==> FlowsAgree(routes, u.(edgeFlow := ef))
    ensures NonNegFlows(u) ==> NonNegFlows(u.(edgeFlow := ef))
  {
    assert forall l :: l in ef ==> ef[l] == FlowAt(ef, l) && u.edgeFlow[l] == FlowAt(u.edgeFlow, l);
  }

  /** Route flows that agree with the edge flows and are not negative give
      edge flows that are not negative. */
  lemma AgreeNonNeg(routes: seq<Data.Route>, u: Usage)
    requires FlowsAgree(routes, u)
    requires forall i :: 0 <= i < |u.routeFlow| ==> u.routeFlow[i] >= 0.0
    ensures NonNegFlows(u)
  {
    forall l | l in u.edgeFlow
      ensures u.edgeFlow[l] >= 0.0
    {
      EdgeFlowNonNeg(routes, u.routeFlow, l);
    }
  }

  /** The direction and length of a Frank-Wolfe step: the fastest route
      `c` under the current edge flows (the first on ties) and the step γ
      of `findGamma` toward all k agents on it, which lies in [0, 1]. The
      edge flows come back with the same readings and entries. */
  method ChooseStep(k: int, u: Usage, routes: seq<Data.Route>, keys: seq<Link>, solve: Quad -> Roots)
    returns (c: int, g: real, ef: map<Link, real>)
    requires |routes| > 0
    requires forall l :: l in u.edgeFlow <==> l in AllLinks(routes)
    requires keys == Distinct(AllLinks(routes))
    ensures 0 <= c < |routes| && 0.0 <= g <= 1.0
    ensures forall i :: 0 <= i < |routes| ==>
              RouteLatencyOf(u.edgeFlow, routes[c].links) <= RouteLatencyOf(u.edgeFlow, routes[i].links)
    ensures forall i :: 0 <= i < c ==>
              RouteLatencyOf(u.edgeFlow, routes[c].links) < RouteLatencyOf(u.edgeFlow, routes[i].links)
    ensures forall l :: FlowAt(ef, l) == FlowAt(u.edgeFlow, l)
    ensures forall l :: l in ef <==> l in u.edgeFlow
  {
    var lats;
    lats, ef := Latencies(u.edgeFlow, routes);
    c := MinElement(lats);
    g := FindGamma(ef, keys, routes[c].links, k, solve);
  }

  /** The rest of a Frank-Wolfe step: moves the share γ of every route's
      flow to route `c`, recomputes the edge flows from the route flows
      and reads the new route latencies. The total stays k, no flow turns
      negative when k is not, and the edge flows agree with the route
      flows. */
  method Advance(k: int, cur: Individual, c: int, g: real) returns (next: Individual, latencies: seq<real>)
    requires 0 <= c < |cur.routes| && 0.0 <= g <= 1.0
    requires |cur.u.routeFlow| == |cur.routes| && Sum(cur.u.routeFlow) == k as real
    requires k >= 0 ==> forall i :: 0 <= i < |cur.u.routeFlow| ==> cur.u.routeFlow[i] >= 0.0
    ensures next == cur.(u := next.u)
    ensures |next.u.routeFlow| == |cur.routes| && Sum(next.u.routeFlow) == k as real
    ensures forall i :: 0 <= i < |cur.routes| && i != c ==> next.u.routeFlow[i] == (1.0 - g) * cur.u.routeFlow[i]
    ensures k >= 0 ==> NonNegFlows(next.u)
    ensures FlowsAgree(cur.routes, next.u)
    ensures |latencies| == |cur.routes|
    ensures forall i :: 0 <= i < |latencies| ==> latencies[i] == RouteLatencyOf(next.u.edgeFlow, cur.routes[i].links)
  {
    var routes := cur.routes;
    var keep, gain := 1.0 - g, g * k as real;
    StepShares(keep, gain, g, k);
    var flow := Interpolate(cur.u.routeFlow, c, keep, gain);
    assert forall i :: 0 <= i < |routes| && i != c ==> flow[i] == (1.0 - g) * cur.u.routeFlow[i];
    next := CalcEdgeFlow(cur.(u := cur.u.(routeFlow := flow)));
    if k >= 0 {
      AgreeNonNeg(routes, next.u);
    }
    var ef;
    latencies, ef := Latencies(next.u.edgeFlow, routes);
    SameUsage(routes, next.u, ef);
    forall i | 0 <= i < |routes|
      ensures latencies[i] == RouteLatencyOf(ef, routes[i].links)
    {
      RouteLatencySameFlows(next.u.edgeFlow, ef, routes[i].links);
    }
    next := next.(u := next.u.(edgeFlow := ef));
    assert next.u.routeFlow == flow;
  }

  /** The stopping counters after an iteration whose error is `rmse`: the
      run of iterations with an error below 10, and the run of iterations
      whose rounded error equals the last one recorded, which a change
      resets and records. */
  method Tally(rmse: real, belowTenCount: int, equalCount: int, lastRmse: int)
    returns (belowTenCount': int, equalCount': int, lastRmse': int)
    ensures belowTenCount' == if rmse < 10.0 then belowTenCount + 1 else 0
    ensures Round(rmse) == lastRmse ==> equalCount' == equalCount + 1 && lastRmse' == lastRmse
    ensures Round(rmse) != lastRmse ==> equalCount' == 0 && lastRmse' == Round(rmse)
  {
    if rmse < 10.0 {
      belowTenCount' := belowTenCount + 1;
    } else {
      belowTenCount' := 0;
    }
    if Round(rmse) == lastRmse {
      equalCount', lastRmse' := equalCount + 1, lastRmse;
    } else {
      equalCount', lastRmse' := 0, Round(rmse);
    }
  }

  /** `FrankWolfeScorer::scoreIndividual`: starts from the initial usage
      and repeats Frank-Wolfe steps, after each of which it takes the root
      mean square error of the route latencies, until that error stayed
      below 10 for 5 iterations, its rounded value stayed the same for 10,
      or `hardlimit` iterations ran. The route flows keep summing to k,
      none turns negative when k is not, the edge flows are those the
      route flows cause once a step ran, and the score is the total
      travel time. */
  method ScoreFrankWolfe(k: int, indiv: Individual, hardlimit: int, solve: Quad -> Roots, sqrt: real -> real)
    returns (score: real, iterations: int, hardlimitReached: bool, latencies: seq<real>, indiv': Individual)
    requires |indiv.routes| > 0
    ensures indiv'.routes == indiv.routes && indiv'.score == score
    ensures |indiv'.u.routeFlow| == |indiv.routes| && Sum(indiv'.u.routeFlow) == k as real
    ensures forall l :: l in indiv'.u.edgeFlow <==> l in AllLinks(indiv.routes)
    ensures k >= 0 ==> NonNegFlows(indiv'.u) && score >= 0.0
    ensures iterations > 0 ==> FlowsAgree(indiv.routes, indiv'.u)
    ensures score == Cost(indiv'.u.edgeFlow, Distinct(AllLinks(indiv.routes)))
    ensures hardlimit <= 0 ==> iterations == 0 && latencies == []
    ensures hardlimit > 0 ==> 0 < iterations <= hardlimit
    ensures hardlimitReached <==> iterations >= hardlimit
    ensures iterations > 0 ==> |latencies| == |indiv.routes|
    ensures iterations > 0 ==>
              forall i :: 0 <= i < |latencies| ==> latencies[i] == RouteLatencyOf(indiv'.u.edgeFlow, indiv.routes[i].links)
  {
    var routes := indiv.routes;
    var n := |routes|;
    var cur := CalcInitialUsage(k, indiv);
    InitialUsageAgrees(routes, cur.u, k, MinElement(FreeFlowTimes(routes)));
    var keys := Distinct(AllLinks(routes));
    iterations := 0;
    var lastRmse := -1;
    var equalCount := 0;
    var belowTenCount := 0;
    latencies := [];
    while belowTenCount < RmseBelowTenIterations && equalCount < RmseNotChangingIterations && iterations < hardlimit
      invariant cur.routes == routes
      invariant |cur.u.routeFlow| == n && Sum(cur.u.routeFlow) == k as real
      invariant forall l :: l in cur.u.edgeFlow <==> l in AllLinks(routes)
      invariant k >= 0 ==> NonNegFlows(cur.u)
      invariant iterations > 0 ==> FlowsAgree(routes, cur.u)
      invariant iterations == 0 || iterations <= hardlimit
      invariant iterations >= 0 && (iterations == 0 ==> latencies == [] && belowTenCount == 0 && equalCount == 0)
      invariant iterations > 0 ==> |latencies| == n
      invariant iterations > 0 ==>
                  forall i :: 0 <= i < |latencies| ==> latencies[i] == RouteLatencyOf(cur.u.edgeFlow, routes[i].links)
      decreases hardlimit - iterations
    {
      iterations := iterations + 1;
      var c, g, ef := ChooseStep(k, cur.u, routes, keys, solve);
      cur, latencies := Advance(k, cur.(u := cur.u.(edgeFlow := ef)), c, g);
      belowTenCount, equalCount, lastRmse := Tally(Rmse(latencies, sqrt), belowTenCount, equalCount, lastRmse);
    }
    hardlimitReached := HardlimitFlag(iterations, hardlimit);
    score := TotalCost(cur.u.edgeFlow, keys);
    indiv' := cur.(score := score);
  }

  // ---------------------------------------------------------------------
  // SimulationScorer

  /** Zero route flows cause zero edge flows. */
  lemma ZeroFlowsAgree(routes: seq<Data.Route>, ef: map<Link, real>)
    requires forall l :: l in ef <==> l in AllLinks(routes)
    requires forall l :: l in ef ==> ef[l] == 0.0
    ensures FlowsAgree(routes, Usage(Zeros(|routes|), ef))
  {
    forall l
      ensures FlowAt(ef, l) == EdgeFlowOf(routes, Zeros(|routes|), l)
    {
      EdgeFlowSingle(routes, Zeros(|routes|), 0, 0.0, l);
      if |routes| > 0 {
        CarriedZero(l, routes[0].links);
      }
    }
  }

  /** The latency of a route when the edge flows are those the route flows
      cause. */
  ghost function FlowLatency(routes: seq<Data.Route>, flow: seq<real>, links: seq<Link>): real
    requires |flow| == |routes|
  {
    if |links| == 0 then 0.0
    else FlowLatency(routes, flow, links[..|links| - 1]) +
         LinkLatency(links[|links| - 1], EdgeFlowOf(routes, flow, links[|links| - 1]))
  }

  /** The first route of least latency among the first n under the route
      flows. */
  ghost function LeastLatencyRoute(routes: seq<Data.Route>, flow: seq<real>, n: nat): (r: nat)
    requires |flow| == |routes| && 0 < n <= |routes|
    ensures r < n
  {
    if n == 1 then 0
    else
      var j := LeastLatencyRoute(routes, flow, n - 1);
      if FlowLatency(routes, flow, routes[n - 1].links) < FlowLatency(routes, flow, routes[j].links) then n - 1 else j
  }

  /** The route flows after the first i agents of the simulation: each agent
      joins the first route of least latency under the flows of the agents
      before it. */
  ghost function SimFlows(routes: seq<Data.Route>, i: nat): (flow: seq<real>)
    requires |routes| > 0 || i == 0
    ensures |flow| == |routes|
  {
    if i == 0 then Zeros(|routes|)
    else
      var prev := SimFlows(routes, i - 1);
      var c := LeastLatencyRoute(routes, prev, |routes|);
      prev[c := prev[c] + 1.0]
  }

  /** No route among the first n has less latency than the chosen one, and
      every route before it has more. */
  lemma {:induction false} LeastLatencyRouteIsFirst(routes: seq<Data.Route>, flow: seq<real>, n: nat)
    requires |flow| == |routes| && 0 < n <= |routes|
    ensures var r := LeastLatencyRoute(routes, flow, n);
            (forall j :: 0 <= j < n ==>
               FlowLatency(routes, flow, routes[r].links) <= FlowLatency(routes, flow, routes[j].links)) &&
            (forall j :: 0 <= j < r ==>
               FlowLatency(routes, flow, routes[r].links) < FlowLatency(routes, flow, routes[j].links))
  {
    if n > 1 {
      LeastLatencyRouteIsFirst(routes, flow, n - 1);
    }
  }

  /** Edge flows that agree with the route flows give every route the
      latency it has under those route flows. */
  lemma {:induction false} LatencyUnderAgreement(routes: seq<Data.Route>, u: Usage, links: seq<Link>)
    requires FlowsAgree(routes, u)
    ensures RouteLatencyOf(u.edgeFlow, links) == FlowLatency(routes, u.routeFlow, links)
  {
    if |links| > 0 {
      LatencyUnderAgreement(routes, u, links[..|links| - 1]);
    }
  }

  /** Under edge flows that agree with the route flows, the first least of
      the latencies read from the edge flows is the route `SimFlows` sends
      the next agent to. */
  lemma SimStep(routes: seq<Data.Route>, u: Usage, lats: seq<real>)
    requires |routes| > 0 && FlowsAgree(routes, u)
    requires |lats| == |routes| && forall t :: 0 <= t < |routes| ==> lats[t] == RouteLatencyOf(u.edgeFlow, routes[t].links)
    ensures MinElement(lats) == LeastLatencyRoute(routes, u.routeFlow, |routes|)
  {
    var c := MinElement(lats);
    var r := LeastLatencyRoute(routes, u.routeFlow, |routes|);
    LeastLatencyRouteIsFirst(routes, u.routeFlow, |routes|);
    LatencyUnderAgreement(routes, u, routes[c].links);
    LatencyUnderAgreement(routes, u, routes[r].links);
    assert c == r;
  }

  /** After i agents the route flows sum to i and none is negative. */
  lemma {:induction false} SimFlowsSum(routes: seq<Data.Route>, i: nat)
    requires |routes| > 0 || i == 0
    ensures Sum(SimFlows(routes, i)) == i as real
    ensures forall t :: 0 <= t < |routes| ==> SimFlows(routes, i)[t] >= 0.0
  {
    if i == 0 {
      SumZeros(|routes|);
    } else {
      SimFlowsSum(routes, i - 1);
      var prev := SimFlows(routes, i - 1);
      var c := LeastLatencyRoute(routes, prev, |routes|);
      SumBump(prev, c, 1.0);
    }
  }

  /** The agent after the first i joins the first route of least latency. */
  lemma SimFlowsNext(routes: seq<Data.Route>, i: nat, c: int)
    requires |routes| > 0 && c == LeastLatencyRoute(routes, SimFlows(routes, i), |routes|)
    ensures SimFlows(routes, i)[c := SimFlows(routes, i)[c] + 1.0] == SimFlows(routes, i + 1)
  {
  }

  /** One agent of `calculateUsage`: the route latencies under the edge
      flows, the first route of least latency, and one more agent on it. */
  method SendOne(routes: seq<Data.Route>, flow: seq<real>, ef: map<Link, real>)
    returns (c: int, flow': seq<real>, ef': map<Link, real>)
    requires |routes| > 0 && FlowsAgree(routes, Usage(flow, ef))
    ensures c == LeastLatencyRoute(routes, flow, |routes|) && flow' == flow[c := flow[c] + 1.0]
    ensures FlowsAgree(routes, Usage(flow', ef'))
  {
    var lats, ef1 := Latencies(ef, routes);
    c := MinElement(lats);
    SimStep(routes, Usage(flow, ef), lats);
    ef' := AddRouteFlow(ef1, routes[c].links, 1.0);
    SendOneAgrees(routes, flow, ef, ef1, ef', c);
    flow' := flow[c := flow[c] + 1.0];
  }

  /** `SimulationScorer::calculateUsage`: resets the usage and sends the k
      agents one at a time to the route of least latency under the flows
      so far (the first on ties), adding one to its route flow and to the
      edge flow of each of its links per crossing. The route flows sum to
      the number of agents sent, none is negative, and the edge flows are
      those the route flows cause. */
  method CalculateUsage(k: int, indiv: Individual) returns (indiv': Individual)
    requires |indiv.routes| > 0 || k <= 0
    ensures indiv' == indiv.(u := indiv'.u)
    ensures indiv'.u.routeFlow == SimFlows(indiv.routes, if k > 0 then k else 0)
    ensures |indiv'.u.routeFlow| == |indiv.routes|
    ensures Sum(indiv'.u.routeFlow) == (if k > 0 then k else 0) as real
    ensures FlowsAgree(indiv.routes, indiv'.u) && NonNegFlows(indiv'.u)
  {
    var routes := indiv.routes;
    var ef := ZeroEdgeFlow(routes);
    var flow := Zeros(|routes|);
    ZeroFlowsAgree(routes, ef);
    SumZeros(|routes|);
    var i := 0;
    while i < k
      invariant 0 <= i && (k > 0 ==> i <= k) && (k <= 0 ==> i == 0)
      invariant FlowsAgree(routes, Usage(flow, ef))
      invariant flow == SimFlows(routes, i)
      decreases k - i
    {
      var c, flow', ef' := SendOne(routes, flow, ef);
      SimFlowsNext(routes, i, c);
      ef, flow := ef', flow';
      i := i + 1;
    }
    SimFlowsSum(routes, i);
    AgreeNonNeg(routes, Usage(flow, ef));
    indiv' := indiv.(u := Usage(flow, ef));
  }

  /** Sending one more agent over route c, edge flows first read (which
      adds missing links as 0) and then raised along the route, keeps the
      edge flows those of the route flows. */
  lemma SendOneAgrees(routes: seq<Data.Route>, flow: seq<real>, ef: map<Link, real>, ef1: map<Link, real>,
                      ef2: map<Link, real>, c: int)
    requires 0 <= c < |routes| && FlowsAgree(routes, Usage(flow, ef))
    requires forall l :: FlowAt(ef1, l) == FlowAt(ef, l)
    requires forall l :: l in ef1 <==> l in ef || l in AllLinks(routes)
    requires forall l :: l in ef2 <==> l in ef1 || l in routes[c].links
    requires forall l :: FlowAt(ef2, l) == FlowAt(ef1, l) + Carried(l, routes[c].links, 1.0)
    ensures FlowsAgree(routes, Usage(flow[c := flow[c] + 1.0], ef2))
  {
    forall l
      ensures FlowAt(ef2, l) == EdgeFlowOf(routes, flow[c := flow[c] + 1.0], l)
    {
      EdgeFlowBump(routes, flow, c, 1.0, l);
    }
    forall l | l in routes[c].links
      ensures l in AllLinks(routes)
    {
      AllLinksContains(routes, c, l);
    }
  }

  /** `SimulationScorer::scoreIndividual`: the usage of `calculateUsage`
      scored by the total travel time, with the latency of every route
      under it. */
  method ScoreSimulation(k: int, indiv: Individual) returns (score: real, latencies: seq<real>, indiv': Individual)
    requires |indiv.routes| > 0 || k <= 0
    ensures indiv'.routes == indiv.routes && indiv'.oldUsage == indiv.oldUsage && indiv'.score == score
    ensures indiv'.u.routeFlow == SimFlows(indiv.routes, if k > 0 then k else 0)
    ensures FlowsAgree(indiv.routes, indiv'.u) && Sum(indiv'.u.routeFlow) == (if k > 0 then k else 0) as real
    ensures score == Cost(indiv'.u.edgeFlow, Distinct(AllLinks(indiv.routes))) && score >= 0.0
    ensures |latencies| == |indiv.routes| &&
            forall i :: 0 <= i < |indiv.routes| ==> latencies[i] == RouteLatencyOf(indiv'.u.edgeFlow, indiv.routes[i].links)
  {
    var cur := CalculateUsage(k, indiv);
    score := TotalCost(cur.u.edgeFlow, Distinct(AllLinks(cur.routes)));
    cur := cur.(score := score);
    var ef;
    latencies, ef := Latencies(cur.u.edgeFlow, cur.routes);
    indiv' := cur;
  }
}
