/** The reference-route bookkeeping of the alternative-route searches: the
    node-to-position map, the prefix sums of the route's coefficients, the
    position helpers, and the relaxation value the lower bounds report. */
module Reference {
  import opened Common
  import opened Network
  import opened Elements
  import Data
  import Psych

  // ---------------------------------------------------------------------
  // The node-to-position map
  // ---------------------------------------------------------------------

  /** Writing position j for every node `nodes[j]`, in order, onto `m`: a
      later position of a repeated node overwrites an earlier one, and
      entries of `m` for other nodes stay. */
  function IndexMapOnto(m: map<int, int>, nodes: seq<int>): (r: map<int, int>)
    ensures forall v :: v in r <==> v in m || v in nodes
    ensures forall v :: v in nodes ==>
              0 <= r[v] < |nodes| && nodes[r[v]] == v &&
              forall j :: r[v] < j < |nodes| ==> nodes[j] != v
    ensures forall v :: v in m && v !in nodes ==> r[v] == m[v]
    decreases |nodes|
  {
    if |nodes| == 0 then m
    else
      var n := |nodes| - 1;
      var init := nodes[..n];
      assert forall v :: v in nodes <==> v in init || v == nodes[n];
      assert forall j :: 0 <= j < n ==> init[j] == nodes[j];
      IndexMapOnto(m, init)[nodes[n] := n]
  }

  /** The position map of a reference route: the start node at 0, the
      target of link i at i + 1, starting from an empty map. */
  function RouteIndex(links: seq<Link>): map<int, int>
    requires |links| > 0
  {
    IndexMapOnto(map[], Data.ToNodeVec(links))
  }

  /** The map knows exactly the route's nodes, each at its last position
      on the route. */
  lemma RouteIndexExact(links: seq<Link>, v: int)
    requires |links| > 0
    ensures v in RouteIndex(links) <==> v in Data.ToNodeVec(links)
    ensures v in RouteIndex(links) ==>
              0 <= RouteIndex(links)[v] <= |links| && Data.ToNodeVec(links)[RouteIndex(links)[v]] == v &&
              forall j :: RouteIndex(links)[v] < j <= |links| ==> Data.ToNodeVec(links)[j] != v
  {
  }

  lemma RouteIndexFacts(links: seq<Link>, m: map<int, int>, v: int)
    ensures |links| > 0 && m == RouteIndex(links) ==>
              (v in m <==> v in Data.ToNodeVec(links)) &&
              (v in m ==> (0 <= m[v] <= |links| && Data.ToNodeVec(links)[m[v]] == v &&
                 forall j :: m[v] < j <= |links| ==> Data.ToNodeVec(links)[j] != v))
  {
    if |links| > 0 && m == RouteIndex(links) {
      RouteIndexExact(links, v);
    }
  }

  /** The map is never cleared between reference routes: a node of an
      earlier route that is not on the current one keeps its old position,
      which can lie beyond the current route's end. */
  lemma StaleIndexSurvives()
    ensures var first := [Link(1, 0, 5, 1.0, 1.0, 1.0), Link(2, 5, 6, 1.0, 1.0, 1.0), Link(3, 6, 7, 1.0, 1.0, 1.0)];
            var second := [Link(4, 0, 1, 1.0, 1.0, 1.0)];
            var m := IndexMapOnto(RouteIndex(first), Data.ToNodeVec(second));
            7 in m && m[7] == 3 && 7 !in Data.ToNodeVec(second) && m[7] > |second|
  {
    var first := [Link(1, 0, 5, 1.0, 1.0, 1.0), Link(2, 5, 6, 1.0, 1.0, 1.0), Link(3, 6, 7, 1.0, 1.0, 1.0)];
    var second := [Link(4, 0, 1, 1.0, 1.0, 1.0)];
    var nodes := Data.ToNodeVec(first);
    assert nodes == [0, 5, 6, 7];
    assert Data.ToNodeVec(second) == [0, 1];
    assert 7 in nodes;
  }

  // ---------------------------------------------------------------------
  // Positions on a reference route
  // ---------------------------------------------------------------------

  /** The first position at or after `i` holding `v`, or -1. */
  function FirstFrom(nodes: seq<int>, v: int, i: nat): (r: int)
    requires i <= |nodes|
    ensures r == -1 ==> forall j :: i <= j < |nodes| ==> nodes[j] != v
    ensures r != -1 ==> i <= r < |nodes| && nodes[r] == v && forall j :: i <= j < r ==> nodes[j] != v
    decreases |nodes| - i
  {
    if i == |nodes| then -1
    else if nodes[i] == v then i
    else FirstFrom(nodes, v, i + 1)
  }

  /** `is_orig_node`: 0 for the start node, otherwise i + 1 for the first
      link i that ends at `node`, and -1 for a node off the route; that is,
      the first position of `node` on the route. */
  function IsOrigNode(node: int, links: seq<Link>): (r: int)
    requires |links| > 0
    ensures r == -1 <==> node !in Data.ToNodeVec(links)
    ensures r != -1 ==> (0 <= r <= |links| && Data.ToNodeVec(links)[r] == node &&
              forall j :: 0 <= j < r ==> Data.ToNodeVec(links)[j] != node)
  {
    var nodes := Data.ToNodeVec(links);
    if links[0].from == node then 0 else FirstFrom(nodes, node, 1)
  }

  /** Whether `links` visits no node twice. */
  predicate SimpleRoute(links: seq<Link>)
    requires |links| > 0
  {
    var nodes := Data.ToNodeVec(links);
    forall i, j :: 0 <= i < j < |nodes| ==> nodes[i] != nodes[j]
  }

  // ---------------------------------------------------------------------
  // The reference-route globals
  // ---------------------------------------------------------------------

  /** `nodes_original_route`, `origTt`, `origPartA` and `origPartB`, filled
      by `prepare_original_route` for the route being searched around. */
  class ReferenceRoute {
    ghost var route: seq<Link>
    var nodeIndex: map<int, int>
    var origTt: seq<real>
    var origPartA: seq<real>
    var origPartB: seq<real>

    /** After preparation: the map is the route's position map and the
        vectors hold the prefix sums, entry i summing the first i links. */
    ghost predicate Valid()
      reads this
    {
      |route| > 0 && nodeIndex == RouteIndex(route) &&
      |origTt| == |route| + 1 && |origPartA| == |route| + 1 && |origPartB| == |route| + 1 &&
      forall i :: 0 <= i <= |route| ==>
        origTt[i] == SumLength(route[..i]) && origPartA[i] == SumA(route[..i]) && origPartB[i] == SumB(route[..i])
    }

    constructor ()
      ensures nodeIndex == map[] && origTt == [] && origPartA == [] && origPartB == []
    {
      route := [];
      nodeIndex := map[];
      origTt, origPartA, origPartB := [], [], [];
    }

    /** `prepare_original_route`: marks every route link in `inactive`, maps
        the route's nodes to their positions, and fills the prefix sums, so
        that entry 0 is 0 and entry i adds link i - 1. The map is rebuilt
        from empty, which is the corrected behaviour: the source keeps the
        entries of earlier routes (see `StaleIndexSurvives`). */
    method Prepare(links: seq<Link>, inactive: set<int>) returns (inactive': set<int>)
      requires |links| > 0
      modifies this
      ensures Valid() && route == links
      ensures inactive' == inactive + Ids(links)
    {
      route := links;
      nodeIndex := PositionMap(links);
      inactive' := MarkInactive(links, inactive);
      origTt, origPartA, origPartB := PrefixSums(links);
    }

    /** `index_in_original`: the mapped position of `v`, or -1. On a
        prepared route that is -1 exactly for nodes off the route, and
        otherwise the node's last position on it. */
    function IndexInOriginal(v: int): (r: int)
      reads this
      ensures Valid() ==> (r == -1 <==> v !in Data.ToNodeVec(route))
      ensures Valid() && r != -1 ==>
                0 <= r <= |route| && Data.ToNodeVec(route)[r] == v &&
                forall j :: r < j <= |route| ==> Data.ToNodeVec(route)[j] != v
    {
      RouteIndexFacts(route, nodeIndex, v);
      if v in nodeIndex then nodeIndex[v] else -1
    }

    /** `score_for_relax`: -1 when `idv` is negative; otherwise the shared
        cost is what the route spends before position `idc` plus what it
        spends after position `idv`, and the value is the resulting score
        plus 10 when the best usage is positive, else -1. An index outside
        the prefix vectors is the bounds-checked access failing (None). */
    function ScoreForRelax(idc: int, idv: int, par: Elem, k: int, sc: Psych.Scorer): (r: Option<real>)
      reads this
      ensures idv < 0 ==> r == Some(-1.0)
      ensures Valid() && 0 <= idc <= |route| && 0 <= idv <= |route| ==> r.Some?
      ensures Psych.NonNegScores(sc) && r.Some? ==> r.value == -1.0 || r.value >= 10.0
    {
      RelaxFromPrefix(origPartA, origPartB, idc, idv, par, k, sc)
    }
  }

  /** The computation of `score_for_relax` on the prefix vectors. */
  function RelaxFromPrefix(pa: seq<real>, pb: seq<real>, idc: int, idv: int, par: Elem, k: int,
                           sc: Psych.Scorer): (r: Option<real>)
    ensures idv < 0 ==> r == Some(-1.0)
    ensures idv >= 0 && 0 <= idc < |pa| && idv < |pa| && |pa| == |pb| ==> r.Some?
    ensures Psych.NonNegScores(sc) && r.Some? ==> r.value == -1.0 || r.value >= 10.0
  {
    if idv < 0 then Some(-1.0)
    else if !(0 <= idc < |pa| && idv < |pa| && 0 <= idc < |pb| && idv < |pb|) then None
    else
      var sa := pa[idc] + pa[|pa| - 1] - pa[idv];
      var sb := pb[idc] + pb[|pb| - 1] - pb[idv];
      var c := RelaxCosts(par, sa, sb, pa[|pa| - 1], pb[|pb| - 1]);
      Some(RelaxValue(c, k, sc))
  }

  /** On a prepared route, with the element leaving the route at position
      idc and rejoining it at position idv, `score_for_relax` scores the
      element completed by the route before idc and after idv. */
  lemma ScoreForRelaxOnRoute(rr: ReferenceRoute, idc: int, idv: int, par: Elem, k: int, sc: Psych.Scorer)
    requires rr.Valid() && 0 <= idc <= idv <= |rr.route|
    ensures rr.ScoreForRelax(idc, idv, par, k, sc) ==
              Some(RelaxValue(RelaxCosts(par, SumA(rr.route[..idc]) + SumA(rr.route[idv..]),
                              SumB(rr.route[..idc]) + SumB(rr.route[idv..]), SumA(rr.route), SumB(rr.route)), k, sc))
  {
    RelaxOnPrefix(rr.route, rr.origPartA, rr.origPartB, idc, idv, par, k, sc);
  }

  lemma RelaxOnPrefix(route: seq<Link>, pa: seq<real>, pb: seq<real>, idc: int, idv: int, par: Elem, k: int,
                      sc: Psych.Scorer)
    requires |pa| == |route| + 1 && |pb| == |route| + 1 && 0 <= idc <= idv <= |route|
    requires forall i :: 0 <= i <= |route| ==> pa[i] == SumA(route[..i]) && pb[i] == SumB(route[..i])
    ensures RelaxFromPrefix(pa, pb, idc, idv, par, k, sc) ==
              Some(RelaxValue(RelaxCosts(par, SumA(route[..idc]) + SumA(route[idv..]),
                              SumB(route[..idc]) + SumB(route[idv..]), SumA(route), SumB(route)), k, sc))
  {
    var n := |route|;
    OutsideDetour(route, idc, idv);
    assert route[..n] == route;
    assert pa[idc] == SumA(route[..idc]) && pb[idc] == SumB(route[..idc]);
    assert pa[idv] == SumA(route[..idv]) && pb[idv] == SumB(route[..idv]);
    assert pa[n] == SumA(route) && pb[n] == SumB(route);
    var xa := pa[idc] + pa[n] - pa[idv];
    var xb := pb[idc] + pb[n] - pb[idv];
    assert xa == SumA(route[..idc]) + SumA(route[idv..]);
    assert xb == SumB(route[..idc]) + SumB(route[idv..]);
    RelaxAtSums(pa, pb, n, idc, idv, par, k, sc, SumA(route[..idc]) + SumA(route[idv..]),
                SumB(route[..idc]) + SumB(route[idv..]), SumA(route), SumB(route));
  }

  /** The loop of `prepare_original_route` filling the map: the start node
      at 0, then the target of each link at the next position. */
  method PositionMap(links: seq<Link>) returns (m: map<int, int>)
    requires |links| > 0
    ensures m == RouteIndex(links)
  {
    ghost var nodes := Data.ToNodeVec(links);
    m := map[links[0].from := 0];
    var count := 1;
    assert nodes[..1] == [links[0].from];
    assert IndexMapOnto(map[], nodes[..1]) == IndexMapOnto(map[], nodes[..0])[links[0].from := 0];
    for i := 0 to |links|
      invariant count == i + 1
      invariant m == IndexMapOnto(map[], nodes[..i + 1])
    {
      assert nodes[..i + 2][..i + 1] == nodes[..i + 1];
      assert nodes[..i + 2][i + 1] == links[i].to;
      m := m[links[i].to := count];
      count := count + 1;
    }
    assert nodes[..|links| + 1] == nodes;
  }

  /** The same loop marking each route link inactive. */
  method MarkInactive(links: seq<Link>, inactive: set<int>) returns (r: set<int>)
    ensures r == inactive + Ids(links)
  {
    r := inactive;
    for i := 0 to |links|
      invariant r == inactive + Ids(links[..i])
    {
      IdsSnoc(links, i);
      r := r + {links[i].id};
    }
    assert links[..|links|] == links;
  }

  /** The prefix-sum loop: entry 0 is 0 and entry i adds link i - 1. */
  method PrefixSums(links: seq<Link>) returns (tt: seq<real>, pa: seq<real>, pb: seq<real>)
    ensures |tt| == |links| + 1 && |pa| == |links| + 1 && |pb| == |links| + 1
    ensures forall i :: 0 <= i <= |links| ==>
              tt[i] == SumLength(links[..i]) && pa[i] == SumA(links[..i]) && pb[i] == SumB(links[..i])
  {
    tt, pa, pb := [0.0], [0.0], [0.0];
    for i := 1 to |links| + 1
      invariant |tt| == i && |pa| == i && |pb| == i
      invariant forall j :: 0 <= j < i ==>
                  tt[j] == SumLength(links[..j]) && pa[j] == SumA(links[..j]) && pb[j] == SumB(links[..j])
    {
      PrefixSumStep(links, i - 1);
      tt := tt + [tt[i - 1] + links[i - 1].length];
      pa := pa + [pa[i - 1] + LinkA(links[i - 1])];
      pb := pb + [pb[i - 1] + LinkB(links[i - 1])];
    }
  }

  /** RelaxFromPrefix at in-range indices, with the shared costs and the
      totals it reads off the prefix vectors given as values. */
  lemma RelaxAtSums(pa: seq<real>, pb: seq<real>, n: int, idc: int, idv: int, par: Elem, k: int,
                    sc: Psych.Scorer, sa: real, sb: real, ta: real, tb: real)
    requires 0 <= idc <= n && 0 <= idv <= n && |pa| == n + 1 && |pb| == n + 1
    requires pa[idc] + pa[n] - pa[idv] == sa && pb[idc] + pb[n] - pb[idv] == sb
    requires pa[n] == ta && pb[n] == tb
    ensures RelaxFromPrefix(pa, pb, idc, idv, par, k, sc) == Some(RelaxValue(RelaxCosts(par, sa, sb, ta, tb), k, sc))
  {
  }

  /** The relaxation value for an element completed by shared costs
      (sa, sb) against a reference route with totals (aq, bq). */
  function RelaxCosts(par: Elem, sa: real, sb: real, aq: real, bq: real): Psych.Costs
  {
    Psych.Costs(par.agg.a + sa, par.agg.b + sb, aq, bq, sa + par.agg.sa, sb + par.agg.sb)
  }

  /** `usage > 0 ? score + 10 : -1` of the completed element's score. */
  function RelaxValue(c: Psych.Costs, k: int, sc: Psych.Scorer): real
  {
    var s := sc(c, k);
    if s.usage > 0 then s.score + 10.0 else -1.0
  }

  /** prefix[idc] + total - prefix[idv] is the cost of the route outside
      the stretch between positions idc and idv. */
  lemma OutsideDetour(links: seq<Link>, idc: int, idv: int)
    requires 0 <= idc <= idv <= |links|
    ensures SumA(links[..idc]) + SumA(links) - SumA(links[..idv]) == SumA(links[..idc]) + SumA(links[idv..])
    ensures SumB(links[..idc]) + SumB(links) - SumB(links[..idv]) == SumB(links[..idc]) + SumB(links[idv..])
  {
    assert links[..idv] + links[idv..] == links;
    SumsAppend(links[..idv], links[idv..]);
  }

  lemma PrefixSumStep(links: seq<Link>, i: int)
    requires 0 <= i < |links|
    ensures SumA(links[..i + 1]) == SumA(links[..i]) + LinkA(links[i])
    ensures SumB(links[..i + 1]) == SumB(links[..i]) + LinkB(links[i])
    ensures SumLength(links[..i + 1]) == SumLength(links[..i]) + links[i].length
  {
    assert links[..i + 1][..i] == links[..i];
  }

  lemma IdsSnoc(links: seq<Link>, i: int)
    requires 0 <= i < |links|
    ensures Ids(links[..i + 1]) == Ids(links[..i]) + {links[i].id}
  {
    assert links[..i + 1] == links[..i] + [links[i]];
    assert forall l :: l in links[..i + 1] <==> l in links[..i] || l == links[i];
  }

  /** On a route that visits no node twice, `index_in_original` and
      `is_orig_node` agree. */
  lemma IndexAgreesWithIsOrigNode(rr: ReferenceRoute, v: int)
    requires rr.Valid() && SimpleRoute(rr.route)
    ensures rr.IndexInOriginal(v) == IsOrigNode(v, rr.route)
  {
    var nodes := Data.ToNodeVec(rr.route);
    var i := rr.IndexInOriginal(v);
    var j := IsOrigNode(v, rr.route);
    if i != -1 {
      assert j != -1;
      assert nodes[i] == nodes[j];
    }
  }

  // ---------------------------------------------------------------------
  // Route sanity
  // ---------------------------------------------------------------------

  /** `check_route_sanity`: walks the route keeping the previous link's
      target and reports a link whose source differs; the report is the
      only effect, so the model returns whether there was none. */
  method CheckRouteSanity(links: seq<Link>) returns (ok: bool)
    requires |links| > 0
    ensures ok <==> Connected(links)
  {
    var lastNode := links[0].from;
    ok := true;
    for i := 0 to |links|
      invariant i > 0 ==> lastNode == links[i - 1].to
      invariant i == 0 ==> lastNode == links[0].from
      invariant ok <==> forall j :: 0 <= j < i - 1 ==> links[j].to == links[j + 1].from
    {
      if links[i].from != lastNode {
        ok := false;
      }
      lastNode := links[i].to;
    }
  }
}
