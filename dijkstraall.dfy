/** The all-on-reference driver (`ssotd_dijkstraAll`): every person of a
    group takes the shortest route under the latency the whole group
    would cause. */
module DijkstraAll {
  import opened Common
  import opened Network
  import opened Elements
  import Data
  import ShortestPaths

  /** The loop of `route` assigning one route to every pid. */
  method AssignAll(routes: map<int, seq<Link>>, pids: seq<int>, r: seq<Link>) returns (routes': map<int, seq<Link>>)
    ensures forall p :: p in routes' <==> p in routes || p in pids
    ensures forall p :: p in pids ==> routes'[p] == r
    ensures forall p :: p in routes && p !in pids ==> routes'[p] == routes[p]
  {
    routes' := routes;
    for i := 0 to |pids|
      invariant forall p :: p in routes' <==> p in routes || p in pids[..i]
      invariant forall p :: p in pids[..i] ==> routes'[p] == r
      invariant forall p :: p in routes && p !in pids[..i] ==> routes'[p] == routes[p]
    {
      assert pids[..i + 1] == pids[..i] + [pids[i]];
      routes' := routes'[pids[i] := r];
    }
    assert pids[..|pids|] == pids;
  }

  /** `route(source, destination, pids)`: the latency-weighted shortest
      route at k = |pids| agents for everybody, reported with its total
      latency k * latency(a, b, k). An unreachable destination exits
      (None). */
  method RouteGroup(adj: Graph, source: int, destination: int, pids: seq<int>, routes: map<int, seq<Link>>, fuel: nat)
    returns (r: Option<(map<int, seq<Link>>, real)>)
    requires ValidGraph(adj) && 0 <= source < |adj| && 0 <= destination < |adj|
    ensures r.Some? ==> var (placed, score) := r.value;
              (forall p :: p in placed <==> p in routes || p in pids) &&
              (forall p :: p in routes && p !in pids ==> placed[p] == routes[p]) &&
              (forall p :: p in pids ==> IsWalk(placed[p], source, destination) && InGraph(adj, placed[p])) &&
              (forall p, q :: p in pids && q in pids ==> placed[p] == placed[q])
    ensures r.Some? && |pids| > 0 && pids[0] in r.value.0 ==>
              var route := r.value.0[pids[0]];
              r.value.1 == |pids| as real * Latency(SumA(route), SumB(route), |pids| as real)
  {
    var out := ShortestPaths.DijkstraAll(adj, source, destination, |pids|, fuel);
    if !out.Found? {
      return None;
    }
    var orig := Data.RouteOf(out.links);
    var k := |pids|;
    var score := k as real * Latency(orig.a, orig.b, k as real);
    var placed := AssignAll(routes, pids, orig.links);
    if k > 0 {
      var p0 := pids[0];
      assert p0 in pids;
      assert p0 in placed;
      assert placed[p0] == orig.links;
    }
    r := Some((placed, score));
  }
}
