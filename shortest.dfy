/** The single-objective label-correcting searches of the router: the plain
    `dijkstra` of the search core (free-flow weights, optionally avoiding the
    reference route), `dijkstra_all` (latency weights) and
    `dijkstra_for_opt`, which fills the per-node lower bounds `bestAs` and
    `bestBs` by a backward search over the inverted adjacency lists. */
module ShortestPaths {
  import opened Common
  import opened Network

  /** The node a link leads to when a search runs in direction `forward`
      (`l->to` forwards, `l->from` backwards). */
  function Head(l: Link, forward: bool): int
  {
    if forward then l.to else l.from
  }

  /** The node a link is stored under in the adjacency lists searched in
      direction `forward`. */
  function Tail(l: Link, forward: bool): int
  {
    if forward then l.from else l.to
  }

  /** Every link of `adj[u]` is stored under its tail and leads to a node
      of the graph. Forwards this is `ValidGraph`; backwards it is the shape
      of the inverted lists `adj_inv`. */
  predicate ValidDir(adj: Graph, forward: bool)
  {
    forall u, l :: 0 <= u < |adj| && l in adj[u] ==> Tail(l, forward) == u && 0 <= Head(l, forward) < |adj|
  }

  type Weight = Link -> real

  ghost predicate NonNeg(w: Weight)
  {
    forall l :: w(l) >= 0.0
  }

  /** The total weight of a link sequence, accumulated front to back. */
  function WSum(p: seq<Link>, w: Weight): real
  {
    if |p| == 0 then 0.0 else WSum(p[..|p| - 1], w) + w(p[|p| - 1])
  }

  /** The predecessor record `prec[v]`: {-1, nullptr} or the node and link
      through which `v` was last improved. */
  datatype Prec = NoPrec | Prec(node: int, link: Link)

  /** The ordering of `std::pair<double, int>` that the min-queue uses. */
  predicate PairLe(x: (real, int), y: (real, int))
  {
    x.0 < y.0 || (x.0 == y.0 && x.1 <= y.1)
  }

  /** The position of the entry the min-queue pops: a smallest pair. */
  function MinIndex(q: seq<(real, int)>): (i: nat)
    requires |q| > 0
    ensures i < |q| && forall j :: 0 <= j < |q| ==> PairLe(q[i], q[j])
  {
    if |q| == 1 then 0
    else
      var j := MinIndex(q[..|q| - 1]);
      assert forall m :: 0 <= m < |q| - 1 ==> q[..|q| - 1][m] == q[m];
      if PairLe(q[j], q[|q| - 1]) then j else |q| - 1
  }

  /** `prec[v] == p` records an active link of the graph from a reached
      node into `v`, and `v`'s distance is at least the predecessor's plus
      the link's weight. */
  ghost predicate PrecLinkOk(adj: Graph, skip: set<int>, w: Weight, forward: bool,
                             dist: seq<XReal>, v: int, p: Prec)
    requires |dist| == |adj| && 0 <= v < |adj|
  {
    p.Prec? && 0 <= p.node < |adj| && p.link in adj[p.node] && p.link.id !in skip
    && Head(p.link, forward) == v && dist[p.node].Fin? && dist[v].Fin?
    && dist[p.node].v + w(p.link) <= dist[v].v
  }

  /** The invariant of `dist` and `prec`: the source is at distance 0 and
      has no predecessor, every reached node is the source or has one, and
      every predecessor record is a proper one. */
  ghost predicate LabelsOk(adj: Graph, skip: set<int>, w: Weight, forward: bool, src: int,
                           dist: seq<XReal>, prec: seq<Prec>)
  {
    |dist| == |adj| && |prec| == |adj| && 0 <= src < |adj|
    && dist[src] == Fin(0.0) && prec[src] == NoPrec
    && (forall v :: 0 <= v < |adj| && dist[v].Fin? ==> dist[v].v >= 0.0 && (v == src || prec[v].Prec?))
    && (forall v :: 0 <= v < |adj| && prec[v].Prec? ==> PrecLinkOk(adj, skip, w, forward, dist, v, prec[v]))
  }

  /** Every queue entry names a reached node whose distance is at most the
      entry's key. */
  ghost predicate QueueOk(adj: Graph, dist: seq<XReal>, q: seq<(real, int)>)
    requires |dist| == |adj|
  {
    forall e :: e in q ==> 0 <= e.1 < |adj| && dist[e.1].Fin? && dist[e.1].v <= e.0
  }

  /** Node `v` is reached and every active link out of it is relaxed. */
  ghost predicate Relaxed(adj: Graph, skip: set<int>, w: Weight, forward: bool, dist: seq<XReal>, v: int)
    requires |dist| == |adj| && 0 <= v < |adj|
  {
    dist[v].Fin?
    && forall l :: l in adj[v] && l.id !in skip ==>
         0 <= Head(l, forward) < |adj| && dist[Head(l, forward)].Fin?
         && dist[Head(l, forward)].v <= dist[v].v + w(l)
  }

  /** Every reached node other than `except` is relaxed or still has an
      entry carrying its current distance in the queue. */
  ghost predicate Pending(adj: Graph, skip: set<int>, w: Weight, forward: bool,
                          dist: seq<XReal>, q: seq<(real, int)>, except: int)
    requires |dist| == |adj|
  {
    forall v :: 0 <= v < |adj| && v != except && dist[v].Fin? ==>
      (dist[v].v, v) in q || Relaxed(adj, skip, w, forward, dist, v)
  }

  /** The fixpoint a drained queue leaves behind: every reached node is
      relaxed (the triangle inequality along every active link). */
  ghost predicate Closed(adj: Graph, skip: set<int>, w: Weight, forward: bool, dist: seq<XReal>)
    requires |dist| == |adj|
  {
    forall v :: 0 <= v < |adj| && dist[v].Fin? ==> Relaxed(adj, skip, w, forward, dist, v)
  }

  /** The loop shared by `dijkstra`, `dijkstra_all` and `dijkstra_for_opt`:
      pop the smallest (distance, node) pair, stop when it is `stop`, skip
      it when stale, otherwise relax every active link, recording the
      predecessor. `exhausted` says the queue ran empty; `stopped` that
      `stop` was popped. `fuel` bounds the number of pops. */
  method Explore(adj: Graph, src: int, stop: int, skip: set<int>, w: Weight, forward: bool, fuel: nat)
    returns (dist: seq<XReal>, prec: seq<Prec>, exhausted: bool, stopped: bool)
    requires ValidDir(adj, forward) && 0 <= src < |adj| && NonNeg(w)
    ensures LabelsOk(adj, skip, w, forward, src, dist, prec)
    ensures exhausted ==> !stopped && Closed(adj, skip, w, forward, dist)
    ensures stopped ==> 0 <= stop < |adj| && dist[stop].Fin?
  {
    dist := seq(|adj|, _ => PosInf)[src := Fin(0.0)];
    prec := seq(|adj|, _ => NoPrec);
    var q := [(0.0, src)];
    stopped := false;
    var steps := fuel;
    while q != [] && steps > 0
      invariant LabelsOk(adj, skip, w, forward, src, dist, prec)
      invariant QueueOk(adj, dist, q)
      invariant Pending(adj, skip, w, forward, dist, q, -1)
      invariant !stopped
      decreases steps
    {
      steps := steps - 1;
      var i := MinIndex(q);
      var d, cur := q[i].0, q[i].1;
      ghost var q0 := q;
      q := q[..i] + q[i + 1..];
      RemoveKeeps(q0, i);
      if cur == stop {
        assert dist[stop].Fin?;
        stopped := true;
        break;
      }
      if d > dist[cur].v {
        assert Pending(adj, skip, w, forward, dist, q, -1);
        continue;
      }
      dist, prec, q := RelaxLinks(adj, src, skip, w, forward, cur, d, dist, prec, q);
    }
    exhausted := !stopped && q == [];
  }

  /** Removing entry i keeps every other entry. */
  lemma RemoveKeeps(q: seq<(real, int)>, i: nat)
    requires i < |q|
    ensures forall e :: e in q[..i] + q[i + 1..] ==> e in q
    ensures forall e :: e in q && e != q[i] ==> e in q[..i] + q[i + 1..]
  {
    forall e | e in q && e != q[i]
      ensures e in q[..i] + q[i + 1..]
    {
      var j :| 0 <= j < |q| && q[j] == e;
      if j < i {
        assert (q[..i] + q[i + 1..])[j] == e;
      } else {
        assert (q[..i] + q[i + 1..])[j - 1] == e;
      }
    }
  }

  /** The body for a non-stale pop of `cur` at distance `d`: relax each
      active link of `adj[cur]` in list order; an improvement sets the
      distance and the predecessor and pushes the new pair. */
  method RelaxLinks(adj: Graph, src: int, skip: set<int>, w: Weight, forward: bool, cur: int, d: real,
                    dist0: seq<XReal>, prec0: seq<Prec>, q0: seq<(real, int)>)
    returns (dist: seq<XReal>, prec: seq<Prec>, q: seq<(real, int)>)
    requires ValidDir(adj, forward) && NonNeg(w)
    requires LabelsOk(adj, skip, w, forward, src, dist0, prec0) && QueueOk(adj, dist0, q0)
    requires 0 <= cur < |adj| && dist0[cur] == Fin(d)
    requires Pending(adj, skip, w, forward, dist0, q0, cur)
    ensures LabelsOk(adj, skip, w, forward, src, dist, prec) && QueueOk(adj, dist, q)
    ensures Pending(adj, skip, w, forward, dist, q, -1)
  {
    dist, prec, q := dist0, prec0, q0;
    var links := adj[cur];
    for j := 0 to |links|
      invariant LabelsOk(adj, skip, w, forward, src, dist, prec) && QueueOk(adj, dist, q)
      invariant dist[cur] == Fin(d)
      invariant Pending(adj, skip, w, forward, dist, q, cur)
      invariant DoneUpTo(adj, skip, w, forward, dist, cur, d, j)
    {
      var l := links[j];
      if l.id !in skip {
        var h := Head(l, forward);
        var newDist := d + w(l);
        if Above(dist[h], newDist) {
          Improve(adj, src, skip, w, forward, cur, d, j, newDist, dist, prec, q);
          dist := dist[h := Fin(newDist)];
          prec := prec[h := Prec(cur, l)];
          q := q + [(newDist, h)];
        } else {
          KeepStep(adj, skip, w, forward, dist, cur, d, j);
        }
      } else {
        KeepStep(adj, skip, w, forward, dist, cur, d, j);
      }
    }
    FinishRelax(adj, skip, w, forward, dist, q, cur, d);
  }

  /** A link that is inactive, or that does not improve its head, leaves
      the relaxed prefix one longer. */
  lemma KeepStep(adj: Graph, skip: set<int>, w: Weight, forward: bool, dist: seq<XReal>,
                 cur: int, d: real, j: int)
    requires ValidDir(adj, forward) && |dist| == |adj| && 0 <= cur < |adj| && 0 <= j < |adj[cur]|
    requires DoneUpTo(adj, skip, w, forward, dist, cur, d, j)
    requires adj[cur][j].id !in skip ==> !Above(dist[Head(adj[cur][j], forward)], d + w(adj[cur][j]))
    ensures DoneUpTo(adj, skip, w, forward, dist, cur, d, j + 1)
  {
  }

  /** Once every link of `cur` is relaxed, `cur` itself is no longer
      pending. */
  lemma FinishRelax(adj: Graph, skip: set<int>, w: Weight, forward: bool, dist: seq<XReal>,
                    q: seq<(real, int)>, cur: int, d: real)
    requires ValidDir(adj, forward) && |dist| == |adj| && 0 <= cur < |adj| && dist[cur] == Fin(d)
    requires DoneUpTo(adj, skip, w, forward, dist, cur, d, |adj[cur]|)
    requires Pending(adj, skip, w, forward, dist, q, cur)
    ensures Pending(adj, skip, w, forward, dist, q, -1)
  {
    forall l | l in adj[cur] && l.id !in skip
      ensures 0 <= Head(l, forward) < |adj| && dist[Head(l, forward)].Fin?
              && dist[Head(l, forward)].v <= dist[cur].v + w(l)
    {
      var jj :| 0 <= jj < |adj[cur]| && adj[cur][jj] == l;
    }
    assert Relaxed(adj, skip, w, forward, dist, cur);
  }

  /** The first j links of adj[cur] are relaxed from distance d. */
  ghost predicate DoneUpTo(adj: Graph, skip: set<int>, w: Weight, forward: bool, dist: seq<XReal>,
                           cur: int, d: real, j: int)
    requires ValidDir(adj, forward) && |dist| == |adj| && 0 <= cur < |adj| && j <= |adj[cur]|
  {
    forall jj :: 0 <= jj < j && adj[cur][jj].id !in skip ==>
      dist[Head(adj[cur][jj], forward)].Fin? && dist[Head(adj[cur][jj], forward)].v <= d + w(adj[cur][jj])
  }

  /** One improvement along link j of adj[cur] keeps the loop invariant of
      `RelaxLinks`. */
  lemma Improve(adj: Graph, src: int, skip: set<int>, w: Weight, forward: bool, cur: int, d: real, j: int,
                nd: real, dist: seq<XReal>, prec: seq<Prec>, q: seq<(real, int)>)
    requires ValidDir(adj, forward) && NonNeg(w)
    requires LabelsOk(adj, skip, w, forward, src, dist, prec) && QueueOk(adj, dist, q)
    requires 0 <= cur < |adj| && dist[cur] == Fin(d) && 0 <= j < |adj[cur]|
    requires Pending(adj, skip, w, forward, dist, q, cur) && DoneUpTo(adj, skip, w, forward, dist, cur, d, j)
    requires adj[cur][j].id !in skip && nd == d + w(adj[cur][j]) && Above(dist[Head(adj[cur][j], forward)], nd)
    ensures LabelsOk(adj, skip, w, forward, src, dist[Head(adj[cur][j], forward) := Fin(nd)],
                     prec[Head(adj[cur][j], forward) := Prec(cur, adj[cur][j])])
    ensures QueueOk(adj, dist[Head(adj[cur][j], forward) := Fin(nd)], q + [(nd, Head(adj[cur][j], forward))])
    ensures dist[Head(adj[cur][j], forward) := Fin(nd)][cur] == Fin(d)
    ensures Pending(adj, skip, w, forward, dist[Head(adj[cur][j], forward) := Fin(nd)],
                    q + [(nd, Head(adj[cur][j], forward))], cur)
    ensures DoneUpTo(adj, skip, w, forward, dist[Head(adj[cur][j], forward) := Fin(nd)], cur, d, j + 1)
  {
    assert w(adj[cur][j]) >= 0.0;
    ImproveLabels(adj, src, skip, w, forward, cur, adj[cur][j], d, nd, dist, prec);
    ImprovePending(adj, skip, w, forward, cur, Head(adj[cur][j], forward), nd, dist, q);
    ImproveDone(adj, skip, w, forward, dist, cur, d, j, nd);
  }

  /** Lowering the head of link j to d + w(link j) relaxes links 0..j. */
  lemma ImproveDone(adj: Graph, skip: set<int>, w: Weight, forward: bool, dist: seq<XReal>,
                    cur: int, d: real, j: int, nd: real)
    requires ValidDir(adj, forward) && |dist| == |adj| && 0 <= cur < |adj| && 0 <= j < |adj[cur]|
    requires DoneUpTo(adj, skip, w, forward, dist, cur, d, j)
    requires nd == d + w(adj[cur][j]) && Above(dist[Head(adj[cur][j], forward)], nd)
    ensures DoneUpTo(adj, skip, w, forward, dist[Head(adj[cur][j], forward) := Fin(nd)], cur, d, j + 1)
  {
    var h := Head(adj[cur][j], forward);
    var dist' := dist[h := Fin(nd)];
    forall jj | 0 <= jj < j + 1 && adj[cur][jj].id !in skip
      ensures dist'[Head(adj[cur][jj], forward)].Fin?
              && dist'[Head(adj[cur][jj], forward)].v <= d + w(adj[cur][jj])
    {
    }
  }

  lemma ImproveLabels(adj: Graph, src: int, skip: set<int>, w: Weight, forward: bool, cur: int, l: Link, d: real,
                      nd: real, dist: seq<XReal>, prec: seq<Prec>)
    requires ValidDir(adj, forward) && NonNeg(w)
    requires LabelsOk(adj, skip, w, forward, src, dist, prec)
    requires 0 <= cur < |adj| && dist[cur] == Fin(d) && l in adj[cur] && l.id !in skip
    requires nd == d + w(l) && Above(dist[Head(l, forward)], nd)
    ensures LabelsOk(adj, skip, w, forward, src, dist[Head(l, forward) := Fin(nd)],
                     prec[Head(l, forward) := Prec(cur, l)])
  {
    assert w(l) >= 0.0 && Head(l, forward) != src;
    var h := Head(l, forward);
    var dist' := dist[h := Fin(nd)];
    var prec' := prec[h := Prec(cur, l)];
    forall v | 0 <= v < |adj| && prec'[v].Prec?
      ensures PrecLinkOk(adj, skip, w, forward, dist', v, prec'[v])
    {
      if v != h {
        assert PrecLinkOk(adj, skip, w, forward, dist, v, prec[v]);
      }
    }
  }

  lemma ImprovePending(adj: Graph, skip: set<int>, w: Weight, forward: bool, cur: int, h: int, newDist: real,
                       dist: seq<XReal>, q: seq<(real, int)>)
    requires |dist| == |adj| && 0 <= h < |adj| && 0 <= cur < |adj| && Above(dist[h], newDist)
    requires dist[cur].Fin? && dist[cur].v <= newDist
    requires QueueOk(adj, dist, q) && Pending(adj, skip, w, forward, dist, q, cur)
    ensures QueueOk(adj, dist[h := Fin(newDist)], q + [(newDist, h)])
    ensures Pending(adj, skip, w, forward, dist[h := Fin(newDist)], q + [(newDist, h)], cur)
  {
    var dist' := dist[h := Fin(newDist)];
    var q' := q + [(newDist, h)];
    LowerKeepsRelaxed(adj, skip, w, forward, dist, dist', h, newDist);
    assert forall e :: e in q' ==> e in q || e == (newDist, h);
  }

  /** Lowering one reached node's distance keeps every other node's
      relaxation and every predecessor record intact. */
  lemma LowerKeepsRelaxed(adj: Graph, skip: set<int>, w: Weight, forward: bool,
                          dist1: seq<XReal>, dist: seq<XReal>, h: int, newDist: real)
    requires |dist1| == |adj| && 0 <= h < |adj|
    requires Above(dist1[h], newDist) && dist == dist1[h := Fin(newDist)]
    ensures forall v :: 0 <= v < |adj| && v != h && Relaxed(adj, skip, w, forward, dist1, v) ==>
              Relaxed(adj, skip, w, forward, dist, v)
  {
  }

  /** Completeness of a drained search: every node an active walk from the
      source reaches is reached, no cheaper than that walk. */
  lemma {:induction false} ForwardLowerBound(adj: Graph, skip: set<int>, w: Weight, src: int,
                                             dist: seq<XReal>, p: seq<Link>, y: int)
    requires |dist| == |adj| && 0 <= src < |adj| && dist[src] == Fin(0.0)
    requires Closed(adj, skip, w, true, dist)
    requires IsWalk(p, src, y) && InGraph(adj, p) && Ids(p) !! skip
    ensures 0 <= y < |adj| && dist[y].Fin? && dist[y].v <= WSum(p, w)
    decreases |p|
  {
    if |p| > 0 {
      var n := |p| - 1;
      var l := p[n];
      if n > 0 {
        WalkSplit(p, src, y, n);
      }
      assert p[..n] + [l] == p;
      assert forall x :: x in p[..n] ==> x in p;
      assert l.id in Ids(p);
      ForwardLowerBound(adj, skip, w, src, dist, p[..n], l.from);
      assert Relaxed(adj, skip, w, true, dist, l.from);
    }
  }

  /** The same for a search run backwards from `dst` over inverted lists
      `inv`: every active walk from y to dst bounds dist[y] from above. */
  lemma {:induction false} BackwardLowerBound(inv: Graph, skip: set<int>, w: Weight, dst: int,
                                              dist: seq<XReal>, p: seq<Link>, y: int)
    requires |dist| == |inv| && 0 <= dst < |inv| && dist[dst] == Fin(0.0)
    requires Closed(inv, skip, w, false, dist)
    requires IsWalk(p, y, dst) && Ids(p) !! skip
    requires forall l :: l in p ==> 0 <= l.to < |inv| && l in inv[l.to]
    ensures 0 <= y < |inv| && dist[y].Fin? && dist[y].v <= WSum(p, w)
    decreases |p|
  {
    if |p| > 0 {
      var l := p[0];
      var rest := p[1..];
      BackwardTail(inv, skip, dst, p, y);
      BackwardLowerBound(inv, skip, w, dst, dist, rest, l.to);
      assert Relaxed(inv, skip, w, false, dist, l.to);
      assert p == [l] + rest;
      WSumCons(l, rest, w);
    }
  }

  /** The first link of an active walk from y to dst over `inv` is an
      active link filed under its `to` node, and the rest of the walk is
      an active walk from there. */
  lemma BackwardTail(inv: Graph, skip: set<int>, dst: int, p: seq<Link>, y: int)
    requires |p| > 0 && IsWalk(p, y, dst) && Ids(p) !! skip
    requires forall l :: l in p ==> 0 <= l.to < |inv| && l in inv[l.to]
    ensures p[0].from == y && p[0].id !in skip && 0 <= p[0].to < |inv| && p[0] in inv[p[0].to]
    ensures IsWalk(p[1..], p[0].to, dst) && Ids(p[1..]) !! skip
    ensures forall l :: l in p[1..] ==> 0 <= l.to < |inv| && l in inv[l.to]
  {
    if |p| > 1 {
      WalkSplit(p, y, dst, 1);
    }
    assert forall x :: x in p[1..] ==> x in p;
    assert p[0].id in Ids(p);
  }

  lemma {:induction false} WSumCons(l: Link, p: seq<Link>, w: Weight)
    ensures WSum([l] + p, w) == WSum([l], w) + WSum(p, w)
    decreases |p|
  {
    if |p| > 0 {
      assert ([l] + p)[..|[l] + p| - 1] == [l] + p[..|p| - 1];
      WSumCons(l, p[..|p| - 1], w);
    }
  }

  lemma {:induction false} WSumA(p: seq<Link>)
    ensures WSum(p, LinkA) == SumA(p) && WSum(p, LinkB) == SumB(p)
    decreases |p|
  {
    if |p| > 0 {
      WSumA(p[..|p| - 1]);
    }
  }

  /** A node-to-node route exists avoiding the links in `skip`. */
  ghost predicate Reachable(adj: Graph, a: int, b: int, skip: set<int>)
  {
    exists p :: IsWalk(p, a, b) && InGraph(adj, p) && Ids(p) !! skip
  }

  datatype Outcome = Found(links: seq<Link>) | Unreachable | OutOfFuel

  /** The predecessor walk back from `b`, prepending each recorded link
      (the push-then-reverse of the source), bounded by |adj| steps. */
  method Reconstruct(adj: Graph, skip: set<int>, w: Weight, a: int, b: int, dist: seq<XReal>, prec: seq<Prec>)
    returns (out: Outcome)
    requires ValidGraph(adj) && LabelsOk(adj, skip, w, true, a, dist, prec)
    requires 0 <= b < |adj| && prec[b].Prec?
    ensures out.Found? || out.OutOfFuel?
    ensures out.Found? ==> |out.links| > 0 && IsWalk(out.links, a, b) && InGraph(adj, out.links)
                           && Ids(out.links) !! skip && WSum(out.links, w) <= dist[b].v
  {
    var links: seq<Link> := [];
    var cur := b;
    var steps := 0;
    while prec[cur].Prec? && steps <= |adj|
      invariant 0 <= cur < |adj| && dist[cur].Fin?
      invariant IsWalk(links, cur, b) && InGraph(adj, links) && Ids(links) !! skip
      invariant cur == b || |links| > 0
      invariant WSum(links, w) + dist[cur].v <= dist[b].v
      decreases |adj| + 1 - steps
    {
      var p := prec[cur];
      PrependStep(adj, skip, w, a, b, dist, prec, links, cur);
      links := [p.link] + links;
      cur := p.node;
      steps := steps + 1;
    }
    if prec[cur].Prec? {
      out := OutOfFuel;
    } else {
      assert cur == a;
      out := Found(links);
    }
  }

  /** One step back along the predecessor record of `cur` extends the
      walk to b at the front, keeping its cost within dist[b]. */
  lemma PrependStep(adj: Graph, skip: set<int>, w: Weight, a: int, b: int, dist: seq<XReal>, prec: seq<Prec>,
                    links: seq<Link>, cur: int)
    requires ValidGraph(adj) && LabelsOk(adj, skip, w, true, a, dist, prec)
    requires 0 <= cur < |adj| && dist[cur].Fin? && prec[cur].Prec? && 0 <= b < |adj| && dist[b].Fin?
    requires IsWalk(links, cur, b) && InGraph(adj, links) && Ids(links) !! skip
    requires WSum(links, w) + dist[cur].v <= dist[b].v
    ensures var p := prec[cur];
            0 <= p.node < |adj| && dist[p.node].Fin?
            && IsWalk([p.link] + links, p.node, b) && InGraph(adj, [p.link] + links) && Ids([p.link] + links) !! skip
            && WSum([p.link] + links, w) + dist[p.node].v <= dist[b].v
  {
    var p := prec[cur];
    assert PrecLinkOk(adj, skip, w, true, dist, cur, p);
    WalkAppend([p.link], links, p.node, cur, b);
    WSumCons(p.link, links, w);
    assert forall x :: x in [p.link] + links ==> x == p.link || x in links;
  }

  /** `dijkstra(a, b, original_route)`: free-flow weights, every link of
      the reference route inactive when one is given, stop when b is
      popped. A missing route (including a == b, where b gets no
      predecessor) is the process exit, here `Unreachable`. */
  method Dijkstra(adj: Graph, a: int, b: int, original: Option<seq<Link>>, fuel: nat) returns (out: Outcome)
    requires ValidGraph(adj) && 0 <= a < |adj| && 0 <= b < |adj|
    ensures out.Found? ==> |out.links| > 0 && IsWalk(out.links, a, b) && InGraph(adj, out.links)
    ensures out.Found? && original.Some? ==> Ids(out.links) !! Ids(original.value)
    ensures out.Unreachable? ==> a == b || !Reachable(adj, a, b, if original.Some? then Ids(original.value) else {})
  {
    var skip := if original.Some? then Ids(original.value) else {};
    out := ShortestRoute(adj, a, b, skip, LinkB, fuel);
  }

  /** `dijkstra_all(a, b, k)`: the same search with latency weights at k
      agents and nothing inactive. */
  method DijkstraAll(adj: Graph, a: int, b: int, k: nat, fuel: nat) returns (out: Outcome)
    requires ValidGraph(adj) && 0 <= a < |adj| && 0 <= b < |adj|
    ensures out.Found? ==> |out.links| > 0 && IsWalk(out.links, a, b) && InGraph(adj, out.links)
    ensures out.Unreachable? ==> a == b || !Reachable(adj, a, b, {})
  {
    var w := (l: Link) => LinkLatency(l, k as real);
    forall l: Link
      ensures w(l) >= 0.0
    {
      LatencyMonotone(LinkA(l), LinkB(l), 0.0, k as real);
    }
    out := ShortestRoute(adj, a, b, {}, w, fuel);
  }

  /** The search and the route reconstruction both wrappers share. */
  method ShortestRoute(adj: Graph, a: int, b: int, skip: set<int>, w: Weight, fuel: nat) returns (out: Outcome)
    requires ValidGraph(adj) && 0 <= a < |adj| && 0 <= b < |adj| && NonNeg(w)
    ensures out.Found? ==> |out.links| > 0 && IsWalk(out.links, a, b) && InGraph(adj, out.links)
                           && Ids(out.links) !! skip
    ensures out.Unreachable? ==> a == b || !Reachable(adj, a, b, skip)
  {
    assert ValidDir(adj, true);
    var dist, prec, exhausted, stopped := Explore(adj, a, b, skip, w, true, fuel);
    if prec[b].NoPrec? {
      if exhausted {
        out := Unreachable;
        if a != b {
          assert dist[b].PosInf?;
          if Reachable(adj, a, b, skip) {
            var p :| IsWalk(p, a, b) && InGraph(adj, p) && Ids(p) !! skip;
            ForwardLowerBound(adj, skip, w, a, dist, p, b);
          }
        }
      } else if stopped {
        out := Unreachable;
      } else {
        out := OutOfFuel;
      }
    } else {
      out := Reconstruct(adj, skip, w, a, b, dist, prec);
    }
  }

  /** `dijkstra_for_opt(v, doA, inactive, adj2, forward)`: the search
      without a target and without predecessors, over a or b weights,
      forwards along `l->to` or backwards along `l->from`. `complete` says
      the queue ran empty within `fuel` pops. */
  method DijkstraForOpt(adj2: Graph, v: int, doA: bool, inactive: set<int>, forward: bool, fuel: nat)
    returns (dist: seq<XReal>, complete: bool)
    requires ValidDir(adj2, forward) && 0 <= v < |adj2|
    ensures |dist| == |adj2| && dist[v] == Fin(0.0)
    ensures forall u :: 0 <= u < |adj2| && dist[u].Fin? ==> dist[u].v >= 0.0
    ensures complete ==> Closed(adj2, inactive, if doA then LinkA else LinkB, forward, dist)
  {
    var w: Weight := if doA then LinkA else LinkB;
    var prec, stopped;
    dist, prec, complete, stopped := Explore(adj2, v, -1, inactive, w, forward, fuel);
  }

  /** The inverted adjacency lists `adj_inv`: each link filed under its
      `to` node. */
  method Invert(adj: Graph) returns (inv: Graph)
    requires ValidGraph(adj)
    ensures |inv| == |adj| && ValidDir(inv, false)
    ensures forall u, l :: 0 <= u < |adj| && l in adj[u] ==> l in inv[l.to]
    ensures forall v, l :: 0 <= v < |inv| && l in inv[v] ==> 0 <= l.from < |adj| && l in adj[l.from]
  {
    inv := seq(|adj|, _ => []);
    for u := 0 to |adj|
      invariant |inv| == |adj|
      invariant forall v, l :: 0 <= v < |inv| && l in inv[v] ==> l.to == v && 0 <= l.from < |adj| && l in adj[l.from]
      invariant forall uu, l :: 0 <= uu < u && l in adj[uu] ==> l in inv[l.to]
    {
      var links := adj[u];
      for j := 0 to |links|
        invariant |inv| == |adj|
        invariant forall v, l :: 0 <= v < |inv| && l in inv[v] ==> l.to == v && 0 <= l.from < |adj| && l in adj[l.from]
        invariant forall uu, l :: 0 <= uu < u && l in adj[uu] ==> l in inv[l.to]
        invariant forall l :: l in links[..j] ==> l in inv[l.to]
      {
        FileStep(adj, inv, u, j);
        var l := links[j];
        inv := inv[l.to := inv[l.to] + [l]];
      }
      assert links[..|links|] == links;
    }
  }

  /** Filing link j of adj[u] under its `to` node keeps the invariants of
      `Invert`'s inner loop one link further. */
  lemma FileStep(adj: Graph, inv: Graph, u: int, j: int)
    requires ValidGraph(adj) && |inv| == |adj| && 0 <= u < |adj| && 0 <= j < |adj[u]|
    requires forall v, l :: 0 <= v < |inv| && l in inv[v] ==> l.to == v && 0 <= l.from < |adj| && l in adj[l.from]
    requires forall uu, l :: 0 <= uu < u && l in adj[uu] ==> l in inv[l.to]
    requires forall l :: l in adj[u][..j] ==> l in inv[l.to]
    ensures var l := adj[u][j];
            var inv' := inv[l.to := inv[l.to] + [l]];
            |inv'| == |adj|
            && (forall v, l :: 0 <= v < |inv'| && l in inv'[v] ==> l.to == v && 0 <= l.from < |adj| && l in adj[l.from])
            && (forall uu, l :: 0 <= uu < u && l in adj[uu] ==> l in inv'[l.to])
            && (forall l :: l in adj[u][..j + 1] ==> l in inv'[l.to])
  {
    var l := adj[u][j];
    assert l.from == u && 0 <= l.to < |adj|;
    assert adj[u][..j + 1] == adj[u][..j] + [l];
  }

  /** The lower bounds `bestAs`/`bestBs` of the search core, with the lazy
      airline fill-in for nodes whose bound is 0. */
  class BestPars {
    var bestAs: seq<XReal>
    var bestBs: seq<XReal>

    constructor()
      ensures bestAs == [] && bestBs == []
    {
      bestAs, bestBs := [], [];
    }

    /** `fill_best_pars_dijkstra(to, inactive)`: two backward searches from
        `to` over the inverted lists. When both complete, bestAs[y] and
        bestBs[y] bound from below the a- and b-sums of every active route
        from y to `to` (so they are admissible remaining-cost estimates). */
    method FillBestParsDijkstra(adj: Graph, to: int, inactive: set<int>, fuel: nat) returns (complete: bool)
      requires ValidGraph(adj) && 0 <= to < |adj|
      modifies this
      ensures |bestAs| == |adj| && |bestBs| == |adj|
      ensures bestAs[to] == Fin(0.0) && bestBs[to] == Fin(0.0)
      ensures complete ==> forall y, p :: IsWalk(p, y, to) && InGraph(adj, p) && Ids(p) !! inactive ==>
                             0 <= y < |adj| && LowerBoundOf(bestAs[y], SumA(p)) && LowerBoundOf(bestBs[y], SumB(p))
    {
      var inv := Invert(adj);
      var completeA, completeB;
      bestAs, completeA := DijkstraForOpt(inv, to, true, inactive, false, fuel);
      bestBs, completeB := DijkstraForOpt(inv, to, false, inactive, false, fuel);
      complete := completeA && completeB;
      if complete {
        forall y, p | IsWalk(p, y, to) && InGraph(adj, p) && Ids(p) !! inactive
          ensures 0 <= y < |adj| && LowerBoundOf(bestAs[y], SumA(p)) && LowerBoundOf(bestBs[y], SumB(p))
        {
          BackwardLowerBound(inv, inactive, LinkA, to, bestAs, p, y);
          BackwardLowerBound(inv, inactive, LinkB, to, bestBs, p, y);
          WSumA(p);
        }
      }
    }

    /** `fill_best_pars_dijkstra_forward(from, inactive)`: the same two
        searches forward from `from`. When both complete, the entries bound
        from below the a- and b-sums of every active route from `from` to
        each node. */
    method FillBestParsForward(adj: Graph, from: int, inactive: set<int>, fuel: nat) returns (complete: bool)
      requires ValidGraph(adj) && 0 <= from < |adj|
      modifies this
      ensures |bestAs| == |adj| && |bestBs| == |adj|
      ensures bestAs[from] == Fin(0.0) && bestBs[from] == Fin(0.0)
      ensures complete ==> forall y, p :: IsWalk(p, from, y) && InGraph(adj, p) && Ids(p) !! inactive ==>
                             0 <= y < |adj| && LowerBoundOf(bestAs[y], SumA(p)) && LowerBoundOf(bestBs[y], SumB(p))
    {
      assert ValidDir(adj, true);
      var completeA, completeB;
      bestAs, completeA := DijkstraForOpt(adj, from, true, inactive, true, fuel);
      bestBs, completeB := DijkstraForOpt(adj, from, false, inactive, true, fuel);
      complete := completeA && completeB;
      if complete {
        forall y, p | IsWalk(p, from, y) && InGraph(adj, p) && Ids(p) !! inactive
          ensures 0 <= y < |adj| && LowerBoundOf(bestAs[y], SumA(p)) && LowerBoundOf(bestBs[y], SumB(p))
        {
          ForwardLowerBound(adj, inactive, LinkA, from, bestAs, p, y);
          ForwardLowerBound(adj, inactive, LinkB, from, bestBs, p, y);
          WSumA(p);
        }
      }
    }

    /** `get_lazy_airval(node, to)`: when bestBs[node] is 0 both bounds are
        overwritten with the coefficients of the artificial link from node
        to `to` (freespeed 130, capacity 2288, the airline distance as
        length); the pair returned is the (possibly updated) cache entry. */
    method GetLazyAirval(node: int, to: int, airline: NonNegReal) returns (r: (XReal, XReal))
      requires 0 <= node < |bestAs| && |bestAs| == |bestBs|
      modifies this
      ensures (bestAs, bestBs) == LazyAirval(old(bestAs), old(bestBs), node, to, airline)
      ensures r == (bestAs[node], bestBs[node])
      ensures old(bestBs[node]) != Fin(0.0) ==> r == (old(bestAs[node]), old(bestBs[node]))
    {
      if bestBs[node] == Fin(0.0) {
        var art := ArtificialLink(node, to, airline);
        bestAs := bestAs[node := Fin(LinkA(art))];
        bestBs := bestBs[node := Fin(LinkB(art))];
      }
      r := (bestAs[node], bestBs[node]);
    }
  }

  /** x is a finite value no larger than `bound`. */
  predicate LowerBoundOf(x: XReal, bound: real)
  {
    x.Fin? && x.v <= bound
  }

  /** `artificial_link(from, to, 130, 2288)` with id -77. */
  function ArtificialLink(from: int, to: int, airline: NonNegReal): (l: Link)
    ensures l.from == from && l.to == to && l.length == airline
  {
    Link(-77, from, to, airline, 2288.0, 130.0)
  }

  /** The cache after `get_lazy_airval`. */
  function LazyAirval(bestAs: seq<XReal>, bestBs: seq<XReal>, node: int, to: int, airline: NonNegReal)
    : (r: (seq<XReal>, seq<XReal>))
    requires 0 <= node < |bestAs| && |bestAs| == |bestBs|
    ensures |r.0| == |bestAs| && |r.1| == |bestBs|
    ensures forall u :: 0 <= u < |bestAs| && u != node ==> r.0[u] == bestAs[u] && r.1[u] == bestBs[u]
    ensures bestBs[node] != Fin(0.0) ==> r == (bestAs, bestBs)
  {
    if bestBs[node] == Fin(0.0) then
      var art := ArtificialLink(node, to, airline);
      (bestAs[node := Fin(LinkA(art))], bestBs[node := Fin(LinkB(art))])
    else (bestAs, bestBs)
  }

  /** Asking twice for the same node leaves the cache as asking once: the
      second call finds either a non-zero b or (for a zero-length airline
      link) rewrites the same values. */
  lemma LazyAirvalIdempotent(bestAs: seq<XReal>, bestBs: seq<XReal>, node: int, to: int, airline: NonNegReal)
    requires 0 <= node < |bestAs| && |bestAs| == |bestBs|
    ensures var once := LazyAirval(bestAs, bestBs, node, to, airline);
            LazyAirval(once.0, once.1, node, to, airline) == once
  {
    var once := LazyAirval(bestAs, bestBs, node, to, airline);
    if once.1[node] == Fin(0.0) && bestBs[node] == Fin(0.0) {
      assert once.0 == once.0[node := Fin(LinkA(ArtificialLink(node, to, airline)))];
      assert once.1 == once.1[node := Fin(LinkB(ArtificialLink(node, to, airline)))];
    }
  }
}
