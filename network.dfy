/** The road network: directed links with their physical attributes, the
    linear cost model's coefficient formulas, and walks over links. */
module Network {
  import opened Common

  type PosReal = r: real | r > 0.0 witness 1.0
  type NonNegReal = r: real | r >= 0.0 witness 0.0

  /** A directed link. The loader only admits links with positive capacity
      and free-flow speed and a non-negative length. */
  datatype Link = Link(id: int, from: int, to: int,
                       length: NonNegReal, capacity: PosReal, freespeed: PosReal)

  /** The single-precision literal `0.15f` of the congestion coefficient. */
  const Fifteen: real := 0.1500000059604644775390625

  /** Travel time per agent with `x` agents on a path of coefficients a, b. */
  function Latency(a: real, b: real, x: real): real
  {
    a * x * x + b
  }

  /** Congestion coefficient `a(l) = 0.15 * length / (freespeed * capacity^2)`. */
  function LinkA(l: Link): (r: real)
    ensures r >= 0.0
    ensures l.length == 0.0 <==> r == 0.0
  {
    CoefficientDenominator(l);
    (Fifteen * l.length) / (l.freespeed * l.capacity * l.capacity)
  }

  /** Free-flow coefficient `b(l) = length / freespeed`. */
  function LinkB(l: Link): (r: real)
    ensures r >= 0.0
    ensures l.length == 0.0 <==> r == 0.0
  {
    NonNegQuotient(l.length, l.freespeed);
    l.length / l.freespeed
  }

  /** `link::latency(x)`. */
  function LinkLatency(l: Link, x: real): real
  {
    Latency(LinkA(l), LinkB(l), x)
  }

  /** `link::taud()`: the per-agent time on the link when all `d` agents of
      the current origin-destination group use it. */
  function LinkTaud(l: Link, d: int): real
  {
    LinkLatency(l, d as real)
  }

  lemma CoefficientDenominator(l: Link)
    ensures l.freespeed * l.capacity * l.capacity > 0.0
    ensures (Fifteen * l.length) / (l.freespeed * l.capacity * l.capacity) >= 0.0
    ensures l.length == 0.0 <==> (Fifteen * l.length) / (l.freespeed * l.capacity * l.capacity) == 0.0
  {
    var c: real := l.capacity;
    var f: real := l.freespeed;
    PositiveProduct(f, c);
    PositiveProduct(f * c, c);
    NonNegQuotient(Fifteen * l.length, f * c * c);
  }

  lemma PositiveProduct(x: real, y: real)
    requires x > 0.0 && y > 0.0
    ensures x * y > 0.0
  {
  }

  lemma NonNegQuotient(x: real, y: real)
    requires x >= 0.0 && y > 0.0
    ensures x / y >= 0.0
    ensures x == 0.0 <==> x / y == 0.0
  {
    assert (x / y) * y == x;
  }

  /** Latency never drops below the free-flow term and grows with the load. */
  lemma LatencyMonotone(a: real, b: real, x: real, y: real)
    requires a >= 0.0 && 0.0 <= x <= y
    ensures b <= Latency(a, b, x) <= Latency(a, b, y)
  {
    assert x * x <= y * y by { MulMono(x, y); }
    assert a * (x * x) <= a * (y * y) by { MulLeft(a, x * x, y * y); }
    assert 0.0 <= a * (x * x) by { MulLeft(a, 0.0, x * x); }
  }

  lemma MulMono(x: real, y: real)
    requires 0.0 <= x <= y
    ensures x * x <= y * y
  {
    assert x * x <= x * y;
    assert x * y <= y * y;
  }

  lemma MulLeft(a: real, x: real, y: real)
    requires a >= 0.0 && x <= y
    ensures a * x <= a * y
  {
    assert a * y - a * x == a * (y - x);
  }

  /** Each link's `to` is the next link's `from`. */
  predicate Connected(links: seq<Link>)
  {
    forall i :: 0 <= i < |links| - 1 ==> links[i].to == links[i + 1].from
  }

  /** `links` is a connected walk from `s` to `t` (the empty walk stays put). */
  predicate IsWalk(links: seq<Link>, s: int, t: int)
  {
    if |links| == 0 then s == t
    else Connected(links) && links[0].from == s && links[|links| - 1].to == t
  }

  lemma WalkAppend(p: seq<Link>, q: seq<Link>, s: int, m: int, t: int)
    requires IsWalk(p, s, m) && IsWalk(q, m, t)
    ensures IsWalk(p + q, s, t)
  {
    if |p| > 0 && |q| > 0 {
      var pq := p + q;
      forall i | 0 <= i < |pq| - 1
        ensures pq[i].to == pq[i + 1].from
      {
        if i < |p| - 1 {
          assert pq[i] == p[i] && pq[i + 1] == p[i + 1];
        } else if i == |p| - 1 {
          assert pq[i] == p[|p| - 1] && pq[i + 1] == q[0];
        } else {
          assert pq[i] == q[i - |p|] && pq[i + 1] == q[i - |p| + 1];
        }
      }
    } else if |p| == 0 {
      assert p + q == q;
    } else {
      assert p + q == p;
    }
  }

  lemma WalkSnoc(p: seq<Link>, l: Link, s: int)
    requires IsWalk(p, s, l.from)
    ensures IsWalk(p + [l], s, l.to)
  {
    WalkAppend(p, [l], s, l.from, l.to);
  }

  /** A walk cut at any position is two walks meeting at the cut node. */
  lemma WalkSplit(p: seq<Link>, s: int, t: int, i: int)
    requires IsWalk(p, s, t) && 0 < i < |p|
    ensures IsWalk(p[..i], s, p[i].from) && IsWalk(p[i..], p[i].from, t)
  {
    assert p[..i][i - 1] == p[i - 1];
  }

  /** Adjacency lists indexed by node id. */
  type Graph = seq<seq<Link>>

  /** Every link in `adj[u]` leaves `u` and enters a node of the graph. */
  predicate ValidGraph(adj: Graph)
  {
    forall u, l :: 0 <= u < |adj| && l in adj[u] ==> l.from == u && 0 <= l.to < |adj|
  }

  /** Every link of `links` is an outgoing link of its `from` node in `adj`. */
  predicate InGraph(adj: Graph, links: seq<Link>)
  {
    forall l :: l in links ==> 0 <= l.from < |adj| && l in adj[l.from]
  }

  /** The ids of a link sequence. */
  function Ids(links: seq<Link>): set<int>
  {
    set l | l in links :: l.id
  }

  /** Sum of the congestion coefficients, accumulated front to back. */
  function SumA(links: seq<Link>): real
  {
    if |links| == 0 then 0.0 else SumA(links[..|links| - 1]) + LinkA(links[|links| - 1])
  }

  /** Sum of the free-flow coefficients, accumulated front to back. */
  function SumB(links: seq<Link>): real
  {
    if |links| == 0 then 0.0 else SumB(links[..|links| - 1]) + LinkB(links[|links| - 1])
  }

  /** Sum of the physical lengths. */
  function SumLength(links: seq<Link>): real
  {
    if |links| == 0 then 0.0 else SumLength(links[..|links| - 1]) + links[|links| - 1].length
  }

  lemma {:induction false} SumsAppend(p: seq<Link>, q: seq<Link>)
    ensures SumA(p + q) == SumA(p) + SumA(q)
    ensures SumB(p + q) == SumB(p) + SumB(q)
    ensures SumLength(p + q) == SumLength(p) + SumLength(q)
    decreases |q|
  {
    if |q| == 0 {
      assert p + q == p;
    } else {
      assert (p + q)[..|p + q| - 1] == p + q[..|q| - 1];
      SumsAppend(p, q[..|q| - 1]);
    }
  }

  lemma {:induction false} SumsNonNeg(p: seq<Link>)
    ensures SumA(p) >= 0.0 && SumB(p) >= 0.0 && SumLength(p) >= 0.0
    decreases |p|
  {
    if |p| > 0 {
      SumsNonNeg(p[..|p| - 1]);
    }
  }
}
