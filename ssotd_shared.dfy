/** What every SSOTD driver shares: the reference context and the score
    helpers of the lower bounds, the A* queue orders of `ssotd_core`, the
    option handling and person grouping of `do_routing`, the anchor
    searches that build fronts between route positions, and the random
    assignment of persons in `ssotd`. */
module SsotdShared {
  import opened Common
  import opened Network
  import opened Elements
  import opened Fragments
  import Pareto
  import Psych
  import Data
  import ShortestPaths
  import Reference

  // ---------------------------------------------------------------------
  // Reference scores and queue orders
  // ---------------------------------------------------------------------

  /** What the bounds and the A* orders read of the reference route: the
      route (its totals), the node position map, the prefix sums, the
      number of persons and the scorer. */
  datatype RefCtx = RefCtx(orig: Data.Route, index: map<int, int>, pa: seq<real>, pb: seq<real>,
                           k: int, sc: Psych.Scorer)

  /** `index_in_original` on the context's map: -1 for unmapped nodes. */
  function Position(ctx: RefCtx, v: int): int
  {
    if v in ctx.index then ctx.index[v] else -1
  }

  /** Extended reals: a finite value plus another, or HUGE_VAL. */
  function XPlus(x: XReal, y: XReal): (r: XReal)
    ensures r.Fin? <==> x.Fin? && y.Fin?
  {
    if x.Fin? && y.Fin? then Fin(x.v + y.v) else PosInf
  }

  /** The score of costs (a, b) with shared (sa, sb) against the reference
      totals; an infinite cost scores as nothing fitting. */
  function ScoreAgainst(ctx: RefCtx, a: XReal, b: XReal, sa: real, sb: real, k: int): Psych.Scored
  {
    if a.Fin? && b.Fin? then ctx.sc(Psych.Costs(a.v, b.v, ctx.orig.a, ctx.orig.b, sa, sb), k)
    else Psych.Scored(DblMax, 9)
  }

  /** The pair the `lower_bound_score_*` functions return for an element
      `par` at node `v` of a search from `c`, whose completed costs are
      (a, b) with shared costs (sa, sb): when the best usage is positive,
      the score and `score_for_relax` at the positions of c and v (a
      position outside the prefix vectors gives no relaxation); otherwise
      (HUGE_VAL, -1). */
  function BoundValue(ctx: RefCtx, a: XReal, b: XReal, sa: real, sb: real, par: Elem, c: int, v: int): (r: (XReal, real))
    ensures var s := ScoreAgainst(ctx, a, b, sa, sb, ctx.k);
            (s.usage <= 0 ==> r == (PosInf, -1.0)) && (s.usage > 0 ==> r.0 == Fin(s.score))
    ensures Psych.NonNegScores(ctx.sc) ==> r.1 == -1.0 || r.1 >= 10.0
  {
    var s := ScoreAgainst(ctx, a, b, sa, sb, ctx.k);
    if s.usage > 0 then
      var relax := Reference.RelaxFromPrefix(ctx.pa, ctx.pb, Position(ctx, c), Position(ctx, v), par, ctx.k, ctx.sc);
      (Fin(s.score), if relax.Some? then relax.value else -1.0)
    else (PosInf, -1.0)
  }

  /** The coefficients of the artificial link between two nodes, as the
      lazy airline caches hold them (freespeed 130, capacity 2288). */
  function Airval(from: int, to: int, airline: (int, int) -> NonNegReal): (XReal, XReal)
  {
    var l := ShortestPaths.ArtificialLink(from, to, airline(from, to));
    (Fin(LinkA(l)), Fin(LinkB(l)))
  }

  /** Entry `v` of a best-values vector; a node outside it is unreached. */
  function BestAt(best: seq<XReal>, v: int): XReal
  {
    if 0 <= v < |best| then best[v] else PosInf
  }

  /** The context `prepare_original_route` leaves for the reference route
      `orig`: the position map of its nodes and its prefix sums of a and
      b, with k persons scored by `sc`. */
  ghost predicate PreparedCtx(ctx: RefCtx, orig: Data.Route, k: int, sc: Psych.Scorer)
  {
    ctx.orig == orig && ctx.k == k && ctx.sc == sc && |orig.links| > 0 && ctx.index == Reference.RouteIndex(orig.links) &&
    |ctx.pa| == |orig.links| + 1 && |ctx.pb| == |orig.links| + 1 &&
    forall i :: 0 <= i <= |orig.links| ==> ctx.pa[i] == SumA(orig.links[..i]) && ctx.pb[i] == SumB(orig.links[..i])
  }

  /** `fill_best_pars_dijkstra(to)`'s vectors: one entry per node, 0 at
      `to`, and, once the fill ran to the end, lower bounds of the
      coefficient sums of every walk to `to`. */
  ghost predicate BackwardBests(adj: Graph, to: int, bestAs: seq<XReal>, bestBs: seq<XReal>, complete: bool)
  {
    |bestAs| == |adj| && |bestBs| == |adj| && 0 <= to < |adj| &&
    bestAs[to] == Fin(0.0) && bestBs[to] == Fin(0.0) &&
    (complete ==> forall y, p :: IsWalk(p, y, to) && InGraph(adj, p) ==>
                    0 <= y < |adj| && ShortestPaths.LowerBoundOf(bestAs[y], SumA(p)) &&
                    ShortestPaths.LowerBoundOf(bestBs[y], SumB(p)))
  }

  /** `fill_best_pars_dijkstra_forward(from)`'s vectors: the same for
      every walk from `from`. */
  ghost predicate ForwardBests(adj: Graph, from: int, fwdAs: seq<XReal>, fwdBs: seq<XReal>, complete: bool)
  {
    |fwdAs| == |adj| && |fwdBs| == |adj| && 0 <= from < |adj| &&
    fwdAs[from] == Fin(0.0) && fwdBs[from] == Fin(0.0) &&
    (complete ==> forall y, p :: IsWalk(p, from, y) && InGraph(adj, p) ==>
                    0 <= y < |adj| && ShortestPaths.LowerBoundOf(fwdAs[y], SumA(p)) &&
                    ShortestPaths.LowerBoundOf(fwdBs[y], SumB(p)))
  }

  /** The vectors the airline options allocate: zero for every node. */
  predicate ZeroBests(adj: Graph, bestAs: seq<XReal>, bestBs: seq<XReal>)
  {
    |bestAs| == |adj| && |bestBs| == |adj| &&
    forall v :: 0 <= v < |adj| ==> bestAs[v] == Fin(0.0) && bestBs[v] == Fin(0.0)
  }

  /** Lexicographic `>` on (score, usage) pairs. */
  predicate ScoredAbove(s: Psych.Scored, t: Psych.Scored)
  {
    s.score > t.score || (s.score == t.score && s.usage > t.usage)
  }

  /** `astar_prio_dijkstra`: (x, u) is served after (y, v) when its score,
      completed by the backward bests, is larger; d is the number of
      agents. It is a strict order, as `std::priority_queue` needs. */
  function AstarPrioDijkstra(ctx: RefCtx, bestAs: seq<XReal>, bestBs: seq<XReal>, d: int): (prio: Pareto.Prio)
    ensures Pareto.StrictOrder(prio)
  {
    var key := (x: Elem, u: int) =>
      ScoreAgainst(ctx, XPlus(Fin(x.agg.a), BestAt(bestAs, u)), XPlus(Fin(x.agg.b), BestAt(bestBs, u)), x.agg.sa, x.agg.sb, d);
    KeyedStrict(key);
    (x: Elem, u: int, y: Elem, v: int) => ScoredAbove(key(x, u), key(y, v))
  }

  /** `astar_prio_airline`: the same with the airline coefficients to
      `to`; a strict order too. */
  function AstarPrioAirline(ctx: RefCtx, to: int, airline: (int, int) -> NonNegReal, d: int): (prio: Pareto.Prio)
    ensures Pareto.StrictOrder(prio)
  {
    var key := (x: Elem, u: int) =>
      var ax := Airval(u, to, airline);
      ScoreAgainst(ctx, XPlus(Fin(x.agg.a), ax.0), XPlus(Fin(x.agg.b), ax.1), x.agg.sa, x.agg.sb, d);
    KeyedStrict(key);
    (x: Elem, u: int, y: Elem, v: int) => ScoredAbove(key(x, u), key(y, v))
  }

  /** Comparing entries by `ScoredAbove` on a key of each is a strict
      order. */
  lemma KeyedStrict(key: (Elem, int) -> Psych.Scored)
    ensures Pareto.StrictOrder((x: Elem, u: int, y: Elem, v: int) => ScoredAbove(key(x, u), key(y, v)))
  {
    forall x, u, y, v, z, w
      ensures ScoredAbove(key(x, u), key(y, v)) && ScoredAbove(key(y, v), key(z, w)) ==> ScoredAbove(key(x, u), key(z, w))
    {
      ScoredAboveStrict(key(x, u), key(y, v), key(z, w));
    }
  }

  /** Both A* orders are strict orders, as the queue needs. */
  lemma ScoredAboveStrict(s: Psych.Scored, t: Psych.Scored, w: Psych.Scored)
    ensures !ScoredAbove(s, s)
    ensures ScoredAbove(s, t) && ScoredAbove(t, w) ==> ScoredAbove(s, w)
    ensures ScoredAbove(s, t) ==> !ScoredAbove(t, s)
  {
  }

  // ---------------------------------------------------------------------
  // The optimization option
  // ---------------------------------------------------------------------

  datatype Optimization = NoOpt | SimpleLocalOpt | DijkstraLocalOpt | AirlineLocalOpt
                        | AirlineAstarOpt | DijkstraAstarOpt

  /** The option strings `ssotd_route` accepts; any other string is
      rejected. */
  function ParseOptimization(s: string): (r: Option<Optimization>)
    ensures r == Some(NoOpt) <==> s == "none" || s == "hop"
    ensures r.None? <==> s !in {"none", "hop", "simple_local_opt", "dijkstra_local_opt", "airline_local_opt",
                                "airline_astar_opt", "dijkstra_astar_opt"}
  {
    if s == "none" || s == "hop" then Some(NoOpt)
    else if s == "simple_local_opt" then Some(SimpleLocalOpt)
    else if s == "dijkstra_local_opt" then Some(DijkstraLocalOpt)
    else if s == "airline_local_opt" then Some(AirlineLocalOpt)
    else if s == "airline_astar_opt" then Some(AirlineAstarOpt)
    else if s == "dijkstra_astar_opt" then Some(DijkstraAstarOpt)
    else None
  }

  /** The characters `do_routing` trims: those of "\t\n\v\f\r ". */
  predicate IsBlank(c: char)
  {
    Data.IsSpace(c)
  }

  /** The option trimming of `do_routing`: the text between the first and
      the last non-blank character. A value made only of blanks (or empty)
      makes `substr` throw: None. */
  function Trim(s: string): (r: Option<string>)
    ensures r.None? <==> forall i :: 0 <= i < |s| ==> IsBlank(s[i])
    ensures r.Some? ==> |r.value| > 0 && !IsBlank(r.value[0]) && !IsBlank(r.value[|r.value| - 1])
    ensures r.Some? ==> TrimmedFrom(s, r.value)
  {
    var p1 := FirstNonBlank(s, 0);
    if p1 == |s| then None
    else
      var p2 := LastNonBlank(s, |s|);
      assert p2 >= p1 by {
        assert !IsBlank(s[p1]);
      }
      TrimShape(s, p1, p2);
      Some(s[p1..p2 + 1])
  }

  /** With only blanks before p1 and after p2, the text between is `s`
      with blanks removed on either side. */
  lemma TrimShape(s: string, p1: int, p2: int)
    requires 0 <= p1 <= p2 < |s|
    requires forall j :: 0 <= j < p1 ==> IsBlank(s[j])
    requires forall j :: p2 < j < |s| ==> IsBlank(s[j])
    ensures TrimmedFrom(s, s[p1..p2 + 1])
  {
    assert s == s[..p1] + s[p1..p2 + 1] + s[p2 + 1..];
    assert AllBlank(s[..p1]) && AllBlank(s[p2 + 1..]);
  }

  predicate AllBlank(s: string)
  {
    forall i :: 0 <= i < |s| ==> IsBlank(s[i])
  }

  /** `s` is `t` with blanks added on either side. */
  ghost predicate TrimmedFrom(s: string, t: string)
  {
    exists u, w :: AllBlank(u) && AllBlank(w) && s == u + t + w
  }

  /** `find_first_not_of` from position i; |s| when there is none. */
  function FirstNonBlank(s: string, i: nat): (p: nat)
    requires i <= |s|
    ensures i <= p <= |s| && (p < |s| ==> !IsBlank(s[p]))
    ensures forall j :: i <= j < p ==> IsBlank(s[j])
    decreases |s| - i
  {
    if i == |s| || !IsBlank(s[i]) then i else FirstNonBlank(s, i + 1)
  }

  /** `find_last_not_of` below position n; -1 when there is none. */
  function LastNonBlank(s: string, n: nat): (p: int)
    requires n <= |s|
    ensures -1 <= p < n && (p >= 0 ==> !IsBlank(s[p]))
    ensures forall j :: p < j < n ==> IsBlank(s[j])
  {
    if n == 0 then -1 else if !IsBlank(s[n - 1]) then n - 1 else LastNonBlank(s, n - 1)
  }

  /** Trimming a trimmed option changes nothing. */
  lemma TrimIdempotent(s: string)
    requires Trim(s).Some?
    ensures Trim(Trim(s).value) == Trim(s)
  {
    var t := Trim(s).value;
    assert FirstNonBlank(t, 0) == 0;
    assert LastNonBlank(t, |t|) == |t| - 1;
    assert t[0..|t|] == t;
  }

  /** The option `do_routing` passes on: the trimmed argument, "none"
      without one, None when the argument is blank. */
  function OptionArgument(args: seq<string>): (r: Option<string>)
    ensures |args| == 0 ==> r == Some("none")
    ensures |args| > 0 ==> r == Trim(args[0])
  {
    if |args| > 0 then Trim(args[0]) else Some("none")
  }

  // ---------------------------------------------------------------------
  // Grouping the persons
  // ---------------------------------------------------------------------

  datatype Person = Person(origin: int, destination: int, timestr: string)

  datatype Key = Key(origin: int, destination: int, timestr: string)

  function KeyOf(p: Person): Key
  {
    Key(p.origin, p.destination, p.timestr)
  }

  /** The ids below n of the persons with key `key`, ascending. */
  function PidsWith(persons: seq<Person>, key: Key, n: nat): (r: seq<int>)
    requires n <= |persons|
  {
    if n == 0 then []
    else PidsWith(persons, key, n - 1) + (if KeyOf(persons[n - 1]) == key then [n - 1] else [])
  }

  /** The group of a key holds exactly the persons with that key, in
      increasing id order. */
  lemma {:induction false} PidsWithFacts(persons: seq<Person>, key: Key, n: nat)
    requires n <= |persons|
    ensures forall pid :: pid in PidsWith(persons, key, n) <==> 0 <= pid < n && KeyOf(persons[pid]) == key
    ensures forall i, j :: 0 <= i < j < |PidsWith(persons, key, n)| ==>
              PidsWith(persons, key, n)[i] < PidsWith(persons, key, n)[j]
  {
    if n > 0 {
      PidsWithFacts(persons, key, n - 1);
      var prev := PidsWith(persons, key, n - 1);
      if KeyOf(persons[n - 1]) == key {
        var r := prev + [n - 1];
        assert r == PidsWith(persons, key, n);
        forall i, j | 0 <= i < j < |r|
          ensures r[i] < r[j]
        {
          if j == |prev| {
            assert prev[i] in prev;
          }
        }
      } else {
        assert prev == PidsWith(persons, key, n);
      }
    }
  }

  /** A key no person below n has gets the empty group. */
  lemma {:induction false} PidsWithNone(persons: seq<Person>, key: Key, n: nat)
    requires n <= |persons|
    requires forall q :: 0 <= q < n ==> KeyOf(persons[q]) != key
    ensures PidsWith(persons, key, n) == []
  {
    if n > 0 {
      PidsWithNone(persons, key, n - 1);
    }
  }

  /** The grouping loop of `do_routing`: every person id is appended to the
      group of its (origin, destination, time) key. */
  method GroupPersons(persons: seq<Person>) returns (groups: map<Key, seq<int>>)
    ensures forall key :: key in groups <==> exists pid :: 0 <= pid < |persons| && KeyOf(persons[pid]) == key
    ensures forall key :: key in groups ==> groups[key] == PidsWith(persons, key, |persons|)
  {
    groups := map[];
    var pid := 0;
    while pid < |persons|
      invariant 0 <= pid <= |persons|
      invariant groups.Keys == KeysUpTo(persons, pid)
      invariant forall key :: key in groups ==> groups[key] == PidsWith(persons, key, pid)
    {
      var key := KeyOf(persons[pid]);
      var old_ := if key in groups then groups[key] else [];
      GroupStep(persons, groups, pid);
      groups := groups[key := old_ + [pid]];
      pid := pid + 1;
    }
    KeysUpToIff(persons, |persons|);
    assert forall key :: key in groups <==> key in KeysUpTo(persons, |persons|);
  }

  /** The keys of the first n persons. */
  ghost function KeysUpTo(persons: seq<Person>, n: nat): set<Key>
    requires n <= |persons|
  {
    if n == 0 then {} else KeysUpTo(persons, n - 1) + {KeyOf(persons[n - 1])}
  }

  lemma {:induction false} KeysUpToIff(persons: seq<Person>, n: nat)
    requires n <= |persons|
    ensures forall key :: key in KeysUpTo(persons, n) <==> exists pid :: 0 <= pid < n && KeyOf(persons[pid]) == key
  {
    if n > 0 {
      KeysUpToIff(persons, n - 1);
      forall key | key in KeysUpTo(persons, n)
        ensures exists pid :: 0 <= pid < n && KeyOf(persons[pid]) == key
      {
        if key == KeyOf(persons[n - 1]) {
          assert KeyOf(persons[n - 1]) == key;
        } else {
          assert key in KeysUpTo(persons, n - 1);
          var pid :| 0 <= pid < n - 1 && KeyOf(persons[pid]) == key;
          assert 0 <= pid < n;
        }
      }
      forall key | exists pid :: 0 <= pid < n && KeyOf(persons[pid]) == key
        ensures key in KeysUpTo(persons, n)
      {
        var pid :| 0 <= pid < n && KeyOf(persons[pid]) == key;
        if pid < n - 1 {
          assert 0 <= pid < n - 1 && KeyOf(persons[pid]) == key;
        }
      }
    }
  }

  /** Appending person pid to its key's group keeps `GroupPersons`'s
      invariants one person further. */
  lemma GroupStep(persons: seq<Person>, groups: map<Key, seq<int>>, pid: int)
    requires 0 <= pid < |persons|
    requires groups.Keys == KeysUpTo(persons, pid)
    requires forall key :: key in groups ==> groups[key] == PidsWith(persons, key, pid)
    ensures var key := KeyOf(persons[pid]);
            var groups' := groups[key := (if key in groups then groups[key] else []) + [pid]];
            groups'.Keys == KeysUpTo(persons, pid + 1)
            && (forall k :: k in groups' ==> groups'[k] == PidsWith(persons, k, pid + 1))
  {
    var key := KeyOf(persons[pid]);
    if key !in groups {
      KeysUpToIff(persons, pid);
      PidsWithNone(persons, key, pid);
    }
  }

  // ---------------------------------------------------------------------
  // The fronts between route positions
  // ---------------------------------------------------------------------

  /** Position i of the reference route: the source of link i, the last
      target for i == |route|, and `a` on an empty route. */
  function NodeAt(route: seq<Link>, a: int, i: int): int
  {
    if 0 <= i < |route| then route[i].from
    else if |route| == 0 then a
    else route[|route| - 1].to
  }

  type Fronts = map<(int, int), seq<Frag>>

  /** `paretoFronts[{j, i}]`; a key never written reads as empty. */
  function FrontOf(fronts: Fronts, j: int, i: int): seq<Frag>
  {
    if (j, i) in fronts then fronts[(j, i)] else []
  }

  /** A front between positions j < i: element fragments whose links walk
      from position j to position i on links off the reference route. */
  ghost predicate FrontOk(route: seq<Link>, a: int, j: int, i: int, fs: seq<Frag>)
  {
    0 <= j < i <= |route| &&
    forall f :: f in fs ==>
      f.ElemFrag? && IsWalk(Mat(f), NodeAt(route, a, j), NodeAt(route, a, i)) && Ids(Mat(f)) !! Ids(route)
  }

  ghost predicate FrontsOk(route: seq<Link>, a: int, fronts: Fronts)
  {
    forall j, i :: (j, i) in fronts ==> FrontOk(route, a, j, i, fronts[(j, i)])
  }

  /** The element fragments of a frontier: each element's aggregates and
      the links it collects. */
  function FragsOf(arena: seq<Elem>, xs: seq<nat>): (fs: seq<Frag>)
    requires WellFormed(arena) && forall k :: 0 <= k < |xs| ==> xs[k] < |arena|
    ensures |fs| == |xs|
  {
    seq(|xs|, k requires 0 <= k < |xs| => ElemFrag(arena[xs[k]].agg, CollectLinks(arena, xs[k])))
  }

  /** What one Pareto search hands back: its arena, its frontiers, the
      upper bound it ends with, and whether its queue drained. */
  datatype SearchRun = SearchRun(arena: seq<Elem>, pareto: seq<seq<nat>>, upper: real, complete: bool)

  /** A drained anchor search from `c` is closed: every child of every
      element is pruned by the bound or dominated by a member of its node's
      frontier. */
  ghost predicate AnchorClosed(adj: Graph, c: int, d: int, inactive: set<int>, bound: Option<Pareto.Bound>,
                               run: SearchRun)
  {
    run.complete ==>
      Pareto.SearchClosed(adj, c, Pareto.Config(false, false, inactive, {}), d, bound, run.arena, run.pareto,
                          if bound.None? then 0.0 else run.upper)
  }

  /** The fragments of the frontier at node v, or none for a node the
      frontiers do not reach. */
  ghost function FrontierAt(run: SearchRun, v: int): seq<Frag>
  {
    if WellFormed(run.arena) && 0 <= v < |run.pareto| && forall k :: 0 <= k < |run.pareto[v]| ==> run.pareto[v][k] < |run.arena|
    then FragsOf(run.arena, run.pareto[v])
    else []
  }

  /** The fronts are exactly the anchor searches' frontiers: one search per
      route link, from its source, with the route's links inactive and the
      anchor's bound; front (j, i) is search j's frontier at position i. */
  ghost predicate FrontsFrom(adj: Graph, route: seq<Link>, a: int, d: int, boundAt: int -> Option<Pareto.Bound>,
                             runs: seq<SearchRun>, fronts: Fronts)
  {
    |runs| == |route| &&
    (forall j, i :: (j, i) in fronts <==> 0 <= j < i <= |route|) &&
    (forall j, i :: 0 <= j < i <= |route| ==> fronts[(j, i)] == FrontierAt(runs[j], NodeAt(route, a, i))) &&
    (forall j :: 0 <= j < |route| ==> AnchorClosed(adj, route[j].from, d, Ids(route), boundAt(route[j].from), runs[j]))
  }

  /** One anchor search, `pareto_dijk(v, &pareto)`: the unbounded search,
      which hands back the upper bound unchanged, or the bounded local
      search, which may lower it. */
  method AnchorSearch(adj: Graph, c: int, d: int, inactive: set<int>, upper: real,
                      bound: Option<Pareto.Bound>, prio: Pareto.Prio, fuel: nat)
    returns (arena: seq<Elem>, pareto: seq<seq<nat>>, upper': real, complete: bool)
    requires ValidGraph(adj) && 0 <= c < |adj|
    ensures WellFormed(arena) && |pareto| == |adj|
    ensures forall v, x :: 0 <= v < |pareto| && x in pareto[v] ==> 0 < x < |arena|
    ensures forall v, x :: 0 <= v < |pareto| && x in pareto[v] ==>
              x < |arena| && IsWalk(CollectLinks(arena, x), c, v) && Ids(CollectLinks(arena, x)) !! inactive
    ensures Pareto.QotOk(upper', upper) && (bound.None? ==> upper' == upper)
    ensures AnchorClosed(adj, c, d, inactive, bound, SearchRun(arena, pareto, upper', complete))
  {
    var visits;
    if bound.None? {
      arena, pareto, visits, complete := Pareto.ParetoDijkstra(adj, c, d, inactive, prio, fuel);
      upper' := upper;
    } else {
      arena, pareto, upper', visits, complete := Pareto.LocalOpt(adj, c, d, upper, inactive, bound.value, prio, fuel);
    }
  }

  /** The anchor loop of `ssotd_route`: a search from the source of every
      route link with all route links inactive; front (lid, j) is the
      frontier at the source of link j, and front (lid, L) the frontier at
      the last node. Each search starts from the running upper bound when
      `chained` (the search closure holds the bound by reference) and from
      `qot` otherwise. The upper bound only falls, and only to positive
      values. */
  method AssembleFronts(adj: Graph, route: seq<Link>, a: int, d: int, qot: real, chained: bool,
                        boundAt: int -> Option<Pareto.Bound>, prio: Pareto.Prio, fuel: nat)
    returns (fronts: Fronts, upper: real, complete: bool, ghost runs: seq<SearchRun>)
    requires ValidGraph(adj) && InGraph(adj, route) && Connected(route)
    ensures FrontsOk(route, a, fronts)
    ensures FrontsFrom(adj, route, a, d, boundAt, runs, fronts)
    ensures complete <==> forall j :: 0 <= j < |runs| ==> runs[j].complete
    ensures Pareto.QotOk(upper, qot)
  {
    fronts := map[];
    upper := qot;
    complete := true;
    runs := [];
    var inactive := Ids(route);
    var lid := 0;
    while lid < |route|
      invariant 0 <= lid <= |route| && |runs| == lid
      invariant FrontsOk(route, a, fronts)
      invariant forall j, i :: (j, i) in fronts <==> 0 <= j < lid && j < i <= |route|
      invariant forall j, i :: 0 <= j < lid && j < i <= |route| ==> fronts[(j, i)] == FrontierAt(runs[j], NodeAt(route, a, i))
      invariant forall j :: 0 <= j < lid ==> AnchorClosed(adj, route[j].from, d, inactive, boundAt(route[j].from), runs[j])
      invariant complete <==> forall j :: 0 <= j < lid ==> runs[j].complete
      invariant Pareto.QotOk(upper, qot)
    {
      var c := route[lid].from;
      assert route[lid] in route;
      var start := if chained then upper else qot;
      var arena, pareto, newUpper, done := AnchorSearch(adj, c, d, inactive, start, boundAt(c), prio, fuel);
      if newUpper < upper {
        upper := newUpper;
      }
      complete := complete && done;
      var run := SearchRun(arena, pareto, newUpper, done);
      fronts := AddFronts(adj, route, a, lid, run, fronts);
      runs := runs + [run];
      lid := lid + 1;
    }
  }

  /** The fronts one anchor search contributes: front (lid, i) becomes the
      search's frontier at position i for every later position i, and no
      other front changes. */
  method AddFronts(adj: Graph, route: seq<Link>, a: int, lid: int, run: SearchRun, fronts: Fronts)
    returns (fronts': Fronts)
    requires ValidGraph(adj) && InGraph(adj, route) && Connected(route) && 0 <= lid < |route|
    requires WellFormed(run.arena) && |run.pareto| == |adj|
    requires forall v, x :: 0 <= v < |run.pareto| && x in run.pareto[v] ==> 0 < x < |run.arena|
    requires forall v, x :: 0 <= v < |run.pareto| && x in run.pareto[v] ==>
               x < |run.arena| && IsWalk(CollectLinks(run.arena, x), route[lid].from, v) &&
               Ids(CollectLinks(run.arena, x)) !! Ids(route)
    requires FrontsOk(route, a, fronts)
    ensures FrontsOk(route, a, fronts')
    ensures forall j, i :: (j, i) in fronts' <==> (j, i) in fronts || (j == lid && lid < i <= |route|)
    ensures forall j, i :: (j, i) in fronts && j != lid ==> fronts'[(j, i)] == fronts[(j, i)]
    ensures forall i :: lid < i <= |route| ==> fronts'[(lid, i)] == FrontierAt(run, NodeAt(route, a, i))
  {
    fronts' := fronts;
    var arena, pareto := run.arena, run.pareto;
    var j := lid + 1;
    while j <= |route|
      invariant lid + 1 <= j <= |route| + 1
      invariant FrontsOk(route, a, fronts')
      invariant forall p, q :: (p, q) in fronts' <==> (p, q) in fronts || (p == lid && lid < q < j)
      invariant forall p, q :: (p, q) in fronts && p != lid ==> fronts'[(p, q)] == fronts[(p, q)]
      invariant forall i :: lid < i < j ==> fronts'[(lid, i)] == FrontierAt(run, NodeAt(route, a, i))
    {
      var v := NodeAt(route, a, j);
      assert 0 <= v < |adj| by {
        if j < |route| {
          assert route[j] in route;
        } else {
          assert route[|route| - 1] in route;
        }
      }
      assert forall k :: 0 <= k < |pareto[v]| ==> pareto[v][k] < |arena| by {
        forall k | 0 <= k < |pareto[v]|
          ensures pareto[v][k] < |arena|
        {
          assert pareto[v][k] in pareto[v];
        }
      }
      var fs := FragsOf(arena, pareto[v]);
      assert FrontOk(route, a, lid, j, fs) by {
        forall f | f in fs
          ensures f.ElemFrag? && IsWalk(Mat(f), NodeAt(route, a, lid), NodeAt(route, a, j))
                  && Ids(Mat(f)) !! Ids(route)
        {
          var t :| 0 <= t < |fs| && fs[t] == f;
          assert pareto[v][t] in pareto[v];
        }
      }
      assert fs == FrontierAt(run, v);
      fronts' := fronts'[(lid, j) := fs];
      j := j + 1;
    }
  }

  // ---------------------------------------------------------------------
  // Choices and assigning the persons
  // ---------------------------------------------------------------------

  /** The outcome of `ssotd_route`: the chosen route and its usage, or
      None where the source fails (no fragment scored below DBL_MAX, so
      `best` stays null, or no search was configured). */
  datatype Choice = Choice(links: seq<Link>, usage: int)

  /** `(rand() % 65536) / 65536.0 < usage`: the draw that sends a person to
      the alternative. */
  predicate TakesAlternative(draw: int, usage: real)
  {
    ((draw % 65536) as real) / 65536.0 < usage
  }

  /** The route a draw gives a person. */
  function RouteByDraw(draw: int, usage: real, alt: seq<Link>, orig: seq<Link>): seq<Link>
  {
    if TakesAlternative(draw, usage) then alt else orig
  }

  /** Position t holds the last occurrence of its id among the first n. */
  predicate LastBelow(pids: seq<int>, t: int, n: int)
    requires 0 <= t < n <= |pids|
  {
    forall j :: t < j < n ==> pids[j] != pids[t]
  }

  /** The persons' routes after the assignment of `ssotd`: person pids[t]
      has the route its draw gives (a repeated id keeps its last
      assignment), and nobody else changes. */
  ghost predicate Assigned(routes: map<int, seq<Link>>, pids: seq<int>, draws: seq<int>, usage: real,
                           alt: seq<Link>, orig: seq<Link>, routes': map<int, seq<Link>>)
    requires |draws| == |pids|
  {
    (forall p :: p in routes && p !in pids ==> p in routes' && routes'[p] == routes[p]) &&
    (forall p :: p in routes' <==> p in routes || p in pids) &&
    (forall t :: 0 <= t < |pids| && LastBelow(pids, t, |pids|) ==>
       pids[t] in routes' && routes'[pids[t]] == RouteByDraw(draws[t], usage, alt, orig))
  }

  /** The usage `ssotd` draws against: the chosen usage shared by the k
      persons. */
  function UsageShare(usage: int, k: nat): real
  {
    if k == 0 then 0.0 else usage as real / k as real
  }

  /** The assignment loop of `ssotd`: person pids[i] takes the alternative
      when its draw says so and the reference route otherwise (a repeated
      id keeps its last assignment); nobody else changes. */
  method Assign(routes: map<int, seq<Link>>, pids: seq<int>, draws: seq<int>, usage: real,
                alt: seq<Link>, orig: seq<Link>)
    returns (routes': map<int, seq<Link>>)
    requires |draws| == |pids|
    ensures Assigned(routes, pids, draws, usage, alt, orig, routes')
  {
    routes' := routes;
    for i := 0 to |pids|
      invariant forall p :: p in routes && p !in pids ==> p in routes' && routes'[p] == routes[p]
      invariant forall p :: p in routes' <==> p in routes || p in pids[..i]
      invariant forall t :: 0 <= t < i && LastBelow(pids, t, i) ==>
                  pids[t] in routes' && routes'[pids[t]] == RouteByDraw(draws[t], usage, alt, orig)
    {
      AssignStep(routes, routes', pids, draws, usage, alt, orig, i);
      routes' := routes'[pids[i] := RouteByDraw(draws[i], usage, alt, orig)];
    }
    assert pids[..|pids|] == pids;
  }

  /** When both routes are walks from s to t, every assigned person ends up
      with a walk from s to t. */
  lemma AssignedWalks(routes: map<int, seq<Link>>, pids: seq<int>, draws: seq<int>, usage: real,
                      alt: seq<Link>, orig: seq<Link>, routes': map<int, seq<Link>>, s: int, t: int)
    requires |draws| == |pids| && Assigned(routes, pids, draws, usage, alt, orig, routes')
    requires IsWalk(alt, s, t) && IsWalk(orig, s, t)
    ensures forall p :: p in pids ==> p in routes' && IsWalk(routes'[p], s, t)
  {
    forall p | p in pids
      ensures p in routes' && IsWalk(routes'[p], s, t)
    {
      var i := LastIndex(pids, p);
    }
  }

  /** One assignment of `Assign`'s loop keeps its three invariants. */
  lemma AssignStep(routes: map<int, seq<Link>>, cur: map<int, seq<Link>>, pids: seq<int>, draws: seq<int>,
                   usage: real, alt: seq<Link>, orig: seq<Link>, i: int)
    requires |draws| == |pids| && 0 <= i < |pids|
    requires forall p :: p in routes && p !in pids ==> p in cur && cur[p] == routes[p]
    requires forall p :: p in cur <==> p in routes || p in pids[..i]
    requires forall t :: 0 <= t < i && LastBelow(pids, t, i) ==>
               pids[t] in cur && cur[pids[t]] == RouteByDraw(draws[t], usage, alt, orig)
    ensures var next := cur[pids[i] := RouteByDraw(draws[i], usage, alt, orig)];
            (forall p :: p in routes && p !in pids ==> p in next && next[p] == routes[p])
            && (forall p :: p in next <==> p in routes || p in pids[..i + 1])
            && (forall t :: 0 <= t < i + 1 && LastBelow(pids, t, i + 1) ==>
                  pids[t] in next && next[pids[t]] == RouteByDraw(draws[t], usage, alt, orig))
  {
    var next := cur[pids[i] := RouteByDraw(draws[i], usage, alt, orig)];
    forall t | 0 <= t < i + 1 && LastBelow(pids, t, i + 1)
      ensures pids[t] in next && next[pids[t]] == RouteByDraw(draws[t], usage, alt, orig)
    {
      if t < i {
        assert pids[i] != pids[t];
        assert LastBelow(pids, t, i);
      }
    }
    assert pids[..i + 1] == pids[..i] + [pids[i]];
  }

  /** The longest reference route `ssotd` accepts. */
  const MaxOriginalRouteLinks := 1024

  /** The last position holding p. */
  function LastIndex(xs: seq<int>, p: int): (i: int)
    requires p in xs
    ensures 0 <= i < |xs| && xs[i] == p && forall j :: i < j < |xs| ==> xs[j] != p
  {
    if xs[|xs| - 1] == p then |xs| - 1 else LastIndex(xs[..|xs| - 1], p)
  }
}
