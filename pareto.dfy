/** The dominance-pruned label-setting search: a generalised Dijkstra whose
    "distance" at a node is a frontier of mutually non-dominated path
    elements. One generic search covers the six variants, which differ in
    the dominance relation, the inactive links, the single-split rule and
    the optional bound. */
module Pareto {
  import opened Common
  import opened Network
  import opened Elements
  import Psych

  /** What distinguishes the variants: strong (four-criteria) or weak
      dominance, the single-split rule, the inactive link ids and the ids of
      the reference route's links. */
  datatype Config = Config(strong: bool, split: bool, inactive: set<int>, orig: set<int>)

  /** `can_ignore`: the link leads straight back to where the element's
      last link came from. */
  predicate CanIgnore(par: Elem, l: Link)
  {
    par.myLink.Some? && par.myLink.value.from == l.to
  }

  /** The links a search does not extend an element along: U-turns,
      inactive links, and, in the single-split variant, non-reference links
      after the split. */
  predicate Skipped(cfg: Config, par: Elem, l: Link)
  {
    CanIgnore(par, l) || l.id in cfg.inactive || (cfg.split && par.hasSplit && l.id !in cfg.orig)
  }

  /** The single-split flag of the extension: inherited, or set when a
      reference link follows a non-reference last link. */
  predicate SplitAfter(cfg: Config, par: Elem, l: Link)
  {
    cfg.split && (par.hasSplit || (l.id in cfg.orig && par.myLink.Some? && par.myLink.value.id !in cfg.orig))
  }

  /** Whether a link counts towards the shared aggregates. */
  predicate SharedLink(cfg: Config, l: Link)
  {
    cfg.strong && l.id in cfg.orig
  }

  /** The element a variant creates for `par` (arena index `p`) extended by
      `l`: the two-argument constructor for weak dominance, the shared one
      for strong dominance, then the split flag. */
  function Child(cfg: Config, par: Elem, p: int, l: Link, d: int): (e: Elem)
    ensures e.parent == p && e.myLink == Some(l)
    ensures e.hasSplit == SplitAfter(cfg, par, l)
    ensures cfg.strong ==> e.agg == Plus(par.agg, Step(l, SharedLink(cfg, l), d))
    ensures !cfg.strong && par.agg.sa == 0.0 && par.agg.sb == 0.0 && par.agg.staud == 0.0 ==>
              e.agg == Plus(par.agg, Step(l, SharedLink(cfg, l), d))
  {
    var e := if cfg.strong then ExtendShared(par, p, l, l.id in cfg.orig, d) else Extend(par, p, l, d);
    var r := e.(hasSplit := SplitAfter(cfg, par, l));
    if !cfg.strong && par.agg.sa == 0.0 && par.agg.sb == 0.0 && par.agg.staud == 0.0 then
      ExtendIsUnshared(par, p, l, d); r
    else r
  }

  /** The dominance relation of the variant. */
  predicate Dom(cfg: Config, x: Elem, y: Elem)
  {
    if cfg.strong then Psych.StronglyDominating(x, y) else Psych.Dominating(x, y)
  }

  // ---------------------------------------------------------------------
  // The arena of a search
  // ---------------------------------------------------------------------

  /** Element `i` is a legal extension of its parent: its link leaves the
      parent's node in `adj`, is not skipped, and the element is exactly
      what the variant constructs. */
  ghost predicate LegalChild(adj: Graph, src: int, cfg: Config, d: int, arena: seq<Elem>, i: int)
    requires WellFormed(arena) && 0 <= i < |arena|
  {
    var p := arena[i].parent;
    p != -1 &&
    var l := arena[i].myLink.value;
    var u := NodeOf(arena, src, p);
    0 <= u < |adj| && l in adj[u] && !Skipped(cfg, arena[p], l) && arena[i] == Child(cfg, arena[p], p, l, d)
  }

  /** The arena of a search from `src`: the root first, then only legal
      extensions. */
  ghost predicate LegalArena(adj: Graph, src: int, cfg: Config, d: int, arena: seq<Elem>)
  {
    |arena| > 0 && arena[0] == Root && WellFormed(arena) &&
    forall i :: 1 <= i < |arena| ==> LegalChild(adj, src, cfg, d, arena, i)
  }

  lemma NodeInRange(adj: Graph, src: int, cfg: Config, d: int, arena: seq<Elem>, i: int)
    requires ValidGraph(adj) && 0 <= src < |adj| && LegalArena(adj, src, cfg, d, arena) && 0 <= i < |arena|
    ensures 0 <= NodeOf(arena, src, i) < |adj|
  {
    if i > 0 {
      assert LegalChild(adj, src, cfg, d, arena, i);
    }
  }

  /** Appending a legal extension keeps the arena legal and changes no
      element's node. */
  lemma AppendLegal(adj: Graph, src: int, cfg: Config, d: int, arena: seq<Elem>, p: int, l: Link)
    requires LegalArena(adj, src, cfg, d, arena) && 0 <= p < |arena|
    requires 0 <= NodeOf(arena, src, p) < |adj| && l in adj[NodeOf(arena, src, p)]
    requires !Skipped(cfg, arena[p], l)
    ensures var a2 := arena + [Child(cfg, arena[p], p, l, d)];
            LegalArena(adj, src, cfg, d, a2) &&
            (forall i :: 0 <= i < |arena| ==> NodeOf(a2, src, i) == NodeOf(arena, src, i)) &&
            NodeOf(a2, src, |arena|) == l.to
  {
    var e := Child(cfg, arena[p], p, l, d);
    var a2 := arena + [e];
    assert forall i :: 0 <= i < |arena| ==> a2[i] == arena[i];
    assert WellFormed(a2);
    forall i | 1 <= i < |a2|
      ensures LegalChild(adj, src, cfg, d, a2, i)
    {
      if i < |arena| {
        assert LegalChild(adj, src, cfg, d, arena, i);
        assert NodeOf(a2, src, arena[i].parent) == NodeOf(arena, src, arena[i].parent);
      } else {
        assert NodeOf(a2, src, p) == NodeOf(arena, src, p);
      }
    }
  }

  // ---------------------------------------------------------------------
  // Frontiers
  // ---------------------------------------------------------------------

  predicate Distinct(f: seq<nat>)
  {
    forall i, j :: 0 <= i < j < |f| ==> f[i] != f[j]
  }

  /** No element of the frontier dominates another. */
  ghost predicate Antichain(cfg: Config, arena: seq<Elem>, f: seq<nat>)
    requires forall x :: x in f ==> x < |arena|
  {
    forall x, y :: x in f && y in f && x != y ==> !Dom(cfg, arena[x], arena[y])
  }

  /** The frontier of node `v`: distinct non-root elements standing at `v`,
      none dominating another. */
  ghost predicate FrontierOk(cfg: Config, arena: seq<Elem>, src: int, f: seq<nat>, v: int)
  {
    Distinct(f) &&
    (forall x :: x in f ==> 0 < x < |arena| && NodeOf(arena, src, x) == v) &&
    Antichain(cfg, arena, f)
  }

  ghost predicate FrontiersOk(cfg: Config, arena: seq<Elem>, src: int, pareto: seq<seq<nat>>, n: int)
  {
    |pareto| == n && forall v :: 0 <= v < n ==> FrontierOk(cfg, arena, src, pareto[v], v)
  }

  /** `any_of(..., dominating(vpar, newPar))`. */
  predicate Dominated(cfg: Config, arena: seq<Elem>, f: seq<nat>, e: Elem)
    requires forall x :: x in f ==> x < |arena|
  {
    exists x :: x in f && Dom(cfg, arena[x], e)
  }

  /** `remove_if(..., dominating(newPar, vpar))`: the frontier without the
      elements `e` dominates, in their order. */
  function Survivors(cfg: Config, arena: seq<Elem>, f: seq<nat>, e: Elem): (r: seq<nat>)
    requires forall x :: x in f ==> x < |arena|
    ensures forall x :: x in r <==> x in f && !Dom(cfg, e, arena[x])
    ensures Distinct(f) ==> Distinct(r)
  {
    if |f| == 0 then []
    else
      var init := f[..|f| - 1];
      var last := f[|f| - 1];
      assert forall x :: x in init ==> x in f;
      assert forall x :: x in f ==> x in init || x == last;
      var rest := Survivors(cfg, arena, init, e);
      assert last in f;
      if Dom(cfg, e, arena[last]) then rest
      else
        assert Distinct(f) ==> last !in init;
        rest + [last]
  }

  /** Growing the arena keeps every frontier valid. */
  lemma FrontierGrow(cfg: Config, arena: seq<Elem>, more: seq<Elem>, src: int, f: seq<nat>, v: int)
    requires FrontierOk(cfg, arena, src, f, v)
    ensures FrontierOk(cfg, arena + more, src, f, v)
  {
    assert forall x :: 0 <= x < |arena| ==> (arena + more)[x] == arena[x];
  }

  /** The frontier after offering `e` (to be stored at arena index `n`):
      unchanged when a member dominates `e`; otherwise the members `e` does
      not dominate, then `n`. */
  function Offer(cfg: Config, arena: seq<Elem>, f: seq<nat>, e: Elem, n: nat): seq<nat>
    requires forall x :: x in f ==> x < |arena|
  {
    if Dominated(cfg, arena, f, e) then f else Survivors(cfg, arena, f, e) + [n]
  }

  /** Offering keeps the frontier a set of mutually non-dominated elements:
      a dominated candidate is rejected, and an accepted one evicts exactly
      the members it dominates. */
  lemma OfferKeepsFrontier(cfg: Config, arena: seq<Elem>, src: int, f: seq<nat>, v: int, e: Elem)
    requires |arena| > 0 && FrontierOk(cfg, arena, src, f, v) && NodeOf(arena + [e], src, |arena|) == v
    ensures FrontierOk(cfg, arena + [e], src, Offer(cfg, arena, f, e, |arena|), v)
    ensures !Dominated(cfg, arena, f, e) ==>
              forall x :: x in f ==> (x in Offer(cfg, arena, f, e, |arena|) <==> !Dom(cfg, e, arena[x]))
  {
    var a2 := arena + [e];
    var n := |arena|;
    FrontierGrow(cfg, arena, [e], src, f, v);
    assert forall x :: 0 <= x < n ==> a2[x] == arena[x];
    if !Dominated(cfg, arena, f, e) {
      var s := Survivors(cfg, arena, f, e);
      var g := s + [n];
      assert forall x :: x in g <==> x in s || x == n;
      assert forall x :: x in g ==> 0 < x < |a2| && NodeOf(a2, src, x) == v;
      forall i, j | 0 <= i < j < |g|
        ensures g[i] != g[j]
      {
        if j == |g| - 1 {
          assert g[i] in s;
        }
      }
      forall x, y | x in g && y in g && x != y
        ensures !Dom(cfg, a2[x], a2[y])
      {
        if x == n {
          assert y in s;
        } else if y == n {
          assert x in f;
        }
      }
    }
  }

  // ---------------------------------------------------------------------
  // The queue
  // ---------------------------------------------------------------------

  /** A queue entry: an arena index and the node it stands at. */
  datatype Entry = Entry(elem: nat, node: int)

  /** The queue comparator: `prio(x, u, y, v)` holds when (x, u) is served
      after (y, v). */
  type Prio = (Elem, int, Elem, int) -> bool

  /** `standard_prio`: the smaller `k` is served first. */
  function StandardPrio(): (prio: Prio)
    ensures forall x, u, y, v :: prio(x, u, y, v) <==> Precedes(y, x)
  {
    (x: Elem, u: int, y: Elem, v: int) => K(y) < K(x)
  }

  /** A comparator that is a strict order: irreflexive and transitive. */
  ghost predicate StrictOrder(prio: Prio)
  {
    (forall x, u :: !prio(x, u, x, u)) &&
    (forall x, u, y, v, z, w :: prio(x, u, y, v) && prio(y, v, z, w) ==> prio(x, u, z, w))
  }

  lemma StandardPrioStrict()
    ensures StrictOrder(StandardPrio())
  {
  }

  ghost predicate QueueOk(arena: seq<Elem>, src: int, q: seq<Entry>)
  {
    forall t :: 0 <= t < |q| ==> q[t].elem < |arena| && q[t].node == NodeOf(arena, src, q[t].elem)
  }

  function Served(arena: seq<Elem>, prio: Prio, e: Entry, f: Entry): bool
    requires e.elem < |arena| && f.elem < |arena|
  {
    prio(arena[e.elem], e.node, arena[f.elem], f.node)
  }

  /** The entry the queue serves next: a running scan that moves to a later
      entry whenever the current choice is served after it. */
  function TopIndex(arena: seq<Elem>, q: seq<Entry>, prio: Prio): (t: nat)
    requires |q| > 0 && forall j :: 0 <= j < |q| ==> q[j].elem < |arena|
    ensures t < |q|
    decreases |q|
  {
    if |q| == 1 then 0
    else
      var n := |q| - 1;
      var b := TopIndex(arena, q[..n], prio);
      if Served(arena, prio, q[b], q[n]) then n else b
  }

  /** For a strict-order comparator the served entry is not served after
      any other entry: it is a top of the queue. */
  lemma {:induction false} TopIsTop(arena: seq<Elem>, q: seq<Entry>, prio: Prio)
    requires |q| > 0 && forall j :: 0 <= j < |q| ==> q[j].elem < |arena|
    requires StrictOrder(prio)
    ensures forall j :: 0 <= j < |q| ==> !Served(arena, prio, q[TopIndex(arena, q, prio)], q[j])
    decreases |q|
  {
    if |q| > 1 {
      var n := |q| - 1;
      var init := q[..n];
      TopIsTop(arena, init, prio);
      var b := TopIndex(arena, init, prio);
      assert forall j :: 0 <= j < n ==> init[j] == q[j];
      assert init[b] == q[b];
      forall j | 0 <= j < |q|
        ensures !Served(arena, prio, q[TopIndex(arena, q, prio)], q[j])
      {
        if j < n {
          assert !Served(arena, prio, init[b], init[j]);
        }
      }
    }
  }

  // ---------------------------------------------------------------------
  // The search
  // ---------------------------------------------------------------------

  /** A lower-bound function: for a new element at node `v`, a score
      estimate (possibly HUGE_VAL) and a relaxation value for `qot`. */
  type Bound = (Elem, int) -> (XReal, real)

  ghost predicate SearchInv(adj: Graph, src: int, cfg: Config, d: int,
                            arena: seq<Elem>, pareto: seq<seq<nat>>, q: seq<Entry>)
  {
    ValidGraph(adj) && 0 <= src < |adj| &&
    LegalArena(adj, src, cfg, d, arena) &&
    FrontiersOk(cfg, arena, src, pareto, |adj|) &&
    QueueOk(arena, src, q)
  }

  /** `qot` never rises, and when it has moved it is positive. */
  predicate QotOk(qot: real, qot0: real)
  {
    qot <= qot0 && (qot < qot0 ==> qot > 0.0)
  }

  /** The bound prunes extension `e` at node `v`: its score estimate
      exceeds `qot + 100`. */
  predicate Pruned(bound: Option<Bound>, e: Elem, v: int, qot: real)
  {
    bound.Some? && Above(bound.value(e, v).0, qot + 100.0)
  }

  /** `qot` after the bound's relaxation value for `e` at `v`: lowered to
      it when it is positive and below `qot`. */
  function RelaxedQot(bound: Option<Bound>, e: Elem, v: int, qot: real): (r: real)
    ensures r <= qot && (r < qot ==> r > 0.0)
  {
    if bound.Some? && bound.value(e, v).1 > 0.0 && bound.value(e, v).1 < qot then bound.value(e, v).1 else qot
  }

  /** Some member of frontier `f` dominates `e` (or is `e`). */
  ghost predicate Covered(cfg: Config, arena: seq<Elem>, f: seq<nat>, e: Elem)
  {
    exists x :: x in f && x < |arena| && Dom(cfg, arena[x], e)
  }

  /** The extension of element `i` along `l` has been dealt with: the bound
      pruned it at `qot`, or the frontier of its target covers it. */
  ghost predicate Handled(cfg: Config, d: int, bound: Option<Bound>, arena: seq<Elem>,
                          pareto: seq<seq<nat>>, qot: real, i: nat, l: Link)
    requires i < |arena|
  {
    var e := Child(cfg, arena[i], i, l, d);
    Pruned(bound, e, l.to, qot) || (0 <= l.to < |pareto| && Covered(cfg, arena, pareto[l.to], e))
  }

  /** The first `j` links out of element `i`'s node are skipped or handled. */
  ghost predicate ClosedUpTo(adj: Graph, src: int, cfg: Config, d: int, bound: Option<Bound>,
                             arena: seq<Elem>, pareto: seq<seq<nat>>, qot: real, i: nat, j: int)
    requires i < |arena|
  {
    var u := NodeOf(arena, src, i);
    0 <= u < |adj| && 0 <= j <= |adj[u]| &&
    forall k :: 0 <= k < j && !Skipped(cfg, arena[i], adj[u][k]) ==>
      Handled(cfg, d, bound, arena, pareto, qot, i, adj[u][k])
  }

  ghost predicate Closed(adj: Graph, src: int, cfg: Config, d: int, bound: Option<Bound>,
                         arena: seq<Elem>, pareto: seq<seq<nat>>, qot: real, i: nat)
    requires i < |arena|
  {
    var u := NodeOf(arena, src, i);
    0 <= u < |adj| && ClosedUpTo(adj, src, cfg, d, bound, arena, pareto, qot, i, |adj[u]|)
  }

  /** What a search that ran its queue empty has explored: for every element
      and every link out of its node that the variant follows, the extension
      was pruned by the bound at the final `qot` or is covered by the final
      frontier of the link's target. */
  ghost predicate SearchClosed(adj: Graph, src: int, cfg: Config, d: int, bound: Option<Bound>,
                               arena: seq<Elem>, pareto: seq<seq<nat>>, qot: real)
  {
    forall i, l ::
      0 <= i < |arena| && 0 <= NodeOf(arena, src, i) < |adj| && l in adj[NodeOf(arena, src, i)] &&
      !Skipped(cfg, arena[i], l)
      ==> Handled(cfg, d, bound, arena, pareto, qot, i, l)
  }

  predicate InQueue(q: seq<Entry>, i: nat)
  {
    exists t :: 0 <= t < |q| && q[t].elem == i
  }

  /** The arena only grows, `qot` only falls, and what a frontier covers
      stays covered. */
  ghost predicate Grows(cfg: Config, arena: seq<Elem>, pareto: seq<seq<nat>>, qot: real,
                        arena': seq<Elem>, pareto': seq<seq<nat>>, qot': real)
  {
    |arena| <= |arena'| && arena'[..|arena|] == arena && |pareto'| == |pareto| && qot' <= qot &&
    forall v, c :: 0 <= v < |pareto| && Covered(cfg, arena, pareto[v], c) ==> Covered(cfg, arena', pareto'[v], c)
  }

  /** Dominance is reflexive and transitive in both variants. */
  lemma DomPreorder(cfg: Config, x: Elem, y: Elem, z: Elem)
    ensures Dom(cfg, x, x)
    ensures Dom(cfg, x, y) && Dom(cfg, y, z) ==> Dom(cfg, x, z)
  {
    Psych.DominanceOrders(x, y, z);
  }

  /** Offering `e` keeps covered whatever the frontier covered: a member
      that `e` evicts is dominated by `e`, which then covers in its place. */
  lemma OfferCovers(cfg: Config, arena: seq<Elem>, f: seq<nat>, e: Elem, c: Elem)
    requires forall x :: x in f ==> x < |arena|
    requires Covered(cfg, arena, f, c)
    ensures Covered(cfg, arena + [e], Offer(cfg, arena, f, e, |arena|), c)
  {
    var a2 := arena + [e];
    var x :| x in f && x < |arena| && Dom(cfg, arena[x], c);
    assert a2[x] == arena[x];
    if !Dominated(cfg, arena, f, e) {
      if Dom(cfg, e, arena[x]) {
        DomPreorder(cfg, e, arena[x], c);
        assert a2[|arena|] == e;
        assert |arena| in Offer(cfg, arena, f, e, |arena|);
      } else {
        assert x in Survivors(cfg, arena, f, e);
      }
    }
  }

  /** A step that grows the state keeps every handled extension handled. */
  lemma {:induction false} GrowsKeepsClosed(adj: Graph, src: int, cfg: Config, d: int, bound: Option<Bound>,
                                             arena: seq<Elem>, pareto: seq<seq<nat>>, qot: real,
                                             arena': seq<Elem>, pareto': seq<seq<nat>>, qot': real, i: nat, j: int)
    requires Grows(cfg, arena, pareto, qot, arena', pareto', qot') && i < |arena|
    requires ClosedUpTo(adj, src, cfg, d, bound, arena, pareto, qot, i, j)
    ensures ClosedUpTo(adj, src, cfg, d, bound, arena', pareto', qot', i, j)
  {
    assert arena'[i] == arena[i];
    assert NodeOf(arena', src, i) == NodeOf(arena, src, i);
    var u := NodeOf(arena, src, i);
    forall k | 0 <= k < j && !Skipped(cfg, arena'[i], adj[u][k])
      ensures Handled(cfg, d, bound, arena', pareto', qot', i, adj[u][k])
    {
      assert Handled(cfg, d, bound, arena, pareto, qot, i, adj[u][k]);
    }
  }

  /** One iteration of the inner loop: extend element `p` along `l` and
      apply the bound (if any). A child the bound prunes at `qot + 100`
      changes nothing. Otherwise `qot` takes the bound's relaxation value
      when that is positive and smaller; then a child dominated by a member
      of its target's frontier is dropped, and any other child joins the
      arena, evicts the members it dominates from that frontier, joins it,
      and is queued. */
  method Relax(adj: Graph, src: int, cfg: Config, d: int, bound: Option<Bound>,
               arena: seq<Elem>, pareto: seq<seq<nat>>, q: seq<Entry>, qot: real, p: nat, l: Link)
    returns (arena': seq<Elem>, pareto': seq<seq<nat>>, q': seq<Entry>, qot': real)
    requires SearchInv(adj, src, cfg, d, arena, pareto, q) && p < |arena|
    requires 0 <= NodeOf(arena, src, p) < |adj| && l in adj[NodeOf(arena, src, p)]
    requires !Skipped(cfg, arena[p], l)
    ensures 0 <= l.to < |pareto|
    ensures var e := Child(cfg, arena[p], p, l, d);
            if Pruned(bound, e, l.to, qot) then
              arena' == arena && pareto' == pareto && q' == q && qot' == qot
            else
              qot' == RelaxedQot(bound, e, l.to, qot) &&
              if Covered(cfg, arena, pareto[l.to], e) then arena' == arena && pareto' == pareto && q' == q
              else arena' == arena + [e] && q' == q + [Entry(|arena|, l.to)] &&
                   pareto' == pareto[l.to := Survivors(cfg, arena, pareto[l.to], e) + [|arena|]]
    ensures SearchInv(adj, src, cfg, d, arena', pareto', q')
    ensures forall i :: 0 <= i < |arena| ==> NodeOf(arena', src, i) == NodeOf(arena, src, i)
    ensures Grows(cfg, arena, pareto, qot, arena', pareto', qot')
    ensures Handled(cfg, d, bound, arena', pareto', qot', p, l)
  {
    arena', pareto', q', qot' := arena, pareto, q, qot;
    var e := Child(cfg, arena[p], p, l, d);
    var v := l.to;
    assert 0 <= v < |adj|;
    if bound.Some? {
      var ot := bound.value(e, v);
      if Above(ot.0, qot + 100.0) {
        return;
      }
      if ot.1 > 0.0 && ot.1 < qot {
        qot' := ot.1;
      }
    }
    assert FrontierOk(cfg, arena, src, pareto[v], v);
    if !Dominated(cfg, arena, pareto[v], e) {
      var n := |arena|;
      AppendLegal(adj, src, cfg, d, arena, p, l);
      OfferKeepsFrontier(cfg, arena, src, pareto[v], v, e);
      arena' := arena + [e];
      pareto' := pareto[v := Survivors(cfg, arena, pareto[v], e) + [n]];
      q' := q + [Entry(n, v)];
      assert arena'[..|arena|] == arena;
      forall w | 0 <= w < |adj|
        ensures FrontierOk(cfg, arena', src, pareto'[w], w)
      {
        if w != v {
          assert FrontierOk(cfg, arena, src, pareto[w], w);
          assert forall x :: 0 <= x < n ==> arena'[x] == arena[x];
        }
      }
      RelaxGrows(adj, src, cfg, arena, pareto, qot, e, v, qot');
      DomPreorder(cfg, e, e, e);
      assert arena'[n] == e && n in pareto'[v];
      assert arena'[p] == arena[p];
    }
  }

  /** The accepted step of `Relax` grows the state. */
  lemma RelaxGrows(adj: Graph, src: int, cfg: Config, arena: seq<Elem>, pareto: seq<seq<nat>>, qot: real,
                   e: Elem, v: int, qot': real)
    requires FrontiersOk(cfg, arena, src, pareto, |adj|) && 0 <= v < |adj| && qot' <= qot
    requires !Dominated(cfg, arena, pareto[v], e)
    ensures Grows(cfg, arena, pareto, qot, arena + [e],
                  pareto[v := Survivors(cfg, arena, pareto[v], e) + [|arena|]], qot')
  {
    var a2 := arena + [e];
    var p2 := pareto[v := Survivors(cfg, arena, pareto[v], e) + [|arena|]];
    assert a2[..|arena|] == arena;
    forall w, c | 0 <= w < |pareto| && Covered(cfg, arena, pareto[w], c)
      ensures Covered(cfg, a2, p2[w], c)
    {
      assert FrontierOk(cfg, arena, src, pareto[w], w);
      if w == v {
        OfferCovers(cfg, arena, pareto[w], e, c);
      } else {
        var x :| x in pareto[w] && x < |arena| && Dom(cfg, arena[x], c);
        assert a2[x] == arena[x];
      }
    }
  }

  /** The invariant of the search loop at the start of an iteration:
      every element is still queued or has all its links handled. */
  ghost predicate QueuedOrClosed(adj: Graph, src: int, cfg: Config, d: int, bound: Option<Bound>,
                                 arena: seq<Elem>, pareto: seq<seq<nat>>, qot: real, q: seq<Entry>, skip: int)
  {
    forall i :: 0 <= i < |arena| && i != skip ==>
      InQueue(q, i) || Closed(adj, src, cfg, d, bound, arena, pareto, qot, i)
  }

  /** Taking entry `t` off the queue leaves every other element queued or
      closed. */
  lemma PopKeeps(adj: Graph, src: int, cfg: Config, d: int, bound: Option<Bound>,
                 arena: seq<Elem>, pareto: seq<seq<nat>>, qot: real, q: seq<Entry>, t: nat)
    requires t < |q| && QueuedOrClosed(adj, src, cfg, d, bound, arena, pareto, qot, q, -1)
    ensures QueuedOrClosed(adj, src, cfg, d, bound, arena, pareto, qot, q[..t] + q[t + 1..], q[t].elem)
  {
    var q' := q[..t] + q[t + 1..];
    forall i | 0 <= i < |arena| && i != q[t].elem && InQueue(q, i)
      ensures InQueue(q', i)
    {
      var s :| 0 <= s < |q| && q[s].elem == i;
      if s < t {
        assert q'[s] == q[s];
      } else {
        assert q'[s - 1] == q[s];
      }
    }
  }

  /** One link of the inner loop keeps the loop's invariant. */
  lemma InnerStep(adj: Graph, src: int, cfg: Config, d: int, bound: Option<Bound>,
                  arena: seq<Elem>, pareto: seq<seq<nat>>, qot: real, q: seq<Entry>,
                  arena': seq<Elem>, pareto': seq<seq<nat>>, qot': real, q': seq<Entry>, top: nat, j: int)
    requires top < |arena| && Grows(cfg, arena, pareto, qot, arena', pareto', qot')
    requires QueuedOrClosed(adj, src, cfg, d, bound, arena, pareto, qot, q, top)
    requires ClosedUpTo(adj, src, cfg, d, bound, arena, pareto, qot, top, j)
    requires j < |adj[NodeOf(arena, src, top)]|
    requires var l := adj[NodeOf(arena, src, top)][j];
             !Skipped(cfg, arena[top], l) ==> Handled(cfg, d, bound, arena', pareto', qot', top, l)
    requires forall i :: InQueue(q, i) ==> InQueue(q', i)
    requires forall i :: |arena| <= i < |arena'| ==> InQueue(q', i)
    ensures QueuedOrClosed(adj, src, cfg, d, bound, arena', pareto', qot', q', top)
    ensures ClosedUpTo(adj, src, cfg, d, bound, arena', pareto', qot', top, j + 1)
  {
    forall i | 0 <= i < |arena'| && i != top
      ensures InQueue(q', i) || Closed(adj, src, cfg, d, bound, arena', pareto', qot', i)
    {
      if i < |arena| && !InQueue(q, i) {
        var u := NodeOf(arena, src, i);
        GrowsKeepsClosed(adj, src, cfg, d, bound, arena, pareto, qot, arena', pareto', qot', i, |adj[u]|);
        assert arena'[i] == arena[i];
      }
    }
    GrowsKeepsClosed(adj, src, cfg, d, bound, arena, pareto, qot, arena', pareto', qot', top, j);
    assert arena'[top] == arena[top];
  }

  /** With the queue empty every element is closed, and so is the search. */
  lemma DrainedIsClosed(adj: Graph, src: int, cfg: Config, d: int, bound: Option<Bound>,
                        arena: seq<Elem>, pareto: seq<seq<nat>>, qot: real)
    requires QueuedOrClosed(adj, src, cfg, d, bound, arena, pareto, qot, [], -1)
    ensures SearchClosed(adj, src, cfg, d, bound, arena, pareto, qot)
  {
    forall i, l | 0 <= i < |arena| && 0 <= NodeOf(arena, src, i) < |adj| &&
                  l in adj[NodeOf(arena, src, i)] && !Skipped(cfg, arena[i], l)
      ensures Handled(cfg, d, bound, arena, pareto, qot, i, l)
    {
      assert Closed(adj, src, cfg, d, bound, arena, pareto, qot, i);
      var k :| 0 <= k < |adj[NodeOf(arena, src, i)]| && adj[NodeOf(arena, src, i)][k] == l;
    }
  }

  /** The generic search: pops the queue's top, extends it along every
      outgoing link of its node, and repeats until the queue is empty. The
      loop's termination is not modelled: `fuel` bounds the pops, and
      `complete` says the queue ran empty, in which case every followed
      extension of every element was pruned or is covered by the final
      frontiers. */
  method Search(adj: Graph, src: int, cfg: Config, d: int, bound: Option<Bound>, prio: Prio,
                qot0: real, fuel: nat)
    returns (arena: seq<Elem>, pareto: seq<seq<nat>>, qot: real, visits: nat, complete: bool)
    requires ValidGraph(adj) && 0 <= src < |adj|
    ensures LegalArena(adj, src, cfg, d, arena) && FrontiersOk(cfg, arena, src, pareto, |adj|)
    ensures QotOk(qot, qot0) && (bound.None? ==> qot == qot0)
    // visits counts the pops; the search only stops early when out of fuel
    ensures visits <= fuel && (complete || visits == fuel)
    ensures complete ==> SearchClosed(adj, src, cfg, d, bound, arena, pareto, qot)
  {
    arena := [Root];
    pareto := seq(|adj|, v => []);
    var q := [Entry(0, src)];
    qot := qot0;
    visits := 0;
    assert WellFormed(arena);
    assert q[0].elem == 0;
    while |q| > 0 && visits < fuel
      invariant SearchInv(adj, src, cfg, d, arena, pareto, q)
      invariant QotOk(qot, qot0) && (bound.None? ==> qot == qot0)
      invariant visits <= fuel
      invariant QueuedOrClosed(adj, src, cfg, d, bound, arena, pareto, qot, q, -1)
      decreases fuel - visits
    {
      visits := visits + 1;
      var t := TopIndex(arena, q, prio);
      var top := q[t];
      ghost var q0 := q;
      q := q[..t] + q[t + 1..];
      assert QueueOk(arena, src, q) by {
        assert forall s :: 0 <= s < |q| ==> q[s] == (if s < t then q0[s] else q0[s + 1]);
      }
      PopKeeps(adj, src, cfg, d, bound, arena, pareto, qot, q0, t);
      var u := top.node;
      NodeInRange(adj, src, cfg, d, arena, top.elem);
      var out := adj[u];
      var j := 0;
      while j < |out|
        invariant 0 <= j <= |out|
        invariant SearchInv(adj, src, cfg, d, arena, pareto, q)
        invariant top.elem < |arena| && NodeOf(arena, src, top.elem) == u
        invariant QotOk(qot, qot0) && (bound.None? ==> qot == qot0)
        invariant QueuedOrClosed(adj, src, cfg, d, bound, arena, pareto, qot, q, top.elem)
        invariant ClosedUpTo(adj, src, cfg, d, bound, arena, pareto, qot, top.elem, j)
      {
        var l := out[j];
        var par := arena[top.elem];
        if !Skipped(cfg, par, l) {
          var arena', pareto', q', qot' := Relax(adj, src, cfg, d, bound, arena, pareto, q, qot, top.elem, l);
          QueueGrows(cfg, d, bound, arena, pareto, q, qot, arena', pareto', q', qot', top.elem, l);
          InnerStep(adj, src, cfg, d, bound, arena, pareto, qot, q, arena', pareto', qot', q', top.elem, j);
          arena, pareto, q, qot := arena', pareto', q', qot';
        } else {
          InnerStep(adj, src, cfg, d, bound, arena, pareto, qot, q, arena, pareto, qot, q, top.elem, j);
        }
        j := j + 1;
      }
    }
    complete := |q| == 0;
    if complete {
      DrainedIsClosed(adj, src, cfg, d, bound, arena, pareto, qot);
    }
  }

  /** What `Relax` queues: the old entries, and the new element when it
      joined the arena. */
  lemma QueueGrows(cfg: Config, d: int, bound: Option<Bound>, arena: seq<Elem>, pareto: seq<seq<nat>>,
                   q: seq<Entry>, qot: real, arena': seq<Elem>, pareto': seq<seq<nat>>, q': seq<Entry>,
                   qot': real, p: nat, l: Link)
    requires p < |arena| && 0 <= l.to < |pareto| && forall x :: x in pareto[l.to] ==> x < |arena|
    requires var e := Child(cfg, arena[p], p, l, d);
             if Pruned(bound, e, l.to, qot) then
               arena' == arena && pareto' == pareto && q' == q && qot' == qot
             else
               qot' == RelaxedQot(bound, e, l.to, qot) &&
               if Covered(cfg, arena, pareto[l.to], e) then arena' == arena && pareto' == pareto && q' == q
               else arena' == arena + [e] && q' == q + [Entry(|arena|, l.to)] &&
                    pareto' == pareto[l.to := Survivors(cfg, arena, pareto[l.to], e) + [|arena|]]
    ensures forall i :: InQueue(q, i) ==> InQueue(q', i)
    ensures forall i :: |arena| <= i < |arena'| ==> InQueue(q', i)
  {
    if q' != q {
      forall i | InQueue(q, i)
        ensures InQueue(q', i)
      {
        var s :| 0 <= s < |q| && q[s].elem == i;
        assert q'[s] == q[s];
      }
      assert q'[|q|].elem == |arena|;
    }
  }

  // ---------------------------------------------------------------------
  // What every search arena guarantees
  // ---------------------------------------------------------------------

  /** Every element's links form a walk from the source to its node, in
      the graph, without inactive links and without immediate U-turns. */
  lemma {:induction false} LegalPaths(adj: Graph, src: int, cfg: Config, d: int, arena: seq<Elem>, i: int)
    requires ValidGraph(adj) && 0 <= src < |adj| && LegalArena(adj, src, cfg, d, arena) && 0 <= i < |arena|
    ensures IsWalk(CollectLinks(arena, i), src, NodeOf(arena, src, i))
    ensures InGraph(adj, CollectLinks(arena, i))
    ensures forall l :: l in CollectLinks(arena, i) ==> l.id !in cfg.inactive
    ensures forall j :: 0 <= j < |CollectLinks(arena, i)| - 1 ==>
              CollectLinks(arena, i)[j + 1].to != CollectLinks(arena, i)[j].from
    decreases i
  {
    if i > 0 {
      assert LegalChild(adj, src, cfg, d, arena, i);
      var p := arena[i].parent;
      var l := arena[i].myLink.value;
      LegalPaths(adj, src, cfg, d, arena, p);
      var init := CollectLinks(arena, p);
      var links := CollectLinks(arena, i);
      assert links == init + [l];
      WalkSnoc(init, l, src);
      if |init| > 0 {
        assert init[|init| - 1] == arena[p].myLink.value by {
          assert arena[p].parent != -1;
        }
      }
      assert forall x :: x in links ==> x in init || x == l;
    }
  }

  /** Every element's aggregates were built by the variant's constructor:
      the totals are sums over its links, the shared parts are sums over
      its reference links (and zero under weak dominance). */
  lemma {:induction false} LegalGrownAt(adj: Graph, src: int, cfg: Config, d: int, arena: seq<Elem>, i: int)
    requires LegalArena(adj, src, cfg, d, arena) && 0 <= i < |arena|
    ensures !cfg.strong ==> arena[i].agg.sa == 0.0 && arena[i].agg.sb == 0.0 && arena[i].agg.staud == 0.0
    ensures if arena[i].parent == -1 then arena[i].agg == Zero
            else arena[i].agg == Plus(arena[arena[i].parent].agg,
                   Step(arena[i].myLink.value, SharedLink(cfg, arena[i].myLink.value), d))
    decreases i
  {
    if i > 0 {
      assert LegalChild(adj, src, cfg, d, arena, i);
      LegalGrownAt(adj, src, cfg, d, arena, arena[i].parent);
    }
  }

  lemma LegalGrown(adj: Graph, src: int, cfg: Config, d: int, arena: seq<Elem>, shared: Link -> bool)
    requires LegalArena(adj, src, cfg, d, arena)
    requires forall l :: shared(l) == SharedLink(cfg, l)
    ensures Grown(arena, shared, d)
  {
    forall i | 0 <= i < |arena|
      ensures if arena[i].parent == -1 then arena[i].agg == Zero
              else arena[i].agg == Plus(arena[arena[i].parent].agg,
                     Step(arena[i].myLink.value, shared(arena[i].myLink.value), d))
    {
      LegalGrownAt(adj, src, cfg, d, arena, i);
    }
  }

  /** Number of times a link sequence rejoins the reference route: a
      reference link right after a non-reference link. */
  function Rejoins(links: seq<Link>, orig: set<int>): nat
  {
    if |links| <= 1 then 0
    else
      var n := |links| - 1;
      Rejoins(links[..n], orig) + (if links[n].id in orig && links[n - 1].id !in orig then 1 else 0)
  }

  /** Single-split variant: every path leaves the reference route at most
      once and rejoins it at most once; `hasSplit` says it has rejoined,
      and after that it stays on reference links. */
  lemma {:induction false} SingleSplit(adj: Graph, src: int, cfg: Config, d: int, arena: seq<Elem>, i: int)
    requires cfg.split && LegalArena(adj, src, cfg, d, arena) && 0 <= i < |arena|
    ensures Rejoins(CollectLinks(arena, i), cfg.orig) <= 1
    ensures arena[i].hasSplit <==> Rejoins(CollectLinks(arena, i), cfg.orig) == 1
    ensures arena[i].hasSplit ==> arena[i].myLink.Some? && arena[i].myLink.value.id in cfg.orig
    decreases i
  {
    if i > 0 {
      assert LegalChild(adj, src, cfg, d, arena, i);
      var p := arena[i].parent;
      var l := arena[i].myLink.value;
      SingleSplit(adj, src, cfg, d, arena, p);
      var init := CollectLinks(arena, p);
      var links := init + [l];
      assert CollectLinks(arena, i) == links;
      if |init| > 0 {
        assert links[..|links| - 1] == init;
        assert links[|links| - 2] == arena[p].myLink.value;
      }
    }
  }

  // ---------------------------------------------------------------------
  // The six variants
  // ---------------------------------------------------------------------

  /** `pareto_dijkstra_local_opt`: weak dominance, inactive links skipped,
      the bound applied; returns (qot, visits). */
  method LocalOpt(adj: Graph, a: int, d: int, qot0: real, inactive: set<int>, bound: Bound, prio: Prio, fuel: nat)
    returns (arena: seq<Elem>, pareto: seq<seq<nat>>, qot: real, visits: nat, complete: bool)
    requires ValidGraph(adj) && 0 <= a < |adj|
    ensures var cfg := Config(false, false, inactive, {});
            LegalArena(adj, a, cfg, d, arena) && FrontiersOk(cfg, arena, a, pareto, |adj|)
    ensures QotOk(qot, qot0) && visits <= fuel && (complete || visits == fuel)
    ensures complete ==> SearchClosed(adj, a, Config(false, false, inactive, {}), d, Some(bound), arena, pareto, qot)
    ensures forall v, x :: 0 <= v < |pareto| && x in pareto[v] ==> 0 < x < |arena|
    ensures forall v, x :: 0 <= v < |pareto| && x in pareto[v] ==>
              0 < x < |arena| && IsWalk(CollectLinks(arena, x), a, v) && Ids(CollectLinks(arena, x)) !! inactive
  {
    var cfg := Config(false, false, inactive, {});
    arena, pareto, qot, visits, complete := Search(adj, a, cfg, d, Some(bound), prio, qot0, fuel);
    forall v, x | 0 <= v < |pareto| && x in pareto[v]
      ensures 0 < x < |arena|
    {
      assert FrontierOk(cfg, arena, a, pareto[v], v);
    }
    forall v, x | 0 <= v < |pareto| && x in pareto[v]
      ensures 0 < x < |arena| && IsWalk(CollectLinks(arena, x), a, v) && Ids(CollectLinks(arena, x)) !! inactive
    {
      assert FrontierOk(cfg, arena, a, pareto[v], v);
      LegalPaths(adj, a, cfg, d, arena, x);
    }
  }

  /** `pareto_dijkstra_local_opt_4d`: strong dominance with the shared
      aggregates on reference links, the bound applied. */
  method LocalOpt4d(adj: Graph, a: int, d: int, qot0: real, isOrig: set<int>, bound: Bound, prio: Prio, fuel: nat)
    returns (arena: seq<Elem>, pareto: seq<seq<nat>>, qot: real, visits: nat, complete: bool)
    requires ValidGraph(adj) && 0 <= a < |adj|
    ensures var cfg := Config(true, false, {}, isOrig);
            LegalArena(adj, a, cfg, d, arena) && FrontiersOk(cfg, arena, a, pareto, |adj|)
    ensures QotOk(qot, qot0) && visits <= fuel && (complete || visits == fuel)
    ensures complete ==> SearchClosed(adj, a, Config(true, false, {}, isOrig), d, Some(bound), arena, pareto, qot)
    ensures forall v, x :: 0 <= v < |pareto| && x in pareto[v] ==> 0 < x < |arena|
    ensures forall v, x :: 0 <= v < |pareto| && x in pareto[v] ==>
              0 < x < |arena| && IsWalk(CollectLinks(arena, x), a, v) &&
              arena[x].agg == SumAgg(CollectLinks(arena, x), (l: Link) => l.id in isOrig, d)
  {
    var cfg := Config(true, false, {}, isOrig);
    arena, pareto, qot, visits, complete := Search(adj, a, cfg, d, Some(bound), prio, qot0, fuel);
    var shared := (l: Link) => l.id in isOrig;
    LegalGrown(adj, a, cfg, d, arena, shared);
    forall v, x | 0 <= v < |pareto| && x in pareto[v]
      ensures 0 < x < |arena|
    {
      assert FrontierOk(cfg, arena, a, pareto[v], v);
    }
    forall v, x | 0 <= v < |pareto| && x in pareto[v]
      ensures 0 < x < |arena| && IsWalk(CollectLinks(arena, x), a, v) &&
              arena[x].agg == SumAgg(CollectLinks(arena, x), (l: Link) => l.id in isOrig, d)
    {
      assert FrontierOk(cfg, arena, a, pareto[v], v);
      LegalPaths(adj, a, cfg, d, arena, x);
      AggOfPath(arena, shared, d, x);
    }
  }

  /** `pareto_dijkstra_local_opt_4d_1D`: as `LocalOpt4d`, restricted to a
      single detour from the reference route. */
  method LocalOpt4d1D(adj: Graph, a: int, d: int, qot0: real, isOrig: set<int>, bound: Bound, prio: Prio, fuel: nat)
    returns (arena: seq<Elem>, pareto: seq<seq<nat>>, qot: real, visits: nat, complete: bool)
    requires ValidGraph(adj) && 0 <= a < |adj|
    ensures var cfg := Config(true, true, {}, isOrig);
            LegalArena(adj, a, cfg, d, arena) && FrontiersOk(cfg, arena, a, pareto, |adj|)
    ensures QotOk(qot, qot0) && visits <= fuel && (complete || visits == fuel)
    ensures complete ==> SearchClosed(adj, a, Config(true, true, {}, isOrig), d, Some(bound), arena, pareto, qot)
    ensures forall v, x :: 0 <= v < |pareto| && x in pareto[v] ==> 0 < x < |arena|
    ensures forall v, x :: 0 <= v < |pareto| && x in pareto[v] ==>
              0 < x < |arena| && IsWalk(CollectLinks(arena, x), a, v) && Rejoins(CollectLinks(arena, x), isOrig) <= 1
  {
    var cfg := Config(true, true, {}, isOrig);
    arena, pareto, qot, visits, complete := Search(adj, a, cfg, d, Some(bound), prio, qot0, fuel);
    forall v, x | 0 <= v < |pareto| && x in pareto[v]
      ensures 0 < x < |arena|
    {
      assert FrontierOk(cfg, arena, a, pareto[v], v);
    }
    forall v, x | 0 <= v < |pareto| && x in pareto[v]
      ensures 0 < x < |arena| && IsWalk(CollectLinks(arena, x), a, v) && Rejoins(CollectLinks(arena, x), isOrig) <= 1
    {
      assert FrontierOk(cfg, arena, a, pareto[v], v);
      LegalPaths(adj, a, cfg, d, arena, x);
      SingleSplit(adj, a, cfg, d, arena, x);
    }
  }

  /** `pareto_dijsktra`: weak dominance, inactive links skipped, no bound;
      returns the visit count. */
  method ParetoDijkstra(adj: Graph, a: int, d: int, inactive: set<int>, prio: Prio, fuel: nat)
    returns (arena: seq<Elem>, pareto: seq<seq<nat>>, visits: nat, complete: bool)
    requires ValidGraph(adj) && 0 <= a < |adj|
    ensures var cfg := Config(false, false, inactive, {});
            LegalArena(adj, a, cfg, d, arena) && FrontiersOk(cfg, arena, a, pareto, |adj|)
    ensures visits <= fuel && (complete || visits == fuel)
    ensures complete ==> SearchClosed(adj, a, Config(false, false, inactive, {}), d, None, arena, pareto, 0.0)
    ensures forall v, x :: 0 <= v < |pareto| && x in pareto[v] ==> 0 < x < |arena|
    ensures forall v, x :: 0 <= v < |pareto| && x in pareto[v] ==>
              0 < x < |arena| && IsWalk(CollectLinks(arena, x), a, v) && Ids(CollectLinks(arena, x)) !! inactive
  {
    var cfg := Config(false, false, inactive, {});
    var qot;
    arena, pareto, qot, visits, complete := Search(adj, a, cfg, d, None, prio, 0.0, fuel);
    forall v, x | 0 <= v < |pareto| && x in pareto[v]
      ensures 0 < x < |arena|
    {
      assert FrontierOk(cfg, arena, a, pareto[v], v);
    }
    forall v, x | 0 <= v < |pareto| && x in pareto[v]
      ensures 0 < x < |arena| && IsWalk(CollectLinks(arena, x), a, v) && Ids(CollectLinks(arena, x)) !! inactive
    {
      assert FrontierOk(cfg, arena, a, pareto[v], v);
      LegalPaths(adj, a, cfg, d, arena, x);
    }
  }

  /** `pareto_dijsktra_4d`: strong dominance, no bound. */
  method ParetoDijkstra4d(adj: Graph, a: int, d: int, isOrig: set<int>, prio: Prio, fuel: nat)
    returns (arena: seq<Elem>, pareto: seq<seq<nat>>, visits: nat, complete: bool)
    requires ValidGraph(adj) && 0 <= a < |adj|
    ensures var cfg := Config(true, false, {}, isOrig);
            LegalArena(adj, a, cfg, d, arena) && FrontiersOk(cfg, arena, a, pareto, |adj|)
    ensures visits <= fuel && (complete || visits == fuel)
    ensures complete ==> SearchClosed(adj, a, Config(true, false, {}, isOrig), d, None, arena, pareto, 0.0)
    ensures forall v, x :: 0 <= v < |pareto| && x in pareto[v] ==> 0 < x < |arena|
    ensures forall v, x :: 0 <= v < |pareto| && x in pareto[v] ==>
              0 < x < |arena| && IsWalk(CollectLinks(arena, x), a, v) &&
              arena[x].agg == SumAgg(CollectLinks(arena, x), (l: Link) => l.id in isOrig, d)
  {
    var cfg := Config(true, false, {}, isOrig);
    var qot;
    arena, pareto, qot, visits, complete := Search(adj, a, cfg, d, None, prio, 0.0, fuel);
    var shared := (l: Link) => l.id in isOrig;
    LegalGrown(adj, a, cfg, d, arena, shared);
    forall v, x | 0 <= v < |pareto| && x in pareto[v]
      ensures 0 < x < |arena|
    {
      assert FrontierOk(cfg, arena, a, pareto[v], v);
    }
    forall v, x | 0 <= v < |pareto| && x in pareto[v]
      ensures 0 < x < |arena| && IsWalk(CollectLinks(arena, x), a, v) &&
              arena[x].agg == SumAgg(CollectLinks(arena, x), (l: Link) => l.id in isOrig, d)
    {
      assert FrontierOk(cfg, arena, a, pareto[v], v);
      LegalPaths(adj, a, cfg, d, arena, x);
      AggOfPath(arena, shared, d, x);
    }
  }

  /** `pareto_dijsktra_4d_1D`: strong dominance with the single-split rule,
      no bound, no visit count. */
  method ParetoDijkstra4d1D(adj: Graph, a: int, d: int, isOrig: set<int>, prio: Prio, fuel: nat)
    returns (arena: seq<Elem>, pareto: seq<seq<nat>>, complete: bool)
    requires ValidGraph(adj) && 0 <= a < |adj|
    ensures var cfg := Config(true, true, {}, isOrig);
            LegalArena(adj, a, cfg, d, arena) && FrontiersOk(cfg, arena, a, pareto, |adj|)
    ensures complete ==> SearchClosed(adj, a, Config(true, true, {}, isOrig), d, None, arena, pareto, 0.0)
    ensures forall v, x :: 0 <= v < |pareto| && x in pareto[v] ==> 0 < x < |arena|
    ensures forall v, x :: 0 <= v < |pareto| && x in pareto[v] ==>
              0 < x < |arena| && IsWalk(CollectLinks(arena, x), a, v) && Rejoins(CollectLinks(arena, x), isOrig) <= 1
  {
    var cfg := Config(true, true, {}, isOrig);
    var qot, visits;
    arena, pareto, qot, visits, complete := Search(adj, a, cfg, d, None, prio, 0.0, fuel);
    forall v, x | 0 <= v < |pareto| && x in pareto[v]
      ensures 0 < x < |arena|
    {
      assert FrontierOk(cfg, arena, a, pareto[v], v);
    }
    forall v, x | 0 <= v < |pareto| && x in pareto[v]
      ensures 0 < x < |arena| && IsWalk(CollectLinks(arena, x), a, v) && Rejoins(CollectLinks(arena, x), isOrig) <= 1
    {
      assert FrontierOk(cfg, arena, a, pareto[v], v);
      LegalPaths(adj, a, cfg, d, arena, x);
      SingleSplit(adj, a, cfg, d, arena, x);
    }
  }
}
