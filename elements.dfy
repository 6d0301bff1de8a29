/** Pareto elements: immutable, parent-linked path prefixes carrying six
    additive aggregates. The search keeps every element it creates in an
    arena (a sequence); an element names its parent by arena index, -1 for
    the root. */
module Elements {
  import opened Common
  import opened Network
  import Data

  /** The six aggregates of an element or fragment: total a, b, taud and
      the parts of them that lie on the reference route. */
  datatype Agg = Agg(a: real, b: real, taud: real, sa: real, sb: real, staud: real)

  const Zero: Agg := Agg(0.0, 0.0, 0.0, 0.0, 0.0, 0.0)

  function Plus(x: Agg, y: Agg): Agg
  {
    Agg(x.a + y.a, x.b + y.b, x.taud + y.taud, x.sa + y.sa, x.sb + y.sb, x.staud + y.staud)
  }

  /** A path element: its aggregates, the arena index of its parent (-1 for
      none), the link that extended the parent, and the single-split flag. */
  datatype Elem = Elem(agg: Agg, parent: int, myLink: Option<Link>, hasSplit: bool)

  /** The default element: zero aggregates, no parent, no link, no split.
      Every search starts from it. */
  const Root: Elem := Elem(Zero, -1, None, false)

  const WeightA: real := 20000.0

  /** `ParetoElement::k()`: the weighted sum `a * 20000 + b`. */
  function K(e: Elem): real
  {
    e.agg.a * WeightA + e.agg.b
  }

  /** `ParetoElement::operator<`: ordering by `k`. */
  predicate Precedes(e: Elem, f: Elem)
  {
    K(e) < K(f)
  }

  /** `k` order is a strict order: irreflexive and transitive. */
  lemma PrecedesStrictOrder(e: Elem, f: Elem, g: Elem)
    ensures !Precedes(e, e)
    ensures Precedes(e, f) && Precedes(f, g) ==> Precedes(e, g)
  {
  }

  /** A link from node 0 to node 0: the constructors add nothing for it. */
  predicate IsZeroLoop(l: Link)
  {
    l.from == 0 && l.to == 0
  }

  /** What one link adds to the aggregates: its a, b and taud (for group
      size `d`), on the shared side as well when `shared`; nothing for a
      0 -> 0 link. */
  function Step(l: Link, shared: bool, d: int): (s: Agg)
    ensures IsZeroLoop(l) ==> s == Zero
    ensures !IsZeroLoop(l) ==> s.a == LinkA(l) && s.b == LinkB(l) && s.taud == LinkTaud(l, d)
    ensures !shared ==> s.sa == 0.0 && s.sb == 0.0 && s.staud == 0.0
    ensures shared ==> s.sa == s.a && s.sb == s.b && s.staud == s.taud
  {
    if IsZeroLoop(l) then Zero
    else if shared then Agg(LinkA(l), LinkB(l), LinkTaud(l, d), LinkA(l), LinkB(l), LinkTaud(l, d))
    else Agg(LinkA(l), LinkB(l), LinkTaud(l, d), 0.0, 0.0, 0.0)
  }

  /** `ParetoElement(par, l)`: totals are the parent's plus the link's (the
      parent's alone for a 0 -> 0 link); the shared aggregates keep their
      default 0. `p` is the parent's arena index. */
  function Extend(par: Elem, p: int, l: Link, d: int): (e: Elem)
    ensures e.parent == p && e.myLink == Some(l) && !e.hasSplit
    ensures e.agg.sa == 0.0 && e.agg.sb == 0.0 && e.agg.staud == 0.0
    ensures e.agg.a - par.agg.a == Step(l, false, d).a
    ensures e.agg.b - par.agg.b == Step(l, false, d).b
    ensures e.agg.taud - par.agg.taud == Step(l, false, d).taud
  {
    if IsZeroLoop(l) then
      Elem(Agg(par.agg.a, par.agg.b, par.agg.taud, 0.0, 0.0, 0.0), p, Some(l), false)
    else
      Elem(Agg(par.agg.a + LinkA(l), par.agg.b + LinkB(l), par.agg.taud + LinkTaud(l, d), 0.0, 0.0, 0.0),
           p, Some(l), false)
  }

  /** `ParetoElement(par, l, shared)`: copies all six aggregates of the
      parent, then adds the link to the totals and, when `shared`, to the
      shared parts too. */
  function ExtendShared(par: Elem, p: int, l: Link, shared: bool, d: int): (e: Elem)
    ensures e.parent == p && e.myLink == Some(l) && !e.hasSplit
    ensures e.agg == Plus(par.agg, Step(l, shared, d))
    // the non-shared remainder grows by the link's cost exactly on non-shared links
    ensures e.agg.a - e.agg.sa == par.agg.a - par.agg.sa + (if shared then 0.0 else Step(l, false, d).a)
    ensures e.agg.taud - e.agg.staud
         == par.agg.taud - par.agg.staud + (if shared then 0.0 else Step(l, false, d).taud)
  {
    var base := par.agg;
    if IsZeroLoop(l) then Elem(base, p, Some(l), false)
    else if shared then
      Elem(Agg(base.a + LinkA(l), base.b + LinkB(l), base.taud + LinkTaud(l, d),
               base.sa + LinkA(l), base.sb + LinkB(l), base.staud + LinkTaud(l, d)), p, Some(l), false)
    else
      Elem(Agg(base.a + LinkA(l), base.b + LinkB(l), base.taud + LinkTaud(l, d),
               base.sa, base.sb, base.staud), p, Some(l), false)
  }

  /** On a parent without shared costs the two constructors agree. */
  lemma ExtendIsUnshared(par: Elem, p: int, l: Link, d: int)
    requires par.agg.sa == 0.0 && par.agg.sb == 0.0 && par.agg.staud == 0.0
    ensures Extend(par, p, l, d) == ExtendShared(par, p, l, false, d)
  {
  }

  /** `ParetoElement(a, b, taud, sa, sb, staud)`: a parentless element with
      the given aggregates. */
  function FromAggregates(a: real, b: real, taud: real, sa: real, sb: real, staud: real): (e: Elem)
    ensures e.parent == -1 && e.myLink.None? && !e.hasSplit
    ensures e.agg.a == a && e.agg.b == b && e.agg.taud == taud
    ensures e.agg.sa == sa && e.agg.sb == sb && e.agg.staud == staud
  {
    Elem(Agg(a, b, taud, sa, sb, staud), -1, None, false)
  }

  // ---------------------------------------------------------------------
  // The arena and the paths it encodes
  // ---------------------------------------------------------------------

  /** Parents come earlier in the arena, and exactly the parentless
      elements carry no link. */
  predicate WellFormed(arena: seq<Elem>)
  {
    forall i :: 0 <= i < |arena| ==>
      -1 <= arena[i].parent < i && (arena[i].parent == -1 <==> arena[i].myLink.None?)
  }

  /** `ParetoElement::collectLinks`: the links from the root down to element
      `i`, in extension order. */
  function CollectLinks(arena: seq<Elem>, i: int): (r: seq<Link>)
    requires WellFormed(arena) && 0 <= i < |arena|
    ensures arena[i].parent == -1 <==> |r| == 0
    decreases i
  {
    if arena[i].parent == -1 then []
    else CollectLinks(arena, arena[i].parent) + [arena[i].myLink.value]
  }

  /** Number of ancestor edges above element `i`. */
  function Depth(arena: seq<Elem>, i: int): nat
    requires WellFormed(arena) && 0 <= i < |arena|
    decreases i
  {
    if arena[i].parent == -1 then 0 else Depth(arena, arena[i].parent) + 1
  }

  /** One link per ancestor edge. */
  lemma {:induction false} CollectLinksLength(arena: seq<Elem>, i: int)
    requires WellFormed(arena) && 0 <= i < |arena|
    ensures |CollectLinks(arena, i)| == Depth(arena, i)
    decreases i
  {
    if arena[i].parent != -1 {
      CollectLinksLength(arena, arena[i].parent);
    }
  }

  /** The node element `i` stands at, for a search from `src`. */
  function NodeOf(arena: seq<Elem>, src: int, i: int): int
    requires 0 <= i < |arena|
  {
    match arena[i].myLink
    case None => src
    case Some(l) => l.to
  }

  /** Each element's link leaves the node its parent stands at. */
  predicate Linked(arena: seq<Elem>, src: int)
    requires WellFormed(arena)
  {
    forall i :: 0 <= i < |arena| && arena[i].parent != -1 ==>
      arena[i].myLink.value.from == NodeOf(arena, src, arena[i].parent)
  }

  /** The collected links form a walk from the search source to the node
      the element stands at. */
  lemma {:induction false} CollectLinksWalk(arena: seq<Elem>, src: int, i: int)
    requires WellFormed(arena) && Linked(arena, src) && 0 <= i < |arena|
    ensures IsWalk(CollectLinks(arena, i), src, NodeOf(arena, src, i))
    decreases i
  {
    var p := arena[i].parent;
    if p != -1 {
      CollectLinksWalk(arena, src, p);
      WalkSnoc(CollectLinks(arena, p), arena[i].myLink.value, src);
    }
  }

  /** Appending to the arena changes none of the paths already in it. */
  lemma {:induction false} CollectLinksStable(arena: seq<Elem>, more: seq<Elem>, i: int)
    requires WellFormed(arena) && WellFormed(arena + more) && 0 <= i < |arena|
    ensures CollectLinks(arena + more, i) == CollectLinks(arena, i)
    decreases i
  {
    assert (arena + more)[i] == arena[i];
    if arena[i].parent != -1 {
      CollectLinksStable(arena, more, arena[i].parent);
    }
  }

  /** Every element was made by `ExtendShared` from its parent, with the
      sharing decided per link by `shared`, and every parentless element is
      the root. */
  ghost predicate Grown(arena: seq<Elem>, shared: Link -> bool, d: int)
    requires WellFormed(arena)
  {
    forall i :: 0 <= i < |arena| ==>
      if arena[i].parent == -1 then arena[i].agg == Zero
      else arena[i].agg == Plus(arena[arena[i].parent].agg, Step(arena[i].myLink.value, shared(arena[i].myLink.value), d))
  }

  /** The aggregates of a link sequence, summed front to back. */
  function SumAgg(links: seq<Link>, shared: Link -> bool, d: int): Agg
  {
    if |links| == 0 then Zero
    else Plus(SumAgg(links[..|links| - 1], shared, d), Step(links[|links| - 1], shared(links[|links| - 1]), d))
  }

  /** An element's aggregates are the sums over its collected links. */
  lemma {:induction false} AggOfPath(arena: seq<Elem>, shared: Link -> bool, d: int, i: int)
    requires WellFormed(arena) && Grown(arena, shared, d) && 0 <= i < |arena|
    ensures arena[i].agg == SumAgg(CollectLinks(arena, i), shared, d)
    decreases i
  {
    var p := arena[i].parent;
    if p != -1 {
      AggOfPath(arena, shared, d, p);
      var links := CollectLinks(arena, i);
      assert links[..|links| - 1] == CollectLinks(arena, p);
    }
  }

  /** The links of a sequence that `shared` marks. */
  function SharedLinks(links: seq<Link>, shared: Link -> bool): (r: seq<Link>)
    ensures forall l :: l in r ==> l in links && shared(l)
  {
    if |links| == 0 then []
    else
      var last := links[|links| - 1];
      SharedLinks(links[..|links| - 1], shared) + (if shared(last) then [last] else [])
  }

  predicate NoZeroLoop(links: seq<Link>)
  {
    forall l :: l in links ==> !IsZeroLoop(l)
  }

  /** Without 0 -> 0 links the summed totals are the route's coefficient
      sums. */
  lemma {:induction false} SumAggTotals(links: seq<Link>, shared: Link -> bool, d: int)
    requires NoZeroLoop(links)
    ensures SumAgg(links, shared, d).a == SumA(links)
    ensures SumAgg(links, shared, d).b == SumB(links)
    decreases |links|
  {
    if |links| > 0 {
      var init := links[..|links| - 1];
      assert NoZeroLoop(init) by {
        forall l | l in init ensures l in links { }
      }
      SumAggTotals(init, shared, d);
    }
  }

  /** Without 0 -> 0 links the summed shared parts are the coefficient sums
      over the shared links. */
  lemma {:induction false} SumAggShared(links: seq<Link>, shared: Link -> bool, d: int)
    requires NoZeroLoop(links)
    ensures SumAgg(links, shared, d).sa == SumA(SharedLinks(links, shared))
    ensures SumAgg(links, shared, d).sb == SumB(SharedLinks(links, shared))
    decreases |links|
  {
    if |links| > 0 {
      var init := links[..|links| - 1];
      var last := links[|links| - 1];
      assert NoZeroLoop(init) by {
        forall l | l in init ensures l in links { }
      }
      SumAggShared(init, shared, d);
      var s := SharedLinks(init, shared);
      var step := Step(last, shared(last), d);
      assert SumAgg(links, shared, d).sa == SumAgg(init, shared, d).sa + step.sa;
      assert SumAgg(links, shared, d).sb == SumAgg(init, shared, d).sb + step.sb;
      if shared(last) {
        assert SharedLinks(links, shared) == s + [last];
        assert (s + [last])[..|s + [last]| - 1] == s;
      } else {
        assert SharedLinks(links, shared) == s;
      }
    }
  }

  /** `ParetoElement::collectRoute`: a route over the collected links, with
      its sums recomputed from them. */
  function CollectRoute(arena: seq<Elem>, i: int): (r: Data.Route)
    requires WellFormed(arena) && 0 <= i < |arena|
    ensures r.links == CollectLinks(arena, i) && Data.Consistent(r)
  {
    Data.RouteOf(CollectLinks(arena, i))
  }

  /** The collected route agrees with the element on a and b when its path
      has no 0 -> 0 link. */
  lemma CollectRouteAgrees(arena: seq<Elem>, shared: Link -> bool, d: int, i: int)
    requires WellFormed(arena) && Grown(arena, shared, d) && 0 <= i < |arena|
    requires NoZeroLoop(CollectLinks(arena, i))
    ensures CollectRoute(arena, i).a == arena[i].agg.a
    ensures CollectRoute(arena, i).b == arena[i].agg.b
  {
    AggOfPath(arena, shared, d, i);
    SumAggTotals(CollectLinks(arena, i), shared, d);
  }

  // ---------------------------------------------------------------------
  // ParetoElement(shared_ptr<ParetoElement> par): the recursive copy
  // ---------------------------------------------------------------------

  /** The copy of one element as the source writes it, given the arena
      index of its parent's copy: `_taud` is taken from the parent's
      `shared_taud`, and `hasSplit` keeps its default. */
  function CopyElemAsWritten(par: Elem, parentCopy: int): (e: Elem)
    ensures e.parent == parentCopy && e.myLink == par.myLink
    ensures e.agg.taud == par.agg.staud
  {
    Elem(Agg(par.agg.a, par.agg.b, par.agg.staud, par.agg.sa, par.agg.sb, par.agg.staud),
         parentCopy, par.myLink, false)
  }

  /** A copy whose total taud differs from the original's whenever the
      element has a non-shared taud part. */
  lemma CopyLosesTaud()
    ensures var e := Elem(Agg(1.0, 1.0, 2.0, 0.0, 0.0, 0.0), -1, None, false);
            CopyElemAsWritten(e, -1).agg != e.agg
  {
  }

  /** The copy as intended: every aggregate is the original's. */
  function CopyElem(par: Elem, parentCopy: int): (e: Elem)
    ensures e.parent == parentCopy && e.myLink == par.myLink && e.agg == par.agg
  {
    Elem(par.agg, parentCopy, par.myLink, false)
  }

  /** The recursive copy of element `i`: copies of its ancestors, root
      first, appended to the arena; returns the new arena and the copy's
      index. */
  function DeepCopy(arena: seq<Elem>, i: int): (r: (seq<Elem>, int))
    requires WellFormed(arena) && 0 <= i < |arena|
    ensures |arena| <= r.1 < |r.0| && r.0[..|arena|] == arena && WellFormed(r.0)
    ensures CollectLinks(r.0, r.1) == CollectLinks(arena, i)
    ensures r.0[r.1].agg == arena[i].agg
    decreases i
  {
    var e := arena[i];
    if e.parent == -1 then
      var out := arena + [CopyElem(e, -1)];
      assert WellFormed(out) by {
        assert forall j :: 0 <= j < |arena| ==> out[j] == arena[j];
      }
      (out, |arena|)
    else
      var (mid, pc) := DeepCopy(arena, e.parent);
      var out := mid + [CopyElem(e, pc)];
      assert WellFormed(out) by {
        assert forall j :: 0 <= j < |mid| ==> out[j] == mid[j];
      }
      CollectLinksStable(mid, [CopyElem(e, pc)], pc);
      (out, |mid|)
  }
}
