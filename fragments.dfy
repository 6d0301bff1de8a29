/** Route fragments of the arbitrary-disjointness combination: an empty
    fragment, a single reference-route link, a Pareto element found by a
    search (carried with the links `collectLinks` yields for it), and a
    composite of fragments. Each reports six additive aggregates and can be
    materialised into links; `insert_and_dominate` keeps a list of them
    free of strongly dominated fragments. */
module Fragments {
  import opened Network
  import opened Elements
  import Psych

  datatype Frag =
    | EmptyFrag
    | LinkFrag(link: Link, origIdx: int)
    | ElemFrag(agg: Agg, links: seq<Link>)
    | Composite(components: seq<Frag>)

  /** The composite the combination builds: `CompositeRouteFragment(head,
      appendix)`. */
  function Pair(head: Frag, appendix: Frag): Frag
  {
    Composite([head, appendix])
  }

  /** `add_to`: the links a fragment contributes, in order. */
  function Mat(f: Frag): seq<Link>
    decreases f, 1
  {
    match f
    case EmptyFrag => []
    case LinkFrag(l, _) => [l]
    case ElemFrag(_, links) => links
    case Composite(cs) => MatAll(cs)
  }

  function MatAll(cs: seq<Frag>): seq<Link>
    decreases cs, 0
  {
    if |cs| == 0 then [] else MatAll(cs[..|cs| - 1]) + Mat(cs[|cs| - 1])
  }

  /** The six aggregates: nothing for the empty fragment; a link counts
      entirely as shared; an element reports its totals and no shared part;
      a composite sums its components. */
  function FragAgg(f: Frag, d: int): Agg
    decreases f, 1
  {
    match f
    case EmptyFrag => Zero
    case LinkFrag(l, _) =>
      Agg(LinkA(l), LinkB(l), LinkTaud(l, d), LinkA(l), LinkB(l), LinkTaud(l, d))
    case ElemFrag(e, _) => Agg(e.a, e.b, e.taud, 0.0, 0.0, 0.0)
    case Composite(cs) => AggAll(cs, d)
  }

  function AggAll(cs: seq<Frag>, d: int): Agg
    decreases cs, 0
  {
    if |cs| == 0 then Zero else Plus(AggAll(cs[..|cs| - 1], d), FragAgg(cs[|cs| - 1], d))
  }

  /** A head/appendix composite materialises as the head's links followed
      by the appendix's, and its aggregates are the two sums, as the
      two-argument constructor computes them. */
  lemma PairFacts(head: Frag, appendix: Frag, d: int)
    ensures Mat(Pair(head, appendix)) == Mat(head) + Mat(appendix)
    ensures FragAgg(Pair(head, appendix), d) == Plus(FragAgg(head, d), FragAgg(appendix, d))
  {
    PairMat(head, appendix);
    PairAgg(head, appendix, d);
  }

  lemma PairMat(head: Frag, appendix: Frag)
    ensures Mat(Pair(head, appendix)) == Mat(head) + Mat(appendix)
  {
    MatOfTwo([head, appendix]);
  }

  lemma PairAgg(head: Frag, appendix: Frag, d: int)
    ensures FragAgg(Pair(head, appendix), d) == Plus(FragAgg(head, d), FragAgg(appendix, d))
  {
    AggOfTwo([head, appendix], d);
  }

  lemma MatOfTwo(cs: seq<Frag>)
    requires |cs| == 2
    ensures MatAll(cs) == Mat(cs[0]) + Mat(cs[1])
  {
    var init := cs[..1];
    assert init[..0] == [];
    assert MatAll(init) == MatAll([]) + Mat(cs[0]);
  }

  lemma AggOfTwo(cs: seq<Frag>, d: int)
    requires |cs| == 2
    ensures AggAll(cs, d) == Plus(FragAgg(cs[0], d), FragAgg(cs[1], d))
  {
    var init := cs[..1];
    assert init[..0] == [];
    assert AggAll(init, d) == Plus(Zero, FragAgg(cs[0], d));
  }

  /** The reference-route links a fragment contains as link fragments. */
  function LinkPart(f: Frag): seq<Link>
    decreases f, 1
  {
    match f
    case EmptyFrag => []
    case LinkFrag(l, _) => [l]
    case ElemFrag(_, _) => []
    case Composite(cs) => LinkPartAll(cs)
  }

  function LinkPartAll(cs: seq<Frag>): seq<Link>
    decreases cs, 0
  {
    if |cs| == 0 then [] else LinkPartAll(cs[..|cs| - 1]) + LinkPart(cs[|cs| - 1])
  }

  /** Every element fragment's totals are the sums over its links. */
  ghost predicate ElemsOk(f: Frag)
    decreases f, 1
  {
    match f
    case EmptyFrag => true
    case LinkFrag(_, _) => true
    case ElemFrag(e, links) => e.a == SumA(links) && e.b == SumB(links)
    case Composite(cs) => forall i :: 0 <= i < |cs| ==> ElemsOk(cs[i])
  }

  /** A fragment's a and b are the coefficient sums over the links it
      materialises to, and its shared a and b are the sums over its
      reference-route link fragments. */
  lemma {:induction false} FragTotals(f: Frag, d: int)
    requires ElemsOk(f)
    ensures FragAgg(f, d).a == SumA(Mat(f)) && FragAgg(f, d).b == SumB(Mat(f))
    ensures FragAgg(f, d).sa == SumA(LinkPart(f)) && FragAgg(f, d).sb == SumB(LinkPart(f))
    decreases f, 1
  {
    match f
    case EmptyFrag =>
    case LinkFrag(l, _) =>
      assert [l][..0] == [];
    case ElemFrag(_, _) =>
    case Composite(cs) =>
      FragTotalsAll(cs, d);
  }

  lemma {:induction false} FragTotalsAll(cs: seq<Frag>, d: int)
    requires forall i :: 0 <= i < |cs| ==> ElemsOk(cs[i])
    ensures AggAll(cs, d).a == SumA(MatAll(cs)) && AggAll(cs, d).b == SumB(MatAll(cs))
    ensures AggAll(cs, d).sa == SumA(LinkPartAll(cs)) && AggAll(cs, d).sb == SumB(LinkPartAll(cs))
    decreases cs, 0
  {
    if |cs| > 0 {
      var init := cs[..|cs| - 1];
      var last := cs[|cs| - 1];
      FragTotalsAll(init, d);
      FragTotals(last, d);
      SumsAppend(MatAll(init), Mat(last));
      SumsAppend(LinkPartAll(init), LinkPart(last));
    }
  }

  /** `to_par_elem`: an element with the fragment's six aggregates. */
  function ParElem(f: Frag, d: int): Elem
  {
    var g := FragAgg(f, d);
    FromAggregates(g.a, g.b, g.taud, g.sa, g.sb, g.staud)
  }

  /** `RouteFragment::strongly_dominating`. */
  predicate FragDom(x: Frag, y: Frag, d: int)
  {
    Psych.StronglyDominating(ParElem(x, d), ParElem(y, d))
  }

  /** No fragment of the list strongly dominates another, different one. */
  ghost predicate Antichain(fs: seq<Frag>, d: int)
  {
    forall x, y :: x in fs && y in fs && x != y ==> !FragDom(x, y, d)
  }

  // ---------------------------------------------------------------------
  // insert_and_dominate
  // ---------------------------------------------------------------------

  /** The scan of `insert_and_dominate` as written, over the part `rest`
      not yet visited, with `pre` the list so far. `pending` says the last
      fragment of `pre` is marked for deletion; it is erased only when the
      next iteration starts, so a mark on the last fragment is never
      carried out. */
  function ScanAsWritten(pre: seq<Frag>, rest: seq<Frag>, frag: Frag, appended: bool, pending: bool, d: int)
    : (seq<Frag>, bool)
    requires pending ==> |pre| > 0
    decreases |rest|
  {
    if |rest| == 0 then (if appended then pre else pre + [frag], true)
    else
      var pre1 := if pending then pre[..|pre| - 1] else pre;
      var x := rest[0];
      if FragDom(x, frag, d) then ([x] + pre1 + rest[1..], false)
      else if FragDom(frag, x, d) then
        if appended then ScanAsWritten(pre1 + [x], rest[1..], frag, true, true, d)
        else ScanAsWritten(pre1 + [frag], rest[1..], frag, true, false, d)
      else ScanAsWritten(pre1 + [x], rest[1..], frag, appended, false, d)
  }

  /** `insert_and_dominate(A, frag)` as written: the new list and the
      returned flag. */
  function InsertAsWritten(fs: seq<Frag>, frag: Frag, d: int): (seq<Frag>, bool)
  {
    ScanAsWritten([], fs, frag, false, false, d)
  }

  /** The deferred erase misses a dominated last fragment: frag dominates
      both fragments of a two-fragment list, overwrites the first, and the
      second survives although the insertion reports success. */
  lemma LastDominatedSurvives()
    ensures var x := ElemFrag(Agg(0.0, 2.0, 2.0, 0.0, 0.0, 0.0), []);
            var y := ElemFrag(Agg(0.0, 3.0, 3.0, 0.0, 0.0, 0.0), []);
            var frag := ElemFrag(Agg(0.0, 1.0, 1.0, 0.0, 0.0, 0.0), []);
            FragDom(frag, y, 0) && InsertAsWritten([x, y], frag, 0) == ([frag, y], true)
  {
    var x := ElemFrag(Agg(0.0, 2.0, 2.0, 0.0, 0.0, 0.0), []);
    var y := ElemFrag(Agg(0.0, 3.0, 3.0, 0.0, 0.0, 0.0), []);
    var frag := ElemFrag(Agg(0.0, 1.0, 1.0, 0.0, 0.0, 0.0), []);
    assert FragAgg(x, 0).b == 2.0 && FragAgg(y, 0).b == 3.0 && FragAgg(frag, 0).b == 1.0;
    assert !FragDom(x, frag, 0) && FragDom(frag, x, 0);
    assert !FragDom(y, frag, 0) && FragDom(frag, y, 0);
    assert [x, y][1..] == [y] && [y][1..] == [];
    calc {
      InsertAsWritten([x, y], frag, 0);
      ScanAsWritten([], [x, y], frag, false, false, 0);
      ScanAsWritten([] + [frag], [y], frag, true, false, 0);
      { assert [] + [frag] == [frag]; }
      ScanAsWritten([frag], [y], frag, true, false, 0);
      ScanAsWritten([frag] + [y], [], frag, true, true, 0);
      { assert [frag] + [y] == [frag, y]; }
      ([frag, y], true);
    }
  }

  /** The scan with the evidently intended erase: every dominated fragment
      after the first is removed when it is visited. */
  function Scan(pre: seq<Frag>, rest: seq<Frag>, frag: Frag, appended: bool, d: int): (seq<Frag>, bool)
    decreases |rest|
  {
    if |rest| == 0 then (if appended then pre else pre + [frag], true)
    else
      var x := rest[0];
      if FragDom(x, frag, d) then ([x] + pre + rest[1..], false)
      else if FragDom(frag, x, d) then
        if appended then Scan(pre, rest[1..], frag, true, d)
        else Scan(pre + [frag], rest[1..], frag, true, d)
      else Scan(pre + [x], rest[1..], frag, appended, d)
  }

  /** What the scan guarantees, for any state it passes through: it keeps
      only fragments it was given; it reports an insertion exactly when no
      remaining fragment dominates `frag`; and an insertion keeps `frag`,
      everything before, and exactly the remaining fragments `frag` does
      not dominate. */
  lemma {:induction false} ScanFacts(pre: seq<Frag>, rest: seq<Frag>, frag: Frag, appended: bool, d: int)
    requires appended ==> frag in pre
    requires forall y :: y in pre ==> y == frag || !FragDom(frag, y, d)
    ensures var (r, ins) := Scan(pre, rest, frag, appended, d);
            (forall y :: y in r ==> y in pre || y in rest || y == frag)
            && |r| > 0
            && (ins <==> forall x :: x in rest ==> !FragDom(x, frag, d))
            && (forall y :: y in pre ==> y in r)
            && (ins ==> frag in r)
            && (ins ==> forall x :: x in rest ==> (x in r <==> !FragDom(frag, x, d)))
            && (forall y :: y in rest ==> y in r || (FragDom(frag, y, d) && frag in r))
            && (!ins ==> exists x :: x in r && FragDom(x, frag, d))
    decreases |rest|
  {
    if |rest| > 0 {
      var x := rest[0];
      var tail := rest[1..];
      assert forall y :: y in rest <==> y == x || y in tail;
      Psych.DominanceOrders(ParElem(x, d), ParElem(frag, d), ParElem(x, d));
      if FragDom(x, frag, d) {
        var r := Scan(pre, rest, frag, appended, d).0;
        assert r == [x] + pre + tail;
        assert x in r;
      } else if FragDom(frag, x, d) {
        if appended {
          ScanFacts(pre, tail, frag, true, d);
        } else {
          ScanFacts(pre + [frag], tail, frag, true, d);
        }
        var (r, ins) := Scan(pre, rest, frag, appended, d);
        if ins {
          forall z | z in rest
            ensures z in r <==> !FragDom(frag, z, d)
          {
            if z == x {
              assert x != frag;
            }
          }
        }
      } else {
        ScanFacts(pre + [x], tail, frag, appended, d);
      }
    }
  }

  /** `insert_and_dominate` with the intended erase. */
  function Insert(fs: seq<Frag>, frag: Frag, d: int): (seq<Frag>, bool)
  {
    Scan([], fs, frag, false, d)
  }

  /** The intended insertion keeps a list of mutually non-dominating
      fragments mutually non-dominating, never empties it, and adds `frag`
      exactly when nothing in the list dominates it, removing then
      precisely the fragments `frag` dominates. */
  lemma InsertKeepsAntichain(fs: seq<Frag>, frag: Frag, d: int)
    ensures var (r, ins) := Insert(fs, frag, d);
            (forall y :: y in r ==> y in fs || y == frag) && |r| > 0
            && (ins <==> forall x :: x in fs ==> !FragDom(x, frag, d))
            && (ins ==> frag in r && forall x :: x in fs ==> (x in r <==> !FragDom(frag, x, d)))
            && (Antichain(fs, d) ==> Antichain(r, d))
  {
    ScanFacts([], fs, frag, false, d);
    var (r, ins) := Insert(fs, frag, d);
    if Antichain(fs, d) {
      if ins {
        InsertedKeeps(fs, frag, d, r);
      } else {
        NotInsertedKeeps(fs, frag, d);
        RotationKeeps(fs, FirstDominator(fs, frag, d), d);
      }
    }
  }

  /** Moving one fragment of a list of mutually non-dominating fragments
      to the front keeps its members and keeps it so. */
  lemma RotationKeeps(fs: seq<Frag>, j: int, d: int)
    requires Antichain(fs, d) && 0 <= j < |fs|
    ensures forall y :: y in [fs[j]] + fs[..j] + fs[j + 1..] ==> y in fs
    ensures Antichain([fs[j]] + fs[..j] + fs[j + 1..], d)
  {
    var r := [fs[j]] + fs[..j] + fs[j + 1..];
    forall y | y in r
      ensures y in fs
    {
      var t :| 0 <= t < |r| && r[t] == y;
      if t == 0 {
        assert y == fs[j];
      } else if t <= j {
        assert y == fs[t - 1];
      } else {
        assert y == fs[t];
      }
    }
  }

  /** A successful insertion into a list of mutually non-dominating
      fragments keeps it so: what remains of the list is not dominated by
      `frag`, and nothing in the list dominates `frag`. */
  lemma InsertedKeeps(fs: seq<Frag>, frag: Frag, d: int, r: seq<Frag>)
    requires Antichain(fs, d)
    requires forall y :: y in r ==> y in fs || y == frag
    requires forall x :: x in fs ==> !FragDom(x, frag, d)
    requires forall x :: x in fs ==> (x in r <==> !FragDom(frag, x, d))
    ensures Antichain(r, d)
  {
    forall x, y | x in r && y in r && x != y
      ensures !FragDom(x, y, d)
    {
      if x == frag {
        assert y in fs;
      } else if y == frag {
        assert x in fs;
      } else {
        assert x in fs && y in fs;
      }
    }
  }

  /** Some fragment of `r` is `g` or strongly dominates it. */
  ghost predicate Covers(r: seq<Frag>, g: Frag, d: int)
  {
    exists x :: x in r && (x == g || FragDom(x, g, d))
  }

  /** After an insertion the list still covers everything it covered, and
      it covers the offered fragment: a fragment that leaves the list is
      dominated by `frag`, which then stays. */
  lemma InsertCovers(fs: seq<Frag>, frag: Frag, d: int, g: Frag)
    requires g == frag || Covers(fs, g, d)
    ensures Covers(Insert(fs, frag, d).0, g, d)
  {
    ScanFacts([], fs, frag, false, d);
    var (r, ins) := Insert(fs, frag, d);
    if g == frag {
      if ins {
        assert frag in r;
      } else {
        var x :| x in r && FragDom(x, frag, d);
      }
    } else {
      var x :| x in fs && (x == g || FragDom(x, g, d));
      if x !in r {
        assert FragDom(frag, x, d) && frag in r;
        Psych.DominanceOrders(ParElem(frag, d), ParElem(x, d), ParElem(g, d));
        assert FragDom(frag, g, d);
      }
    }
  }

  /** Composing with the same appendix keeps strong dominance: the
      appendix adds the same amounts to both sides. */
  lemma PairMonotone(x: Frag, g: Frag, t: Frag, d: int)
    requires FragDom(x, g, d)
    ensures FragDom(Pair(x, t), Pair(g, t), d)
  {
    FragDomOnAggs(x, g, d);
    PairDomFromAggs(FragAgg(x, d), FragAgg(g, d), x, g, t, d);
  }

  lemma PairDomFromAggs(ax: Agg, ag: Agg, x: Frag, g: Frag, t: Frag, d: int)
    requires ax == FragAgg(x, d) && ag == FragAgg(g, d)
    requires ax.b <= ag.b && ax.taud <= ag.taud && ax.sa <= ag.sa
    ensures FragDom(Pair(x, t), Pair(g, t), d)
  {
    var at := FragAgg(t, d);
    PairAgg(x, t, d);
    PairAgg(g, t, d);
    var px, pg := ParElem(Pair(x, t), d), ParElem(Pair(g, t), d);
    assert px.agg == Plus(ax, at);
    assert pg.agg == Plus(ag, at);
  }

  /** Strong dominance between fragments compares their b, taud and shared
      a aggregates. */
  lemma FragDomOnAggs(x: Frag, y: Frag, d: int)
    ensures FragDom(x, y, d) <==>
              FragAgg(x, d).b <= FragAgg(y, d).b && FragAgg(x, d).taud <= FragAgg(y, d).taud
              && FragAgg(x, d).sa <= FragAgg(y, d).sa
  {
    var ex, ey := ParElem(x, d), ParElem(y, d);
    assert ex.agg == FragAgg(x, d) && ey.agg == FragAgg(y, d);
  }

  /** The first position whose fragment dominates frag, if any. */
  function FirstDominator(fs: seq<Frag>, frag: Frag, d: int): (j: int)
    ensures -1 <= j < |fs|
    ensures j == -1 <==> forall x :: x in fs ==> !FragDom(x, frag, d)
    ensures j >= 0 ==> FragDom(fs[j], frag, d) && forall i :: 0 <= i < j ==> !FragDom(fs[i], frag, d)
  {
    if |fs| == 0 then -1
    else if FragDom(fs[0], frag, d) then 0
    else
      var j := FirstDominator(fs[1..], frag, d);
      assert forall x :: x in fs[1..] ==> x in fs;
      assert forall x :: x in fs ==> x == fs[0] || x in fs[1..];
      if j == -1 then -1 else j + 1
  }

  /** Against a list of mutually non-dominating fragments a rejected
      fragment leaves the list a rotation of itself: the first dominator
      moves to the front. */
  lemma NotInsertedKeeps(fs: seq<Frag>, frag: Frag, d: int)
    requires Antichain(fs, d)
    requires !(forall x :: x in fs ==> !FragDom(x, frag, d))
    ensures var j := FirstDominator(fs, frag, d);
            Insert(fs, frag, d) == ([fs[j]] + fs[..j] + fs[j + 1..], false)
  {
    var j := FirstDominator(fs, frag, d);
    BeforeDominatorAll(fs, frag, d, j);
    ScanFromStart(fs, frag, d, j);
  }

  /** `ScanUpTo` from an empty prefix. */
  lemma ScanFromStart(rest: seq<Frag>, frag: Frag, d: int, j: int)
    requires 0 <= j < |rest| && FragDom(rest[j], frag, d)
    requires forall i :: 0 <= i < j ==> !FragDom(rest[i], frag, d) && !FragDom(frag, rest[i], d)
    ensures Scan([], rest, frag, false, d) == ([rest[j]] + rest[..j] + rest[j + 1..], false)
  {
    ScanUpTo([], rest, frag, d, j);
    assert [rest[j]] + [] + rest[..j] + rest[j + 1..] == [rest[j]] + rest[..j] + rest[j + 1..];
  }

  /** Everything before the first dominator of frag is incomparable with
      it. */
  lemma BeforeDominatorAll(fs: seq<Frag>, frag: Frag, d: int, j: int)
    requires Antichain(fs, d) && 0 <= j < |fs| && FragDom(fs[j], frag, d)
    requires forall i :: 0 <= i < j ==> !FragDom(fs[i], frag, d)
    ensures forall i :: 0 <= i < j ==> !FragDom(fs[i], frag, d) && !FragDom(frag, fs[i], d)
  {
    forall i | 0 <= i < j
      ensures !FragDom(frag, fs[i], d)
    {
      BeforeDominator(fs, frag, d, i, j);
    }
  }

  /** In a list of mutually non-dominating fragments, nothing before the
      first dominator of frag is dominated by frag. */
  lemma BeforeDominator(fs: seq<Frag>, frag: Frag, d: int, i: int, j: int)
    requires Antichain(fs, d) && 0 <= i < j < |fs|
    requires FragDom(fs[j], frag, d) && !FragDom(fs[i], frag, d)
    ensures !FragDom(frag, fs[i], d)
  {
    Psych.DominanceOrders(ParElem(fs[j], d), ParElem(frag, d), ParElem(fs[i], d));
    assert fs[i] in fs && fs[j] in fs;
    assert fs[i] != fs[j];
  }

  /** Before the first dominator, with nothing dominated, the scan copies
      the fragments it passes. */
  lemma {:induction false} ScanUpTo(pre: seq<Frag>, rest: seq<Frag>, frag: Frag, d: int, j: int)
    requires 0 <= j < |rest| && FragDom(rest[j], frag, d)
    requires forall i :: 0 <= i < j ==> !FragDom(rest[i], frag, d) && !FragDom(frag, rest[i], d)
    ensures Scan(pre, rest, frag, false, d) == ([rest[j]] + pre + rest[..j] + rest[j + 1..], false)
    decreases j
  {
    if j > 0 {
      var tail := rest[1..];
      ScanUpTo(pre + [rest[0]], tail, frag, d, j - 1);
      assert tail[j - 1] == rest[j];
      assert pre + [rest[0]] + tail[..j - 1] == pre + rest[..j];
      assert tail[j - 1 + 1..] == rest[j + 1..];
      assert [rest[j]] + (pre + [rest[0]]) + tail[..j - 1] + tail[j - 1 + 1..]
          == [rest[j]] + pre + rest[..j] + rest[j + 1..];
    } else {
      assert rest[..0] == [];
      assert [rest[0]] + pre + rest[1..] == [rest[0]] + pre + rest[..0] + rest[0 + 1..];
    }
  }

  /** The loop of `insert_and_dominate` with the intended erase, over the
      list's positions. */
  method InsertAndDominate(fs: seq<Frag>, frag: Frag, d: int) returns (r: seq<Frag>, inserted: bool)
    ensures (r, inserted) == Insert(fs, frag, d)
  {
    var pre: seq<Frag> := [];
    var appended := false;
    var i := 0;
    while i < |fs|
      invariant 0 <= i <= |fs|
      invariant Scan(pre, fs[i..], frag, appended, d) == Insert(fs, frag, d)
    {
      var x := fs[i];
      assert fs[i..][1..] == fs[i + 1..];
      if FragDom(x, frag, d) {
        return [x] + pre + fs[i + 1..], false;
      } else if FragDom(frag, x, d) {
        if !appended {
          pre := pre + [frag];
          appended := true;
        }
      } else {
        pre := pre + [x];
      }
      i := i + 1;
    }
    if !appended {
      pre := pre + [frag];
    }
    return pre, true;
  }
}
