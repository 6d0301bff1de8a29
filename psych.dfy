/** The behavioural cost model: dominance between path elements, the
    candidate usages of the three route-choice models, and the score of an
    alternative route against the reference route. */
module Psych {
  import opened Common
  import opened Network
  import opened Elements

  // ---------------------------------------------------------------------
  // Dominance
  // ---------------------------------------------------------------------

  /** `dominating`: no worse in free-flow time and in full-load time. */
  predicate Dominating(p: Elem, q: Elem)
  {
    p.agg.b <= q.agg.b && p.agg.taud <= q.agg.taud
  }

  /** `strongly_dominating`: dominating and no more congestion shared with
      the reference route. */
  predicate StronglyDominating(p: Elem, q: Elem)
  {
    p.agg.b <= q.agg.b && p.agg.taud <= q.agg.taud && p.agg.sa <= q.agg.sa
  }

  /** Both relations are preorders, and strong dominance implies dominance. */
  lemma DominanceOrders(p: Elem, q: Elem, r: Elem)
    ensures Dominating(p, p) && StronglyDominating(p, p)
    ensures Dominating(p, q) && Dominating(q, r) ==> Dominating(p, r)
    ensures StronglyDominating(p, q) && StronglyDominating(q, r) ==> StronglyDominating(p, r)
    ensures StronglyDominating(p, q) ==> Dominating(p, q)
  {
  }

  /** Strong dominance is dominance plus the shared-congestion condition. */
  lemma StrongIsWeakPlusShared(p: Elem, q: Elem)
    ensures StronglyDominating(p, q) <==> Dominating(p, q) && p.agg.sa <= q.agg.sa
  {
  }

  // ---------------------------------------------------------------------
  // Candidate usages
  // ---------------------------------------------------------------------

  /** A root from the polynomial solver, which is not part of this model:
      a number, an infinity, or NaN (which fails every comparison). */
  datatype Root = NaN | Val(x: real) | PosInfinity | NegInfinity

  /** The three roots written by the solver (the quadratic models read the
      first two). */
  datatype Roots = Roots(x0: Root, x1: Root, x2: Root)

  /** The route-choice model in use. */
  datatype Model = Linear | UserEquilibrium | SystemOptimum

  /** Coefficient sums of the alternative p, the reference q, and of the
      links they share. */
  datatype Costs = Costs(ap: real, bp: real, aq: real, bq: real, apnq: real, bpnq: real)

  /** `0 <= x && x <= k` on a root. */
  predicate InRange(r: Root, k: int)
  {
    r.Val? && 0.0 <= r.x <= k as real
  }

  function Dist(x: real, y: real): real
  {
    if x <= y then y - x else x - y
  }

  /** What the linear model pushes for one root: nothing for NaN, otherwise
      the point of [0, k] nearest to the root. */
  function ClampRoot(r: Root, k: int): (us: seq<real>)
    ensures r.NaN? <==> |us| == 0
    ensures |us| <= 1
    ensures k >= 0 && |us| == 1 ==> 0.0 <= us[0] <= k as real
    ensures k >= 0 && r.Val? ==> forall y :: 0.0 <= y <= k as real ==> Dist(us[0], r.x) <= Dist(y, r.x)
    ensures r.PosInfinity? ==> us == [k as real]
    ensures r.NegInfinity? ==> us == [0.0]
  {
    match r
    case NaN => []
    case PosInfinity => [k as real]
    case NegInfinity => [0.0]
    case Val(x) =>
      if 0.0 <= x && x <= k as real then [x]
      else if x > k as real then [k as real]
      else [0.0]
  }

  /** The linear model's shortcut: p lies entirely on shared links and is
      cheaper than q in a or in b. */
  predicate Shortcut(c: Costs)
  {
    c.ap == c.apnq && c.bp == c.bpnq && (c.ap < c.aq || c.bp < c.bq)
  }

  /** `linear_simple_example_model_2r::calc_usage`. */
  function LinearUsage(c: Costs, k: int, rs: Roots): (us: seq<real>)
    ensures |us| >= 1
    ensures k >= 0 ==> forall u :: u in us ==> 0.0 <= u <= k as real
    ensures Shortcut(c) ==> us == [k as real]
    ensures !Shortcut(c) && !(rs.x0.NaN? && rs.x1.NaN? && rs.x2.NaN?) ==>
      us == ClampRoot(rs.x0, k) + ClampRoot(rs.x1, k) + ClampRoot(rs.x2, k)
    ensures !Shortcut(c) && rs.x0.NaN? && rs.x1.NaN? && rs.x2.NaN? ==> us == [0.0]
  {
    if Shortcut(c) then [k as real]
    else
      var inBounds := ClampRoot(rs.x0, k) + ClampRoot(rs.x1, k) + ClampRoot(rs.x2, k);
      if |inBounds| == 0 then [0.0] else inBounds
  }

  /** The linear model yields one candidate per non-NaN root. */
  lemma LinearUsageCount(c: Costs, k: int, rs: Roots)
    requires !Shortcut(c) && !(rs.x0.NaN? && rs.x1.NaN? && rs.x2.NaN?)
    ensures |LinearUsage(c, k, rs)| ==
      (if rs.x0.NaN? then 0 else 1) + (if rs.x1.NaN? then 0 else 1) + (if rs.x2.NaN? then 0 else 1)
  {
  }

  /** The latency of p and of q for the user-equilibrium model: their own
      coefficients, with the shared links' full-load latency folded into b. */
  function UeLatencyP(c: Costs, k: int, x: real): real
  {
    Latency(c.ap - c.apnq, c.bp - c.bpnq + Latency(c.apnq, c.bpnq, k as real), x)
  }

  function UeLatencyQ(c: Costs, k: int, x: real): real
  {
    Latency(c.aq - c.apnq, c.bq - c.bpnq + Latency(c.apnq, c.bpnq, k as real), x)
  }

  /** `user_equilibrium_2r::calc_usage`: exactly one candidate. */
  function UserEquilibriumUsage(c: Costs, k: int, rs: Roots): (us: seq<real>)
    ensures |us| == 1
    ensures k >= 0 ==> 0.0 <= us[0] <= k as real
    ensures InRange(rs.x0, k) ==> us[0] == rs.x0.x
    ensures !InRange(rs.x0, k) && InRange(rs.x1, k) ==> us[0] == rs.x1.x
    // without an interior equilibrium: everyone on p exactly when p, fully
    // loaded, is no slower than an empty q
    ensures !InRange(rs.x0, k) && !InRange(rs.x1, k) ==>
      (us[0] == k as real <== UeLatencyP(c, k, k as real) <= UeLatencyQ(c, k, 0.0)) &&
      (us[0] == 0.0 <== UeLatencyP(c, k, k as real) > UeLatencyQ(c, k, 0.0))
  {
    if InRange(rs.x0, k) then [rs.x0.x]
    else if InRange(rs.x1, k) then [rs.x1.x]
    else if UeLatencyP(c, k, k as real) <= UeLatencyQ(c, k, 0.0) then [k as real]
    else [0.0]
  }

  /** `system_optimum_2r::calc_usage`: both extremes, then the roots in
      range. */
  function SystemOptimumUsage(k: int, rs: Roots): (us: seq<real>)
    ensures 2 <= |us| <= 4 && us[0] == k as real && us[1] == 0.0
    ensures k >= 0 ==> forall u :: u in us ==> 0.0 <= u <= k as real
    ensures forall u :: u in us[2..] ==> (InRange(rs.x0, k) && u == rs.x0.x) || (InRange(rs.x1, k) && u == rs.x1.x)
    ensures InRange(rs.x0, k) ==> rs.x0.x in us
    ensures InRange(rs.x1, k) ==> rs.x1.x in us
  {
    [k as real, 0.0]
      + (if InRange(rs.x0, k) then [rs.x0.x] else [])
      + (if InRange(rs.x1, k) then [rs.x1.x] else [])
  }

  /** `calc_usage` of the model in use. */
  function CalcUsage(m: Model, c: Costs, k: int, rs: Roots): seq<real>
  {
    match m
    case Linear => LinearUsage(c, k, rs)
    case UserEquilibrium => UserEquilibriumUsage(c, k, rs)
    case SystemOptimum => SystemOptimumUsage(k, rs)
  }

  /** Every model offers at least one candidate, and all of them lie in
      [0, k]. */
  lemma CandidatesInRange(m: Model, c: Costs, k: int, rs: Roots)
    requires k >= 0
    ensures |CalcUsage(m, c, k, rs)| >= 1
    ensures forall i :: 0 <= i < |CalcUsage(m, c, k, rs)| ==> 0.0 <= CalcUsage(m, c, k, rs)[i] <= k as real
  {
    var us := CalcUsage(m, c, k, rs);
    assert forall i :: 0 <= i < |us| ==> us[i] in us;
  }

  // ---------------------------------------------------------------------
  // score_route
  // ---------------------------------------------------------------------

  /** Total travel time when `u` of the `k` agents take p and the rest
      take q, the shared links carrying all `k`. */
  function CandidateCost(c: Costs, k: int, u: real): real
  {
    var lp := Latency(c.ap - c.apnq, c.bp - c.bpnq, u);
    var lq := Latency(c.aq - c.apnq, c.bq - c.bpnq, k as real - u);
    u * lp + (k as real - u) * lq + k as real * Latency(c.apnq, c.bpnq, k as real)
  }

  /** A candidate cost whose truncation is a non-negative `int`. */
  predicate FitsInt(cost: real)
  {
    0 <= Trunc(cost) <= IntMax
  }

  /** The score `score_route` records for a candidate as the code is
      written: the cost truncated into an `int`. A cost outside `int`
      converts (on x86) to INT_MIN, which is negative; the overflow branch
      then assigns DBL_MAX to the `int`, which converts to INT_MIN again. */
  function AsWrittenScore(cost: real): (s: int)
    ensures FitsInt(cost) ==> s == Trunc(cost)
    ensures !FitsInt(cost) ==> s == IntMin
  {
    var t := Trunc(cost);
    if IntMin <= t <= IntMax then (if t < 0 then IntMin else t) else IntMin
  }

  /** The evident intent: an overflowing candidate scores DBL_MAX, so it can
      never beat the initial best. */
  function CandidateScore(cost: real): (s: real)
    ensures FitsInt(cost) ==> s == Trunc(cost) as real && 0.0 <= s
    ensures !FitsInt(cost) ==> s == DblMax
  {
    if FitsInt(cost) then Trunc(cost) as real else DblMax
  }

  /** The cost of every candidate usage. */
  function CandidateCosts(c: Costs, k: int, us: seq<real>): (r: seq<real>)
    ensures |r| == |us|
  {
    seq(|us|, i requires 0 <= i < |us| => CandidateCost(c, k, us[i]))
  }

  function AsWrittenScores(c: Costs, k: int, us: seq<real>): (r: seq<real>)
    ensures |r| == |us|
  {
    var costs := CandidateCosts(c, k, us);
    seq(|us|, i requires 0 <= i < |us| => AsWrittenScore(costs[i]) as real)
  }

  function ScoresOf(costs: seq<real>): (r: seq<real>)
    ensures |r| == |costs|
  {
    seq(|costs|, i requires 0 <= i < |costs| => CandidateScore(costs[i]))
  }

  function Scores(c: Costs, k: int, us: seq<real>): (r: seq<real>)
    ensures |r| == |us|
  {
    ScoresOf(CandidateCosts(c, k, us))
  }

  /** The (score, usage) pair of a selection: the chosen index's score and
      its truncated usage, or (DBL_MAX, 9) when nothing was chosen. */
  datatype Scored = Scored(score: real, usage: int)

  function Chosen(scores: seq<real>, us: seq<real>, i: int): Scored
    requires |scores| == |us| && -1 <= i < |us|
  {
    if i == -1 then Scored(DblMax, 9) else Scored(scores[i], Trunc(us[i]))
  }

  /** `score_route` as written: keeps the first candidate with a strictly
      smaller truncated score. */
  method ScoreRouteAsWritten(c: Costs, k: int, us: seq<real>) returns (r: Scored)
    ensures r == Chosen(AsWrittenScores(c, k, us), us, FirstMin(AsWrittenScores(c, k, us), DblMax))
  {
    var score := DblMax;
    var usage := 9;
    ghost var best := -1;
    var i := 0;
    while i < |us|
      invariant 0 <= i <= |us|
      invariant best == FirstMin(AsWrittenScores(c, k, us)[..i], DblMax)
      invariant Scored(score, usage) == Chosen(AsWrittenScores(c, k, us), us, best)
    {
      var u := us[i];
      var s := AsWrittenScore(CandidateCost(c, k, u));
      ghost var xs := AsWrittenScores(c, k, us);
      FirstMinExtend(xs, DblMax, i);
      assert xs[i] == s as real;
      if (s as real) < score {
        score, usage := s as real, Trunc(u);
        best := i;
      }
      i := i + 1;
    }
    assert AsWrittenScores(c, k, us)[..i] == AsWrittenScores(c, k, us);
    r := Scored(score, usage);
  }

  /** An overflowing candidate beats every candidate that fits: with costs
      3e9 (usage 1) and 1 (usage 0) the code picks the overflowing one and
      reports INT_MIN as its score. */
  lemma OverflowWins()
    ensures var c := Costs(0.0, 3000000000.0, 0.0, 1.0, 0.0, 0.0);
            var us := [1.0, 0.0];
            CandidateCost(c, 1, 1.0) == 3000000000.0 && CandidateCost(c, 1, 0.0) == 1.0 &&
            FirstMin(AsWrittenScores(c, 1, us), DblMax) == 0 &&
            AsWrittenScores(c, 1, us)[0] == IntMin as real
  {
    var c := Costs(0.0, 3000000000.0, 0.0, 1.0, 0.0, 0.0);
    var us := [1.0, 0.0];
    var xs := AsWrittenScores(c, 1, us);
    assert xs[0] == IntMin as real;
    assert xs[1] == 1.0;
    assert IsFirstMinBelow(xs, DblMax, 0);
    FirstMinBelowUnique(xs, DblMax, 0, FirstMin(xs, DblMax));
  }

  /** `score_route` with an overflowing candidate treated as unbeatable. */
  method ScoreRoute(c: Costs, k: int, us: seq<real>) returns (r: Scored)
    ensures r == Chosen(Scores(c, k, us), us, FirstMin(Scores(c, k, us), DblMax))
  {
    var score := DblMax;
    var usage := 9;
    ghost var best := -1;
    var i := 0;
    while i < |us|
      invariant 0 <= i <= |us|
      invariant best == FirstMin(Scores(c, k, us)[..i], DblMax)
      invariant Scored(score, usage) == Chosen(Scores(c, k, us), us, best)
    {
      var u := us[i];
      var s := CandidateScore(CandidateCost(c, k, u));
      ghost var xs := Scores(c, k, us);
      FirstMinExtend(xs, DblMax, i);
      assert xs[i] == s;
      if s < score {
        score, usage := s, Trunc(u);
        best := i;
      }
      i := i + 1;
    }
    assert Scores(c, k, us)[..i] == Scores(c, k, us);
    r := Scored(score, usage);
  }

  /** The selection `score_route` makes among candidates with the given
      costs, with the corrected overflow rule. */
  function Select(costs: seq<real>, us: seq<real>): Scored
    requires |costs| == |us|
  {
    Chosen(ScoresOf(costs), us, FirstMin(ScoresOf(costs), DblMax))
  }

  /** The score function of `score_route` with the corrected overflow rule. */
  function ScoreOf(c: Costs, k: int, us: seq<real>): Scored
  {
    Select(CandidateCosts(c, k, us), us)
  }

  /** The corrected selection never picks an overflowing candidate: the
      result is a non-negative truncated cost no larger than any fitting
      candidate's, together with that candidate's usage; when every
      candidate overflows it is (DBL_MAX, 9). */
  lemma SelectIsBestFitting(costs: seq<real>, us: seq<real>)
    requires |costs| == |us|
    ensures forall i :: 0 <= i < |us| && FitsInt(costs[i]) ==>
              Select(costs, us).score <= Trunc(costs[i]) as real
    ensures (exists i :: 0 <= i < |us| && FitsInt(costs[i])) ==>
              exists i :: 0 <= i < |us| && FitsInt(costs[i]) &&
                Select(costs, us) == Scored(Trunc(costs[i]) as real, Trunc(us[i]))
    ensures (forall i :: 0 <= i < |us| ==> !FitsInt(costs[i])) ==> Select(costs, us) == Scored(DblMax, 9)
  {
    var xs := ScoresOf(costs);
    var b := FirstMin(xs, DblMax);
    if b == -1 {
      forall i | 0 <= i < |us|
        ensures !FitsInt(costs[i])
      {
        assert xs[i] >= DblMax;
      }
    } else {
      assert FitsInt(costs[b]);
      forall i | 0 <= i < |us| && FitsInt(costs[i])
        ensures xs[b] <= xs[i]
      {
        if i < b {
          assert xs[b] < xs[i];
        }
      }
    }
  }

  /** `score_route(ap, bp, aq, bq, apnq, bpnq, k)`: the candidates of the
      model in use, scored. The roots are what the solver returns for this
      model's polynomial. */
  method ScoreCosts(m: Model, c: Costs, k: int, rs: Roots) returns (r: Scored)
    ensures r == ScoreOf(c, k, CalcUsage(m, c, k, rs))
    ensures k >= 0 ==> 0 <= r.usage <= k || r == Scored(DblMax, 9)
  {
    var us := CalcUsage(m, c, k, rs);
    r := ScoreRoute(c, k, us);
    if k >= 0 {
      CandidatesInRange(m, c, k, rs);
      var b := FirstMin(Scores(c, k, us), DblMax);
      if b != -1 {
        assert 0.0 <= us[b] <= k as real;
        assert Trunc(us[b]) as real <= us[b];
      }
    }
  }

  /** What the polynomial solver returns for a model's candidate polynomial. */
  type Solver = (Model, Costs, int) -> Roots

  /** `psychological_model.score_route(...)` with the solver's roots. */
  function Score(m: Model, c: Costs, k: int, solve: Solver): Scored
  {
    ScoreOf(c, k, CalcUsage(m, c, k, solve(m, c, k)))
  }

  /** A scorer as the searches use it: costs and the number of agents to
      (score, usage). */
  type Scorer = (Costs, int) -> Scored

  /** The psychological model in use as a scorer. */
  function ModelScorer(m: Model, solve: Solver): Scorer
  {
    (c: Costs, k: int) => Score(m, c, k, solve)
  }

  ghost predicate NonNegScores(sc: Scorer)
  {
    forall c, k :: sc(c, k).score >= 0.0
  }

  lemma ModelScorerNonNeg(m: Model, solve: Solver)
    ensures NonNegScores(ModelScorer(m, solve))
  {
    forall c, k
      ensures ModelScorer(m, solve)(c, k).score >= 0.0
    {
      ScoreBounds(m, c, k, solve);
    }
  }

  /** Every score is non-negative (a truncated non-negative cost, or
      DBL_MAX), and for k >= 0 the usage lies in [0, k] unless nothing fit. */
  lemma ScoreBounds(m: Model, c: Costs, k: int, solve: Solver)
    ensures Score(m, c, k, solve).score >= 0.0
    ensures k >= 0 ==> 0 <= Score(m, c, k, solve).usage <= k || Score(m, c, k, solve) == Scored(DblMax, 9)
  {
    var us := CalcUsage(m, c, k, solve(m, c, k));
    var xs := Scores(c, k, us);
    var b := FirstMin(xs, DblMax);
    if b != -1 {
      assert xs[b] == CandidateScore(CandidateCost(c, k, us[b]));
      if k >= 0 {
        CandidatesInRange(m, c, k, solve(m, c, k));
        assert 0.0 <= us[b] <= k as real;
        assert Trunc(us[b]) as real <= us[b];
      }
    }
  }

  // ---------------------------------------------------------------------
  // score_route(route& p, route& q, int k)
  // ---------------------------------------------------------------------

  /** The links of p that also occur in q, in p's order. */
  function OnBoth(p: seq<Link>, q: seq<Link>): (r: seq<Link>)
    ensures |r| <= |p|
    ensures forall l :: l in r ==> l in p && l in q
  {
    if |p| == 0 then []
    else OnBoth(p[..|p| - 1], q) + (if p[|p| - 1] in q then [p[|p| - 1]] else [])
  }

  /** A route shares all of itself with a route containing all its links. */
  lemma {:induction false} OnBothAll(p: seq<Link>, q: seq<Link>)
    requires forall l :: l in p ==> l in q
    ensures OnBoth(p, q) == p
    decreases |p|
  {
    if |p| > 0 {
      var init, last := p[..|p| - 1], p[|p| - 1];
      forall l | l in init
        ensures l in q
      {
        var t :| 0 <= t < |init| && init[t] == l;
        assert p[t] == l;
      }
      OnBothAll(init, q);
      assert p[|p| - 1] in p;
      assert OnBoth(p, q) == init + [last];
      assert init + [last] == p;
    }
  }

  /** A route shares nothing with a route it has no link in common with. */
  lemma {:induction false} OnBothNone(p: seq<Link>, q: seq<Link>)
    requires forall l :: l in p ==> l !in q
    ensures OnBoth(p, q) == []
    decreases |p|
  {
    if |p| > 0 {
      var init := p[..|p| - 1];
      assert forall l :: l in init ==> l in p;
      OnBothNone(init, q);
      assert p[|p| - 1] in p;
    }
  }

  /** The cost sums `score_route(p, q)` accumulates. */
  function CostsOf(p: seq<Link>, q: seq<Link>): Costs
  {
    Costs(SumA(p), SumB(p), SumA(q), SumB(q), SumA(OnBoth(p, q)), SumB(OnBoth(p, q)))
  }

  /** One more link of p extends the sums, and the shared sums when the
      link occurs in q. */
  lemma PrefixStep(p: seq<Link>, q: seq<Link>, i: int)
    requires 0 <= i < |p|
    ensures SumA(p[..i + 1]) == SumA(p[..i]) + LinkA(p[i])
    ensures SumB(p[..i + 1]) == SumB(p[..i]) + LinkB(p[i])
    ensures SumA(OnBoth(p[..i + 1], q)) == SumA(OnBoth(p[..i], q)) + (if p[i] in q then LinkA(p[i]) else 0.0)
    ensures SumB(OnBoth(p[..i + 1], q)) == SumB(OnBoth(p[..i], q)) + (if p[i] in q then LinkB(p[i]) else 0.0)
  {
    assert p[..i + 1][..i] == p[..i];
    var sh := OnBoth(p[..i], q);
    if p[i] in q {
      assert OnBoth(p[..i + 1], q) == sh + [p[i]];
      assert (sh + [p[i]])[..|sh|] == sh;
    } else {
      assert OnBoth(p[..i + 1], q) == sh + [];
      assert sh + [] == sh;
    }
  }

  /** `score_route(route& p, route& q, int k)`: sums q's coefficients, then
      p's, counting a link of p as shared when it occurs in q; then scores. */
  method ScoreRoutes(m: Model, p: seq<Link>, q: seq<Link>, k: int, solve: (Model, Costs, int) -> Roots)
    returns (r: Scored)
    ensures r == ScoreOf(CostsOf(p, q), k, CalcUsage(m, CostsOf(p, q), k, solve(m, CostsOf(p, q), k)))
  {
    var aq, bq := 0.0, 0.0;
    var i := 0;
    while i < |q|
      invariant 0 <= i <= |q|
      invariant aq == SumA(q[..i]) && bq == SumB(q[..i])
    {
      PrefixStep(q, q, i);
      aq := aq + LinkA(q[i]);
      bq := bq + LinkB(q[i]);
      i := i + 1;
    }
    assert q[..i] == q;
    var ap, bp, as_, bs := 0.0, 0.0, 0.0, 0.0;
    i := 0;
    while i < |p|
      invariant 0 <= i <= |p|
      invariant ap == SumA(p[..i]) && bp == SumB(p[..i])
      invariant as_ == SumA(OnBoth(p[..i], q)) && bs == SumB(OnBoth(p[..i], q))
    {
      PrefixStep(p, q, i);
      ap := ap + LinkA(p[i]);
      bp := bp + LinkB(p[i]);
      if p[i] in q {
        as_ := as_ + LinkA(p[i]);
        bs := bs + LinkB(p[i]);
      }
      i := i + 1;
    }
    assert p[..i] == p;
    var c := Costs(ap, bp, aq, bq, as_, bs);
    r := ScoreCosts(m, c, k, solve(m, c, k));
  }
}
