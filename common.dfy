/** Small shared vocabulary: optional values, IEEE infinities, C numeric
    conversions and the "first strict minimum" scan used by every selection
    loop of the router. */
module Common {

  datatype Option<T> = None | Some(value: T)

  /** A double that is either finite (an exact real here) or +infinity
      (`HUGE_VAL`). */
  datatype XReal = Fin(v: real) | PosInf

  /** IEEE `x > y` for an extended value against a finite one. */
  predicate Above(x: XReal, y: real)
  {
    match x
    case PosInf => true
    case Fin(v) => v > y
  }

  /** `std::numeric_limits<double>::max()`, i.e. (2 - 2^-52) * 2^1023. */
  const DblMax: real :=
    179769313486231570814527423731704356798070567525844996598917476803157260780028538760589558632766878171540458953514382464234321326889464182768467546703537516986049910576551282076245490090389328944075868508455133942304583236903222948165808559332123348274797826204144723168738177180919299881250404026184124858368.0

  const IntMin: int := -0x8000_0000
  const IntMax: int := 0x7FFF_FFFF

  /** Conversion of a real to an integer by truncation toward zero, as a
      C++ `double` to `int` conversion does for values in range. */
  function Trunc(x: real): (r: int)
    ensures x >= 0.0 ==> r as real <= x < r as real + 1.0
    ensures x < 0.0 ==> r as real - 1.0 < x <= r as real
  {
    if x >= 0.0 then x.Floor else -((-x).Floor)
  }

  /** C `round`: nearest integer, halves rounded away from zero. */
  function Round(x: real): (r: int)
    ensures x >= 0.0 ==> r as real - 0.5 <= x < r as real + 0.5
    ensures x < 0.0 ==> r as real - 0.5 < x <= r as real + 0.5
  {
    if x >= 0.0 then (x + 0.5).Floor else -((-x + 0.5).Floor)
  }

  /** `i` is the index a left-to-right scan selects when it starts from a
      running best of `init` and replaces the best only on a strictly smaller
      value: the first position holding the minimum, provided that minimum is
      below `init`; -1 when no value is below `init`. */
  ghost predicate IsFirstMinBelow(xs: seq<real>, init: real, i: int)
  {
    if i == -1 then
      forall j :: 0 <= j < |xs| ==> xs[j] >= init
    else
      0 <= i < |xs| && xs[i] < init
      && (forall j :: 0 <= j < i ==> xs[i] < xs[j])
      && (forall j :: i < j < |xs| ==> xs[i] <= xs[j])
  }

  /** The scan's choice is unique. */
  lemma FirstMinBelowUnique(xs: seq<real>, init: real, i: int, j: int)
    requires IsFirstMinBelow(xs, init, i) && IsFirstMinBelow(xs, init, j)
    ensures i == j
  {
  }

  /** One more element replaces the running choice exactly when it is
      strictly below it (below `init` when nothing was chosen). */
  lemma FirstMinExtend(xs: seq<real>, init: real, i: int)
    requires 0 <= i < |xs|
    ensures var j := FirstMin(xs[..i], init);
            FirstMin(xs[..i + 1], init) == if (if j == -1 then xs[i] < init else xs[i] < xs[j]) then i else j
  {
    assert xs[..i + 1][..i] == xs[..i];
  }

  /** The index the running-best scan selects, as a function. */
  function FirstMin(xs: seq<real>, init: real): (i: int)
    ensures IsFirstMinBelow(xs, init, i)
    decreases |xs|
  {
    if |xs| == 0 then -1
    else
      var n := |xs| - 1;
      var j := FirstMin(xs[..n], init);
      assert forall m :: 0 <= m < n ==> xs[..n][m] == xs[m];
      if j == -1 then (if xs[n] < init then n else -1)
      else if xs[n] < xs[j] then n else j
  }

  /** `std::min_element` as an index: the first position holding the least
      value of a nonempty sequence. */
  function MinElement(xs: seq<real>): (i: int)
    requires |xs| > 0
    ensures 0 <= i < |xs|
    ensures forall j :: 0 <= j < |xs| ==> xs[i] <= xs[j]
    ensures forall j :: 0 <= j < i ==> xs[i] < xs[j]
  {
    var m := FirstMin(xs, xs[0]);
    if m == -1 then 0 else m
  }

  /** The running-best scan itself: the imperative loop every selection in
      the router performs. */
  method FirstMinBelow(xs: seq<real>, init: real) returns (best: int, bestVal: real)
    ensures best == FirstMin(xs, init)
    ensures best == -1 ==> bestVal == init
    ensures best != -1 ==> bestVal == xs[best]
  {
    best, bestVal := -1, init;
    var i := 0;
    while i < |xs|
      invariant 0 <= i <= |xs|
      invariant IsFirstMinBelow(xs[..i], init, best)
      invariant best == -1 ==> bestVal == init
      invariant best != -1 ==> best < i && bestVal == xs[best]
    {
      if xs[i] < bestVal {
        best, bestVal := i, xs[i];
      }
      i := i + 1;
    }
    assert xs[..i] == xs;
    FirstMinBelowUnique(xs, init, best, FirstMin(xs, init));
  }

  function Sum(xs: seq<real>): real
  {
    if |xs| == 0 then 0.0 else Sum(xs[..|xs| - 1]) + xs[|xs| - 1]
  }

  lemma {:induction false} SumAppend(xs: seq<real>, ys: seq<real>)
    ensures Sum(xs + ys) == Sum(xs) + Sum(ys)
    decreases |ys|
  {
    if |ys| == 0 {
      assert xs + ys == xs;
    } else {
      assert (xs + ys)[..|xs + ys| - 1] == xs + ys[..|ys| - 1];
      SumAppend(xs, ys[..|ys| - 1]);
    }
  }
}
