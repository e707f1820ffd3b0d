/**
  The LINQ aggregates the dashboard applies to its windows (Sum, Average,
  Max, Min, Count), over exact reals, and the square root it takes of them.
  Math.Sqrt is not given a definition: every function that needs it takes it
  as a parameter `sqrt`, and `IsSqrt` is all that is assumed of it.
*/
module Stats {

  /**
    sqrt returns the non-negative square root of every non-negative argument,
    and 0 for 0 (the last is implied by the first, but deriving it needs the
    solver's non-linear real arithmetic, so it is stated outright).
  */
  ghost predicate IsSqrt(sqrt: real -> real) {
    && sqrt(0.0) == 0.0
    && forall x :: 0.0 <= x ==> 0.0 <= sqrt(x) && sqrt(x) * sqrt(x) == x
  }

  lemma SqrtPositive(sqrt: real -> real, x: real)
    requires IsSqrt(sqrt) && 0.0 <= x
    ensures sqrt(x) > 0.0 <==> x > 0.0
    ensures sqrt(x) == 0.0 <==> x == 0.0
  {
    if x > 0.0 {
      PositiveRoot(sqrt(x), x);
    }
  }

  lemma PositiveRoot(s: real, x: real)
    requires s >= 0.0 && s * s == x && x > 0.0
    ensures s > 0.0
  {
    if s == 0.0 {
      assert false;
    }
  }

  function Sum(xs: seq<real>): real {
    if xs == [] then 0.0 else xs[0] + Sum(xs[1..])
  }

  function Mean(xs: seq<real>): real
    requires xs != []
  {
    Sum(xs) / |xs| as real
  }

  function Squares(xs: seq<real>): seq<real> {
    seq(|xs|, i requires 0 <= i < |xs| => xs[i] * xs[i])
  }

  /** x - m for every element. */
  function Deviations(xs: seq<real>, m: real): seq<real> {
    seq(|xs|, i requires 0 <= i < |xs| => xs[i] - m)
  }

  /** Population variance: the mean of Math.Pow(x - mean, 2) over the elements. */
  function PopVariance(xs: seq<real>): real
    requires xs != []
  {
    Mean(Squares(Deviations(xs, Mean(xs))))
  }

  /** Consecutive differences xs[i+1] - xs[i]. */
  function Diffs(xs: seq<real>): (ds: seq<real>)
    ensures |ds| == if xs == [] then 0 else |xs| - 1
  {
    if |xs| < 2 then [] else seq(|xs| - 1, i requires 0 <= i < |xs| - 1 => xs[i + 1] - xs[i])
  }

  /** Count(r => r > 0), as the real the dashboard divides by the number of returns. */
  function CountPositive(xs: seq<real>): real {
    if xs == [] then 0.0 else (if xs[0] > 0.0 then 1.0 else 0.0) + CountPositive(xs[1..])
  }

  lemma {:induction false} CountPositiveBounds(xs: seq<real>)
    ensures 0.0 <= CountPositive(xs) <= |xs| as real
  {
    if xs != [] {
      CountPositiveBounds(xs[1..]);
    }
  }

  function MaxOf(xs: seq<real>): (m: real)
    requires xs != []
    ensures forall i :: 0 <= i < |xs| ==> xs[i] <= m
    ensures exists i :: 0 <= i < |xs| && xs[i] == m
  {
    if |xs| == 1 then xs[0]
    else
      var rest := MaxOf(xs[1..]);
      assert forall i :: 1 <= i < |xs| ==> xs[i] == xs[1..][i - 1];
      if xs[0] < rest then rest else xs[0]
  }

  function MinOf(xs: seq<real>): (m: real)
    requires xs != []
    ensures forall i :: 0 <= i < |xs| ==> m <= xs[i]
    ensures exists i :: 0 <= i < |xs| && xs[i] == m
  {
    if |xs| == 1 then xs[0]
    else
      var rest := MinOf(xs[1..]);
      assert forall i :: 1 <= i < |xs| ==> xs[i] == xs[1..][i - 1];
      if rest < xs[0] then rest else xs[0]
  }

  // ---- facts about the aggregates ----

  lemma {:induction false} SumNonNegative(xs: seq<real>)
    requires forall i :: 0 <= i < |xs| ==> xs[i] >= 0.0
    ensures Sum(xs) >= 0.0
  {
    if xs != [] {
      SumNonNegative(xs[1..]);
    }
  }

  lemma {:induction false} SumPositive(xs: seq<real>)
    requires xs != [] && forall i :: 0 <= i < |xs| ==> xs[i] > 0.0
    ensures Sum(xs) > 0.0
  {
    SumNonNegative(xs[1..]);
  }

  lemma {:induction false} SumConstant(xs: seq<real>, c: real)
    requires forall i :: 0 <= i < |xs| ==> xs[i] == c
    ensures Sum(xs) == |xs| as real * c
  {
    if xs != [] {
      SumConstant(xs[1..], c);
    }
  }

  /** Sum is linear: pointwise xs + ys == c * zs carries over to the sums. */
  lemma {:induction false} SumPointwise(xs: seq<real>, ys: seq<real>, zs: seq<real>, c: real)
    requires |xs| == |ys| == |zs|
    requires forall i :: 0 <= i < |xs| ==> xs[i] + ys[i] == c * zs[i]
    ensures Sum(xs) + Sum(ys) == c * Sum(zs)
  {
    if xs != [] {
      SumPointwise(xs[1..], ys[1..], zs[1..], c);
    }
  }

  /** The consecutive differences of a sequence add up to its last element minus its first. */
  lemma {:induction false} Telescope(xs: seq<real>)
    requires xs != []
    ensures Sum(Diffs(xs)) == xs[|xs| - 1] - xs[0]
  {
    if |xs| >= 2 {
      var tail := xs[1..];
      assert Diffs(xs)[1..] == Diffs(tail);
      Telescope(tail);
    }
  }

  lemma MeanOfConstant(xs: seq<real>, c: real)
    requires xs != [] && forall i :: 0 <= i < |xs| ==> xs[i] == c
    ensures Mean(xs) == c
  {
    SumConstant(xs, c);
  }

  lemma PopVarianceNonNegative(xs: seq<real>)
    requires xs != []
    ensures PopVariance(xs) >= 0.0
  {
    SumSquaresNonNegative(Deviations(xs, Mean(xs)));
  }

  /** A constant sequence has zero spread. */
  lemma PopVarianceOfConstant(xs: seq<real>, c: real)
    requires xs != [] && forall i :: 0 <= i < |xs| ==> xs[i] == c
    ensures PopVariance(xs) == 0.0
  {
    MeanOfConstant(xs, c);
    SquaresOfZeros(Deviations(xs, c));
  }

  lemma SquaresOfZeros(xs: seq<real>)
    requires forall i :: 0 <= i < |xs| ==> xs[i] == 0.0
    ensures Sum(Squares(xs)) == 0.0
  {
    SumConstant(Squares(xs), 0.0);
  }

  lemma SumSquaresNonNegative(xs: seq<real>)
    ensures Sum(Squares(xs)) >= 0.0
  {
    SumNonNegative(Squares(xs));
  }

  lemma CountPositiveOfZeros(xs: seq<real>)
    requires forall i :: 0 <= i < |xs| ==> xs[i] == 0.0
    ensures CountPositive(xs) == 0.0
  {
    if xs != [] {
      CountPositiveOfZeros(xs[1..]);
    }
  }
}
