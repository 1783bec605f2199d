/** Running means and sums of squared deviations, over the real numbers (main/survey.cpp).

    The program never keeps the values, only their count, a mean and a sum, and corrects both with
    each new value. That this is exact is a fact about moving the centre of a sum of squares; the
    products in it have names of their own, so that each step of the proof is about one of them. */
module Statistics {
  import opened Common

  // ------------------------------------------------------------- means and deviations

  function Sum(xs: seq<real>): (s: real)
    decreases |xs|
  {
    if xs == [] then 0.0 else Sum(xs[..|xs| - 1]) + xs[|xs| - 1]
  }

  function Mean(xs: seq<real>): real
    requires xs != []
  {
    Sum(xs) / |xs| as real
  }

  function Square(x: real): real {
    x * x
  }

  /** The sum of squared deviations from `c`. */
  function Deviations(xs: seq<real>, c: real): (s: real)
    decreases |xs|
  {
    if xs == [] then 0.0
    else Deviations(xs[..|xs| - 1], c) + Square(xs[|xs| - 1] - c)
  }

  /** update_welford */
  function UpdateMean(value: real, count: nat, mean: real): real
    requires count > 0
  {
    mean + (value - mean) / count as real
  }

  function UpdateM2(value: real, count: nat, mean: real, m2: real): real
    requires count > 0
  {
    m2 + (value - mean) * (value - UpdateMean(value, count, mean))
  }

  /** The running pair is the mean of `xs` and the sum of squared deviations from it. */
  ghost predicate Exact(mean: real, m2: real, xs: seq<real>) {
    if xs == [] then mean == 0.0 && m2 == 0.0
    else mean == Mean(xs) && m2 == Deviations(xs, Mean(xs))
  }

  /** n * r; a function of its own so that a proof can treat the product as one term. */
  function Times(n: nat, r: real): real {
    n as real * r
  }

  /** Twice the product of a - c and r. */
  function Cross(a: real, c: real, r: real): real {
    2.0 * (a - c) * r
  }

  lemma CrossAdds(a: real, c: real, r: real, q: real)
    ensures Cross(a, c, r) + Cross(a, c, q) == Cross(a, c, r + q)
    ensures Cross(a, c, 0.0) == 0.0
  {
    var k := 2.0 * (a - c);
    assert k * r + k * q == k * (r + q);
  }

  lemma SquareShift(x: real, a: real, c: real)
    ensures Square(x - c) == Square(x - a) + Cross(a, c, x - a) + Square(a - c)
  {
    var p, q := x - a, a - c;
    assert x - c == p + q;
    assert (p + q) * (p + q) == p * p + 2.0 * q * p + q * q;
  }

  /** Deviations from another centre. */
  lemma {:induction false} Recentre(xs: seq<real>, a: real, c: real)
    ensures Deviations(xs, c) ==
      Deviations(xs, a) + Cross(a, c, Sum(xs) - Times(|xs|, a)) + Times(|xs|, Square(a - c))
    decreases |xs|
  {
    if xs == [] {
      CrossAdds(a, c, 0.0, 0.0);
      assert Times(0, a) == 0.0 && Times(0, Square(a - c)) == 0.0;
    } else {
      hide *;
      var n := |xs| - 1;
      var init, last := xs[..n], xs[n];
      LastTerm(xs, a);
      LastTerm(xs, c);
      Recentre(init, a, c);
      SquareShift(last, a, c);
      CrossAdds(a, c, Sum(init) - Times(n, a), last - a);
      OneMore(n, a);
      OneMore(n, Square(a - c));
      assert Sum(xs) - Times(|xs|, a) == (Sum(init) - Times(n, a)) + (last - a);
    }
  }

  lemma LastTerm(xs: seq<real>, c: real)
    requires xs != []
    ensures var init, last := xs[..|xs| - 1], xs[|xs| - 1];
      Sum(xs) == Sum(init) + last && Deviations(xs, c) == Deviations(init, c) + Square(last - c)
  {
  }

  lemma OneMore(n: nat, r: real)
    ensures Times(n + 1, r) == Times(n, r) + r
  {
  }

  lemma TotalIs(xs: seq<real>, mean: real, m2: real)
    requires Exact(mean, m2, xs)
    ensures Sum(xs) == Times(|xs|, mean)
  {
  }

  lemma MeanIs(xs: seq<real>, m: real)
    requires xs != [] && Sum(xs) == Times(|xs|, m)
    ensures Mean(xs) == m
  {
    hide Sum;
  }

  lemma MeanStep(n: nat, mean: real, x: real, e: real)
    requires x - mean == Times(n + 1, e)
    ensures Times(n + 1, mean + e) == Times(n, mean) + x
  {
    var r := n as real;
    assert (r + 1.0) * (mean + e) == r * mean + mean + (r + 1.0) * e;
  }

  /** Deviations from a point at distance `e` of the mean. */
  lemma FromTheMean(xs: seq<real>, mean: real, m2: real, e: real)
    requires Exact(mean, m2, xs)
    ensures Deviations(xs, mean + e) == m2 + Times(|xs|, Square(e))
  {
    if xs == [] {
      assert Times(0, Square(e)) == 0.0;
    } else {
      TotalIs(xs, mean, m2);
      hide *;
      Recentre(xs, mean, mean + e);
      DeviationsFromMean(xs, mean, m2);
      Even(e);
      CrossAdds(mean, mean + e, 0.0, 0.0);
      assert mean - (mean + e) == 0.0 - e;
    }
  }

  lemma DeviationsFromMean(xs: seq<real>, mean: real, m2: real)
    requires Exact(mean, m2, xs) && xs != []
    ensures Deviations(xs, mean) == m2
  {
    hide Mean, Deviations;
  }

  lemma Even(e: real)
    ensures Square(0.0 - e) == Square(e)
  {
  }

  lemma Append(xs: seq<real>, x: real, c: real)
    ensures Sum(xs + [x]) == Sum(xs) + x
    ensures Deviations(xs + [x], c) == Deviations(xs, c) + Square(x - c)
  {
    var ys := xs + [x];
    assert ys[..|ys| - 1] == xs && ys[|ys| - 1] == x;
  }

  /** What the sum of squared deviations grows by when the mean of `n` values moves by `e`. */
  function Growth(n: nat, e: real): real {
    Times(n, Square(e)) + Square(Times(n, e))
  }

  lemma Increments(x: real, n: nat, mean: real, m2: real) returns (e: real)
    ensures UpdateMean(x, n + 1, mean) == mean + e
    ensures x - (mean + e) == Times(n, e) && x - mean == Times(n + 1, e)
    ensures UpdateM2(x, n + 1, mean, m2) == m2 + Growth(n, e)
  {
    var d := n as real + 1.0;
    e := (x - mean) / d;
    assert x - mean == d * e;
    MomentStep(n as real, e);
  }

  lemma MomentStep(n: real, e: real)
    ensures n * Square(e) + Square(n * e) == (n + 1.0) * e * (n * e)
  {
    var q := e * e;
    assert Square(n * e) == n * n * q;
    assert (n + 1.0) * e * (n * e) == (n + 1.0) * n * q;
  }

  lemma NewMean(x: real, xs: seq<real>, mean: real, m2: real, e: real)
    requires Exact(mean, m2, xs)
    requires x - mean == Times(|xs| + 1, e)
    ensures Mean(xs + [x]) == mean + e
  {
    hide *;
    TotalIs(xs, mean, m2);
    Append(xs, x, mean + e);
    MeanStep(|xs|, mean, x, e);
    MeanIs(xs + [x], mean + e);
  }

  /** One more value. */
  lemma UpdateIsExact(x: real, xs: seq<real>, mean: real, m2: real)
    requires Exact(mean, m2, xs)
    ensures var n := |xs| + 1; Exact(UpdateMean(x, n, mean), UpdateM2(x, n, mean, m2), xs + [x])
  {
    hide UpdateMean, UpdateM2, Mean, Deviations, Times, Square, Sum;
    var e := Increments(x, |xs|, mean, m2);
    FromTheMean(xs, mean, m2, e);
    Append(xs, x, mean + e);
    NewMean(x, xs, mean, m2, e);
  }
}
