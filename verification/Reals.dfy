/** Small facts of real arithmetic with products, each proved once. */
module Reals {

  lemma MulNonNeg(a: real, b: real)
    requires a >= 0.0 && b >= 0.0
    ensures a * b >= 0.0
  {
  }

  lemma MulPositive(a: real, b: real)
    requires a > 0.0 && b > 0.0
    ensures a * b > 0.0
  {
  }

  lemma Distribute(a: real, b: real, c: real)
    ensures (a + b) * c == a * c + b * c
    ensures (a - b) * c == a * c - b * c
  {
  }

  lemma Regroup(a: real, b: real, c: real)
    ensures (a * b) * c == a * (b * c) == (a * c) * b
  {
  }

  lemma Cancel(n: real, x: real)
    requires n != 0.0
    ensures (1.0 / n) * (n * x) == x
    ensures n * (x / n) == x
    ensures n * x / n == x
  {
    assert (1.0 / n) * n == 1.0;
    Regroup(1.0 / n, n, x);
  }

  /** A weighted average stays between the bounds of its parts. */
  lemma Convex(w: real, a: real, b: real, lo: real, hi: real)
    requires 0.0 <= w <= 1.0 && lo <= a <= hi && lo <= b <= hi
    ensures lo <= w * a + (1.0 - w) * b <= hi
  {
    MulNonNeg(w, a - lo);
    MulNonNeg(1.0 - w, b - lo);
    MulNonNeg(w, hi - a);
    MulNonNeg(1.0 - w, hi - b);
  }

  lemma DivideBounds(n: real, lo: real, x: real, hi: real)
    requires n > 0.0 && n * lo <= x <= n * hi
    ensures lo <= (1.0 / n) * x <= hi
  {
    var r := 1.0 / n;
    MulNonNeg(r, x - n * lo);
    MulNonNeg(r, n * hi - x);
    Cancel(n, lo);
    Cancel(n, hi);
  }

  function Sum(xs: seq<real>): real {
    if xs == [] then 0.0 else Sum(xs[..|xs| - 1]) + xs[|xs| - 1]
  }

  lemma SumLast(xs: seq<real>)
    ensures Sum(xs) == if xs == [] then 0.0 else Sum(xs[..|xs| - 1]) + xs[|xs| - 1]
  {
  }

  lemma {:induction false} SumConcat(a: seq<real>, b: seq<real>)
    ensures Sum(a + b) == Sum(a) + Sum(b)
  {
    if b == [] {
      assert a + b == a;
    } else {
      SumConcat(a, b[..|b| - 1]);
      assert (a + b)[..|a + b| - 1] == a + b[..|b| - 1];
    }
  }
}
