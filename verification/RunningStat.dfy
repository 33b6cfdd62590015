/** Running mean and deviation without stored data, and the filter that rejects outliers. */
module RunningStat {
  import Reals

  // ---------- calculation ----------

  datatype Stat = Stat(M: real, S: real, MLast: real, SLast: real, n: nat, maxTrackable: int)

  function FromPriors(mean: real, dev: real, n: nat, maxTrackable: int): Stat {
    Stat(mean, dev, mean, dev, n, maxTrackable)
  }

  function NextMean(mean: real, x: real, n: nat): real
    requires n > 0
  {
    mean + (x - mean) / n as real
  }

  function NextDev(dev: real, before: real, after: real, x: real): real {
    dev + (x - before) * (x - after)
  }

  function Push(s: Stat, x: real): Stat {
    var n := if s.maxTrackable < 0 || s.n < s.maxTrackable then s.n + 1 else s.n;
    if n == 0 then s.(n := n, MLast := x, M := x, SLast := 0.0)
    else
      var m := NextMean(s.MLast, x, n);
      var dev := NextDev(s.SLast, s.MLast, m, x);
      s.(n := n, M := m, S := dev, MLast := m, SLast := dev)
  }

  function PushAll(s: Stat, xs: seq<real>): Stat {
    if xs == [] then s else Push(PushAll(s, xs[..|xs| - 1]), xs[|xs| - 1])
  }

  function Variance(s: Stat): real {
    if s.n >= 2 then s.S / (s.n as real - 1.0) else 0.0
  }

  /** Raw and filtered statistics; a sample reaches the second only if it does not widen the first. */
  datatype Filter = Filter(raw: Stat, filtered: Stat)

  function PushAndUpdate(f: Filter, x: real): Filter {
    var raw := Push(f.raw, x);
    Filter(raw, if Variance(raw) - Variance(f.raw) <= 0.0 then Push(f.filtered, x) else f.filtered)
  }

  // ---------- against the definitions ----------

  /** Sum of squared deviations from `m`. */
  function Dev(xs: seq<real>, m: real): real {
    if xs == [] then 0.0
    else Dev(xs[..|xs| - 1], m) + (xs[|xs| - 1] - m) * (xs[|xs| - 1] - m)
  }

  /** Sum of squares. */
  function Squares(xs: seq<real>): real {
    if xs == [] then 0.0 else Squares(xs[..|xs| - 1]) + xs[|xs| - 1] * xs[|xs| - 1]
  }

  /** The squared deviations by moments. */
  lemma {:induction false} DevByMoments(xs: seq<real>, m: real)
    ensures Dev(xs, m) == Squares(xs) - 2.0 * (m * Reals.Sum(xs)) + |xs| as real * (m * m)
  {
    hide Dev, Reals.Sum, Squares;
    Unfold(xs, m);
    if xs == [] {
      assert |xs| as real == 0.0;
    } else {
      var before, x := xs[..|xs| - 1], xs[|xs| - 1];
      DevByMoments(before, m);
      MomentsStep(Dev(before, m), Squares(before), Reals.Sum(before), |before| as real, m, x);
      SameFactor(|before| as real + 1.0, |xs| as real, m * m);
    }
  }

  lemma Unfold(xs: seq<real>, m: real)
    ensures xs == [] ==> Dev(xs, m) == Squares(xs) == Reals.Sum(xs) == 0.0
    ensures xs != [] ==>
              var before, x := xs[..|xs| - 1], xs[|xs| - 1];
              && Dev(xs, m) == Dev(before, m) + (x - m) * (x - m)
              && Squares(xs) == Squares(before) + x * x
              && Reals.Sum(xs) == Reals.Sum(before) + x
  {
  }

  lemma MomentsStep(dev: real, q: real, sum: real, k: real, m: real, x: real)
    requires dev == q - 2.0 * (m * sum) + k * (m * m)
    ensures dev + (x - m) * (x - m) == (q + x * x) - 2.0 * (m * (sum + x)) + (k + 1.0) * (m * m)
  {
    Reals.Distribute(k, 1.0, m * m);
    Reals.Distribute(sum, x, m);
    Reals.Distribute(x, m, x - m);
  }

  lemma SameFactor(a: real, b: real, c: real)
    requires a == b
    ensures a * c == b * c
    ensures a != 0.0 ==> c / a == c / b
  {
  }

  /** The state agrees with a sum and a sum of squares, on top of an initial deviation. */
  ghost predicate Exact(s: Stat, dev0: real, sum: real, q: real) {
    && s.MLast == s.M && s.SLast == s.S
    && s.n as real * s.M == sum
    && s.S == dev0 + q - s.M * sum
  }

  /** One update of the mean, written without division. */
  lemma MeanMoves(n: real, m: real, x: real)
    requires n >= 0.0
    ensures var e := (x - m) / (n + 1.0);
            && x - m == (n + 1.0) * e && x - (m + e) == n * e
            && (n + 1.0) * (m + e) == n * m + x
  {
    var e := (x - m) / (n + 1.0);
    Reals.Cancel(n + 1.0, x - m);
    Reals.Distribute(n, 1.0, e);
    Reals.Distribute(n, 1.0, m);
    assert (n + 1.0) * (m + e) == (n + 1.0) * m + (n + 1.0) * e;
  }

  /** The one cross term that has to cancel for the update of S to be exact. */
  lemma CrossTerm(n: real, m: real, x: real, m': real, sum: real)
    requires n * m == sum && (n + 1.0) * m' == sum + x
    ensures m' * (m + sum) == m * (sum + x)
  {
    Reals.Regroup(m, n + 1.0, m');
    Reals.Distribute(n, 1.0, m);
    assert m * (n + 1.0) == sum + m;
  }

  lemma DeviationStep(s0: real, dev0: real, n: real, m: real, x: real, m': real, sum: real, q: real)
    requires n * m == sum && (n + 1.0) * m' == sum + x && s0 == dev0 + q - m * sum
    ensures s0 + (x - m) * (x - m') == dev0 + (q + x * x) - m' * (sum + x)
  {
    CrossTerm(n, m, x, m', sum);
    Reals.Distribute(x, m, x - m');
    assert x * (x - m') == x * x - x * m';
    assert m * (x - m') == m * x - m * m';
    assert m' * (m + sum) == m' * m + m' * sum;
    assert m * (sum + x) == m * sum + m * x;
    assert m' * (sum + x) == m' * sum + m' * x;
  }

  lemma ExactStep(s: Stat, dev0: real, sum: real, q: real, x: real)
    requires Exact(s, dev0, sum, q) && s.maxTrackable < 0
    ensures Exact(Push(s, x), dev0, sum + x, q + x * x)
    ensures Push(s, x).maxTrackable == s.maxTrackable && Push(s, x).n == s.n + 1
  {
    var n := s.n as real;
    assert (s.n + 1) as real == n + 1.0;
    MeanMoves(n, s.M, x);
    DeviationStep(s.S, dev0, n, s.M, x, s.M + (x - s.M) / (n + 1.0), sum, q);
  }

  lemma {:induction false} PushAllTracks(s: Stat, dev0: real, sum: real, q: real, xs: seq<real>)
    requires s.maxTrackable < 0 && Exact(s, dev0, sum, q)
    ensures var t := PushAll(s, xs);
            Exact(t, dev0, sum + Reals.Sum(xs), q + Squares(xs)) && t.maxTrackable == s.maxTrackable && t.n == s.n + |xs|
  {
    hide Push, Exact;
    if xs != [] {
      var before, x := xs[..|xs| - 1], xs[|xs| - 1];
      PushAllTracks(s, dev0, sum, q, before);
      ExactStep(PushAll(s, before), dev0, sum + Reals.Sum(before), q + Squares(before), x);
      assert sum + Reals.Sum(before) + x == sum + Reals.Sum(xs);
      assert q + Squares(before) + x * x == q + Squares(xs);
    }
  }

  /**
    The weighted mean of prior and data, and the prior's S plus the squared deviations of the
    prior mean (n0 times) and of the data from it.
   */
  ghost predicate ExactOnPrior(s: Stat, mean0: real, dev0: real, n0: nat, xs: seq<real>) {
    && s.n == n0 + |xs|
    && s.n as real * s.M == n0 as real * mean0 + Reals.Sum(xs)
    && s.S == dev0 + n0 as real * ((mean0 - s.M) * (mean0 - s.M)) + Dev(xs, s.M)
  }

  /** With unlimited tracking the streaming state is the exact weighted mean and deviation. */
  lemma PushAllExact(mean0: real, dev0: real, n0: nat, maxTrackable: int, xs: seq<real>)
    requires maxTrackable < 0
    ensures ExactOnPrior(PushAll(FromPriors(mean0, dev0, n0, maxTrackable), xs), mean0, dev0, n0, xs)
  {
    hide Push, PushAll, Dev, Reals.Sum, Squares;
    var s, n := FromPriors(mean0, dev0, n0, maxTrackable), n0 as real;
    Reals.Regroup(n, mean0, mean0);
    Reals.Regroup(mean0, n, mean0);
    PushAllTracks(s, dev0, n * mean0, n * (mean0 * mean0), xs);
    var t := PushAll(s, xs);
    DevByMoments(xs, t.M);
    SameFactor(t.n as real, n + |xs| as real, t.M);
    ByMoments(t.S, dev0, n, mean0, |xs| as real, Reals.Sum(xs), Squares(xs), Dev(xs, t.M), t.M);
  }

  lemma ByMoments(s: real, dev0: real, n0: real, mean0: real, k: real, sum: real, q: real, dev: real, m: real)
    requires (n0 + k) * m == n0 * mean0 + sum
    requires s == dev0 + (n0 * (mean0 * mean0) + q) - m * (n0 * mean0 + sum)
    requires dev == q - 2.0 * (m * sum) + k * (m * m)
    ensures s == dev0 + n0 * ((mean0 - m) * (mean0 - m)) + dev
  {
    var d, p, r := n0 * (mean0 * mean0), m * (n0 * mean0), m * sum;
    assert m * (n0 * mean0 + sum) == p + r;
    // the spread of the prior around m
    assert n0 * ((mean0 - m) * (mean0 - m)) == d - 2.0 * p + n0 * (m * m) by {
      PriorSpread(n0, mean0, m);
    }
    // (n0 + k) m^2 == m (n0 mean0 + sum)
    Reals.Regroup(n0 + k, m, m);
    Reals.Distribute(n0, k, m * m);
  }

  lemma PriorSpread(n0: real, mean0: real, m: real)
    ensures n0 * ((mean0 - m) * (mean0 - m)) == n0 * (mean0 * mean0) - 2.0 * (m * (n0 * mean0)) + n0 * (m * m)
  {
    assert (mean0 - m) * (mean0 - m) == mean0 * mean0 - 2.0 * (m * mean0) + m * m;
    Reals.Regroup(n0, mean0, m);
  }

  // ---------- with a tracking cap ----------

  ghost predicate Settled(s: Stat) {
    s.MLast == s.M && (s.SLast == s.S || (s.n == 0 && s.maxTrackable == 0))
  }

  lemma PushMonotone(s: Stat, x: real, lo: real, hi: real)
    requires Settled(s)
    requires lo <= s.M <= hi && lo <= x <= hi
    ensures var t := Push(s, x);
            Settled(t) && t.S >= s.S && lo <= t.M <= hi
  {
    hide NextMean, NextDev;
    var t := Push(s, x);
    if t.n >= 1 {
      NextBetween(s.S, s.M, x, t.n, lo, hi);
    }
  }

  lemma NextBetween(dev: real, mean: real, x: real, n: nat, lo: real, hi: real)
    requires n >= 1 && lo <= mean <= hi && lo <= x <= hi
    ensures var m := NextMean(mean, x, n);
            lo <= m <= hi && NextDev(dev, mean, m, x) >= dev
  {
    WeightedStep(n as real, mean, x, lo, hi);
  }

  lemma WeightedStep(k: real, m: real, x: real, lo: real, hi: real)
    requires k >= 1.0 && lo <= m <= hi && lo <= x <= hi
    ensures var t := m + (x - m) / k;
            lo <= t <= hi && (x - m) * (x - t) >= 0.0
  {
    var e := (x - m) / k;
    Reals.Cancel(k, x - m);
    Reals.Distribute(k, 1.0, e);
    // x - m == k * e and x - t == (k - 1) * e
    if e >= 0.0 {
      Reals.MulNonNeg(k - 1.0, e);
      Reals.MulNonNeg(k * e, (k - 1.0) * e);
    } else {
      Reals.MulNonNeg(k - 1.0, -e);
      Reals.MulNonNeg(-(k * e), -((k - 1.0) * e));
    }
  }

  /** Whatever the cap, the deviation never decreases and the mean stays between prior and data. */
  lemma {:induction false} PushAllMonotone(s: Stat, xs: seq<real>, lo: real, hi: real)
    requires Settled(s) && lo <= s.M <= hi && forall i :: 0 <= i < |xs| ==> lo <= xs[i] <= hi
    ensures var t := PushAll(s, xs);
            Settled(t) && t.S >= s.S && lo <= t.M <= hi
  {
    if xs != [] {
      PushAllMonotone(s, xs[..|xs| - 1], lo, hi);
      PushMonotone(PushAll(s, xs[..|xs| - 1]), xs[|xs| - 1], lo, hi);
    }
  }

  /** Where not even one sample may be tracked, the mean is the last sample and the deviation stays. */
  lemma {:induction false} NoRoomFollowsLast(s: Stat, xs: seq<real>)
    requires s.maxTrackable == 0 && s.n == 0 && xs != []
    ensures var x := xs[|xs| - 1];
            PushAll(s, xs) == Stat(x, s.S, x, 0.0, 0, 0)
  {
    if |xs| > 1 {
      NoRoomFollowsLast(s, xs[..|xs| - 1]);
    }
  }

  // ---------- the filter ----------

  /**
    Is the sample's squared distance from the raw mean at most (n+1)/n times the raw variance?
    The first sample always is; with one sample so far the variance is not defined yet, and the
    sample must not add to twice the deviation.
   */
  ghost predicate Takes(s: Stat, x: real) {
    var n, d := s.n as real, x - s.M;
    if s.n == 1 then 2.0 * s.S + d * d <= 0.0 else n * (d * d) <= (n + 1.0) * Variance(s)
  }

  /** The filtered statistics get exactly the samples that the raw ones take. */
  lemma FilterTakesIff(f: Filter, x: real)
    requires Settled(f.raw) && f.raw.maxTrackable < 0
    ensures var g := PushAndUpdate(f, x);
            && g.raw == Push(f.raw, x)
            && g.filtered == if Takes(f.raw, x) then Push(f.filtered, x) else f.filtered
  {
    hide Push, Variance, PushAndUpdate, Takes;
    VarianceOrder(f.raw, x);
    UpdateCases(f, x);
  }

  lemma VarianceOrder(s: Stat, x: real)
    requires s.MLast == s.M && s.SLast == s.S && s.maxTrackable < 0
    ensures Variance(Push(s, x)) <= Variance(s) <==> Takes(s, x)
  {
    hide Push, Variance;
    var n, d := s.n as real, x - s.M;
    if s.n == 0 {
      FirstVariance(s, x);
    } else if s.n == 1 {
      SecondVariance(s, x);
    } else {
      var e := d / (n + 1.0);
      Reals.Cancel(n + 1.0, d);
      VarianceAfter(s, x, n, d, e);
      VarianceGrows(n, s.S, d, e, Variance(s), Variance(Push(s, x)));
    }
  }

  lemma FirstVariance(s: Stat, x: real)
    requires s.n == 0 && s.maxTrackable < 0
    ensures Variance(Push(s, x)) == Variance(s) == 0.0
  {
  }

  lemma SecondVariance(s: Stat, x: real)
    requires s.n == 1 && s.maxTrackable < 0 && s.MLast == s.M && s.SLast == s.S
    ensures var d := x - s.M;
            Variance(s) == 0.0 && 2.0 * Variance(Push(s, x)) == 2.0 * s.S + d * d
  {
    var d, t := x - s.M, Push(s, x);
    assert t.M == s.M + d / 2.0;
    DevIs(s.S, s.M, t.M, x, d, d / 2.0);
    assert d * (d / 2.0) == (d * d) / 2.0;
    assert t.n as real - 1.0 == 1.0;
  }

  lemma UpdateCases(f: Filter, x: real)
    ensures var g := PushAndUpdate(f, x);
            && g.raw == Push(f.raw, x)
            && g.filtered == if Variance(Push(f.raw, x)) <= Variance(f.raw) then Push(f.filtered, x) else f.filtered
  {
    hide Push, Variance;
  }

  lemma VarianceAfter(s: Stat, x: real, n: real, d: real, e: real)
    requires s.MLast == s.M && s.SLast == s.S && s.maxTrackable < 0 && s.n >= 2
    requires n == s.n as real && d == x - s.M && e == d / (n + 1.0)
    ensures Variance(s) == s.S / (n - 1.0) && Variance(Push(s, x)) == (s.S + d * (n * e)) / n
  {
    assert (s.n + 1) as real == n + 1.0;
    MeanMoves(n, s.M, x);
    var t := Push(s, x);
    assert t.S == s.S + d * (n * e) by {
      DevIs(s.S, s.M, t.M, x, d, n * e);
    }
    SameFactor(t.n as real - 1.0, n, t.S);
  }

  lemma DevIs(dev: real, before: real, after: real, x: real, d: real, r: real)
    requires d == x - before && r == x - after
    ensures NextDev(dev, before, after, x) == dev + d * r
  {
  }

  lemma VarianceGrows(n: real, dev: real, d: real, e: real, v: real, u: real)
    requires n >= 2.0 && d == (n + 1.0) * e && v == dev / (n - 1.0) && u == (dev + d * (n * e)) / n
    ensures u <= v <==> n * (d * d) <= (n + 1.0) * v
  {
    var z := d * (n * e);
    Reals.Cancel(n - 1.0, dev);
    Reals.Cancel(n, dev + z);
    Reals.Distribute(n, 1.0, v);
    // n * u <= n * v iff z <= v, since n * v - dev == v
    SameOrder(n, u, v);
    // (n + 1) * z == n * (d * d)
    SquareOfStep(n, d, e);
    SameOrder(n + 1.0, z, v);
  }

  lemma SquareOfStep(n: real, d: real, e: real)
    requires d == (n + 1.0) * e
    ensures (n + 1.0) * (d * (n * e)) == n * (d * d)
  {
    Reals.Regroup(d, n, e);
    Reals.Regroup(n, d, d);
    Reals.Regroup(d, n + 1.0, e);
    Reals.Regroup(n + 1.0, d * n, e);
  }

  lemma SameOrder(n: real, a: real, b: real)
    requires n > 0.0
    ensures n * a <= n * b <==> a <= b
  {
    if a <= b {
      Reals.MulNonNeg(n, b - a);
    } else {
      Reals.MulPositive(n, a - b);
    }
  }

  // ---------- the objects ----------

  class RunningStat {
    var M: real
    var S: real
    var MLast: real
    var SLast: real
    var n: nat
    const maxTrackable: int

    ghost function View(): Stat
      reads this
    {
      Stat(M, S, MLast, SLast, n, maxTrackable)
    }

    constructor (mean: real, dev: real, n: nat, maxTrackable: int)
      ensures View() == FromPriors(mean, dev, n, maxTrackable)
    {
      M, S, MLast, SLast, this.n, this.maxTrackable := mean, dev, mean, dev, n, maxTrackable;
    }

    method Reset()
      modifies this
      ensures View() == FromPriors(0.0, 0.0, 0, maxTrackable)
    {
      M, S, MLast, SLast, n := 0.0, 0.0, 0.0, 0.0, 0;
    }

    method PushData(x: real)
      modifies this
      ensures View() == Push(old(View()), x)
    {
      hide NextMean, NextDev;
      if maxTrackable < 0 || n < maxTrackable {
        n := n + 1;
      }
      if n == 0 {
        MLast := x;
        M := MLast;
        SLast := 0.0;
      } else {
        M := NextMean(MLast, x, n);
        S := NextDev(SLast, MLast, M, x);
        MLast := M;
        SLast := S;
      }
    }

    method GetVariance() returns (v: real)
      ensures v == Variance(View())
    {
      if n >= 2 {
        v := S / (n as real - 1.0);
      } else {
        v := 0.0;
      }
    }
  }

  class RunningStatFilter {
    const raw: RunningStat
    const filtered: RunningStat

    ghost predicate Valid()
      reads raw
    {
      raw != filtered && raw.maxTrackable == -1
    }

    ghost function View(): Filter
      reads raw, filtered
    {
      Filter(raw.View(), filtered.View())
    }

    /** Only the filtered statistic may be capped. */
    constructor (rawMean: real, rawDev: real, rawN: nat, mean: real, dev: real, n: nat, maxTrackable: int)
      ensures Valid() && fresh(raw) && fresh(filtered)
      ensures View() == Filter(FromPriors(rawMean, rawDev, rawN, -1), FromPriors(mean, dev, n, maxTrackable))
    {
      raw := new RunningStat(rawMean, rawDev, rawN, -1);
      filtered := new RunningStat(mean, dev, n, maxTrackable);
    }

    method Update(x: real)
      requires Valid()
      modifies raw, filtered
      ensures Valid() && View() == PushAndUpdate(old(View()), x)
    {
      hide Push;
      var last := raw.GetVariance();
      raw.PushData(x);
      var now := raw.GetVariance();
      if now - last <= 0.0 {
        filtered.PushData(x);
      }
    }
  }
}
