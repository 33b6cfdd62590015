/** Averages over a ring of blocks of samples, of which only the block means are stored. */
module BlockAverage {
  import Multiples
  import opened Wrappers
  import Reals
  import opened Sequences

  // ---------- calculation ----------

  datatype Blocks = Blocks(values: seq<real>, idx: nat, blockIdx: nat, validBlocks: nat)

  function Start(numBlocks: nat, validBlocks: nat, initialValue: real): Blocks
    requires numBlocks >= 1
  {
    Blocks(seq(numBlocks, _ => initialValue), 0, validBlocks % numBlocks, validBlocks)
  }

  function RunningMean(v: real, n: real, x: real): real
    requires n >= 0.0
  {
    (n * v + x) / (n + 1.0)
  }

  function Updated(s: Blocks, blockSize: nat, x: real): Blocks
    requires s.blockIdx < |s.values| && blockSize >= 1
  {
    var v := RunningMean(s.values[s.blockIdx], s.idx as real, x);
    var t := s.(values := s.values[s.blockIdx := v], idx := (s.idx + 1) % blockSize);
    if t.idx != 0 then t
    else t.(blockIdx := (s.blockIdx + 1) % |s.values|,
            validBlocks := if s.validBlocks + 1 < |s.values| then s.validBlocks + 1 else |s.values|)
  }

  /** The indices below `n` other than `skip`. */
  function ValidIdxs(n: nat, skip: nat): (r: seq<nat>)
    ensures forall k :: 0 <= k < |r| ==> r[k] < n && r[k] != skip
  {
    if n == 0 then [] else ValidIdxs(n - 1, skip) + if n - 1 == skip then [] else [n - 1]
  }

  function Select(values: seq<real>, idxs: seq<nat>): seq<real>
    requires forall k :: 0 <= k < |idxs| ==> idxs[k] < |values|
  {
    seq(|idxs|, k requires 0 <= k < |idxs| => values[idxs[k]])
  }

  function Mean(xs: seq<real>): Option<real> {
    if xs == [] then None else Some(Reals.Sum(xs) / |xs| as real)
  }

  /** The values of the completed blocks in the window. */
  function ValidValues(s: Blocks): seq<real>
    requires s.validBlocks <= |s.values|
  {
    Select(s.values, ValidIdxs(s.validBlocks, s.blockIdx))
  }

  function CurrentValues(s: Blocks): seq<real>
    requires s.validBlocks <= |s.values| && s.blockIdx < |s.values|
  {
    ValidValues(s) + if s.idx > 0 then [s.values[s.blockIdx]] else []
  }

  // ---------- the samples behind the means ----------

  /** The samples of every completed block and of the current one. */
  datatype Samples = Samples(blocks: seq<seq<real>>, current: seq<real>)

  function Sampled(h: Samples, blockSize: nat, x: real): Samples {
    var current := h.current + [x];
    if |current| == blockSize then Samples(h.blocks + [current], []) else h.(current := current)
  }

  ghost predicate IsMean(v: real, xs: seq<real>) {
    v * |xs| as real == Reals.Sum(xs)
  }

  /** Where the ring keeps block `b`. */
  ghost predicate RingHolds(values: seq<real>, blockIdx: nat, blocks: seq<seq<real>>)
    requires blockIdx < |values| && blockIdx <= |blocks|
  {
    && (forall i :: 0 <= i < blockIdx ==> IsMean(values[i], blocks[|blocks| - blockIdx + i]))
    && (|blocks| >= |values| ==>
          forall i :: blockIdx < i < |values| ==> IsMean(values[i], blocks[|blocks| - blockIdx + i - |values|]))
  }

  ghost predicate Counts(s: Blocks, blockSize: nat, h: Samples) {
    && |s.values| >= 1 && blockSize >= 1
    && s.blockIdx == |h.blocks| % |s.values|
    && s.validBlocks == (if |h.blocks| < |s.values| then |h.blocks| else |s.values|)
    && s.idx == |h.current| < blockSize
    && forall b :: 0 <= b < |h.blocks| ==> |h.blocks[b]| == blockSize
  }

  ghost predicate Inv(s: Blocks, blockSize: nat, h: Samples) {
    && Counts(s, blockSize, h)
    && RingHolds(s.values, s.blockIdx, h.blocks)
    && (s.idx > 0 ==> IsMean(s.values[s.blockIdx], h.current))
  }

  /** The running mean of one more sample. */
  lemma MeanStep(v: real, n: real, xs: seq<real>, x: real)
    requires xs != [] ==> IsMean(v, xs)
    requires n == |xs| as real
    ensures IsMean(RunningMean(v, n, x), xs + [x])
  {
    assert Reals.Sum(xs + [x]) == Reals.Sum(xs) + x by {
      assert (xs + [x])[..|xs|] == xs;
    }
    assert |xs + [x]| as real == n + 1.0;
    Reals.Cancel(n + 1.0, n * v + x);
  }

  /** A completed block takes its place in the ring, and the next position becomes current. */
  lemma RingAdvances(values: seq<real>, blockIdx: nat, blocks: seq<seq<real>>, v: real, block: seq<real>)
    requires blockIdx < |values| && blockIdx <= |blocks| && RingHolds(values, blockIdx, blocks)
    requires |blocks| < |values| ==> blockIdx == |blocks|
    requires IsMean(v, block)
    ensures RingHolds(values[blockIdx := v], if blockIdx + 1 == |values| then 0 else blockIdx + 1, blocks + [block])
  {
  }

  lemma UpdateInv(s: Blocks, blockSize: nat, h: Samples, x: real)
    requires Inv(s, blockSize, h)
    ensures Inv(Updated(s, blockSize, x), blockSize, Sampled(h, blockSize, x))
  {
    hide RunningMean;
    var v := RunningMean(s.values[s.blockIdx], s.idx as real, x);
    MeanStep(s.values[s.blockIdx], s.idx as real, h.current, x);
    UpdatedIs(s, blockSize, x, v);
    Advance(s, blockSize, h, h.current + [x], v);
  }

  /** The update with its counters written without remainders. */
  lemma UpdatedIs(s: Blocks, blockSize: nat, x: real, v: real)
    requires s.blockIdx < |s.values| && s.idx < blockSize
    requires v == RunningMean(s.values[s.blockIdx], s.idx as real, x)
    ensures Updated(s, blockSize, x) == Advanced(s, blockSize, v)
  {
    hide RunningMean;
    Multiples.NextRemainder(s.idx, blockSize);
    Multiples.Remainder(s.idx, blockSize, 0, s.idx);
    Multiples.NextRemainder(s.blockIdx, |s.values|);
    Multiples.Remainder(s.blockIdx, |s.values|, 0, s.blockIdx);
  }

  ghost function Advanced(s: Blocks, blockSize: nat, v: real): Blocks
    requires s.blockIdx < |s.values|
  {
    var values := s.values[s.blockIdx := v];
    if s.idx + 1 < blockSize then s.(values := values, idx := s.idx + 1)
    else Blocks(values, 0, if s.blockIdx + 1 == |values| then 0 else s.blockIdx + 1,
                if s.validBlocks + 1 < |values| then s.validBlocks + 1 else |values|)
  }

  lemma Advance(s: Blocks, blockSize: nat, h: Samples, current: seq<real>, v: real)
    requires Inv(s, blockSize, h) && |current| == |h.current| + 1 && IsMean(v, current)
    ensures Inv(Advanced(s, blockSize, v), blockSize,
                if |current| == blockSize then Samples(h.blocks + [current], []) else h.(current := current))
  {
    hide IsMean;
    RingPosition(|h.blocks|, |s.values|);
    if |current| == blockSize {
      Multiples.NextRemainder(|h.blocks|, |s.values|);
      RingAdvances(s.values, s.blockIdx, h.blocks, v, current);
    }
  }

  lemma RingPosition(b: nat, n: nat)
    requires n >= 1
    ensures b % n <= b && b % n < n && (b < n ==> b % n == b)
  {
    Multiples.Quotient(b, n);
    assert b == n * (b / n) + b % n;
    if b < n {
      Multiples.Remainder(b, n, 0, b);
    }
  }

  // ---------- from start-up ----------

  lemma {:induction false} SumOfEqual(n: nat, v: real)
    ensures IsMean(v, seq(n, _ => v))
  {
    var xs := seq(n, _ => v);
    if n > 0 {
      SumOfEqual(n - 1, v);
      assert xs[..n - 1] == seq(n - 1, _ => v);
      var k := (n - 1) as real;
      assert n as real == k + 1.0;
      assert v * (k + 1.0) == v * k + v;
    }
  }

  /** Restored blocks count like so many samples of the initial value. */
  ghost function Restored(validBlocks: nat, blockSize: nat, initialValue: real): Samples {
    Samples(seq(validBlocks, _ => seq(blockSize, _ => initialValue)), [])
  }

  lemma StartInv(numBlocks: nat, blockSize: nat, validBlocks: nat, initialValue: real)
    requires numBlocks >= 1 && blockSize >= 1 && validBlocks <= numBlocks
    ensures Inv(Start(numBlocks, validBlocks, initialValue), blockSize, Restored(validBlocks, blockSize, initialValue))
  {
    hide IsMean;
    RingPosition(validBlocks, numBlocks);
    SumOfEqual(blockSize, initialValue);
  }

  function UpdatedAll(s: Blocks, blockSize: nat, xs: seq<real>): (r: Blocks)
    requires s.blockIdx < |s.values| && blockSize >= 1
    ensures r.blockIdx < |r.values| == |s.values|
  {
    if xs == [] then s else Updated(UpdatedAll(s, blockSize, xs[..|xs| - 1]), blockSize, xs[|xs| - 1])
  }

  function SampledAll(h: Samples, blockSize: nat, xs: seq<real>): Samples {
    if xs == [] then h else Sampled(SampledAll(h, blockSize, xs[..|xs| - 1]), blockSize, xs[|xs| - 1])
  }

  lemma {:induction false} RunInv(s: Blocks, blockSize: nat, h: Samples, xs: seq<real>)
    requires Inv(s, blockSize, h)
    ensures Inv(UpdatedAll(s, blockSize, xs), blockSize, SampledAll(h, blockSize, xs))
  {
    hide RingHolds, IsMean, Updated, Sampled;
    if xs != [] {
      var before, x := xs[..|xs| - 1], xs[|xs| - 1];
      RunInv(s, blockSize, h, before);
      UpdateInv(UpdatedAll(s, blockSize, before), blockSize, SampledAll(h, blockSize, before), x);
    }
  }

  /** The blocks and the current samples are exactly the samples given, cut up in order. */
  lemma {:induction false} SamplesAreCutUp(h: Samples, blockSize: nat, xs: seq<real>)
    ensures var g := SampledAll(h, blockSize, xs);
            Flatten(g.blocks) + g.current == Flatten(h.blocks) + h.current + xs
  {
    if xs != [] {
      var before, x := xs[..|xs| - 1], xs[|xs| - 1];
      SamplesAreCutUp(h, blockSize, before);
      var g := SampledAll(h, blockSize, before);
      var current := g.current + [x];
      FlattenSnoc(g.blocks, current);
      assert Flatten(h.blocks) + h.current + xs == Flatten(h.blocks) + h.current + before + [x];
      assert Flatten(g.blocks) + current == Flatten(g.blocks) + g.current + [x];
    } else {
      assert Flatten(h.blocks) + h.current + xs == Flatten(h.blocks) + h.current;
    }
  }

  // ---------- what the averages are ----------

  lemma {:induction false} ValidIdxsAt(n: nat, skip: nat)
    ensures var r := ValidIdxs(n, skip);
            && |r| == (if skip < n then n - 1 else n)
            && forall k :: 0 <= k < |r| ==> r[k] == if k < skip then k else k + 1
  {
    if n > 0 {
      ValidIdxsAt(n - 1, skip);
    }
  }

  /** How many blocks the valid average covers. */
  function WindowSize(s: Blocks): nat
    requires s.values != []
  {
    if s.validBlocks < |s.values| then s.validBlocks else |s.values| - 1
  }

  ghost predicate AreMeans(vs: seq<real>, blocks: seq<seq<real>>) {
    |vs| == |blocks| && forall k :: 0 <= k < |vs| ==> IsMean(vs[k], blocks[k])
  }

  /** The valid values are the means of the most recent completed blocks, in ring order. */
  lemma ValidValuesAreWindow(s: Blocks, blockSize: nat, h: Samples) returns (p: nat)
    requires Inv(s, blockSize, h)
    ensures WindowSize(s) <= |h.blocks| && p <= WindowSize(s)
    ensures var window := h.blocks[|h.blocks| - WindowSize(s)..];
            AreMeans(ValidValues(s), window[p..] + window[..p])
  {
    hide IsMean;
    RingPosition(|h.blocks|, |s.values|);
    ValidIdxsAt(s.validBlocks, s.blockIdx);
    p := if |h.blocks| < |s.values| then 0 else |s.values| - 1 - s.blockIdx;
  }

  lemma {:induction false} SumOfMeans(vs: seq<real>, blocks: seq<seq<real>>, blockSize: nat)
    requires AreMeans(vs, blocks) && forall b :: 0 <= b < |blocks| ==> |blocks[b]| == blockSize
    ensures Reals.Sum(vs) * blockSize as real == Reals.Sum(Flatten(blocks))
  {
    hide IsMean, Reals.Sum;
    Reals.SumLast(vs);
    Reals.SumLast([]);
    if vs != [] {
      var n := |vs| - 1;
      SumOfMeans(vs[..n], blocks[..n], blockSize);
      FlattenLast(blocks);
      Reals.SumConcat(Flatten(blocks[..n]), blocks[n]);
      MeanTimesSize(vs[n], blocks[n], blockSize, Reals.Sum(vs[..n]));
    }
  }

  lemma MeanTimesSize(v: real, block: seq<real>, blockSize: nat, sum: real)
    requires IsMean(v, block) && |block| == blockSize
    ensures (sum + v) * blockSize as real == sum * blockSize as real + Reals.Sum(block)
  {
    hide Reals.Sum;
    Reals.Distribute(sum, v, blockSize as real);
  }

  lemma {:induction false} FlattenLength(blocks: seq<seq<real>>, blockSize: nat)
    requires forall b :: 0 <= b < |blocks| ==> |blocks[b]| == blockSize
    ensures |Flatten(blocks)| == |blocks| * blockSize
  {
    if blocks != [] {
      var n := |blocks| - 1;
      FlattenLast(blocks);
      FlattenLength(blocks[..n], blockSize);
      assert (n + 1) * blockSize == n * blockSize + blockSize;
    }
  }

  /** The samples of the blocks the valid average covers. */
  ghost function WindowSamples(s: Blocks, h: Samples): seq<real>
    requires s.values != [] && WindowSize(s) <= |h.blocks|
  {
    Flatten(h.blocks[|h.blocks| - WindowSize(s)..])
  }

  /** The sum behind the valid average, whatever the rotation of the ring. */
  lemma ValidSum(s: Blocks, blockSize: nat, h: Samples)
    requires Inv(s, blockSize, h)
    ensures WindowSize(s) <= |h.blocks| && |ValidValues(s)| == WindowSize(s)
    ensures |WindowSamples(s, h)| == WindowSize(s) * blockSize
    ensures Reals.Sum(ValidValues(s)) * blockSize as real == Reals.Sum(WindowSamples(s, h))
  {
    hide IsMean, RingHolds, Reals.Sum, ValidValues, Flatten, AreMeans;
    var p := ValidValuesAreWindow(s, blockSize, h);
    var window := h.blocks[|h.blocks| - WindowSize(s)..];
    RotatedSum(ValidValues(s), window, p, blockSize);
  }

  lemma RotatedSum(vs: seq<real>, window: seq<seq<real>>, p: nat, blockSize: nat)
    requires p <= |window| && AreMeans(vs, window[p..] + window[..p])
    requires forall b :: 0 <= b < |window| ==> |window[b]| == blockSize
    ensures |vs| == |window| && |Flatten(window)| == |window| * blockSize
    ensures Reals.Sum(vs) * blockSize as real == Reals.Sum(Flatten(window))
  {
    hide IsMean;
    FlattenLength(window, blockSize);
    SumOfMeans(vs, window[p..] + window[..p], blockSize);
    FlattenConcat(window[p..], window[..p]);
    FlattenConcat(window[..p], window[p..]);
    assert window[..p] + window[p..] == window;
    Reals.SumConcat(Flatten(window[p..]), Flatten(window[..p]));
    Reals.SumConcat(Flatten(window[..p]), Flatten(window[p..]));
  }

  /** The valid mean is the plain mean of all samples in the window. */
  lemma ValidMeanIsPlainMean(s: Blocks, blockSize: nat, h: Samples)
    requires Inv(s, blockSize, h)
    ensures WindowSize(s) <= |h.blocks|
    ensures Mean(ValidValues(s)) == Mean(WindowSamples(s, h))
  {
    hide Reals.Sum, Flatten, IsMean, RingHolds, ValidValues;
    ValidSum(s, blockSize, h);
    SameMean(ValidValues(s), WindowSamples(s, h), blockSize);
  }

  lemma SameMean(vs: seq<real>, xs: seq<real>, k: nat)
    requires |xs| == |vs| * k && k >= 1
    requires Reals.Sum(vs) * k as real == Reals.Sum(xs)
    ensures Mean(vs) == Mean(xs)
  {
    hide Reals.Sum;
    if vs != [] {
      assert |xs| >= |vs| by {
        assert |vs| * k == |vs| + |vs| * (k - 1);
      }
      assert |xs| as real == |vs| as real * k as real;
      SameQuotient(Reals.Sum(vs), |vs| as real, k as real, Reals.Sum(xs), |xs| as real);
    }
  }

  lemma SameQuotient(a: real, n: real, k: real, b: real, m: real)
    requires n > 0.0 && k > 0.0 && m > 0.0 && b == a * k && m == n * k
    ensures a / n == b / m
  {
    var q := a / n;
    Reals.Cancel(n, a);
    // m * q == b
    Reals.Regroup(n, k, q);
    Reals.Cancel(m, q);
  }

  /**
    The current mean weighs the block in progress like a full one. It is the plain mean of all
    samples in view only if the block's mean so far equals that of the window.
   */
  lemma CurrentMeanIsPlainIff(s: Blocks, blockSize: nat, h: Samples)
    requires Inv(s, blockSize, h) && s.idx > 0 && WindowSize(s) > 0
    ensures WindowSize(s) <= |h.blocks|
    ensures (Mean(CurrentValues(s)) == Mean(WindowSamples(s, h) + h.current)) <==>
            (Mean(ValidValues(s)) == Some(s.values[s.blockIdx]))
  {
    hide Reals.Sum, Flatten, RingHolds, ValidValues, WindowSamples, Mean;
    ValidSum(s, blockSize, h);
    var vs, xs, c := ValidValues(s), WindowSamples(s, h), s.values[s.blockIdx];
    assert vs != [] && IsMean(c, h.current);
    assert CurrentValues(s) == vs + [c];
    assert |xs| as real == |vs| as real * blockSize as real;
    var w, k, i := |vs| as real, blockSize as real, |h.current| as real;
    assert |xs| as real == w * k;
    PartialBlock(vs, xs, c, h.current, Weights(Reals.Sum(vs), w, c, k, i, Reals.Sum(xs), Reals.Sum(h.current), w * k + i));
  }

  /** Three blocks of two, one of them restored at 0, and a sample of 1: 1/2 instead of 1/3. */
  lemma CurrentMeanCanDiffer()
    ensures var s, h := Updated(Start(3, 1, 0.0), 2, 1.0), Sampled(Restored(1, 2, 0.0), 2, 1.0);
            && Inv(s, 2, h) && WindowSize(s) <= |h.blocks|
            && Mean(CurrentValues(s)) != Mean(WindowSamples(s, h) + h.current)
  {
    hide IsMean, RingHolds, Mean, RunningMean, Updated;
    var s, h := Updated(Start(3, 1, 0.0), 2, 1.0), Sampled(Restored(1, 2, 0.0), 2, 1.0);
    StartInv(3, 2, 1, 0.0);
    UpdateInv(Start(3, 1, 0.0), 2, Restored(1, 2, 0.0), 1.0);
    FirstSample();
    assert ValidIdxs(0, 1) == [] && ValidIdxs(1, 1) == [0];
    assert ValidValues(s) == [0.0];
    CurrentMeanIsPlainIff(s, 2, h);
    MeanIs([0.0], 1.0);
    Reals.SumLast([0.0]);
    assert [0.0][..0] == [];
  }

  lemma FirstSample()
    ensures Updated(Start(3, 1, 0.0), 2, 1.0) == Blocks([0.0, 1.0, 0.0], 1, 1, 1)
  {
    assert Start(3, 1, 0.0).values == [0.0, 0.0, 0.0];
  }

  /** A sum of `w` values, each standing for `k` samples that sum to `all`, and one standing for `i < k`. */
  datatype Weights = Weights(sum: real, w: real, c: real, k: real, i: real, all: real, part: real, m: real)
  {
    ghost predicate Fit() {
      w >= 1.0 && 0.0 < i < k && all == sum * k && part == c * i && m == w * k + i
    }
  }

  lemma PartialBlock(vs: seq<real>, xs: seq<real>, c: real, current: seq<real>, z: Weights)
    requires vs != [] && current != [] && z.w == |vs| as real && z.m == |xs + current| as real && z.c == c && z.Fit()
    requires z.sum == Reals.Sum(vs) && z.all == Reals.Sum(xs) && z.part == Reals.Sum(current)
    ensures Mean(vs + [c]) == Mean(xs + current) <==> Mean(vs) == Some(c)
  {
    hide Reals.Sum, Mean, Weights.Fit;
    Reals.SumConcat(xs, current);
    Reals.SumLast(vs + [c]);
    assert (vs + [c])[..|vs|] == vs;
    MeanIs(vs + [c], z.w + 1.0);
    MeanIs(vs, z.w);
    MeanIs(xs + current, z.m);
    Weigh(z);
  }

  lemma MeanIs(xs: seq<real>, n: real)
    requires xs != [] && n == |xs| as real
    ensures n > 0.0 && Mean(xs) == Some(Reals.Sum(xs) / n)
  {
    hide Reals.Sum;
  }

  lemma Weigh(z: Weights)
    requires z.Fit()
    ensures z.m > 0.0 && z.w > 0.0
    ensures (z.sum + z.c) / (z.w + 1.0) == (z.all + z.part) / z.m <==> z.sum / z.w == z.c
  {
    var a := z.sum / z.w;
    var d, gap := z.c - a, z.w * (z.k - z.i);
    Reals.Cancel(z.w, z.sum);
    Parts(z, a, d, gap);
    hide Weights.Fit;
    // both averages are a plus a share of d
    Share(z.w + 1.0, a, d, z.sum + z.c);
    Share(z.m, a, d * z.i, z.all + z.part);
    SharesDiffer(z.w + 1.0, z.m, d, z.i, gap);
  }

  lemma Parts(z: Weights, a: real, d: real, gap: real)
    requires z.Fit() && z.w * a == z.sum && d == z.c - a && gap == z.w * (z.k - z.i)
    ensures z.w > 0.0 && z.m > 0.0 && gap > 0.0
    ensures z.sum + z.c == (z.w + 1.0) * a + d && z.all + z.part == z.m * a + d * z.i
    ensures z.m == (z.w + 1.0) * z.i + gap
  {
    var w, k, i := z.w, z.k, z.i;
    Reals.MulNonNeg(w, k);
    Reals.MulPositive(w, k - i);
    Reals.Regroup(w, k, a);
    Reals.Regroup(w, a, k);
    Reals.Distribute(w * k, i, a);
    Reals.Distribute(z.c, a, i);
    Reals.Distribute(w, 1.0, a);
    Reals.Distribute(w, 1.0, i);
    assert w * (k - i) == w * k - w * i;
  }

  lemma Share(n: real, a: real, d: real, x: real)
    requires n > 0.0 && x == n * a + d
    ensures x / n == a + d / n
  {
    Reals.Cancel(n, a + d / n);
    Reals.Cancel(n, d);
  }

  lemma SharesDiffer(n: real, m: real, d: real, i: real, gap: real)
    requires n > 0.0 && m > 0.0 && gap != 0.0 && m == n * i + gap
    ensures d / n == (d * i) / m <==> d == 0.0
  {
    var p, q := d / n, (d * i) / m;
    Reals.Cancel(n, d);
    Reals.Cancel(m, d * i);
    // n * p == d and m * q == d * i
    if p == q {
      assert m * p == n * (i * p) + gap * p;
      Reals.Regroup(n, i, p);
      assert n * (i * p) == (n * p) * i;
      assert gap * p == 0.0;
    }
  }

  function Deviations(xs: seq<real>, m: real): seq<real> {
    seq(|xs|, k requires 0 <= k < |xs| => (xs[k] - m) * (xs[k] - m))
  }

  function Variance(xs: seq<real>): Option<real> {
    var m := Mean(xs);
    if m.None? then None else Mean(Deviations(xs, m.value))
  }

  /** The current average also takes in the block in progress, at the mean of its samples so far, if it has any. */
  lemma CurrentValuesAre(s: Blocks, blockSize: nat, h: Samples)
    requires Inv(s, blockSize, h)
    ensures h.current == [] ==> CurrentValues(s) == ValidValues(s)
    ensures h.current != [] ==>
              exists v :: CurrentValues(s) == ValidValues(s) + [v] && Mean(h.current) == Some(v)
  {
    hide Reals.Sum, RingHolds, ValidValues;
    if h.current != [] {
      assert CurrentValues(s) == ValidValues(s) + [s.values[s.blockIdx]];
      CurrentMeanIs(s, blockSize, h);
    }
  }

  lemma CurrentMeanIs(s: Blocks, blockSize: nat, h: Samples)
    requires Inv(s, blockSize, h) && h.current != []
    ensures Mean(h.current) == Some(s.values[s.blockIdx])
  {
    hide Reals.Sum, RingHolds;
    QuotientIs(s.values[s.blockIdx], |h.current| as real, Reals.Sum(h.current));
  }

  lemma QuotientIs(v: real, n: real, total: real)
    requires n != 0.0 && v * n == total
    ensures total / n == v
  {
    Reals.Cancel(n, v);
  }

  function Square(x: real): real {
    x * x
  }

  function Squares(xs: seq<real>): real {
    if xs == [] then 0.0 else Squares(xs[..|xs| - 1]) + xs[|xs| - 1] * xs[|xs| - 1]
  }

  lemma DeviationsLast(xs: seq<real>, m: real)
    requires xs != []
    ensures var n := |xs| - 1;
            Deviations(xs, m)[..n] == Deviations(xs[..n], m) && Deviations(xs, m)[n] == (xs[n] - m) * (xs[n] - m)
  {
    var n := |xs| - 1;
    var d, e := Deviations(xs, m), Deviations(xs[..n], m);
    forall k | 0 <= k < n
      ensures d[k] == e[k]
    {
      assert xs[..n][k] == xs[k];
    }
  }

  lemma {:induction false} DeviationSum(xs: seq<real>, m: real)
    ensures Reals.Sum(Deviations(xs, m)) == Squares(xs) - 2.0 * m * Reals.Sum(xs) + |xs| as real * m * m
  {
    Reals.SumLast(xs);
    Reals.SumLast(Deviations(xs, m));
    if xs != [] {
      var n := |xs| - 1;
      var x, a := xs[n], Reals.Sum(xs[..n]);
      DeviationSum(xs[..n], m);
      DeviationsLast(xs, m);
      hide Reals.Sum, Squares, Deviations;
      SquareOfDifference(x, m);
      Reals.Distribute(a, x, 2.0 * m);
      assert |xs| as real * m * m == n as real * m * m + m * m by {
        Reals.Distribute(n as real, 1.0, m * m);
        Reals.Regroup(n as real, m, m);
        Reals.Regroup(|xs| as real, m, m);
      }
    }
  }

  lemma SquareOfDifference(x: real, m: real)
    ensures (x - m) * (x - m) == x * x - 2.0 * m * x + m * m
  {
  }

  /** The variance is the mean of the squares minus the square of the mean, and there is one exactly if there are values. */
  lemma VarianceIs(xs: seq<real>)
    ensures Variance(xs).None? <==> xs == []
    ensures xs != [] ==>
              var n := |xs| as real;
              Variance(xs).value == Squares(xs) / n - Square(Reals.Sum(xs) / n)
  {
    if xs != [] {
      hide Reals.Sum, Squares, Square, Variance;
      VarianceWith(xs, |xs| as real, Reals.Sum(xs), Reals.Sum(xs) / |xs| as real);
    }
  }

  lemma VarianceWith(xs: seq<real>, n: real, t: real, m: real)
    requires xs != [] && n == |xs| as real && t == Reals.Sum(xs) && m == t / n
    ensures Variance(xs) == Some(Squares(xs) / n - Square(m))
  {
    hide Reals.Sum, Squares, Square, Variance, Mean, Deviations;
    VarianceByDeviations(xs);
    DeviationSum(xs, m);
    MeanOfDeviations(n, t, m, Squares(xs), Reals.Sum(Deviations(xs, m)));
  }

  lemma VarianceByDeviations(xs: seq<real>)
    requires xs != []
    ensures Variance(xs) == Some(Reals.Sum(Deviations(xs, Reals.Sum(xs) / |xs| as real)) / |xs| as real)
  {
    hide Reals.Sum;
  }

  lemma MeanOfDeviations(n: real, t: real, m: real, q: real, d: real)
    requires n > 0.0 && m == t / n && d == q - 2.0 * m * t + n * m * m
    ensures d / n == q / n - Square(m)
  {
    Reals.Cancel(n, t);
    assert t == n * m;
    Reals.Regroup(2.0 * m, n, m);
    Reals.Regroup(n, m, m);
    assert 2.0 * m * t == 2.0 * (n * (m * m));
    Reals.Cancel(n, m * m);
    assert (q - n * (m * m)) / n == q / n - (n * (m * m)) / n;
  }

  // ---------- the object ----------

  class BlockAverage {
    const numBlocks: nat
    const blockSize: nat
    var idx: nat
    var blockIdx: nat
    var validBlocks: nat
    const values: array<real>
    // the samples behind the stored means
    ghost var samples: Samples

    ghost function View(): Blocks
      reads this, values
    {
      Blocks(values[..], idx, blockIdx, validBlocks)
    }

    ghost predicate Valid()
      reads this, values
    {
      values.Length == numBlocks && Inv(View(), blockSize, samples)
    }

    constructor (numBlocks: nat, blockSize: nat, validBlocks: nat, initialValue: real)
      requires numBlocks >= 1 && blockSize >= 1 && validBlocks <= numBlocks
      ensures Valid() && fresh(values) && this.numBlocks == numBlocks && this.blockSize == blockSize
      ensures View() == Start(numBlocks, validBlocks, initialValue)
      ensures samples == Restored(validBlocks, blockSize, initialValue)
    {
      this.numBlocks, this.blockSize := numBlocks, blockSize;
      blockIdx := validBlocks % numBlocks;
      idx := 0;
      values := new real[numBlocks](_ => initialValue);
      this.validBlocks := validBlocks;
      samples := Restored(validBlocks, blockSize, initialValue);
      new;
      StartInv(numBlocks, blockSize, validBlocks, initialValue);
      assert View() == Start(numBlocks, validBlocks, initialValue);
    }

    method Update(value: real)
      requires Valid()
      modifies this`idx, this`blockIdx, this`validBlocks, this`samples, values
      ensures Valid() && View() == Updated(old(View()), blockSize, value)
      ensures samples == Sampled(old(samples), blockSize, value)
    {
      hide IsMean, RingHolds, RunningMean;
      UpdateInv(View(), blockSize, samples, value);
      samples := Sampled(samples, blockSize, value);
      values[blockIdx] := RunningMean(values[blockIdx], idx as real, value);
      idx := (idx + 1) % blockSize;
      if idx == 0 {
        blockIdx := (blockIdx + 1) % numBlocks;
        validBlocks := if validBlocks + 1 < numBlocks then validBlocks + 1 else numBlocks;
      }
    }

    /** The valid mean is that of all samples in the window; the standard deviations are given squared. */
    method Get() returns (validMean: Option<real>, validVar: Option<real>, currentMean: Option<real>, currentVar: Option<real>)
      requires Valid()
      ensures validMean == Mean(WindowSamples(View(), samples)) && validVar == Variance(ValidValues(View()))
      ensures currentMean == Mean(CurrentValues(View())) && currentVar == Variance(CurrentValues(View()))
    {
      hide IsMean, RingHolds, Variance, Mean;
      ValidMeanIsPlainMean(View(), blockSize, samples);
      var valid := Select(values[..], ValidIdxs(validBlocks, blockIdx));
      var current := valid + if idx > 0 then [values[blockIdx]] else [];
      validMean, validVar := Mean(valid), Variance(valid);
      currentMean, currentVar := Mean(current), Variance(current);
    }
  }
}
