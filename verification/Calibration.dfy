/**
  Online camera calibration: a ring of 50 blocks of 100 samples, the window of blocks in use,
  the reset to the newest block when the blocks disagree, and the ten-call fade to the new value.
  This file holds the calculation on values and what every run keeps; Calibrator.dfy holds the object.
 */
module Calibration {
  import Reals
  import opened Wrappers

  const SMOOTH_CYCLES := 10
  const BLOCK_SIZE := 100
  const INPUTS_NEEDED := 5
  const INPUTS_WANTED := 50
  const MAX_ALLOWED_YAW_SPREAD := 0.03490658503988659    // 2 degrees
  const MAX_ALLOWED_PITCH_SPREAD := 0.06981317007977318  // 4 degrees
  const MARGIN := 0.005

  datatype Vec3 = Vec3(roll: real, pitch: real, yaw: real)

  datatype Limits = Limits(pitchLo: real, pitchHi: real, yawLo: real, yawHi: real)

  const RPY_INIT := Vec3(0.0, 0.0, 0.0)
  const TICI_LIMITS := Limits(-0.09074112085129739, 0.17, -0.06912048084718224, 0.06912048084718235)
  const MICI_LIMITS := Limits(-0.143101, 0.22235988, -0.06912048084718224, 0.06912048084718235)

  datatype Status = Uncalibrated | Calibrated | Invalid | Recalibrating

  // ---------- vectors ----------

  function Add(a: Vec3, b: Vec3): Vec3 {
    Vec3(a.roll + b.roll, a.pitch + b.pitch, a.yaw + b.yaw)
  }

  function Scale(k: real, a: Vec3): Vec3 {
    Vec3(k * a.roll, k * a.pitch, k * a.yaw)
  }

  /** `w` parts of `a` and `1 - w` parts of `b`. */
  function Blend(w: real, a: Vec3, b: Vec3): Vec3 {
    Add(Scale(w, a), Scale(1.0 - w, b))
  }

  function Sum(vs: seq<Vec3>): Vec3 {
    if vs == [] then RPY_INIT else Add(vs[0], Sum(vs[1..]))
  }

  function Mean(vs: seq<Vec3>): Vec3
    requires vs != []
  {
    Scale(1.0 / |vs| as real, Sum(vs))
  }

  function MaxOf(xs: seq<real>): real
    requires xs != []
  {
    if |xs| == 1 then xs[0]
    else
      var m := MaxOf(xs[1..]);
      if xs[0] > m then xs[0] else m
  }

  function MinOf(xs: seq<real>): real
    requires xs != []
  {
    if |xs| == 1 then xs[0]
    else
      var m := MinOf(xs[1..]);
      if xs[0] < m then xs[0] else m
  }

  function Extent(xs: seq<real>): real
    requires xs != []
  {
    MaxOf(xs) - MinOf(xs)
  }

  /** The extent is the distance between two elements that bound all others. */
  lemma {:induction false} ExtentBounds(xs: seq<real>) returns (lo: nat, hi: nat)
    requires xs != []
    ensures lo < |xs| && hi < |xs| && Extent(xs) == xs[hi] - xs[lo]
    ensures xs[lo] == MinOf(xs) && xs[hi] == MaxOf(xs)
    ensures forall i :: 0 <= i < |xs| ==> xs[lo] <= xs[i] <= xs[hi]
  {
    lo, hi := 0, 0;
    if |xs| > 1 {
      var l, h := ExtentBounds(xs[1..]);
      lo := if xs[0] < xs[l + 1] then 0 else l + 1;
      hi := if xs[0] > xs[h + 1] then 0 else h + 1;
      forall i | 0 <= i < |xs|
        ensures xs[lo] <= xs[i] <= xs[hi]
      {
        if i > 0 {
          assert xs[1..][i - 1] == xs[i];
        }
      }
    }
  }

  function Rolls(vs: seq<Vec3>): seq<real> {
    seq(|vs|, i requires 0 <= i < |vs| => vs[i].roll)
  }

  function Pitches(vs: seq<Vec3>): seq<real> {
    seq(|vs|, i requires 0 <= i < |vs| => vs[i].pitch)
  }

  function Yaws(vs: seq<Vec3>): seq<real> {
    seq(|vs|, i requires 0 <= i < |vs| => vs[i].yaw)
  }

  /** Componentwise largest minus smallest. */
  function Spread(vs: seq<Vec3>): Vec3
    requires vs != []
  {
    Vec3(Extent(Rolls(vs)), Extent(Pitches(vs)), Extent(Yaws(vs)))
  }

  function Clip(x: real, lo: real, hi: real): real {
    if x < lo then lo else if x > hi then hi else x
  }

  // ---------- the calculation ----------

  function Max(a: nat, b: nat): nat {
    if a > b then a else b
  }

  predicate IsCalibrationValid(limits: Limits, rpy: Vec3) {
    limits.pitchLo < rpy.pitch < limits.pitchHi && limits.yawLo < rpy.yaw < limits.yawHi
  }

  /** `None` stands for a vector with a NaN in it. */
  function SanityClip(limits: Limits, rpy: Option<Vec3>): Vec3 {
    var v := if rpy.None? then RPY_INIT else rpy.value;
    Vec3(v.roll,
         Clip(v.pitch, limits.pitchLo - MARGIN, limits.pitchHi + MARGIN),
         Clip(v.yaw, limits.yawLo - MARGIN, limits.yawHi + MARGIN))
  }

  function MovingAvgWithLinearDecay(prevMean: Vec3, newVal: Vec3, idx: nat): Vec3 {
    Scale(1.0 / BLOCK_SIZE as real,
          Add(Scale(idx as real, prevMean), Scale((BLOCK_SIZE - idx) as real, newVal)))
  }

  /** range(lo, hi) */
  function Range(lo: nat, hi: nat): (r: seq<nat>) {
    if lo >= hi then [] else seq(hi - lo, i requires 0 <= i => lo + i)
  }

  function GetValidIdxs(blockIdx: nat, validBlocks: nat): seq<nat> {
    Range(0, blockIdx) + Range(if validBlocks < blockIdx + 1 then validBlocks else blockIdx + 1, validBlocks)
  }

  /** numpy's rows[idxs] */
  function Select(rows: seq<Vec3>, idxs: seq<nat>): seq<Vec3>
    requires forall k :: 0 <= k < |idxs| ==> idxs[k] < |rows|
  {
    seq(|idxs|, k requires 0 <= k < |idxs| => rows[idxs[k]])
  }

  /** The calibrator's fields. */
  datatype Cal = Cal(limits: Limits, rpy: Vec3, rpys: seq<Vec3>, idx: nat, blockIdx: nat, validBlocks: nat,
                     oldRpy: Vec3, oldRpyWeight: real, calStatus: Status, calibSpread: Vec3)
  {
    /** Array shapes and index ranges. */
    predicate Shaped() {
      |rpys| == INPUTS_WANTED && idx < BLOCK_SIZE && blockIdx < INPUTS_WANTED && validBlocks <= INPUTS_WANTED
    }

    /** The blocks in the validity window. */
    function ValidRows(): seq<Vec3>
      requires Shaped()
    {
      Select(rpys, GetValidIdxs(blockIdx, validBlocks))
    }

    /** The value published in `rpyCalib`. */
    function GetSmoothRpy(): Vec3 {
      if oldRpyWeight > 0.0 then Blend(oldRpyWeight, oldRpy, rpy) else rpy
    }
  }

  function Reset(c: Cal, rpyInit: Vec3, validBlocks: nat, smoothFrom: Option<Vec3>): Cal {
    c.(rpy := rpyInit, validBlocks := validBlocks,
       rpys := seq(INPUTS_WANTED, i requires 0 <= i => rpyInit), idx := 0, blockIdx := 0,
       oldRpy := if smoothFrom.None? then RPY_INIT else smoothFrom.value,
       oldRpyWeight := if smoothFrom.None? then 0.0 else 1.0)
  }

  /** Mean, spread and status over the window, before the spread check. */
  function Assessed(c: Cal): Cal
    requires c.Shaped()
  {
    var rows := c.ValidRows();
    var rpy := if rows == [] then c.rpy else Mean(rows);
    c.(rpy := rpy,
       calibSpread := if rows == [] then Vec3(0.0, 0.0, 0.0) else Spread(rows),
       calStatus := if c.validBlocks < INPUTS_NEEDED then
                      (if c.calStatus == Recalibrating then Recalibrating else Uncalibrated)
                    else if IsCalibrationValid(c.limits, rpy) then Calibrated else Invalid)
  }

  predicate SpreadTooHigh(spread: Vec3) {
    spread.pitch > MAX_ALLOWED_PITCH_SPREAD || spread.yaw > MAX_ALLOWED_YAW_SPREAD
  }

  /** Does the spread check fire in this state? */
  predicate Resets(c: Cal)
    requires c.Shaped()
  {
    var a := Assessed(c);
    SpreadTooHigh(a.calibSpread) && a.calStatus == Calibrated
  }

  /** rpys[block_idx - 1], where index -1 is the last row. */
  function PreviousRow(c: Cal): Vec3
    requires c.Shaped()
  {
    c.rpys[if c.blockIdx == 0 then INPUTS_WANTED - 1 else c.blockIdx - 1]
  }

  function UpdateStatus(c: Cal): Cal
    requires c.Shaped()
  {
    var a := Assessed(c);
    if Resets(c) then Reset(a, PreviousRow(c), 1, Some(a.rpy)).(calStatus := Recalibrating) else a
  }

  /**
    One camera odometry message.  The gates on speed, yaw rate and uncertainty and the rotated
    observation depend on sensor values and are inputs here.
   */
  datatype Odom = Odom(straightAndFast: bool, rpyCertain: bool, heightCertain: bool, observed: Option<Vec3>)

  function Decayed(c: Cal): Cal {
    var w := c.oldRpyWeight - 1.0 / SMOOTH_CYCLES as real;
    c.(oldRpyWeight := if w > 0.0 then w else 0.0)
  }

  predicate Accepted(c: Cal, odom: Odom) {
    odom.straightAndFast && ((odom.rpyCertain && odom.heightCertain) || c.validBlocks < INPUTS_NEEDED)
  }

  /** The current block takes the value `row`; a full block moves the ring on. */
  function Put(c: Cal, row: Vec3): (r: Cal)
    requires c.Shaped()
    ensures r.Shaped()
  {
    var rpys := c.rpys[c.blockIdx := row];
    var idx := (c.idx + 1) % BLOCK_SIZE;
    if idx == 0 then
      var b := c.blockIdx + 1;
      c.(rpys := rpys, idx := idx, validBlocks := Max(b, c.validBlocks), blockIdx := b % INPUTS_WANTED)
    else
      c.(rpys := rpys, idx := idx)
  }

  /** The sample goes into the current block. */
  function Pushed(c: Cal, newRpy: Vec3): (r: Cal)
    requires c.Shaped()
    ensures r.Shaped()
  {
    Put(c, MovingAvgWithLinearDecay(c.rpys[c.blockIdx], newRpy, c.idx))
  }

  function HandleCamOdom(c: Cal, odom: Odom): (r: Cal)
    requires c.Shaped()
    ensures r.Shaped()
  {
    var d := Decayed(c);
    if Accepted(c, odom) then UpdateStatus(Pushed(d, SanityClip(c.limits, odom.observed))) else d
  }

  /** `rpyInit` is `None` when the restored vector is not finite; a negative count restarts at zero. */
  function Start(limits: Limits, rpyInit: Option<Vec3>, validBlocks: int): (r: Cal)
    requires validBlocks <= INPUTS_WANTED
    ensures r.Shaped()
  {
    var rpy := if rpyInit.None? then RPY_INIT else rpyInit.value;
    var v := if validBlocks < 0 then 0 else validBlocks;
    var blank := Cal(limits, rpy, [], 0, 0, 0, RPY_INIT, 0.0, Uncalibrated, RPY_INIT);
    UpdateStatus(Reset(blank, rpy, v, None))
  }

  // ---------- runs ----------

  /**
    A run's state with its history: the values of the blocks completed since the last reset,
    the value and window size it started from, the number of calls since, and the value faded from.
   */
  datatype Hist = Hist(c: Cal, done: seq<Vec3>, base: Vec3, startBlocks: nat, calls: nat, from: Option<Vec3>)

  function Begin(limits: Limits, rpyInit: Option<Vec3>, validBlocks: int): Hist
    requires validBlocks <= INPUTS_WANTED
  {
    Hist(Start(limits, rpyInit, validBlocks), [], if rpyInit.None? then RPY_INIT else rpyInit.value,
         if validBlocks < 0 then 0 else validBlocks, 0, None)
  }

  /** An accepted sample has gone into its block; mean and status are not yet updated. */
  function Sampled(h: Hist, odom: Odom): (r: Hist)
    requires h.c.Shaped()
    ensures r.c.Shaped()
  {
    var c := Pushed(Decayed(h.c), SanityClip(h.c.limits, odom.observed));
    Hist(c, if c.idx == 0 then h.done + [c.rpys[h.c.blockIdx]] else h.done,
         h.base, h.startBlocks, h.calls + 1, h.from)
  }

  /** The status update, which may start over from the newest block. */
  function Updated(g: Hist): (r: Hist)
    requires g.c.Shaped()
    ensures r.c == UpdateStatus(g.c)
  {
    if Resets(g.c) then
      Hist(UpdateStatus(g.c), [], PreviousRow(g.c), 1, 0, Some(Assessed(g.c).rpy))
    else
      g.(c := Assessed(g.c))
  }

  predicate ResetsOn(h: Hist, odom: Odom)
    requires h.c.Shaped()
  {
    Accepted(h.c, odom) && Resets(Sampled(h, odom).c)
  }

  function Next(h: Hist, odom: Odom): (r: Hist)
    requires h.c.Shaped()
    ensures r.c == HandleCamOdom(h.c, odom)
  {
    if Accepted(h.c, odom) then Updated(Sampled(h, odom))
    else h.(c := Decayed(h.c), calls := h.calls + 1)
  }

  function Run(h: Hist, odoms: seq<Odom>): (r: Hist)
    requires h.c.Shaped()
    ensures r.c.Shaped()
    decreases |odoms|
  {
    if odoms == [] then h else Next(Run(h, odoms[..|odoms| - 1]), odoms[|odoms| - 1])
  }

  function FadeWeight(calls: nat): real {
    if calls >= SMOOTH_CYCLES then 0.0 else 1.0 - calls as real / SMOOTH_CYCLES as real
  }

  /** The ring holds the completed blocks, newest behind `blockIdx`, and the start value elsewhere. */
  ghost predicate RingMatches(rpys: seq<Vec3>, idx: nat, blockIdx: nat, done: seq<Vec3>, base: Vec3)
    requires |rpys| == INPUTS_WANTED && blockIdx < INPUTS_WANTED
  {
    var lap := |done| - blockIdx;
    && (lap == 0 || lap >= INPUTS_WANTED)
    && (forall j :: 0 <= j < blockIdx ==> rpys[j] == done[lap + j])
    && (forall j :: blockIdx < j < INPUTS_WANTED ==>
          rpys[j] == if lap == 0 then base else done[lap - INPUTS_WANTED + j])
    && (idx == 0 ==> rpys[blockIdx] == if lap == 0 then base else done[lap - INPUTS_WANTED + blockIdx])
  }

  /** What every reachable state satisfies. */
  ghost predicate Inv(h: Hist) {
    && h.c.Shaped()
    && RingMatches(h.c.rpys, h.c.idx, h.c.blockIdx, h.done, h.base)
    && h.startBlocks <= INPUTS_WANTED
    && h.c.validBlocks == Max(h.startBlocks, if |h.done| < INPUTS_WANTED then |h.done| else INPUTS_WANTED)
    && BLOCK_SIZE * |h.done| + h.c.idx <= h.calls
    && (h.done == [] ==> h.c.rpy == h.base)
    && match h.from
       case None => h.c.oldRpyWeight == 0.0
       case Some(v) => h.startBlocks == 1 && h.c.oldRpy == v && h.c.oldRpyWeight == FadeWeight(h.calls)
  }

  // ---------- the window ----------

  predicate NoDuplicates<T(==)>(s: seq<T>) {
    forall i, j :: 0 <= i < j < |s| ==> s[i] != s[j]
  }

  /** The window is exactly the indices below `validBlocks` except the block being filled, each once. */
  lemma ValidIdxsExact(blockIdx: nat, validBlocks: nat)
    requires blockIdx <= validBlocks
    ensures var idxs := GetValidIdxs(blockIdx, validBlocks);
            && NoDuplicates(idxs)
            && forall i: nat :: i in idxs <==> i < validBlocks && i != blockIdx
  {
    var idxs := GetValidIdxs(blockIdx, validBlocks);
    forall i: nat | i < validBlocks && i != blockIdx
      ensures i in idxs
    {
      assert idxs[if i < blockIdx then i else i - 1] == i;
    }
  }

  lemma WindowInReachableStates(h: Hist)
    requires Inv(h)
    ensures h.c.blockIdx <= h.c.validBlocks
    ensures var idxs := GetValidIdxs(h.c.blockIdx, h.c.validBlocks);
            && NoDuplicates(idxs)
            && forall i: nat :: i in idxs <==> i < h.c.validBlocks && i != h.c.blockIdx
  {
    ValidIdxsExact(h.c.blockIdx, h.c.validBlocks);
  }

  // ---------- means and spreads ----------

  lemma {:induction false} SumOfEqual(vs: seq<Vec3>, v: Vec3)
    requires forall i :: 0 <= i < |vs| ==> vs[i] == v
    ensures Sum(vs) == Scale(|vs| as real, v)
  {
    if vs != [] {
      SumOfEqual(vs[1..], v);
    }
  }

  lemma MeanOfEqual(vs: seq<Vec3>, v: Vec3)
    requires vs != [] && forall i :: 0 <= i < |vs| ==> vs[i] == v
    ensures Mean(vs) == v
  {
    SumOfEqual(vs, v);
    var n := |vs| as real;
    Reals.Cancel(n, v.roll);
    Reals.Cancel(n, v.pitch);
    Reals.Cancel(n, v.yaw);
  }

  lemma ExtentOfEqual(xs: seq<real>, x: real)
    requires xs != [] && forall i :: 0 <= i < |xs| ==> xs[i] == x
    ensures Extent(xs) == 0.0
  {
    var lo, hi := ExtentBounds(xs);
  }

  /** With no block to use an update leaves the vector alone and finds no spread. */
  lemma NoBlocksNoSpread(c: Cal)
    requires c.Shaped() && c.blockIdx == 0 && c.validBlocks <= 1
    ensures UpdateStatus(c).rpy == c.rpy && UpdateStatus(c).calibSpread == Vec3(0.0, 0.0, 0.0)
  {
    assert c.ValidRows() == [];
  }

  /** Blocks that agree have that value as mean and no spread. */
  lemma EqualRows(vs: seq<Vec3>, v: Vec3)
    requires vs != [] && forall i :: 0 <= i < |vs| ==> vs[i] == v
    ensures Mean(vs) == v && Spread(vs) == Vec3(0.0, 0.0, 0.0)
  {
    MeanOfEqual(vs, v);
    ExtentOfEqual(Rolls(vs), v.roll);
    ExtentOfEqual(Pitches(vs), v.pitch);
    ExtentOfEqual(Yaws(vs), v.yaw);
  }

  // ---------- the ring ----------

  lemma RingFills(rpys: seq<Vec3>, idx: nat, blockIdx: nat, done: seq<Vec3>, base: Vec3, v: Vec3)
    requires |rpys| == INPUTS_WANTED && blockIdx < INPUTS_WANTED && RingMatches(rpys, idx, blockIdx, done, base)
    ensures idx + 1 < BLOCK_SIZE ==> RingMatches(rpys[blockIdx := v], idx + 1, blockIdx, done, base)
    ensures RingMatches(rpys[blockIdx := v], 0, (blockIdx + 1) % INPUTS_WANTED, done + [v], base)
  {
  }

  lemma RingLap(rpys: seq<Vec3>, idx: nat, blockIdx: nat, done: seq<Vec3>, base: Vec3)
    requires |rpys| == INPUTS_WANTED && blockIdx < INPUTS_WANTED && RingMatches(rpys, idx, blockIdx, done, base)
    ensures |done| == blockIdx || |done| >= blockIdx + INPUTS_WANTED
  {
  }

  /** The row behind the current block is the newest completed one. */
  lemma RingNewest(rpys: seq<Vec3>, idx: nat, blockIdx: nat, done: seq<Vec3>, base: Vec3)
    requires |rpys| == INPUTS_WANTED && blockIdx < INPUTS_WANTED && RingMatches(rpys, idx, blockIdx, done, base)
    requires done != []
    ensures rpys[if blockIdx == 0 then INPUTS_WANTED - 1 else blockIdx - 1] == done[|done| - 1]
    ensures blockIdx == 0 ==> |done| >= INPUTS_WANTED
  {
  }

  /** With no block completed yet, the window holds only the start value. */
  lemma FreshWindow(m: Cal, base: Vec3)
    requires m.Shaped() && RingMatches(m.rpys, m.idx, m.blockIdx, [], base)
    ensures m.ValidRows() == [] ||
            (Mean(m.ValidRows()) == base && Spread(m.ValidRows()) == Vec3(0.0, 0.0, 0.0))
    ensures !Resets(m)
  {
    var rows := m.ValidRows();
    if rows != [] {
      ValidIdxsExact(m.blockIdx, m.validBlocks);
      EqualRows(rows, base);
    }
  }

  lemma StartInv(limits: Limits, rpyInit: Option<Vec3>, validBlocks: int)
    requires validBlocks <= INPUTS_WANTED
    ensures Inv(Begin(limits, rpyInit, validBlocks))
  {
    var h := Begin(limits, rpyInit, validBlocks);
    var blank := Cal(limits, h.base, [], 0, 0, 0, RPY_INIT, 0.0, Uncalibrated, RPY_INIT);
    var r := Reset(blank, h.base, h.startBlocks, None);
    FreshWindow(r, h.base);
  }

  /**
    Whenever the spread check fires: the fade of an earlier reset is over, at least one block is
    complete, the block taken is the most recently completed one, and taking it through index -1
    happens only with the ring full.
   */
  lemma SpreadResetIsSettled(g: Hist)
    requires Inv(g) && Resets(g.c)
    ensures g.c.oldRpyWeight == 0.0
    ensures g.done != [] && PreviousRow(g.c) == g.done[|g.done| - 1]
    ensures g.c.blockIdx == 0 ==> |g.done| >= INPUTS_WANTED && g.c.validBlocks == INPUTS_WANTED
  {
    if g.done == [] {
      FreshWindow(g.c, g.base);
      assert false;
    }
    RingNewest(g.c.rpys, g.c.idx, g.c.blockIdx, g.done, g.base);
    assert g.c.validBlocks >= INPUTS_NEEDED;
    if g.from.Some? {
      assert |g.done| >= INPUTS_NEEDED;
      assert g.calls >= SMOOTH_CYCLES;
    }
  }

  lemma FadeWeightDecays(k: nat)
    ensures var w := FadeWeight(k) - 1.0 / SMOOTH_CYCLES as real;
            FadeWeight(k + 1) == if w > 0.0 then w else 0.0
  {
  }

  lemma DecayedInv(h: Hist)
    requires Inv(h)
    ensures Inv(h.(c := Decayed(h.c), calls := h.calls + 1))
  {
    FadeWeightDecays(h.calls);
  }

  lemma PutInv(h: Hist, row: Vec3)
    requires Inv(h) && BLOCK_SIZE * |h.done| + h.c.idx < h.calls
    ensures var c := Put(h.c, row);
            Inv(h.(c := c, done := if c.idx == 0 then h.done + [row] else h.done))
  {
    RingFills(h.c.rpys, h.c.idx, h.c.blockIdx, h.done, h.base, row);
    RingLap(h.c.rpys, h.c.idx, h.c.blockIdx, h.done, h.base);
    hide RingMatches, FadeWeight;
    var c := Put(h.c, row);
    assert c.blockIdx == if c.idx == 0 then (h.c.blockIdx + 1) % INPUTS_WANTED else h.c.blockIdx;
  }

  lemma SampledInv(h: Hist, odom: Odom)
    requires Inv(h)
    ensures Inv(Sampled(h, odom))
  {
    DecayedInv(h);
    var c := h.c;
    PutInv(h.(c := Decayed(c), calls := h.calls + 1),
           MovingAvgWithLinearDecay(c.rpys[c.blockIdx], SanityClip(c.limits, odom.observed), c.idx));
  }

  lemma UpdatedInv(g: Hist)
    requires Inv(g)
    ensures Inv(Updated(g))
  {
    if Resets(g.c) {
      assert FadeWeight(0) == 1.0;
    } else if g.done == [] {
      FreshWindow(g.c, g.base);
    }
  }

  lemma NextInv(h: Hist, odom: Odom)
    requires Inv(h)
    ensures Inv(Next(h, odom))
  {
    if Accepted(h.c, odom) {
      SampledInv(h, odom);
      UpdatedInv(Sampled(h, odom));
    } else {
      DecayedInv(h);
    }
  }

  /** Every state of every run from start-up satisfies the invariant. */
  lemma {:induction false} RunInv(h: Hist, odoms: seq<Odom>)
    requires Inv(h)
    ensures Inv(Run(h, odoms))
    decreases |odoms|
  {
    if odoms != [] {
      RunInv(h, odoms[..|odoms| - 1]);
      NextInv(Run(h, odoms[..|odoms| - 1]), odoms[|odoms| - 1]);
    }
  }

  // ---------- what a block holds ----------

  /** The product of i/100 over a <= i < n. */
  function Decay(a: nat, n: nat): real {
    if a >= n then 1.0 else Decay(a, n - 1) * ((n - 1) as real / 100.0)
  }

  /** The weight of the j-th of n samples in their block. */
  function Weight(j: nat, n: nat): real {
    (1.0 - j as real / 100.0) * Decay(j + 1, n)
  }

  /** The samples of a block, of which `xs` are the first, each with its weight among `n`. */
  function Weighted(xs: seq<Vec3>, n: nat): Vec3 {
    if xs == [] then RPY_INIT
    else
      var k := |xs| - 1;
      Add(Weighted(xs[..k], n), Scale(Weight(k, n), xs[k]))
  }

  function BlockValue(xs: seq<Vec3>): Vec3 {
    Weighted(xs, |xs|)
  }

  function WeightTotal(k: nat, n: nat): real {
    if k == 0 then 0.0 else WeightTotal(k - 1, n) + Weight(k - 1, n)
  }

  lemma WeightNext(j: nat, n: nat)
    requires j < n
    ensures Weight(j, n + 1) == Weight(j, n) * (n as real / 100.0)
  {
    Reals.Regroup(1.0 - j as real / 100.0, Decay(j + 1, n), n as real / 100.0);
  }

  lemma {:induction false} WeightTotalNext(k: nat, n: nat)
    requires k <= n
    ensures WeightTotal(k, n + 1) == WeightTotal(k, n) * (n as real / 100.0)
  {
    hide Weight;
    if k > 0 {
      WeightTotalNext(k - 1, n);
      WeightNext(k - 1, n);
      Reals.Distribute(WeightTotal(k - 1, n), Weight(k - 1, n), n as real / 100.0);
    }
  }

  lemma {:induction false} DecayNonNegative(a: nat, n: nat)
    ensures Decay(a, n) >= 0.0
  {
    if a < n {
      DecayNonNegative(a, n - 1);
      Reals.MulNonNeg(Decay(a, n - 1), (n - 1) as real / 100.0);
    }
  }

  /** The weights of a block's samples are non-negative and add up to 1: a block is an average of its samples. */
  lemma {:induction false} WeightsAverage(n: nat)
    requires 0 < n <= BLOCK_SIZE
    ensures WeightTotal(n, n) == 1.0
    ensures forall j :: 0 <= j < n ==> Weight(j, n) >= 0.0
  {
    forall j | 0 <= j < n
      ensures Weight(j, n) >= 0.0
    {
      DecayNonNegative(j + 1, n);
      Reals.MulNonNeg(1.0 - j as real / 100.0, Decay(j + 1, n));
    }
    if n > 1 {
      WeightsAverage(n - 1);
      WeightTotalNext(n - 1, n - 1);
    }
  }

  lemma ScaleAdd(k: real, a: Vec3, b: Vec3)
    ensures Scale(k, Add(a, b)) == Add(Scale(k, a), Scale(k, b))
  {
  }

  lemma ScaleTwice(k: real, m: real, p: real, a: Vec3)
    requires p == m * k
    ensures Scale(p, a) == Scale(k, Scale(m, a))
  {
    Reals.Regroup(m, k, a.roll);
    Reals.Regroup(m, k, a.pitch);
    Reals.Regroup(m, k, a.yaw);
  }

  lemma {:induction false} WeightedNext(xs: seq<Vec3>, n: nat)
    requires |xs| <= n
    ensures Weighted(xs, n + 1) == Scale(n as real / 100.0, Weighted(xs, n))
  {
    hide Scale, Add, Weighted, Weight;
    if xs == [] {
      NothingWeighted(n);
    } else {
      var k, c := |xs| - 1, n as real / 100.0;
      WeightedNext(xs[..k], n);
      WeightedByLast(xs, n);
      WeightedByLast(xs, n + 1);
      WeightNext(k, n);
      ScaleTwice(c, Weight(k, n), Weight(k, n + 1), xs[k]);
      ScaleAdd(c, Weighted(xs[..k], n), Scale(Weight(k, n), xs[k]));
    }
  }

  lemma NothingWeighted(n: nat)
    ensures Weighted([], n + 1) == Scale(n as real / 100.0, Weighted([], n))
  {
  }

  lemma WeightedByLast(xs: seq<Vec3>, n: nat)
    requires xs != []
    ensures Weighted(xs, n) == Add(Weighted(xs[..|xs| - 1], n), Scale(Weight(|xs| - 1, n), xs[|xs| - 1]))
  {
    hide Scale, Add, Weight;
  }

  /** One more sample: the step of the moving average keeps the weighted sum, whatever an empty block held. */
  lemma SampleJoins(row: Vec3, xs: seq<Vec3>, x: Vec3)
    requires |xs| < BLOCK_SIZE && (xs != [] ==> row == BlockValue(xs))
    ensures MovingAvgWithLinearDecay(row, x, |xs|) == BlockValue(xs + [x])
  {
    var n := |xs|;
    WeightedNext(xs, n);
    LastWeighted(xs, x);
    hide Weighted, Scale, Add, MovingAvgWithLinearDecay, BlockValue;
    DecayStep(row, x, n);
    if xs == [] {
      NoWeight(row);
      NoWeight(Weighted(xs, n));
    } else {
      ValueIs(xs);
    }
  }

  lemma NoWeight(v: Vec3)
    ensures Scale(0 as real / 100.0, v) == RPY_INIT
  {
  }

  lemma ValueIs(xs: seq<Vec3>)
    ensures BlockValue(xs) == Weighted(xs, |xs|)
  {
  }

  lemma LastWeighted(xs: seq<Vec3>, x: Vec3)
    ensures BlockValue(xs + [x]) == Add(Weighted(xs, |xs| + 1), Scale(1.0 - |xs| as real / 100.0, x))
  {
    hide *;
    var ys := xs + [x];
    assert ys[..|xs|] == xs && ys[|xs|] == x && |ys| == |xs| + 1;
    ValueIs(ys);
    WeightedByLast(ys, |ys|);
    WeightOfLast(|xs|);
  }

  lemma WeightOfLast(n: nat)
    ensures Weight(n, n + 1) == 1.0 - n as real / 100.0
  {
  }

  lemma DecayStep(row: Vec3, x: Vec3, n: nat)
    requires n <= BLOCK_SIZE
    ensures MovingAvgWithLinearDecay(row, x, n) == Add(Scale(n as real / 100.0, row), Scale(1.0 - n as real / 100.0, x))
  {
    assert (BLOCK_SIZE - n) as real == 100.0 - n as real;
  }

  /** Does the message give a sample: fast and straight, and certain or still uncalibrated? */
  predicate Gives(h: Hist, odom: Odom) {
    odom.straightAndFast && (h.c.validBlocks < 5 || (odom.rpyCertain && odom.heightCertain))
  }

  /** The clipped samples of a run since its start or its last reset. */
  function Seen(h: Hist, odoms: seq<Odom>): seq<Vec3>
    requires h.c.Shaped()
    decreases |odoms|
  {
    if odoms == [] then []
    else
      var before, odom := odoms[..|odoms| - 1], odoms[|odoms| - 1];
      if !Gives(Run(h, before), odom) then Seen(h, before)
      else if ResetsOn(Run(h, before), odom) then []
      else Seen(h, before) + [SanityClip(h.c.limits, odom.observed)]
  }

  /** The samples fill the blocks, 100 each, in order; each completed block and the current one is their weighted sum. */
  ghost predicate Filled(h: Hist, seen: seq<Vec3>)
    requires h.c.Shaped()
  {
    && |seen| == 100 * |h.done| + h.c.idx
    && (forall i :: 0 <= i < |h.done| ==> h.done[i] == BlockValue(seen[100 * i..100 * i + 100]))
    && (h.c.idx > 0 ==> h.c.rpys[h.c.blockIdx] == BlockValue(seen[100 * |h.done|..]))
  }

  lemma SampleFills(h: Hist, seen: seq<Vec3>, odom: Odom)
    requires h.c.Shaped() && Filled(h, seen)
    ensures Filled(Sampled(h, odom), seen + [SanityClip(h.c.limits, odom.observed)])
  {
    hide MovingAvgWithLinearDecay, BlockValue, SanityClip;
    var x, k := SanityClip(h.c.limits, odom.observed), |h.done|;
    var g, all, part := Sampled(h, odom), seen + [x], seen[100 * k..];
    SampleJoins(h.c.rpys[h.c.blockIdx], part, x);
    assert all[100 * k..] == part + [x];
    forall i | 0 <= i < k
      ensures all[100 * i..100 * i + 100] == seen[100 * i..100 * i + 100]
    {
    }
    if g.c.idx == 0 {
      assert all[100 * k..100 * k + 100] == part + [x];
    }
  }

  /** On every run each block is the weighted sum of the clipped samples it was given, and of no others. */
  lemma {:induction false} BlocksHoldSamples(h: Hist, odoms: seq<Odom>)
    requires Inv(h) && h.done == [] && h.c.idx == 0
    ensures Run(h, odoms).c.limits == h.c.limits && Filled(Run(h, odoms), Seen(h, odoms))
    decreases |odoms|
  {
    hide Sampled, Resets, SanityClip, RingMatches, BlockValue;
    if odoms != [] {
      var before, odom := odoms[..|odoms| - 1], odoms[|odoms| - 1];
      var r := Run(h, before);
      BlocksHoldSamples(h, before);
      SampledKeepsLimits(r, odom);
      if Accepted(r.c, odom) {
        SampleFills(r, Seen(h, before), odom);
      }
    }
  }

  lemma SampledKeepsLimits(h: Hist, odom: Odom)
    requires h.c.Shaped()
    ensures Sampled(h, odom).c.limits == h.c.limits
  {
  }

  /** The clipped vector is the nearest one in the box, and a vector with a NaN counts as zero. */
  lemma ClipIsNearest(l: Limits, v: Vec3, u: Vec3)
    requires Sane(l) && InBox(l, u)
    ensures var c := SanityClip(l, Some(v));
            && InBox(l, c) && c.roll == v.roll
            && Distance(c.pitch, v.pitch) <= Distance(u.pitch, v.pitch)
            && Distance(c.yaw, v.yaw) <= Distance(u.yaw, v.yaw)
    ensures SanityClip(l, None) == Vec3(0.0, 0.0, 0.0)
  {
  }

  function ShiftedSum(vs: seq<Vec3>, m: Vec3): Vec3 {
    if vs == [] then RPY_INIT else Add(Add(vs[0], Scale(-1.0, m)), ShiftedSum(vs[1..], m))
  }

  lemma {:induction false} ShiftedSumIs(vs: seq<Vec3>, m: Vec3)
    ensures ShiftedSum(vs, m) == Add(Sum(vs), Scale(-(|vs| as real), m))
  {
    if vs != [] {
      ShiftedSumIs(vs[1..], m);
      assert |vs| as real == |vs[1..]| as real + 1.0;
    }
  }

  /** The mean of the blocks in use is where their deviations cancel. */
  lemma MeanBalances(vs: seq<Vec3>)
    requires vs != []
    ensures ShiftedSum(vs, Mean(vs)) == Vec3(0.0, 0.0, 0.0)
  {
    ShiftedSumIs(vs, Mean(vs));
    var n, s := |vs| as real, Sum(vs);
    Reals.Cancel(n, s.roll);
    Reals.Cancel(n, s.pitch);
    Reals.Cancel(n, s.yaw);
    hide Sum, ShiftedSum;
    CancelMean(n, s.roll);
    CancelMean(n, s.pitch);
    CancelMean(n, s.yaw);
  }

  lemma CancelMean(n: real, x: real)
    requires n != 0.0
    ensures -n * ((1.0 / n) * x) == -x
  {
    assert n * (1.0 / n) == 1.0;
    Reals.Regroup(n, 1.0 / n, x);
  }

  // ---------- the status ----------

  /**
    The status told by the history: below five blocks it says whether a spread reset has happened,
    from five on whether the mean is within the limits.
   */
  ghost predicate StatusFits(h: Hist) {
    h.c.calStatus ==
      if h.c.validBlocks < INPUTS_NEEDED then (if h.from.Some? then Recalibrating else Uncalibrated)
      else
        var limits, rpy := h.c.limits, h.c.rpy;
        if limits.pitchLo < rpy.pitch < limits.pitchHi && limits.yawLo < rpy.yaw < limits.yawHi then Calibrated else Invalid
  }

  lemma UpdatedStatusFits(g: Hist)
    requires g.c.Shaped()
    requires g.c.validBlocks < INPUTS_NEEDED ==> (g.c.calStatus == Recalibrating <==> g.from.Some?)
    ensures StatusFits(Updated(g))
  {
    hide Mean, Spread;
  }

  lemma NextStatusFits(h: Hist, odom: Odom)
    requires Inv(h) && StatusFits(h)
    ensures StatusFits(Next(h, odom))
  {
    if Accepted(h.c, odom) {
      UpdatedStatusFits(Sampled(h, odom));
    }
  }

  /** On every run from start-up the published status tells the history. */
  lemma {:induction false} RunStatusFits(limits: Limits, rpyInit: Option<Vec3>, validBlocks: int, odoms: seq<Odom>)
    requires validBlocks <= INPUTS_WANTED
    ensures StatusFits(Run(Begin(limits, rpyInit, validBlocks), odoms))
    decreases |odoms|
  {
    var h := Begin(limits, rpyInit, validBlocks);
    StartInv(limits, rpyInit, validBlocks);
    if odoms == [] {
      var blank := Cal(limits, h.base, [], 0, 0, 0, RPY_INIT, 0.0, Uncalibrated, RPY_INIT);
      var r := Reset(blank, h.base, h.startBlocks, None);
      FreshWindow(r, h.base);
      UpdatedStatusFits(Hist(r, [], h.base, h.startBlocks, 0, None));
    } else {
      var before := odoms[..|odoms| - 1];
      RunStatusFits(limits, rpyInit, validBlocks, before);
      RunInv(h, before);
      NextStatusFits(Run(h, before), odoms[|odoms| - 1]);
    }
  }

  // ---------- the fade ----------

  /** At the reset itself the published value does not jump. */
  lemma ResetDoesNotJump(g: Hist)
    requires Inv(g) && Resets(g.c)
    ensures Updated(g).c.GetSmoothRpy() == Assessed(g.c).rpy == Assessed(g.c).GetSmoothRpy()
  {
    SpreadResetIsSettled(g);
  }

  /** Up to ten calls after a reset the published value moves linearly from the old mean to the block. */
  lemma FadeIsLinear(h: Hist)
    requires Inv(h) && h.from.Some? && h.calls <= SMOOTH_CYCLES
    ensures h.c.GetSmoothRpy()
            == Blend(1.0 - h.calls as real / SMOOTH_CYCLES as real, h.from.value, h.base)
  {
  }

  /** Feeding `odoms` without another reset only counts the calls. */
  lemma {:induction false} RunWithoutReset(h: Hist, odoms: seq<Odom>)
    requires Inv(h) && h.from.Some? && |odoms| + h.calls <= SMOOTH_CYCLES
    ensures var r := Run(h, odoms);
            r.from == h.from && r.base == h.base && r.calls == h.calls + |odoms|
    decreases |odoms|
  {
    if odoms != [] {
      var before := odoms[..|odoms| - 1];
      RunWithoutReset(h, before);
      RunInv(h, before);
      var r, odom := Run(h, before), odoms[|odoms| - 1];
      if ResetsOn(r, odom) {
        SampledInv(r, odom);
        SpreadResetIsSettled(Sampled(r, odom));
        assert false;
      }
    }
  }

  lemma FadeAfter(r: Hist, odoms: seq<Odom>)
    requires Inv(r) && r.from.Some? && r.calls == 0 && |odoms| <= SMOOTH_CYCLES
    ensures Run(r, odoms).c.GetSmoothRpy()
            == Blend(1.0 - |odoms| as real / SMOOTH_CYCLES as real, r.from.value, r.base)
  {
    RunWithoutReset(r, odoms);
    RunInv(r, odoms);
    var end := Run(r, odoms);
    assert end.calls == |odoms| && end.from == r.from && end.base == r.base;
    FadeIsLinear(end);
  }

  /**
    After k <= 10 calls that follow a spread reset, whatever the messages were, the published
    value is (1 - k/10) of the mean before the reset plus k/10 of the newest completed block.
   */
  lemma PublishedAfterReset(h: Hist, odom: Odom, odoms: seq<Odom>)
    requires Inv(h) && ResetsOn(h, odom) && |odoms| <= SMOOTH_CYCLES
    ensures var k := |odoms| as real / SMOOTH_CYCLES as real;
            var g := Sampled(h, odom);
            g.done != [] &&
            Run(Next(h, odom), odoms).c.GetSmoothRpy()
            == Blend(1.0 - k, Assessed(g.c).rpy, g.done[|g.done| - 1])
  {
    SampledInv(h, odom);
    SpreadResetIsSettled(Sampled(h, odom));
    UpdatedInv(Sampled(h, odom));
    FadeAfter(Updated(Sampled(h, odom)), odoms);
  }

  // ---------- when a reset happens ----------

  /** An accepted message that observes `w`. */
  predicate Observes(odom: Odom, w: Vec3) {
    odom == Odom(true, true, true, Some(w))
  }

  lemma SteadyAverage(w: Vec3, idx: nat)
    requires idx <= BLOCK_SIZE
    ensures MovingAvgWithLinearDecay(w, w, idx) == w
  {
  }

  lemma FirstOfBlock(v: Vec3, w: Vec3)
    ensures MovingAvgWithLinearDecay(v, w, 0) == w
  {
  }

  /** `k` observations of `w` on top of `n` restored blocks of `v`, within the first block. */
  ghost predicate Filling(h: Hist, limits: Limits, v: Vec3, n: nat, w: Vec3, k: nat) {
    && Inv(h) && h.from == None && h.done == [] && h.base == v && h.startBlocks == n && h.c.limits == limits
    && h.c.idx == k && h.c.blockIdx == 0 && (k > 0 ==> h.c.rpys[0] == w)
  }

  lemma FillingStep(h: Hist, limits: Limits, v: Vec3, n: nat, w: Vec3, k: nat, odom: Odom)
    requires Filling(h, limits, v, n, w, k) && k < BLOCK_SIZE && InBox(limits, w) && Observes(odom, w)
    ensures var g := Sampled(h, odom);
            && Inv(g) && g.c.limits == limits && g.c.rpys == h.c.rpys[0 := w] && g.startBlocks == n
            && (k + 1 < BLOCK_SIZE ==> Filling(Next(h, odom), limits, v, n, w, k + 1))
            && (k + 1 == BLOCK_SIZE ==> g.c.blockIdx == 1 && g.done == [w] && g.base == v && g.c.idx == 0)
  {
    hide RingMatches, MovingAvgWithLinearDecay, FadeWeight, Mean, Spread;
    var g := Sampled(h, odom);
    SampledInv(h, odom);
    if k == 0 {
      FirstOfBlock(h.c.rpys[0], w);
    } else {
      SteadyAverage(w, k);
    }
    if k + 1 < BLOCK_SIZE {
      FreshWindow(g.c, v);
      UpdatedInv(g);
    }
  }

  lemma {:induction false} FillingRun(limits: Limits, v: Vec3, n: nat, w: Vec3, odoms: seq<Odom>)
    requires n <= INPUTS_WANTED && |odoms| < BLOCK_SIZE && InBox(limits, w) && forall odom <- odoms :: Observes(odom, w)
    ensures Filling(Run(Begin(limits, Some(v), n), odoms), limits, v, n, w, |odoms|)
    decreases |odoms|
  {
    hide Inv;
    StartInv(limits, Some(v), n);
    if odoms == [] {
      StartFilling(limits, v, n, w);
    } else {
      var before := odoms[..|odoms| - 1];
      FillingRun(limits, v, n, w, before);
      FillingStep(Run(Begin(limits, Some(v), n), before), limits, v, n, w, |before|, odoms[|odoms| - 1]);
    }
  }

  lemma StartFilling(limits: Limits, v: Vec3, n: nat, w: Vec3)
    requires n <= INPUTS_WANTED
    ensures Filling(Begin(limits, Some(v), n), limits, v, n, w, 0)
  {
    hide Mean, Spread;
    StartInv(limits, Some(v), n);
    var blank := Cal(limits, v, [], 0, 0, 0, RPY_INIT, 0.0, Uncalibrated, RPY_INIT);
    FreshWindow(Reset(blank, v, n, None), v);
  }

  /** The blocks in use: the new one, and the others that were restored. */
  function OneAgainst(w: Vec3, v: Vec3, others: nat): seq<Vec3> {
    [w] + seq(others, i requires 0 <= i => v)
  }

  lemma WindowOfFirstBlock(g: Hist, v: Vec3, n: nat, w: Vec3)
    requires Inv(g) && g.c.blockIdx == 1 && g.done == [w] && g.base == v && g.c.idx == 0 && g.startBlocks == n
    requires 2 <= n <= INPUTS_WANTED
    ensures g.c.ValidRows() == OneAgainst(w, v, n - 2) && g.c.validBlocks == n
  {
    var rows := g.c.ValidRows();
    var idxs := GetValidIdxs(1, n);
    assert g.c.rpys[0] == w;
    forall k | 0 < k < |idxs|
      ensures rows[k] == v
    {
      assert idxs[k] == k + 1;
    }
  }

  function Distance(x: real, y: real): real {
    if x > y then x - y else y - x
  }

  lemma ExtentOfTwo(xs: seq<real>, x: real, y: real)
    requires |xs| >= 2 && xs[0] == x && forall i :: 0 < i < |xs| ==> xs[i] == y
    ensures Extent(xs) == Distance(x, y)
  {
    var lo, hi := ExtentBounds(xs);
    assert xs[lo] <= xs[1] <= xs[hi] && xs[lo] <= xs[0] <= xs[hi];
  }

  lemma OneAgainstOthers(w: Vec3, v: Vec3, others: nat)
    requires others >= 1
    ensures var rows := OneAgainst(w, v, others);
            && Mean(rows) == Scale(1.0 / (others + 1) as real, Add(w, Scale(others as real, v)))
            && Spread(rows).pitch == Distance(w.pitch, v.pitch) && Spread(rows).yaw == Distance(w.yaw, v.yaw)
  {
    var rows := OneAgainst(w, v, others);
    SumOfEqual(rows[1..], v);
    ExtentOfTwo(Pitches(rows), w.pitch, v.pitch);
    ExtentOfTwo(Yaws(rows), w.yaw, v.yaw);
  }

  /**
    A camera that moved: after restoring n >= 5 blocks of `v`, the spread check fires on the 100th
    observation of `w` exactly if `w` is too far from `v` and the mean over the window is still within
    the limits; it does not fire before.
   */
  lemma MovedCameraResetsIff(limits: Limits, v: Vec3, n: nat, w: Vec3, odoms: seq<Odom>)
    requires INPUTS_NEEDED <= n <= INPUTS_WANTED && InBox(limits, w)
    requires |odoms| == BLOCK_SIZE && forall odom <- odoms :: Observes(odom, w)
    ensures forall k :: 0 <= k < BLOCK_SIZE ==> Run(Begin(limits, Some(v), n), odoms[..k]).from == None
    ensures var h := Run(Begin(limits, Some(v), n), odoms[..BLOCK_SIZE - 1]);
            Inv(h) &&
            (ResetsOn(h, odoms[BLOCK_SIZE - 1]) <==>
               && (Distance(w.pitch, v.pitch) > MAX_ALLOWED_PITCH_SPREAD || Distance(w.yaw, v.yaw) > MAX_ALLOWED_YAW_SPREAD)
               && IsCalibrationValid(limits, Scale(1.0 / (n - 1) as real, Add(w, Scale((n - 2) as real, v)))))
  {
    hide Run, Inv, Mean, Spread, IsCalibrationValid, Scale;
    forall k | 0 <= k < BLOCK_SIZE
      ensures Run(Begin(limits, Some(v), n), odoms[..k]).from == None
    {
      FillingRun(limits, v, n, w, odoms[..k]);
    }
    var odom := odoms[BLOCK_SIZE - 1];
    var h := Run(Begin(limits, Some(v), n), odoms[..BLOCK_SIZE - 1]);
    FillingRun(limits, v, n, w, odoms[..BLOCK_SIZE - 1]);
    FillingStep(h, limits, v, n, w, BLOCK_SIZE - 1, odom);
    WindowOfFirstBlock(Sampled(h, odom), v, n, w);
    OneAgainstOthers(w, v, n - 2);
  }

  /** A reachable state and a message on which the check does fire: restored level, then tilted by 0.1. */
  lemma ResetsHappen()
    ensures exists h: Hist, odom :: Inv(h) && ResetsOn(h, odom)
  {
    hide Run, Inv, ResetsOn, Start, Scale, IsCalibrationValid;
    var w := Vec3(0.0, 0.1, 0.0);
    var odoms := seq(BLOCK_SIZE, _ => Odom(true, true, true, Some(w)));
    MovedCameraResetsIff(TICI_LIMITS, RPY_INIT, 5, w, odoms);
    TiltIsValid(w);
    var h := Run(Begin(TICI_LIMITS, Some(RPY_INIT), 5), odoms[..BLOCK_SIZE - 1]);
    assert Inv(h);
    assert ResetsOn(h, odoms[BLOCK_SIZE - 1]);
  }

  lemma TiltIsValid(w: Vec3)
    requires w == Vec3(0.0, 0.1, 0.0)
    ensures IsCalibrationValid(TICI_LIMITS, Scale(1.0 / (5 - 1) as real, Add(w, Scale((5 - 2) as real, RPY_INIT))))
  {
    assert Scale(1.0 / 4.0, Add(w, Scale(3.0, RPY_INIT))) == Vec3(0.0, 0.025, 0.0);
  }

  // ---------- the sanity box ----------

  predicate Sane(l: Limits) {
    l.pitchLo <= 0.0 <= l.pitchHi && l.yawLo <= 0.0 <= l.yawHi
  }

  lemma DeviceLimitsSane()
    ensures Sane(TICI_LIMITS) && Sane(MICI_LIMITS)
  {
  }

  predicate InBox(l: Limits, v: Vec3) {
    && l.pitchLo - MARGIN <= v.pitch <= l.pitchHi + MARGIN
    && l.yawLo - MARGIN <= v.yaw <= l.yawHi + MARGIN
  }

  ghost predicate Boxed(c: Cal) {
    Sane(c.limits) && InBox(c.limits, c.rpy) && InBox(c.limits, c.oldRpy)
    && 0.0 <= c.oldRpyWeight <= 1.0 && forall i :: 0 <= i < |c.rpys| ==> InBox(c.limits, c.rpys[i])
  }

  lemma BlendInBox(l: Limits, w: real, a: Vec3, b: Vec3)
    requires 0.0 <= w <= 1.0 && InBox(l, a) && InBox(l, b)
    ensures InBox(l, Blend(w, a, b))
  {
    Reals.Convex(w, a.pitch, b.pitch, l.pitchLo - MARGIN, l.pitchHi + MARGIN);
    Reals.Convex(w, a.yaw, b.yaw, l.yawLo - MARGIN, l.yawHi + MARGIN);
  }

  lemma MovingAvgInBox(l: Limits, prev: Vec3, newVal: Vec3, idx: nat)
    requires idx < BLOCK_SIZE && InBox(l, prev) && InBox(l, newVal)
    ensures InBox(l, MovingAvgWithLinearDecay(prev, newVal, idx))
  {
    var w := idx as real / BLOCK_SIZE as real;
    BlendInBox(l, w, prev, newVal);
    assert (BLOCK_SIZE - idx) as real == BLOCK_SIZE as real - idx as real;
  }

  lemma {:induction false} SumInBox(l: Limits, vs: seq<Vec3>)
    requires forall i :: 0 <= i < |vs| ==> InBox(l, vs[i])
    ensures var n := |vs| as real;
            && n * (l.pitchLo - MARGIN) <= Sum(vs).pitch <= n * (l.pitchHi + MARGIN)
            && n * (l.yawLo - MARGIN) <= Sum(vs).yaw <= n * (l.yawHi + MARGIN)
  {
    if vs != [] {
      SumInBox(l, vs[1..]);
      var n, s := |vs[1..]| as real, Sum(vs[1..]);
      assert |vs| as real == n + 1.0;
      OneMoreInBounds(n, s.pitch, vs[0].pitch, l.pitchLo - MARGIN, l.pitchHi + MARGIN, |vs| as real);
      OneMoreInBounds(n, s.yaw, vs[0].yaw, l.yawLo - MARGIN, l.yawHi + MARGIN, |vs| as real);
    }
  }

  lemma OneMoreInBounds(n: real, sum: real, x: real, lo: real, hi: real, m: real)
    requires n * lo <= sum <= n * hi && lo <= x <= hi && m == n + 1.0
    ensures m * lo <= x + sum <= m * hi
  {
    Reals.Distribute(n, 1.0, lo);
    Reals.Distribute(n, 1.0, hi);
  }

  lemma MeanPitchBounds(vs: seq<Vec3>, lo: real, hi: real)
    requires vs != [] && |vs| as real * lo <= Sum(vs).pitch <= |vs| as real * hi
    ensures lo <= Mean(vs).pitch <= hi
  {
    Reals.DivideBounds(|vs| as real, lo, Sum(vs).pitch, hi);
  }

  lemma MeanYawBounds(vs: seq<Vec3>, lo: real, hi: real)
    requires vs != [] && |vs| as real * lo <= Sum(vs).yaw <= |vs| as real * hi
    ensures lo <= Mean(vs).yaw <= hi
  {
    Reals.DivideBounds(|vs| as real, lo, Sum(vs).yaw, hi);
  }

  lemma MeanInBox(l: Limits, vs: seq<Vec3>)
    requires vs != [] && forall i :: 0 <= i < |vs| ==> InBox(l, vs[i])
    ensures InBox(l, Mean(vs))
  {
    SumInBox(l, vs);
    MeanPitchBounds(vs, l.pitchLo - MARGIN, l.pitchHi + MARGIN);
    MeanYawBounds(vs, l.yawLo - MARGIN, l.yawHi + MARGIN);
  }

  lemma UpdateStatusBoxed(c: Cal)
    requires c.Shaped() && Boxed(c)
    ensures Boxed(UpdateStatus(c))
  {
    var rows := c.ValidRows();
    if rows != [] {
      MeanInBox(c.limits, rows);
    }
  }

  lemma HandleBoxed(c: Cal, odom: Odom)
    requires c.Shaped() && Boxed(c)
    ensures Boxed(HandleCamOdom(c, odom))
  {
    if Accepted(c, odom) {
      var v := SanityClip(c.limits, odom.observed);
      MovingAvgInBox(c.limits, c.rpys[c.blockIdx], v, c.idx);
      var m := Pushed(Decayed(c), v);
      UpdateStatusBoxed(m);
    }
  }

  lemma {:induction false} RunBoxed(h: Hist, odoms: seq<Odom>)
    requires h.c.Shaped() && Boxed(h.c)
    ensures Boxed(Run(h, odoms).c) && Run(h, odoms).c.limits == h.c.limits
    decreases |odoms|
  {
    if odoms != [] {
      RunBoxed(h, odoms[..|odoms| - 1]);
      HandleBoxed(Run(h, odoms[..|odoms| - 1]).c, odoms[|odoms| - 1]);
    }
  }

  lemma PublishedInBox(c: Cal)
    requires Boxed(c)
    ensures InBox(c.limits, c.GetSmoothRpy())
  {
    if c.oldRpyWeight > 0.0 {
      BlendInBox(c.limits, c.oldRpyWeight, c.oldRpy, c.rpy);
    }
  }

  /** From a start inside the sanity box every stored and every published vector stays inside, on every run. */
  lemma RunStaysInBox(limits: Limits, rpyInit: Option<Vec3>, validBlocks: int, odoms: seq<Odom>)
    requires validBlocks <= INPUTS_WANTED && Sane(limits)
    requires rpyInit.Some? ==> InBox(limits, rpyInit.value)
    ensures var c := Run(Begin(limits, rpyInit, validBlocks), odoms).c;
            Boxed(c) && c.limits == limits && InBox(limits, c.GetSmoothRpy())
  {
    var h := Begin(limits, rpyInit, validBlocks);
    var blank := Cal(limits, h.base, [], 0, 0, 0, RPY_INIT, 0.0, Uncalibrated, RPY_INIT);
    UpdateStatusBoxed(Reset(blank, h.base, h.startBlocks, None));
    RunBoxed(h, odoms);
    PublishedInBox(Run(h, odoms).c);
  }

  /** So it is on either device. */
  lemma DevicesStayInBox(mici: bool, rpyInit: Option<Vec3>, validBlocks: int, odoms: seq<Odom>)
    requires var limits := if mici then MICI_LIMITS else TICI_LIMITS;
             validBlocks <= INPUTS_WANTED && (rpyInit.Some? ==> InBox(limits, rpyInit.value))
    ensures var limits := if mici then MICI_LIMITS else TICI_LIMITS;
            var c := Run(Begin(limits, rpyInit, validBlocks), odoms).c;
            Boxed(c) && InBox(limits, c.GetSmoothRpy())
  {
    hide Run, Boxed;
    DeviceLimitsSane();
    RunStaysInBox(if mici then MICI_LIMITS else TICI_LIMITS, rpyInit, validBlocks, odoms);
  }
}
