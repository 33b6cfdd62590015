/** History queues of the driving model: one channel of the time axis of each input. */
module InputQueues {
  import Multiples

  // The name decides how an input is read back.
  datatype Key = Key(name: string, pulse: bool)

  // ---------- calculation ----------

  function Zeros(n: nat): seq<real> {
    seq(n, _ => 0.0)
  }

  /** The oldest rows shift out at the front, the new ones go in at the end. */
  function Enqueued(q: seq<real>, input: seq<real>): seq<real>
    requires |input| <= |q|
  {
    q[|input|..] + input
  }

  function Arange(start: int, stop: int, step: int): (r: seq<int>)
    requires step < 0
    ensures forall v :: v in r ==> stop < v <= start
    decreases start - stop
  {
    if start <= stop then [] else [start] + Arange(start + step, stop, step)
  }

  function Reversed(s: seq<int>): (r: seq<int>)
    ensures |r| == |s| && forall k :: 0 <= k < |s| ==> r[k] == s[|s| - 1 - k]
  {
    if s == [] then [] else Reversed(s[1..]) + [s[0]]
  }

  function MaxOf(s: seq<real>): real
    requires s != []
  {
    if |s| == 1 then s[0]
    else var m := MaxOf(s[..|s| - 1]); if m < s[|s| - 1] then s[|s| - 1] else m
  }

  /** Every r-th row counted from the latest, oldest first. */
  function GetFeatures(q: seq<real>, r: nat): seq<real>
    requires r >= 1
  {
    var idxs := Reversed(Arange(-1, -|q|, 0 - r));
    seq(|idxs|, j requires 0 <= j < |idxs| =>
      assert idxs[j] in Arange(-1, -|q|, 0 - r) by { ReversedKeeps(Arange(-1, -|q|, 0 - r), j); }
      q[|q| + idxs[j]])
  }

  lemma ReversedKeeps(s: seq<int>, j: nat)
    requires j < |s|
    ensures Reversed(s)[j] in s
  {
  }

  lemma InGroup(j: int, n: nat, r: nat)
    requires 0 <= j < n
    ensures 0 <= r * j && r * j + r <= r * n
  {
    Multiples.NextMultiple(r, j, n);
  }

  /** The maximum of each group of r rows. */
  function GetPulses(q: seq<real>, r: nat, n: nat): seq<real>
    requires r >= 1 && |q| == r * n
  {
    seq(n, j requires 0 <= j < n => InGroup(j, n, r); MaxOf(q[r * j..r * j + r]))
  }

  // ---------- what the slots hold ----------

  /** The row enqueued `back` rows before the latest, and zero before the start. */
  function Ago(history: seq<real>, back: int): real {
    if 0 <= back < |history| then history[|history| - 1 - back] else 0.0
  }

  /** A queue that holds the latest rows of a history. */
  ghost predicate Holds(q: seq<real>, history: seq<real>) {
    forall k :: 0 <= k < |q| ==> q[k] == Ago(history, |q| - 1 - k)
  }

  lemma EnqueueHolds(q: seq<real>, history: seq<real>, input: seq<real>)
    requires Holds(q, history) && |input| <= |q|
    ensures Holds(Enqueued(q, input), history + input)
  {
    var t, h := Enqueued(q, input), history + input;
    forall k | 0 <= k < |t|
      ensures t[k] == Ago(h, |t| - 1 - k)
    {
      if k < |q| - |input| {
        assert t[k] == q[k + |input|];
      }
    }
  }

  lemma {:induction false} ArangeAt(start: int, n: nat, r: nat, k: nat)
    requires r >= 2 && k < n
    ensures var s := Arange(start, start + 1 - r * n, 0 - r);
            |s| == n && s[k] == start - r * k
    decreases n
  {
    InGroup(0, n, r);
    if n == 1 {
      assert Arange(start - r, start + 1 - r, 0 - r) == [];
    } else {
      assert start + 1 - r * n == (start - r) + 1 - r * (n - 1);
      ArangeAt(start - r, n - 1, r, if k == 0 then 0 else k - 1);
      if k > 0 {
        assert r * k == r + r * (k - 1);
      }
    }
  }

  /** Slot j of n shows the row enqueued r * (n - 1 - j) rows before the latest. */
  lemma FeatureSlot(q: seq<real>, history: seq<real>, r: nat, n: nat, j: nat)
    requires r >= 2 && |q| == r * n && Holds(q, history) && j < n
    ensures |GetFeatures(q, r)| == n
    ensures GetFeatures(q, r)[j] == Ago(history, r * (n - 1 - j))
  {
    ArangeAt(-1, n, r, n - 1 - j);
    InGroup(n - 1 - j, n, r);
    assert -1 + 1 - r * n == -|q|;
    var idxs := Reversed(Arange(-1, -|q|, 0 - r));
    assert idxs[j] == -1 - r * (n - 1 - j);
  }

  /** The last slot shows the latest row, and each slot before it a row `r` older. */
  ghost predicate ShowsEvery(out: seq<real>, history: seq<real>, r: nat) {
    forall j :: 0 <= j < |out| ==> out[j] == Ago(history, r * (|out| - 1 - j))
  }

  lemma FeaturesShown(q: seq<real>, history: seq<real>, r: nat, n: nat)
    requires r >= 2 && |q| == r * n && Holds(q, history)
    ensures |GetFeatures(q, r)| == n && ShowsEvery(GetFeatures(q, r), history, r)
  {
    hide GetFeatures;
    if n == 0 {
      assert |q| == 0;
      NothingShown(r);
      assert q == [];
    } else {
      FeatureSlot(q, history, r, n, 0);
      forall j | 0 <= j < n
        ensures GetFeatures(q, r)[j] == Ago(history, r * (n - 1 - j))
      {
        FeatureSlot(q, history, r, n, j);
      }
    }
  }

  lemma NothingShown(r: nat)
    requires r >= 1
    ensures GetFeatures([], r) == []
  {
  }

  lemma {:induction false} MaxOfIs(s: seq<real>)
    requires s != []
    ensures MaxOf(s) in s && forall k :: 0 <= k < |s| ==> s[k] <= MaxOf(s)
  {
    if |s| > 1 {
      MaxOfIs(s[..|s| - 1]);
      forall k | 0 <= k < |s|
        ensures s[k] <= MaxOf(s)
      {
        if k < |s| - 1 {
          assert s[..|s| - 1][k] == s[k];
        }
      }
    }
  }

  /** The group of r rows behind slot j, by age: from first + r - 1 down to first. */
  lemma GroupHolds(q: seq<real>, history: seq<real>, r: nat, n: nat, j: nat) returns (first: nat, group: seq<real>)
    requires r >= 1 && |q| == r * n && Holds(q, history) && j < n
    ensures first == r * (n - 1 - j) && 0 <= r * j && r * j + r <= |q|
    ensures group == q[r * j..r * j + r] && |group| == r
    ensures forall k :: 0 <= k < |group| ==> group[k] == Ago(history, first + (r - 1 - k))
  {
    InGroup(j, n, r);
    InGroup(n - 1 - j, n, r);
    first := r * (n - 1 - j);
    RowsAround(r, n, j, first);
    var from := r * j;
    group := q[from..from + r];
    forall k | 0 <= k < |group|
      ensures group[k] == Ago(history, first + (r - 1 - k))
    {
      assert group[k] == q[from + k] == Ago(history, |q| - 1 - (from + k));
    }
  }

  lemma RowsAround(r: nat, n: nat, j: nat, first: nat)
    requires j < n && first == r * (n - 1 - j)
    ensures r * n == r * j + r + first
  {
    assert r * n == r * (j + 1 + (n - 1 - j));
  }

  /** Slot j shows the largest of the r rows enqueued r * (n - 1 - j) and up to r - 1 more rows ago. */
  lemma PulseSlot(q: seq<real>, history: seq<real>, r: nat, n: nat, j: nat) returns (witnessed: nat)
    requires r >= 1 && |q| == r * n && Holds(q, history) && j < n
    ensures |GetPulses(q, r, n)| == n
    ensures SlotOf(n, r, witnessed) == j && GetPulses(q, r, n)[j] == Ago(history, witnessed)
    ensures forall back: nat :: SlotOf(n, r, back) == j ==> Ago(history, back) <= GetPulses(q, r, n)[j]
  {
    hide Holds, MaxOf, SlotOf;
    var first, group := GroupHolds(q, history, r, n, j);
    assert GetPulses(q, r, n)[j] == MaxOf(group);
    hide GetPulses;
    MaxOfIs(group);
    var k :| 0 <= k < |group| && group[k] == MaxOf(group);
    witnessed := first + (r - 1 - k);
    SlotOfRange(n, r, witnessed, j);
    PulseCount(q, r, n);
    forall back: nat | SlotOf(n, r, back) == j
      ensures Ago(history, back) <= GetPulses(q, r, n)[j]
    {
      SlotOfRange(n, r, back, j);
      assert group[r - 1 - (back - first)] == Ago(history, back);
    }
  }

  /** The slot a row of this age shows in; a row too old for all of them has a negative one. */
  function SlotOf(n: nat, r: nat, back: nat): int
    requires r >= 1
  {
    n - 1 - back / r
  }

  lemma SlotOfRange(n: nat, r: nat, back: nat, j: int)
    requires r >= 1
    ensures SlotOf(n, r, back) == j <==> r * (n - 1 - j) <= back < r * (n - 1 - j) + r
  {
    var d := n - 1 - j;
    if r * d <= back < r * d + r {
      Multiples.DivideExactly(back, r, d);
    }
    Multiples.DivideExactly(back, r, back / r);
  }

  /** Each slot shows the largest of the rows whose age belongs to it, and one of them. */
  ghost predicate ShowsLargest(out: seq<real>, history: seq<real>, r: nat)
    requires r >= 1
  {
    forall j :: 0 <= j < |out| ==> IsLargest(out[j], history, |out|, r, j)
  }

  ghost predicate IsLargest(v: real, history: seq<real>, n: nat, r: nat, j: nat)
    requires r >= 1
  {
    && (exists back: nat :: SlotOf(n, r, back) == j && Ago(history, back) == v)
    && forall back: nat :: SlotOf(n, r, back) == j ==> Ago(history, back) <= v
  }

  lemma PulsesShown(q: seq<real>, history: seq<real>, r: nat, n: nat)
    requires r >= 1 && |q| == r * n && Holds(q, history)
    ensures |GetPulses(q, r, n)| == n && ShowsLargest(GetPulses(q, r, n), history, r)
  {
    hide GetPulses, Holds, SlotOf;
    if n == 0 {
      PulseCount(q, r, n);
    }
    forall j | 0 <= j < n
      ensures |GetPulses(q, r, n)| == n && IsLargest(GetPulses(q, r, n)[j], history, n, r, j)
    {
      var witnessed := PulseSlot(q, history, r, n, j);
    }
    PulseCount(q, r, n);
  }

  lemma PulseCount(q: seq<real>, r: nat, n: nat)
    requires r >= 1 && |q| == r * n
    ensures |GetPulses(q, r, n)| == n
  {
    hide MaxOf;
  }

  /** At equal rates the queue itself is every row, and the largest of each single row. */
  lemma WholeQueueShown(q: seq<real>, history: seq<real>)
    requires Holds(q, history)
    ensures ShowsEvery(q, history, 1) && ShowsLargest(q, history, 1)
  {
    assert |q| == 1 * |q|;
    PulsesShown(q, history, 1, |q|);
    assert GetPulses(q, 1, |q|) == q;
  }

  /** Each row of the last r * n shows in exactly one slot; an older one in none. */
  lemma OneSlotEach(n: nat, r: nat, back: nat)
    requires r >= 1
    ensures 0 <= SlotOf(n, r, back) < n <==> back < r * n
  {
    Multiples.Quotient(back, r);
    if back / r < n {
      Multiples.NextMultiple(r, back / r, n);
    } else if n < back / r {
      Multiples.NextMultiple(r, n, back / r);
    }
  }

  /** A row moves to the slot before after exactly r enqueues of one row. */
  lemma StaysForR(n: nat, r: nat, back: nat, later: nat)
    requires r >= 1 && back % r == 0
    ensures SlotOf(n, r, back + later) == SlotOf(n, r, back) <==> later < r
    ensures later == r ==> SlotOf(n, r, back + later) == SlotOf(n, r, back) - 1
  {
    Multiples.DivideExactly(back, r, back / r);
    assert back == r * (back / r);
    Multiples.DivideExactly(back + later, r, back / r);
    Multiples.DivideExactly(back + later, r, back / r + 1);
    assert r * (back / r + 1) == back + r;
  }

  // ---------- the object ----------

  class InputQueues {
    const modelFps: nat
    const envFps: nat
    var shapes: map<Key, nat>
    var q: map<Key, seq<real>>
    // all rows enqueued since the last reset
    ghost var histories: map<Key, seq<real>>

    ghost function Ratio(): nat
      requires modelFps > 0
    {
      envFps / modelFps
    }

    ghost predicate Valid()
      reads this
    {
      && modelFps > 0 && envFps % modelFps == 0 && envFps >= modelFps
      && (forall k :: k in shapes ==> IsMultiple(shapes[k], Ratio()))
    }

    /** After a reset every queue holds the latest rows of its history. */
    ghost predicate Ready()
      reads this
    {
      && Valid() && q.Keys == shapes.Keys == histories.Keys
      && forall k :: k in q ==> |q[k]| == shapes[k] && Holds(q[k], histories[k])
    }

    constructor (modelFps: nat, envFps: nat)
      requires modelFps > 0 && envFps % modelFps == 0 && envFps >= modelFps
      ensures Valid() && shapes == map[] && this.modelFps == modelFps && this.envFps == envFps
    {
      this.modelFps, this.envFps := modelFps, envFps;
      shapes, q, histories := map[], map[], map[];
      new;
    }

    /** Each input gets room for `Ratio()` rows of its own per row of the model's. */
    method UpdateShapes(inputShapes: map<Key, nat>)
      requires Valid()
      modifies this`shapes
      ensures Valid() && shapes.Keys == old(shapes.Keys) + inputShapes.Keys
      ensures forall k :: k in inputShapes ==> shapes[k] == Ratio() * inputShapes[k]
      ensures forall k :: k in old(shapes) && k !in inputShapes ==> shapes[k] == old(shapes)[k]
    {
      var r := envFps / modelFps;
      var added := map k | k in inputShapes :: if envFps == modelFps then inputShapes[k] else r * inputShapes[k];
      forall k | k in inputShapes
        ensures added[k] == r * inputShapes[k] && IsMultiple(added[k], r)
      {
        if envFps == modelFps {
          Multiples.DivideExactly(envFps, modelFps, 1);
        }
      }
      shapes := shapes + added;
    }

    method Reset()
      requires Valid()
      modifies this`q, this`histories
      ensures Ready() && histories == map k | k in shapes :: []
      ensures forall k :: k in shapes ==> k in q && |q[k]| == shapes[k] && forall i :: 0 <= i < |q[k]| ==> q[k][i] == 0.0
    {
      q := map k | k in shapes :: Zeros(shapes[k]);
      histories := map k | k in shapes :: [];
    }

    method Enqueue(inputs: map<Key, seq<real>>)
      requires Ready() && forall k :: k in inputs ==> k in q && 1 <= |inputs[k]| <= |q[k]|
      modifies this`q, this`histories
      ensures Ready()
      ensures histories == map k | k in old(histories) ::
                if k in inputs then old(histories)[k] + inputs[k] else old(histories)[k]
    {
      var before, was := q, histories;
      forall k | k in inputs
        ensures Holds(Enqueued(before[k], inputs[k]), was[k] + inputs[k])
      {
        EnqueueHolds(before[k], was[k], inputs[k]);
      }
      q := map k | k in before :: if k in inputs then Enqueued(before[k], inputs[k]) else before[k];
      histories := map k | k in was :: if k in inputs then was[k] + inputs[k] else was[k];
    }

    /** At equal rates the whole queue; otherwise one row, or the largest, of each `Ratio()` rows. */
    method Get(k: Key) returns (out: seq<real>)
      requires Ready() && k in q
      ensures Ratio() >= 1 && |q[k]| == Ratio() * |out|
      ensures !k.pulse ==> ShowsEvery(out, histories[k], Ratio())
      ensures k.pulse ==> ShowsLargest(out, histories[k], Ratio())
    {
      hide GetFeatures, GetPulses, ShowsEvery, ShowsLargest, Holds;
      Multiples.DivideExactly(envFps, modelFps, 0);
      if envFps == modelFps {
        Multiples.DivideExactly(envFps, modelFps, 1);
        WholeQueueShown(q[k], histories[k]);
        out := q[k];
      } else {
        var r := envFps / modelFps;
        GroupCount(|q[k]|, modelFps, envFps, r);
        if k.pulse {
          PulsesShown(q[k], histories[k], r, |q[k]| * modelFps / envFps);
          out := GetPulses(q[k], r, |q[k]| * modelFps / envFps);
        } else {
          AtLeastTwo(modelFps, envFps, r);
          FeaturesShown(q[k], histories[k], r, |q[k]| * modelFps / envFps);
          out := GetFeatures(q[k], r);
        }
      }
    }
  }

  ghost predicate IsMultiple(x: nat, r: nat) {
    exists n: nat :: x == r * n
  }

  lemma GroupCount(len: nat, modelFps: nat, envFps: nat, r: nat)
    requires modelFps > 0 && envFps == r * modelFps && r >= 1 && IsMultiple(len, r)
    ensures envFps > 0 && len == r * (len * modelFps / envFps)
  {
    var n: nat :| len == r * n;
    assert envFps > 0 by {
      assert r * modelFps >= modelFps;
    }
    assert len * modelFps == envFps * n;
    Multiples.DivideExactly(len * modelFps, envFps, n);
  }

  lemma AtLeastTwo(modelFps: nat, envFps: nat, r: nat)
    requires modelFps > 0 && envFps == r * modelFps && envFps > modelFps
    ensures r >= 2
  {
  }
}
