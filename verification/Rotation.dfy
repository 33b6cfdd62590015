/**
  Segment rotation: one logger and several encoders.  The logger closes a segment when every
  encoder has been counted as ready, or on a time-out.
 */
module Rotation {
  import opened Logging
  import Sets
  import opened Wrappers

  /** The logger's segment, its ready count, and its encoders; `max_waiting` is their number. */
  datatype Fleet = Fleet(segment: int, ready: nat, encs: seq<Enc>)

  /** A message on some socket; `timedOut` is the outcome of the clock checks after it. */
  datatype Input =
    | FromEncoder(who: nat, segmentNum: int, keyframe: bool, timedOut: bool)
    | AudioData(timedOut: bool)
    | Other(timedOut: bool)

  function HandleFrom(f: Fleet, who: nat, p: Packet, infos: seq<EncoderInfo>): Fleet
    requires who < |f.encs| == |infos|
  {
    f.(encs := f.encs[who := HandleEncoderMsg(f.encs[who], p, f.segment, infos[who])],
       ready := if NewlyReady(f.encs[who], p, f.segment) then f.ready + 1 else f.ready)
  }

  function AudioFor(f: Fleet, infos: seq<EncoderInfo>): Fleet
    requires |f.encs| == |infos|
  {
    f.(encs := seq(|f.encs|, i requires 0 <= i < |f.encs| =>
                 if infos[i].includeAudio then AudioArrives(f.encs[i]) else f.encs[i]))
  }

  predicate AllReady(f: Fleet) {
    f.ready == |f.encs|
  }

  function LoggerRotate(f: Fleet): Fleet {
    f.(segment := f.segment + 1, ready := 0)
  }

  function RotateIfNeeded(f: Fleet, timedOut: bool): Fleet {
    if AllReady(f) || timedOut then LoggerRotate(f) else f
  }

  // ---------- a run with its history ----------

  /**
    Since the last rotation: encoders that sent a packet of a newer segment, encoders that sent
    one of the logger's segment, encoders counted as ready, and encoders that already carried a
    ready mark when the rotation happened.  `last` is each encoder's last segment number.
   */
  datatype Hist = Hist(f: Fleet, newer: set<nat>, matched: set<nat>, counted: set<nat>, stale: set<nat>,
                       last: seq<Option<int>>)

  function Begin(n: nat): Hist {
    Hist(Fleet(0, 0, seq(n, _ => NewEncoder)), {}, {}, {}, {}, seq(n, _ => None))
  }

  /** Is the input from a known encoder, with a segment number no lower than its last one? */
  predicate Allowed(h: Hist, input: Input) {
    |h.last| == |h.f.encs| &&
    (input.FromEncoder? ==>
       input.who < |h.f.encs| && (h.last[input.who].Some? ==> input.segmentNum >= h.last[input.who].value))
  }

  /** The message is handled; rotation has not been considered yet. */
  function Handled(h: Hist, input: Input, infos: seq<EncoderInfo>): Hist
    requires Allowed(h, input) && |h.f.encs| == |infos|
  {
    match input
    case FromEncoder(who, segmentNum, keyframe, _) =>
      var p := Packet(0, segmentNum, keyframe);
      var num := segmentNum - Greeted(h.f.encs[who], p).segmentOffset;
      Hist(HandleFrom(h.f, who, p, infos),
           if num > h.f.segment then h.newer + {who} else h.newer,
           if num == h.f.segment then h.matched + {who} else h.matched,
           if NewlyReady(h.f.encs[who], p, h.f.segment) then h.counted + {who} else h.counted,
           h.stale, h.last[who := Some(segmentNum)])
    case AudioData(_) => h.(f := AudioFor(h.f, infos))
    case Other(_) => h
  }

  function MarkedOf(f: Fleet): set<nat> {
    set i | 0 <= i < |f.encs| && f.encs[i].marked
  }

  function Next(h: Hist, input: Input, infos: seq<EncoderInfo>): Hist
    requires Allowed(h, input) && |h.f.encs| == |infos|
  {
    var m := Handled(h, input, infos);
    if AllReady(m.f) || input.timedOut then
      Hist(RotateIfNeeded(m.f, input.timedOut), {}, {}, {}, MarkedOf(m.f), m.last)
    else m
  }

  /** A run in which no encoder's segment numbers ever decrease. */
  ghost predicate Reachable(h: Hist, inputs: seq<Input>, infos: seq<EncoderInfo>)
    decreases |inputs|
  {
    if inputs == [] then h == Begin(|infos|)
    else
      exists h0 :: Reachable(h0, inputs[..|inputs| - 1], infos) && |h0.f.encs| == |infos|
                   && Allowed(h0, inputs[|inputs| - 1]) && h == Next(h0, inputs[|inputs| - 1], infos)
  }

  // ---------- invariant ----------

  ghost predicate EncoderInv(h: Hist, i: nat)
    requires i < |h.f.encs| == |h.last|
  {
    var e := h.f.encs[i];
    && (i in h.counted <==> i in h.newer && (i !in h.stale || i in h.matched))
    && (e.marked <==> i in h.counted || (i in h.stale && i !in h.matched))
    && (e.seenFirst <==> h.last[i].Some?)
    && (i in h.newer ==> e.seenFirst && h.last[i].value - e.segmentOffset > h.f.segment)
    && (i in h.matched ==> e.seenFirst && h.last[i].value - e.segmentOffset >= h.f.segment)
    && e.currentSegment <= h.f.segment
    && (e.currentSegment == h.f.segment <==> i in h.matched)
  }

  ghost predicate Inv(h: Hist) {
    && |h.f.encs| == |h.last|
    && h.f.ready == |h.counted|
    && (forall i <- h.counted :: i < |h.f.encs|)
    && (forall i <- h.newer :: i < |h.f.encs|)
    && forall i :: 0 <= i < |h.f.encs| ==> EncoderInv(h, i)
  }

  lemma BeginInv(n: nat)
    ensures Inv(Begin(n))
  {
  }

  lemma HandledInv(h: Hist, input: Input, infos: seq<EncoderInfo>)
    requires Inv(h) && Allowed(h, input) && |h.f.encs| == |infos|
    ensures Inv(Handled(h, input, infos))
  {
    var m := Handled(h, input, infos);
    if input.FromEncoder? {
      var who, p := input.who, Packet(0, input.segmentNum, input.keyframe);
      HandleRotationFields(h.f.encs[who], p, h.f.segment, infos[who]);
      assert EncoderInv(h, who);
      forall i | 0 <= i < |m.f.encs|
        ensures EncoderInv(m, i)
      {
        assert EncoderInv(h, i);
      }
    } else {
      forall i | 0 <= i < |m.f.encs|
        ensures EncoderInv(m, i)
      {
        assert EncoderInv(h, i);
      }
    }
  }

  lemma NextInv(h: Hist, input: Input, infos: seq<EncoderInfo>)
    requires Inv(h) && Allowed(h, input) && |h.f.encs| == |infos|
    ensures Inv(Next(h, input, infos))
  {
    HandledInv(h, input, infos);
    var m, r := Handled(h, input, infos), Next(h, input, infos);
    forall i | 0 <= i < |r.f.encs|
      ensures EncoderInv(r, i)
    {
      assert EncoderInv(m, i);
    }
  }

  lemma {:induction false} ReachableInv(h: Hist, inputs: seq<Input>, infos: seq<EncoderInfo>)
    requires Reachable(h, inputs, infos)
    ensures Inv(h) && |h.f.encs| == |infos|
    decreases |inputs|
  {
    if inputs == [] {
      BeginInv(|infos|);
    } else {
      var before, input := inputs[..|inputs| - 1], inputs[|inputs| - 1];
      var h0 :| Reachable(h0, before, infos) && |h0.f.encs| == |infos| && Allowed(h0, input)
                && h == Next(h0, input, infos);
      ReachableInv(h0, before, infos);
      NextInv(h0, input, infos);
    }
  }

  lemma ReachableExtends(h: Hist, inputs: seq<Input>, input: Input, infos: seq<EncoderInfo>)
    requires Reachable(h, inputs, infos) && |h.f.encs| == |infos| && Allowed(h, input)
    ensures Reachable(Next(h, input, infos), inputs + [input], infos)
  {
    assert (inputs + [input])[..|inputs|] == inputs;
  }

  /** Audio data reaches every encoder that records with audio and has a file, and no other, and changes nothing else. */
  lemma AudioReaches(h: Hist, timedOut: bool, infos: seq<EncoderInfo>, i: nat)
    requires |h.last| == |h.f.encs| == |infos| && i < |infos|
    ensures var m := Handled(h, AudioData(timedOut), infos);
            var e, g := h.f.encs[i], m.f;
            && m == h.(f := g) && g == AudioFor(h.f, infos)
            && |g.encs| == |h.f.encs| && g.segment == h.f.segment && g.ready == h.f.ready
            && g.encs[i] == e.(audioInit := e.audioInit || (infos[i].includeAudio && e.hasWriter))
  {
  }

  /** A packet changes its own encoder only. */
  lemma OthersStay(f: Fleet, who: nat, p: Packet, infos: seq<EncoderInfo>, i: nat)
    requires who < |f.encs| == |infos| && i < |infos|
    ensures var g := HandleFrom(f, who, p, infos);
            && |g.encs| == |f.encs| && g.segment == f.segment
            && g.encs[i] == if i == who then HandleEncoderMsg(f.encs[i], p, f.segment, infos[i]) else f.encs[i]
  {
  }

  // ---------- what the ready count means ----------

  ghost function Below(n: nat): (s: set<nat>)
    ensures |s| == n && forall i :: i in s <==> 0 <= i < n
  {
    if n == 0 then {} else Below(n - 1) + {n - 1}
  }

  /** The ready count never passes the number of encoders. */
  lemma ReadyBounded(h: Hist)
    requires Inv(h)
    ensures h.f.ready <= |h.f.encs|
    ensures h.f.ready == |h.f.encs| ==> h.counted == Below(|h.f.encs|)
  {
    assert h.counted <= Below(|h.f.encs|);
    Sets.SubsetSize(h.counted, Below(|h.f.encs|));
  }

  /**
    The count equals the number of encoders that sent a newer-segment packet since the last
    rotation exactly when each of them was unmarked at that rotation or has since sent a packet
    of the segment being logged.
   */
  lemma ReadyCountsNewerIff(h: Hist)
    requires Inv(h)
    ensures h.f.ready == |h.newer| <==> forall i <- h.newer :: i !in h.stale || i in h.matched
  {
    forall i <- h.counted
      ensures i in h.newer
    {
      assert EncoderInv(h, i);
    }
    forall i <- h.newer
      ensures i in h.counted <==> i !in h.stale || i in h.matched
    {
      assert EncoderInv(h, i);
    }
    Sets.SubsetSize(h.counted, h.newer);
    if forall i <- h.newer :: i !in h.stale || i in h.matched {
      assert h.counted == h.newer;
    }
  }

  /**
    The logger goes on by one segment exactly on a time-out or when every encoder has been counted
    since the last rotation; the count then starts over.
   */
  lemma RotatesIff(h: Hist, input: Input, infos: seq<EncoderInfo>)
    requires Inv(h) && Allowed(h, input) && |h.f.encs| == |infos|
    ensures var counted, r := Handled(h, input, infos).counted, Next(h, input, infos);
            var goes := input.timedOut || forall i :: 0 <= i < |infos| ==> i in counted;
            && r.f.segment == h.f.segment + (if goes then 1 else 0)
            && r.f.ready == (if goes then 0 else |counted|)
            && r.counted == (if goes then {} else counted)
  {
    HandledInv(h, input, infos);
    var m := Handled(h, input, infos);
    ReadyBounded(m);
    if forall i :: 0 <= i < |infos| ==> i in m.counted {
      assert m.counted == Below(|infos|);
    }
  }

  /** A rotation that is not a time-out closes a segment that every encoder has moved past. */
  lemma AllReadyMeansAllPast(h: Hist, input: Input, infos: seq<EncoderInfo>)
    requires Inv(h) && Allowed(h, input) && |h.f.encs| == |infos|
    requires !input.timedOut && Next(h, input, infos).f.segment != h.f.segment
    ensures var m := Handled(h, input, infos);
            forall i :: 0 <= i < |m.f.encs| ==>
              m.last[i].Some? && m.last[i].value - m.f.encs[i].segmentOffset > h.f.segment
  {
    var m := Handled(h, input, infos);
    HandledInv(h, input, infos);
    ReadyBounded(m);
    forall i | 0 <= i < |m.f.encs|
      ensures m.last[i].Some? && m.last[i].value - m.f.encs[i].segmentOffset > h.f.segment
    {
      assert i in Below(|m.f.encs|);
      assert EncoderInv(m, i);
    }
  }

  /**
    An encoder that sends newer packets but is not counted blocks the all-ready rotation: until a
    time-out the segment stays, whatever the encoders send.
   */
  lemma UncountedBlocksRotation(h: Hist, i: nat, input: Input, infos: seq<EncoderInfo>)
    requires Inv(h) && Allowed(h, input) && |h.f.encs| == |infos|
    requires i in h.newer && i !in h.counted && !input.timedOut
    ensures var r := Next(h, input, infos);
            r.f.segment == h.f.segment && i in r.newer && i !in r.counted
  {
    HandledInv(h, input, infos);
    var m := Handled(h, input, infos);
    assert EncoderInv(h, i) && EncoderInv(m, i);
    ReadyBounded(m);
    assert i in m.newer && i !in m.counted && i in Below(|m.f.encs|);
  }

  lemma BeginReachable(infos: seq<EncoderInfo>)
    ensures Reachable(Begin(|infos|), [], infos)
  {
  }

  /** One input more of a run from start-up, with what it does to the encoder that sent it. */
  lemma Sends(h: Hist, inputs: seq<Input>, input: Input, infos: seq<EncoderInfo>) returns (r: Hist)
    requires Reachable(h, inputs, infos) && Inv(h) && |h.f.encs| == |infos| && Allowed(h, input) && input.FromEncoder?
    ensures r == Next(h, input, infos) && Reachable(r, inputs + [input], infos)
    ensures Inv(r) && |r.f.encs| == |infos| && r.last == h.last[input.who := Some(input.segmentNum)]
    ensures var e := r.f.encs[input.who];
            var offset := Greeted(h.f.encs[input.who], Packet(0, input.segmentNum, input.keyframe)).segmentOffset;
            input.segmentNum - offset >= h.f.segment ==>
              && e.seenFirst && e.segmentOffset == offset
              && (input.segmentNum - offset > h.f.segment ==> e.marked)
  {
    HandleRotationFields(h.f.encs[input.who], Packet(0, input.segmentNum, input.keyframe), h.f.segment, infos[input.who]);
    r := Next(h, input, infos);
    NextInv(h, input, infos);
    ReachableExtends(h, inputs, input, infos);
  }

  /**
    In a fleet of any size, for any of its encoders: one that sends a newer packet, sees a rotation
    and sends none of the segment this opens keeps its old mark, and its next newer packet is not counted.
   */
  lemma NewerEncoderCanGoUncounted(infos: seq<EncoderInfo>, who: nat) returns (inputs: seq<Input>, h: Hist)
    requires who < |infos|
    ensures Reachable(h, inputs, infos) && h.newer == {who} && h.f.ready == 0 && h.counted == {}
  {
    hide HandleEncoderMsg, EncoderInv, Reachable, Inv;
    var start := Begin(|infos|);
    BeginInv(|infos|);
    BeginReachable(infos);
    var first := FromEncoder(who, 0, true, false);
    var h0 := Sends(start, [], first, infos);
    var second := FromEncoder(who, 1, true, true);
    var h1 := Sends(h0, [] + [first], second, infos);
    var third := FromEncoder(who, 2, true, false);
    h := Sends(h1, [] + [first] + [second], third, infos);
    inputs := [] + [first] + [second] + [third];
  }
}
