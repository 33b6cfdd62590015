/**
  Segment logging of encoder packets: per-encoder queues, writers opened per segment, drops,
  and the count of encoders ready to rotate.  Calculation on values and its laws; Loggerd.dfy
  holds the objects.
 */
module Logging {

  const MAIN_FPS := 20
  const QUEUE_LIMIT := MAIN_FPS * 10

  /** An encoder packet; `n` numbers the packets of one encoder in order of arrival. */
  datatype Packet = Packet(n: nat, segmentNum: int, keyframe: bool)

  datatype EncoderInfo = EncoderInfo(record: bool, includeAudio: bool)

  /** What a video writer is told: a file is opened for a segment, gets its header, gets packets. */
  datatype FileEvent = Open(segment: int) | Header(of: Packet) | Data(packet: Packet)

  datatype Reason = OlderSegment | QueueFull | NoKeyframeYet

  datatype Drop = Drop(packet: Packet, reason: Reason)

  /** A remote encoder, with everything written to its files, its log stream entries and its drops. */
  datatype Enc = Enc(
    segmentOffset: int, currentSegment: int, q: seq<Packet>, droppedFrames: nat,
    recording: bool, marked: bool, seenFirst: bool, audioInit: bool, hasWriter: bool,
    out: seq<FileEvent>, logged: seq<Packet>, drops: seq<Drop>)

  const NewEncoder := Enc(0, -1, [], 0, false, false, false, false, false, [], [], [])

  function WriteEncodeData(e: Enc, p: Packet, info: EncoderInfo): Enc {
    if !e.recording && !p.keyframe then
      e.(droppedFrames := e.droppedFrames + 1, drops := e.drops + [Drop(p, NoKeyframeYet)])
    else
      var started := if e.recording then e
                     else e.(droppedFrames := 0, recording := true,
                             out := if info.record then e.out + [Header(p)] else e.out);
      started.(out := if e.hasWriter then started.out + [Data(p)] else started.out,
               logged := e.logged + [p])
  }

  function WriteAll(e: Enc, ps: seq<Packet>, info: EncoderInfo): Enc {
    if ps == [] then e
    else WriteEncodeData(WriteAll(e, ps[..|ps| - 1], info), ps[|ps| - 1], info)
  }

  /** Enter the logger's segment: open a new file if this encoder is recorded. */
  function EnterSegment(e: Enc, segment: int, info: EncoderInfo): Enc {
    if e.currentSegment == segment then e
    else
      var e1 := if info.record then
                  e.(hasWriter := true, out := e.out + [Open(segment)], recording := false, audioInit := false)
                else e;
      e1.(currentSegment := segment, marked := false)
  }

  function Enqueue(e: Enc, p: Packet): Enc {
    if |e.q| > QUEUE_LIMIT then e.(drops := e.drops + [Drop(p, QueueFull)])
    else e.(q := e.q + [p])
  }

  /** The offset is taken from the first packet seen. */
  function Greeted(e: Enc, p: Packet): Enc {
    if e.seenFirst then e else e.(seenFirst := true, segmentOffset := p.segmentNum)
  }

  function HandleEncoderMsg(e: Enc, p: Packet, segment: int, info: EncoderInfo): Enc {
    var g := Greeted(e, p);
    var num := p.segmentNum - g.segmentOffset;
    if num == segment then
      var c := EnterSegment(g, segment, info);
      if c.audioInit || !info.includeAudio then
        WriteEncodeData(WriteAll(c, c.q, info).(q := []), p, info)
      else Enqueue(c, p)
    else if num > segment then
      Enqueue(g.(marked := true), p)
    else
      g.(segmentOffset := -segment, drops := g.drops + [Drop(p, OlderSegment)])
  }

  /** Did this packet make the encoder ready to rotate? */
  predicate NewlyReady(e: Enc, p: Packet, segment: int) {
    var g := Greeted(e, p);
    p.segmentNum - g.segmentOffset > segment && !g.marked
  }

  function AudioArrives(e: Enc): Enc {
    if e.hasWriter then e.(audioInit := true) else e
  }

  // ---------- one encoder's run ----------

  /** What one encoder sees: packets, each with the logger's segment at the time, and audio data. */
  datatype Event = Msg(segmentNum: int, keyframe: bool, segment: int) | Audio

  function Received(evs: seq<Event>): seq<Packet> {
    if evs == [] then []
    else
      var before, ev := Received(evs[..|evs| - 1]), evs[|evs| - 1];
      if ev.Msg? then before + [Packet(|before|, ev.segmentNum, ev.keyframe)] else before
  }

  function Step(e: Enc, ev: Event, n: nat, info: EncoderInfo): Enc {
    match ev
    case Msg(s, k, segment) => HandleEncoderMsg(e, Packet(n, s, k), segment, info)
    case Audio => if info.includeAudio then AudioArrives(e) else e
  }

  function Run(evs: seq<Event>, info: EncoderInfo): Enc
    decreases |evs|
  {
    if evs == [] then NewEncoder
    else
      var before := evs[..|evs| - 1];
      Step(Run(before, info), evs[|evs| - 1], |Received(before)|, info)
  }

  // ---------- conservation and order ----------

  function DroppedNumbers(drops: seq<Drop>): set<nat> {
    set d <- drops :: d.packet.n
  }

  /** The received packets, in order, without those whose number is in `gone`. */
  function Kept(received: seq<Packet>, gone: set<nat>): seq<Packet> {
    if received == [] then []
    else
      var p := received[|received| - 1];
      Kept(received[..|received| - 1], gone) + (if p.n in gone then [] else [p])
  }

  ghost predicate Numbered(received: seq<Packet>) {
    forall i :: 0 <= i < |received| ==> received[i].n == i
  }

  lemma {:induction false} ReceivedNumbered(evs: seq<Event>)
    ensures Numbered(Received(evs))
  {
    if evs != [] {
      ReceivedNumbered(evs[..|evs| - 1]);
    }
  }

  lemma {:induction false} KeptMembers(received: seq<Packet>, gone: set<nat>)
    requires Numbered(received)
    ensures forall p <- Kept(received, gone) :: p.n < |received| && received[p.n] == p && p.n !in gone
  {
    if received != [] {
      KeptMembers(received[..|received| - 1], gone);
    }
  }

  lemma {:induction false} KeptIgnores(received: seq<Packet>, gone: set<nat>, more: set<nat>)
    requires forall i :: 0 <= i < |received| ==> (received[i].n in gone <==> received[i].n in more)
    ensures Kept(received, gone) == Kept(received, more)
  {
    if received != [] {
      KeptIgnores(received[..|received| - 1], gone, more);
    }
  }

  lemma SplitLast<T>(whole: seq<T>, front: seq<T>, last: T, a: seq<T>, p: T, b: seq<T>)
    requires whole == front + [last] && whole == a + [p] + b
    ensures b == [] ==> front == a && p == last
    ensures b != [] ==> b[|b| - 1] == last && front == a + [p] + b[..|b| - 1]
    ensures b != [] ==> a + b == a + b[..|b| - 1] + [last] && p in front
  {
    assert whole[|whole| - 1] == last && whole[..|whole| - 1] == front;
    if b == [] {
      assert whole == a + [p] && whole[|a|] == p && whole[..|a|] == a;
    } else {
      assert whole[|whole| - 1] == b[|b| - 1];
      assert whole[..|whole| - 1] == a + [p] + b[..|b| - 1];
      assert front[|a|] == p;
    }
  }

  /** Dropping a packet that was kept so far removes exactly it. */
  lemma {:induction false} KeptLoses(received: seq<Packet>, gone: set<nat>, a: seq<Packet>, p: Packet, b: seq<Packet>)
    requires Numbered(received) && Kept(received, gone) == a + [p] + b
    ensures Kept(received, gone + {p.n}) == a + b
    decreases |received|
  {
    var n := |received| - 1;
    var last, before := received[n], received[..n];
    KeptMembers(before, gone);
    if last.n in gone {
      KeptLoses(before, gone, a, p, b);
    } else {
      SplitLast(Kept(received, gone), Kept(before, gone), last, a, p, b);
      if b == [] {
        KeptIgnores(before, gone, gone + {p.n});
        assert a + b == a;
      } else {
        KeptLoses(before, gone, a, p, b[..|b| - 1]);
      }
    }
  }

  /** Logged then still queued packets are the received ones, in order, minus exactly the dropped ones. */
  ghost predicate Conserved(e: Enc, received: seq<Packet>) {
    Numbered(received) && Kept(received, DroppedNumbers(e.drops)) == e.logged + e.q
  }

  lemma DroppedNumbersGrow(drops: seq<Drop>, d: Drop)
    ensures DroppedNumbers(drops + [d]) == DroppedNumbers(drops) + {d.packet.n}
  {
    forall x | x in DroppedNumbers(drops) + {d.packet.n}
      ensures x in DroppedNumbers(drops + [d])
    {
      if x == d.packet.n {
        assert d in drops + [d];
      } else {
        var y :| y in drops && y.packet.n == x;
        assert y in drops + [d];
      }
    }
  }

  /** Moving the first waiting packet through the writer: logged or dropped, nothing else changes. */
  lemma WriteOneConserves(e: Enc, p: Packet, waiting: seq<Packet>, received: seq<Packet>, info: EncoderInfo)
    requires Numbered(received) && Kept(received, DroppedNumbers(e.drops)) == e.logged + ([p] + waiting)
    ensures var w := WriteEncodeData(e, p, info);
            Kept(received, DroppedNumbers(w.drops)) == w.logged + waiting
  {
    var w := WriteEncodeData(e, p, info);
    assert e.logged + ([p] + waiting) == e.logged + [p] + waiting;
    if !e.recording && !p.keyframe {
      DroppedNumbersGrow(e.drops, Drop(p, NoKeyframeYet));
      KeptLoses(received, DroppedNumbers(e.drops), e.logged, p, waiting);
    }
  }

  lemma {:induction false} WriteAllConserves(e: Enc, ps: seq<Packet>, waiting: seq<Packet>, received: seq<Packet>,
                                             info: EncoderInfo)
    requires Numbered(received) && Kept(received, DroppedNumbers(e.drops)) == e.logged + (ps + waiting)
    ensures var w := WriteAll(e, ps, info);
            Kept(received, DroppedNumbers(w.drops)) == w.logged + waiting
    decreases |ps|
  {
    if ps == [] {
      assert ps + waiting == waiting;
    } else {
      var n := |ps| - 1;
      assert ps + waiting == ps[..n] + ([ps[n]] + waiting);
      WriteAllConserves(e, ps[..n], [ps[n]] + waiting, received, info);
      WriteOneConserves(WriteAll(e, ps[..n], info), ps[n], waiting, received, info);
    }
  }

  /** A new packet joins the kept ones until it is dropped. */
  lemma KeptArrives(received: seq<Packet>, gone: set<nat>, p: Packet)
    requires Numbered(received) && p.n == |received|
    requires forall x <- gone :: x < |received|
    ensures Numbered(received + [p])
    ensures Kept(received + [p], gone) == Kept(received, gone) + [p]
    ensures Kept(received + [p], gone + {p.n}) == Kept(received, gone)
  {
    assert (received + [p])[..|received|] == received;
    KeptIgnores(received, gone, gone + {p.n});
    assert p.n !in gone;
    assert Kept(received, gone) + [] == Kept(received, gone);
  }

  /** Every drop names a received packet. */
  ghost predicate DropsReceived(e: Enc, received: seq<Packet>) {
    forall d <- e.drops :: d.packet.n < |received| && received[d.packet.n] == d.packet
  }

  ghost predicate Accounted(e: Enc, received: seq<Packet>) {
    Conserved(e, received) && DropsReceived(e, received)
  }

  lemma EnqueueAccounts(e: Enc, p: Packet, received: seq<Packet>)
    requires Accounted(e, received) && p.n == |received|
    ensures Accounted(Enqueue(e, p), received + [p])
  {
    KeptArrives(received, DroppedNumbers(e.drops), p);
    DroppedNumbersGrow(e.drops, Drop(p, QueueFull));
    assert e.logged + (e.q + [p]) == e.logged + e.q + [p];
  }

  lemma DropOlderAccounts(e: Enc, p: Packet, received: seq<Packet>)
    requires Accounted(e, received) && p.n == |received|
    ensures Accounted(e.(drops := e.drops + [Drop(p, OlderSegment)]), received + [p])
  {
    KeptArrives(received, DroppedNumbers(e.drops), p);
    DroppedNumbersGrow(e.drops, Drop(p, OlderSegment));
  }

  lemma {:induction false} WriteAllDropsReceived(e: Enc, ps: seq<Packet>, received: seq<Packet>, info: EncoderInfo)
    requires DropsReceived(e, received)
    requires forall p <- ps :: p.n < |received| && received[p.n] == p
    ensures DropsReceived(WriteAll(e, ps, info), received)
    decreases |ps|
  {
    if ps != [] {
      WriteAllDropsReceived(e, ps[..|ps| - 1], received, info);
      assert ps[|ps| - 1] in ps;
    }
  }

  lemma FlushAccounts(e: Enc, p: Packet, received: seq<Packet>, info: EncoderInfo)
    requires Accounted(e, received) && p.n == |received|
    ensures Accounted(WriteEncodeData(WriteAll(e, e.q, info).(q := []), p, info), received + [p])
  {
    var all := received + [p];
    var w := WriteAll(e, e.q, info);
    KeptArrives(received, DroppedNumbers(e.drops), p);
    assert e.logged + e.q + [p] == e.logged + (e.q + [p]);
    WriteAllConserves(e, e.q, [p], all, info);
    WriteOneConserves(w.(q := []), p, [], all, info);
    assert [p] + [] == [p];
    var f := WriteEncodeData(w.(q := []), p, info);
    assert f.logged + [] == f.logged;
    KeptMembers(received, DroppedNumbers(e.drops));
    forall x <- e.q
      ensures x.n < |all| && all[x.n] == x
    {
      assert x in e.logged + e.q;
    }
    WriteAllDropsReceived(e, e.q, all, info);
  }

  lemma HandleAccounts(e: Enc, p: Packet, segment: int, info: EncoderInfo, received: seq<Packet>)
    requires Accounted(e, received) && p.n == |received|
    ensures Accounted(HandleEncoderMsg(e, p, segment, info), received + [p])
  {
    var g := Greeted(e, p);
    var num := p.segmentNum - g.segmentOffset;
    if num == segment {
      var c := EnterSegment(g, segment, info);
      assert Accounted(c, received);
      if c.audioInit || !info.includeAudio {
        FlushAccounts(c, p, received, info);
      } else {
        EnqueueAccounts(c, p, received);
      }
    } else if num > segment {
      EnqueueAccounts(g.(marked := true), p, received);
    } else {
      DropOlderAccounts(g.(segmentOffset := -segment), p, received);
    }
  }

  /** Over every run: logged packets, then queued ones, are the received ones in order minus exactly the dropped. */
  lemma {:induction false} RunConserves(evs: seq<Event>, info: EncoderInfo)
    ensures Accounted(Run(evs, info), Received(evs))
    decreases |evs|
  {
    if evs != [] {
      var before := evs[..|evs| - 1];
      RunConserves(before, info);
      match evs[|evs| - 1]
      case Msg(s, k, segment) =>
        HandleAccounts(Run(before, info), Packet(|Received(before)|, s, k), segment, info, Received(before));
      case Audio =>
    }
  }

  // ---------- why packets are dropped ----------

  /** The length of the run of non-keyframes at the head of a list. */
  function LeadIn(ps: seq<Packet>): nat {
    if ps == [] || ps[0].keyframe then 0 else 1 + LeadIn(ps[1..])
  }

  function DropsOf(ps: seq<Packet>, reason: Reason): seq<Drop> {
    seq(|ps|, i requires 0 <= i < |ps| => Drop(ps[i], reason))
  }

  lemma DropsOfSnoc(ps: seq<Packet>, p: Packet, reason: Reason)
    ensures DropsOf(ps + [p], reason) == DropsOf(ps, reason) + [Drop(p, reason)]
  {
  }

  lemma {:induction false} LeadInSnoc(ps: seq<Packet>, p: Packet)
    ensures LeadIn(ps) <= |ps|
    ensures LeadIn(ps + [p]) == if LeadIn(ps) == |ps| && !p.keyframe then |ps| + 1 else LeadIn(ps)
  {
    if ps != [] {
      assert (ps + [p])[1..] == ps[1..] + [p];
      LeadInSnoc(ps[1..], p);
    } else {
      assert ([p])[1..] == [];
    }
  }

  lemma WriteOneLaw(e: Enc, p: Packet, info: EncoderInfo)
    ensures var w := WriteEncodeData(e, p, info);
            if !e.recording && !p.keyframe then
              w.drops == e.drops + [Drop(p, NoKeyframeYet)] && w.logged == e.logged && !w.recording
              && w.droppedFrames == e.droppedFrames + 1
            else
              w.drops == e.drops && w.logged == e.logged + [p] && w.recording
              && w.droppedFrames == if e.recording then e.droppedFrames else 0
  {
  }

  lemma ConcatSnoc<T>(a: seq<T>, b: seq<T>, x: T)
    ensures a + b + [x] == a + (b + [x])
    ensures a + [] == a
  {
  }

  /** `w` is `e` after the first `k` of the packets were dropped and the others logged. */
  ghost predicate Wrote(e: Enc, w: Enc, ps: seq<Packet>, k: nat) {
    && k <= |ps|
    && w.drops == e.drops + DropsOf(ps[..k], NoKeyframeYet)
    && w.logged == e.logged + ps[k..]
    && w.recording == (e.recording || k < |ps|)
    && w.droppedFrames == if e.recording then e.droppedFrames else if k < |ps| then 0 else e.droppedFrames + k
  }

  lemma DropsOneMore(e: Enc, before: Enc, w: Enc, ps: seq<Packet>, p: Packet)
    requires Wrote(e, before, ps, |ps|) && !e.recording
    requires w.drops == before.drops + [Drop(p, NoKeyframeYet)] && w.logged == before.logged && !w.recording
    requires w.droppedFrames == before.droppedFrames + 1
    ensures Wrote(e, w, ps + [p], |ps| + 1)
  {
    hide DropsOf;
    DropsOfSnoc(ps, p, NoKeyframeYet);
    assert ps[..|ps|] == ps && (ps + [p])[..|ps| + 1] == ps + [p] && (ps + [p])[|ps| + 1..] == ps[|ps|..] == [];
    ConcatSnoc(e.drops, DropsOf(ps, NoKeyframeYet), Drop(p, NoKeyframeYet));
  }

  lemma LogsOneMore(e: Enc, before: Enc, w: Enc, ps: seq<Packet>, p: Packet, k: nat)
    requires Wrote(e, before, ps, k)
    requires w.drops == before.drops && w.logged == before.logged + [p] && w.recording
    requires w.droppedFrames == if before.recording then before.droppedFrames else 0
    ensures Wrote(e, w, ps + [p], k)
  {
    hide DropsOf;
    assert (ps + [p])[..k] == ps[..k] && (ps + [p])[k..] == ps[k..] + [p];
    ConcatSnoc(e.logged, ps[k..], p);
  }

  /**
    Writing a list drops exactly the packets before the first keyframe when not yet recording,
    and nothing otherwise; the rest is logged in order.
   */
  lemma {:induction false} WriteAllDropsLeadIn(e: Enc, ps: seq<Packet>, info: EncoderInfo)
    ensures var w := WriteAll(e, ps, info);
            var k := if e.recording then 0 else LeadIn(ps);
            && k <= |ps|
            && w.drops == e.drops + DropsOf(ps[..k], NoKeyframeYet)
            && w.logged == e.logged + ps[k..]
            && w.recording == (e.recording || k < |ps|)
            && w.droppedFrames == if e.recording then e.droppedFrames else if k < |ps| then 0 else e.droppedFrames + k
    decreases |ps|
  {
    if ps == [] {
      ConcatSnoc(e.drops, [], Drop(Packet(0, 0, false), NoKeyframeYet));
      ConcatSnoc(e.logged, [], Packet(0, 0, false));
    } else {
      hide WriteEncodeData, LeadIn, DropsOf, Wrote;
      var front, p := ps[..|ps| - 1], ps[|ps| - 1];
      var k, before := if e.recording then 0 else LeadIn(front), WriteAll(e, front, info);
      WriteAllDropsLeadIn(e, front, info);
      WroteIs(e, before, front, k);
      LeadInSnoc(front, p);
      assert front + [p] == ps;
      WriteOneLaw(before, p, info);
      var w := WriteEncodeData(before, p, info);
      if !e.recording && k == |front| && !p.keyframe {
        DropsOneMore(e, before, w, front, p);
        WroteIs(e, w, ps, |ps|);
      } else {
        LogsOneMore(e, before, w, front, p, k);
        WroteIs(e, w, ps, k);
      }
    }
  }

  lemma WroteIs(e: Enc, w: Enc, ps: seq<Packet>, k: nat)
    ensures Wrote(e, w, ps, k) <==>
              && k <= |ps|
              && w.drops == e.drops + DropsOf(ps[..k], NoKeyframeYet)
              && w.logged == e.logged + ps[k..]
              && w.recording == (e.recording || k < |ps|)
              && w.droppedFrames == if e.recording then e.droppedFrames else if k < |ps| then 0 else e.droppedFrames + k
  {
  }

  /** Does the packet have to wait, for a rotation or for audio? */
  predicate Waits(e: Enc, p: Packet, segment: int, info: EncoderInfo) {
    var g := Greeted(e, p);
    var num := p.segmentNum - g.segmentOffset;
    num > segment || (num == segment && info.includeAudio && !EnterSegment(g, segment, info).audioInit)
  }

  predicate IsOlder(e: Enc, p: Packet, segment: int) {
    p.segmentNum - Greeted(e, p).segmentOffset < segment
  }

  /**
    An older packet is dropped, and the encoder's segments count from minus the logger's on: a
    later packet is current only once the logger is that many segments ahead of it.
   */
  lemma OlderIsDropped(e: Enc, p: Packet, segment: int, info: EncoderInfo)
    requires IsOlder(e, p, segment)
    ensures var h := HandleEncoderMsg(e, p, segment, info);
            && h.drops == e.drops + [Drop(p, OlderSegment)] && h.logged == e.logged && h.q == e.q && h.out == e.out
            && h.seenFirst && h.segmentOffset == -segment
            && h.marked == e.marked && h.currentSegment == e.currentSegment && h.recording == e.recording
            && forall next: Packet, at :: IsOlder(h, next, at) <==> at - next.segmentNum > segment
  {
  }

  /** A waiting packet is dropped exactly when more than 200 packets wait already. */
  lemma WaitingIsQueued(e: Enc, p: Packet, segment: int, info: EncoderInfo)
    requires Waits(e, p, segment, info)
    ensures var h := HandleEncoderMsg(e, p, segment, info);
            && h.logged == e.logged
            && h.drops == (if |e.q| > QUEUE_LIMIT then e.drops + [Drop(p, QueueFull)] else e.drops)
            && h.q == (if |e.q| > QUEUE_LIMIT then e.q else e.q + [p])
  {
    hide WriteEncodeData, WriteAll;
    var g := Greeted(e, p);
    var h := HandleEncoderMsg(e, p, segment, info);
    if p.segmentNum - g.segmentOffset > segment {
      assert h == Enqueue(g.(marked := true), p);
    } else {
      assert h == Enqueue(EnterSegment(g, segment, info), p);
    }
  }

  /** Any other packet is written behind everything that waited. */
  lemma CurrentIsWritten(e: Enc, p: Packet, segment: int, info: EncoderInfo)
    requires !IsOlder(e, p, segment) && !Waits(e, p, segment, info)
    ensures var h := HandleEncoderMsg(e, p, segment, info);
            var w := WriteAll(EnterSegment(Greeted(e, p), segment, info), e.q + [p], info);
            h.q == [] && h.logged == w.logged && h.drops == w.drops && h.out == w.out
  {
    var c := EnterSegment(Greeted(e, p), segment, info);
    assert (e.q + [p])[..|e.q|] == e.q;
    WriteIgnoresQueue(WriteAll(c, e.q, info), p, info);
  }

  lemma WriteIgnoresQueue(e: Enc, p: Packet, info: EncoderInfo)
    ensures WriteEncodeData(e.(q := []), p, info) == WriteEncodeData(e, p, info).(q := [])
  {
  }

  // ---------- file contents ----------

  datatype FileState = NoFile | Opened | HasHeader(p: Packet) | Filling | Bad

  /** The contents of the files: each is empty, or one header, its keyframe, then packets. */
  function Scan(out: seq<FileEvent>): FileState {
    if out == [] then NoFile else ScanOne(Scan(out[..|out| - 1]), out[|out| - 1])
  }

  function ScanOne(before: FileState, x: FileEvent): FileState {
    match (before, x)
    case (Bad, _) => Bad
    case (HasHeader(_), Open(_)) => Bad
    case (_, Open(_)) => Opened
    case (Opened, Header(p)) => if p.keyframe then HasHeader(p) else Bad
    case (HasHeader(p), Data(d)) => if p == d then Filling else Bad
    case (Filling, Data(_)) => Filling
    case (_, _) => Bad
  }

  /** The packets written to files. */
  function DataIn(out: seq<FileEvent>): seq<Packet> {
    if out == [] then []
    else DataIn(out[..|out| - 1]) + (if out[|out| - 1].Data? then [out[|out| - 1].packet] else [])
  }

  lemma ScanSnoc(out: seq<FileEvent>, x: FileEvent)
    ensures (out + [x])[..|out|] == out
    ensures Scan(out + [x]) == ScanOne(Scan(out), x)
    ensures DataIn(out + [x]) == DataIn(out) + (if x.Data? then [x.packet] else [])
  {
    assert (out + [x])[..|out + [x]| - 1] == out;
  }

  /** A recorded encoder's files match its flags; an unrecorded one writes no file. */
  ghost predicate FilesOk(e: Enc, info: EncoderInfo) {
    if info.record then
      && (Scan(e.out) == if !e.hasWriter then NoFile else if e.recording then Filling else Opened)
      && (e.hasWriter || !e.recording)
      && DataIn(e.out) == e.logged
    else
      !e.hasWriter && e.out == []
  }

  lemma WriteFilesOk(e: Enc, p: Packet, info: EncoderInfo)
    requires FilesOk(e, info) && (info.record ==> e.hasWriter)
    ensures FilesOk(WriteEncodeData(e, p, info), info)
    ensures WriteEncodeData(e, p, info).hasWriter == e.hasWriter
  {
    hide Scan, DataIn;
    if info.record {
      if e.recording {
        ScanSnoc(e.out, Data(p));
      } else if p.keyframe {
        ScanSnoc(e.out, Header(p));
        ScanSnoc(e.out + [Header(p)], Data(p));
        assert e.logged + [] == e.logged;
      }
    }
  }

  lemma {:induction false} WriteAllFilesOk(e: Enc, ps: seq<Packet>, info: EncoderInfo)
    requires FilesOk(e, info) && (info.record ==> e.hasWriter)
    ensures FilesOk(WriteAll(e, ps, info), info)
    ensures WriteAll(e, ps, info).hasWriter == e.hasWriter
    decreases |ps|
  {
    if ps != [] {
      WriteAllFilesOk(e, ps[..|ps| - 1], info);
      WriteFilesOk(WriteAll(e, ps[..|ps| - 1], info), ps[|ps| - 1], info);
    }
  }

  /** Recording happens only into the file of the segment entered last. */
  ghost predicate EncInv(e: Enc, info: EncoderInfo) {
    FilesOk(e, info) && e.currentSegment >= -1 && (info.record ==> (e.hasWriter <==> e.currentSegment >= 0))
  }

  lemma EnterFilesOk(e: Enc, segment: int, info: EncoderInfo)
    requires EncInv(e, info) && segment >= 0
    ensures EncInv(EnterSegment(e, segment, info), info)
    ensures info.record ==> EnterSegment(e, segment, info).hasWriter
  {
    ScanSnoc(e.out, Open(segment));
    assert e.logged + [] == e.logged;
  }

  lemma HandleEncInv(e: Enc, p: Packet, segment: int, info: EncoderInfo)
    requires EncInv(e, info) && segment >= 0
    ensures EncInv(HandleEncoderMsg(e, p, segment, info), info)
  {
    var g := Greeted(e, p);
    var num := p.segmentNum - g.segmentOffset;
    assert EncInv(g, info);
    if num == segment {
      EnterFilesOk(g, segment, info);
      var c := EnterSegment(g, segment, info);
      FlushEncInv(c, p, info);
      EnqueueEncInv(c, p, info);
    } else if num > segment {
      EnqueueEncInv(g.(marked := true), p, info);
    }
  }

  lemma EnqueueEncInv(c: Enc, p: Packet, info: EncoderInfo)
    requires EncInv(c, info)
    ensures EncInv(Enqueue(c, p), info)
  {
  }

  lemma FlushEncInv(c: Enc, p: Packet, info: EncoderInfo)
    requires EncInv(c, info) && (info.record ==> c.hasWriter)
    ensures EncInv(WriteEncodeData(WriteAll(c, c.q, info).(q := []), p, info), info)
  {
    var w := WriteAll(c, c.q, info).(q := []);
    WriteAllFilesOk(c, c.q, info);
    WriteAllKeepsSegment(c, c.q, info);
    assert FilesOk(w, info);
    WriteFilesOk(w, p, info);
    WriteAllKeepsSegment(w, [p], info);
    assert [p][..0] == [] && WriteAll(w, [], info) == w;
  }

  lemma {:induction false} WriteAllKeepsSegment(e: Enc, ps: seq<Packet>, info: EncoderInfo)
    ensures var w := WriteAll(e, ps, info);
            w.currentSegment == e.currentSegment && w.marked == e.marked && w.segmentOffset == e.segmentOffset
            && w.seenFirst == e.seenFirst
    decreases |ps|
  {
    if ps != [] {
      WriteAllKeepsSegment(e, ps[..|ps| - 1], info);
    }
  }

  /** What handling a packet does to the fields that rotation depends on. */
  lemma HandleRotationFields(e: Enc, p: Packet, segment: int, info: EncoderInfo)
    ensures var g, h := Greeted(e, p), HandleEncoderMsg(e, p, segment, info);
            var num := p.segmentNum - g.segmentOffset;
            && h.seenFirst
            && h.segmentOffset == (if num < segment then -segment else g.segmentOffset)
            && h.currentSegment == (if num == segment then segment else e.currentSegment)
            && h.marked == (if num > segment then true
                            else if num == segment && e.currentSegment != segment then false else e.marked)
  {
    hide WriteEncodeData, WriteAll;
    var g, h := Greeted(e, p), HandleEncoderMsg(e, p, segment, info);
    var num := p.segmentNum - g.segmentOffset;
    if num == segment {
      var c := EnterSegment(g, segment, info);
      WriteAllKeepsSegment(c, c.q, info);
      WriteKeepsSegment(WriteAll(c, c.q, info).(q := []), p, info);
      assert h == Enqueue(c, p) || h == WriteEncodeData(WriteAll(c, c.q, info).(q := []), p, info);
    } else if num > segment {
      assert h == Enqueue(g.(marked := true), p);
    }
  }

  lemma WriteKeepsSegment(e: Enc, p: Packet, info: EncoderInfo)
    ensures var w := WriteEncodeData(e, p, info);
            w.currentSegment == e.currentSegment && w.marked == e.marked && w.segmentOffset == e.segmentOffset
            && w.seenFirst == e.seenFirst
  {
  }

  ghost predicate SegmentsExist(evs: seq<Event>) {
    forall i :: 0 <= i < |evs| && evs[i].Msg? ==> evs[i].segment >= 0
  }

  /**
    Over every run each recorded file is empty or starts with one header followed by that
    header's keyframe, then packets only; and the files together hold exactly the logged packets.
   */
  lemma {:induction false} RunFilesOk(evs: seq<Event>, info: EncoderInfo)
    requires SegmentsExist(evs)
    ensures EncInv(Run(evs, info), info)
    ensures Scan(Run(evs, info).out) != Bad
    decreases |evs|
  {
    if evs != [] {
      var before := evs[..|evs| - 1];
      RunFilesOk(before, info);
      match evs[|evs| - 1]
      case Msg(s, k, segment) =>
        HandleEncInv(Run(before, info), Packet(|Received(before)|, s, k), segment, info);
      case Audio =>
    }
  }

  // ---------- waiting for audio ----------

  /** Audio data has arrived since the encoder entered the segment it is in. */
  ghost predicate Sounded(evs: seq<Event>, info: EncoderInfo)
    decreases |evs|
  {
    evs != [] &&
    var front, last := evs[..|evs| - 1], evs[|evs| - 1];
    if last.Audio? then Run(front, info).currentSegment >= 0
    else Sounded(front, info) && Run(evs, info).currentSegment == Run(front, info).currentSegment
  }

  lemma HandleAudioInit(e: Enc, p: Packet, segment: int, info: EncoderInfo)
    ensures var h := HandleEncoderMsg(e, p, segment, info);
            && h.audioInit == (e.audioInit && (info.record ==> h.currentSegment == e.currentSegment))
            && (!info.record ==> h.hasWriter == e.hasWriter)
  {
    hide WriteEncodeData, WriteAll;
    HandleRotationFields(e, p, segment, info);
    var c := EnterSegment(Greeted(e, p), segment, info);
    WriteAllKeepsAudio(c, c.q, info);
    WriteKeepsAudio(WriteAll(c, c.q, info).(q := []), p, info);
  }

  lemma WriteKeepsAudio(e: Enc, p: Packet, info: EncoderInfo)
    ensures var w := WriteEncodeData(e, p, info);
            w.audioInit == e.audioInit && w.hasWriter == e.hasWriter
  {
  }

  lemma {:induction false} WriteAllKeepsAudio(e: Enc, ps: seq<Packet>, info: EncoderInfo)
    ensures var w := WriteAll(e, ps, info);
            w.audioInit == e.audioInit && w.hasWriter == e.hasWriter
    decreases |ps|
  {
    hide WriteEncodeData;
    if ps != [] {
      WriteAllKeepsAudio(e, ps[..|ps| - 1], info);
      WriteKeepsAudio(WriteAll(e, ps[..|ps| - 1], info), ps[|ps| - 1], info);
    }
  }

  lemma {:induction false} AudioInitIff(evs: seq<Event>, info: EncoderInfo)
    requires info.record && info.includeAudio && SegmentsExist(evs)
    ensures Run(evs, info).audioInit <==> Sounded(evs, info)
    decreases |evs|
  {
    hide HandleEncoderMsg;
    if evs != [] {
      var front, n := evs[..|evs| - 1], |evs| - 1;
      AudioInitIff(front, info);
      RunFilesOk(front, info);
      if evs[n].Msg? {
        HandleAudioInit(Run(front, info), PacketAt(evs, n), evs[n].segment, info);
      } else {
        WriterIff(Run(front, info), info);
        if Sounded(front, info) {
          NotEnteredNotSounded(front, info);
        }
      }
    }
  }

  lemma WriterIff(e: Enc, info: EncoderInfo)
    requires EncInv(e, info) && info.record
    ensures e.hasWriter <==> e.currentSegment >= 0
  {
  }

  lemma {:induction false} NotEnteredNotSounded(evs: seq<Event>, info: EncoderInfo)
    requires info.record && Sounded(evs, info)
    ensures Run(evs, info).currentSegment >= 0
    decreases |evs|
  {
    hide HandleEncoderMsg;
    if evs[|evs| - 1].Msg? {
      NotEnteredNotSounded(evs[..|evs| - 1], info);
    }
  }

  /** An encoder without audio, or without a file, never counts as having got audio data. */
  lemma {:induction false} NeverSounds(evs: seq<Event>, info: EncoderInfo)
    requires !(info.record && info.includeAudio)
    ensures !Run(evs, info).audioInit && (!info.record ==> !Run(evs, info).hasWriter)
    decreases |evs|
  {
    hide HandleEncoderMsg;
    if evs != [] {
      var front, n := evs[..|evs| - 1], |evs| - 1;
      NeverSounds(front, info);
      if evs[n].Msg? {
        HandleAudioInit(Run(front, info), PacketAt(evs, n), evs[n].segment, info);
      }
    }
  }

  /**
    A recorded encoder with audio: a packet of the logger's segment waits exactly if it is the first
    of the segment or no audio data has arrived since that one.
   */
  lemma WaitsForAudioIff(evs: seq<Event>, p: Packet, segment: int, info: EncoderInfo)
    requires info.record && info.includeAudio && SegmentsExist(evs) && segment >= 0
    requires p.segmentNum - Greeted(Run(evs, info), p).segmentOffset == segment
    ensures Waits(Run(evs, info), p, segment, info) <==>
              Run(evs, info).currentSegment != segment || !Sounded(evs, info)
  {
    hide Run, Sounded;
    AudioInitIff(evs, info);
  }

  // ---------- an encoder left behind ----------

  /** The packet of the `i`-th event. */
  function PacketAt(evs: seq<Event>, i: nat): Packet
    requires i < |evs| && evs[i].Msg?
  {
    Packet(|Received(evs[..i])|, evs[i].segmentNum, evs[i].keyframe)
  }

  function Capped(ps: seq<Packet>): seq<Packet> {
    if |ps| <= QUEUE_LIMIT + 1 then ps else ps[..QUEUE_LIMIT + 1]
  }

  lemma {:induction false} QueueBounded(evs: seq<Event>, info: EncoderInfo)
    ensures |Run(evs, info).q| <= QUEUE_LIMIT + 1
    decreases |evs|
  {
    hide HandleEncoderMsg, WriteAll;
    if evs != [] {
      var front, n := evs[..|evs| - 1], |evs| - 1;
      QueueBounded(front, info);
      if evs[n].Msg? {
        HandleQueueBounded(Run(front, info), PacketAt(evs, n), evs[n].segment, info);
      }
    }
  }

  lemma HandleQueueBounded(e: Enc, p: Packet, segment: int, info: EncoderInfo)
    requires |e.q| <= QUEUE_LIMIT + 1
    ensures |HandleEncoderMsg(e, p, segment, info).q| <= QUEUE_LIMIT + 1
  {
    hide HandleEncoderMsg, WriteAll, Waits, IsOlder;
    if IsOlder(e, p, segment) {
      OlderIsDropped(e, p, segment, info);
    } else if Waits(e, p, segment, info) {
      WaitingIsQueued(e, p, segment, info);
    } else {
      CurrentIsWritten(e, p, segment, info);
    }
  }

  /** The encoder was sent an older packet while the logger was at segment `g`, and nothing that catches up since. */
  ghost predicate LeftBehind(evs: seq<Event>, k: nat, g: int, info: EncoderInfo) {
    && k < |evs| && evs[k].Msg? && evs[k].segment == g
    && IsOlder(Run(evs[..k], info), PacketAt(evs, k), g)
    && forall i :: k < i < |evs| && evs[i].Msg? ==> evs[i].segmentNum + g > evs[i].segment
  }

  lemma CappedSnoc(ps: seq<Packet>, p: Packet)
    ensures Capped(ps + [p]) == if |Capped(ps)| > QUEUE_LIMIT then Capped(ps) else Capped(ps) + [p]
  {
  }

  lemma AheadWaits(e: Enc, p: Packet, segment: int, info: EncoderInfo)
    requires e.seenFirst && p.segmentNum - e.segmentOffset > segment
    ensures Waits(e, p, segment, info)
    ensures var h := HandleEncoderMsg(e, p, segment, info);
            h.segmentOffset == e.segmentOffset && h.seenFirst && h.out == e.out
  {
  }

  lemma AheadIsQueued(e: Enc, q: seq<Packet>, later: seq<Packet>, p: Packet, segment: int, info: EncoderInfo)
    requires e.seenFirst && p.segmentNum - e.segmentOffset > segment && e.q == Capped(q + later)
    ensures var h := HandleEncoderMsg(e, p, segment, info);
            && h.segmentOffset == e.segmentOffset && h.seenFirst && h.out == e.out && h.logged == e.logged
            && h.q == Capped(q + (later + [p]))
  {
    hide HandleEncoderMsg, Waits, Capped;
    AheadWaits(e, p, segment, info);
    WaitingIsQueued(e, p, segment, info);
    CappedSnoc(q + later, p);
    assert q + later + [p] == q + (later + [p]);
  }

  lemma {:induction false} ReceivedPrefix(evs: seq<Event>, k: nat)
    requires k <= |evs|
    ensures Received(evs[..k]) <= Received(evs)
  {
    if k < |evs| {
      ReceivedPrefix(evs[..|evs| - 1], k);
      assert evs[..|evs| - 1][..k] == evs[..k];
    } else {
      assert evs[..k] == evs;
    }
  }

  /**
    After one older packet at segment `g` nothing is logged or written to a file until the logger is
    `g` segments ahead of what arrives: what does arrive is queued, up to 201 packets, and then lost.
   */
  lemma {:induction false} LeftBehindLogsNothing(evs: seq<Event>, k: nat, g: int, info: EncoderInfo)
    requires LeftBehind(evs, k, g, info)
    ensures var before, after := Run(evs[..k], info), Run(evs, info);
            && after.logged == before.logged && after.out == before.out
            && after.seenFirst && after.segmentOffset == -g
            && |Received(evs[..k + 1])| <= |Received(evs)|
            && after.q == Capped(before.q + Received(evs)[|Received(evs[..k + 1])|..])
    decreases |evs|
  {
    hide HandleEncoderMsg, IsOlder, Waits, Capped;
    var n := |evs| - 1;
    var front := evs[..n];
    assert evs[..k][..k] == evs[..k];
    QueueBounded(evs[..k], info);
    if k == n {
      assert evs[..k + 1] == evs;
      OlderIsDropped(Run(front, info), PacketAt(evs, k), g, info);
      CapsNothing(Run(front, info).q, Received(evs));
    } else {
      assert front[..k] == evs[..k] && front[..k + 1] == evs[..k + 1];
      assert LeftBehind(front, k, g, info);
      LeftBehindLogsNothing(front, k, g, info);
      ReceivedPrefix(evs, n);
      var later := Received(front)[|Received(evs[..k + 1])|..];
      if evs[n].Msg? {
        var p := PacketAt(evs, n);
        assert Received(evs)[|Received(evs[..k + 1])|..] == later + [p];
        AheadIsQueued(Run(front, info), Run(evs[..k], info).q, later, p, evs[n].segment, info);
      }
    }
  }

  lemma CapsNothing(q: seq<Packet>, received: seq<Packet>)
    requires |q| <= QUEUE_LIMIT + 1
    ensures q == Capped(q + received[|received|..])
  {
    assert q + received[|received|..] == q;
  }

  lemma FirstIsWritten(info: EncoderInfo)
    requires info == EncoderInfo(true, false)
    ensures var e := Run([Msg(0, true, 0)], info);
            e.q == [] && e.segmentOffset == 0 && e.seenFirst && e.currentSegment == 0 && e.logged == [Packet(0, 0, true)]
  {
    hide HandleEncoderMsg;
    var p := Packet(0, 0, true);
    assert [Msg(0, true, 0)][..0] == [];
    HandleRotationFields(NewEncoder, p, 0, info);
    CurrentIsWritten(NewEncoder, p, 0, info);
    OneWritten(EnterSegment(Greeted(NewEncoder, p), 0, info), p, info);
  }

  lemma OneWritten(e: Enc, p: Packet, info: EncoderInfo)
    requires p.keyframe
    ensures WriteAll(e, [] + [p], info).logged == e.logged + [p]
  {
    assert ([] + [p])[..0] == [];
    WriteOneLaw(WriteAll(e, [], info), p, info);
  }

  /** So an encoder that is in step with the logger from then on, or ahead of it, is never logged again. */
  lemma LatePacketSilences(evs: seq<Event>, k: nat, info: EncoderInfo)
    requires k < |evs| && evs[k].Msg? && evs[k].segment > 0
    requires IsOlder(Run(evs[..k], info), PacketAt(evs, k), evs[k].segment)
    requires forall i :: k < i < |evs| && evs[i].Msg? ==> evs[i].segmentNum >= evs[i].segment
    ensures Run(evs, info).logged == Run(evs[..k], info).logged && Run(evs, info).out == Run(evs[..k], info).out
  {
    hide Run, IsOlder;
    LeftBehindLogsNothing(evs, k, evs[k].segment, info);
  }

  /** It takes one packet that comes just after the logger has timed out and moved on. */
  lemma OneLatePacketIsEnough(later: seq<Event>, info: EncoderInfo)
    requires info == EncoderInfo(true, false)
    requires forall i :: 0 <= i < |later| && later[i].Msg? ==> later[i].segmentNum >= later[i].segment
    ensures Run([Msg(0, true, 0), Msg(0, false, 1)] + later, info).logged == [Packet(0, 0, true)]
  {
    hide Run, IsOlder;
    var evs := [Msg(0, true, 0), Msg(0, false, 1)] + later;
    assert evs[..1] == [Msg(0, true, 0)];
    FirstIsWritten(info);
    assert IsOlder(Run(evs[..1], info), PacketAt(evs, 1), 1) by {
      LateIsOlder(Run(evs[..1], info), PacketAt(evs, 1));
    }
    LatePacketSilences(evs, 1, info);
  }

  lemma LateIsOlder(e: Enc, p: Packet)
    requires e.seenFirst && e.segmentOffset == 0 && p.segmentNum == 0
    ensures IsOlder(e, p, 1)
  {
  }

  // ---------- which file a packet lies in ----------

  /** The segment of the file opened last. */
  function LastOpen(out: seq<FileEvent>): int {
    if out == [] then -1
    else if out[|out| - 1].Open? then out[|out| - 1].segment
    else LastOpen(out[..|out| - 1])
  }

  /** For each packet in a file, the segment of that file. */
  function FileOf(out: seq<FileEvent>): (r: seq<int>)
    ensures |r| == |DataIn(out)|
  {
    if out == [] then []
    else FileOf(out[..|out| - 1]) + (if out[|out| - 1].Data? then [LastOpen(out[..|out| - 1])] else [])
  }

  lemma FileOfSnoc(out: seq<FileEvent>, x: FileEvent)
    ensures FileOf(out + [x]) == FileOf(out) + (if x.Data? then [LastOpen(out)] else [])
    ensures LastOpen(out + [x]) == if x.Open? then x.segment else LastOpen(out)
  {
    ScanSnoc(out, x);
  }

  /** Every packet written to a file belongs to the file's segment. */
  ghost predicate OwnFiles(e: Enc) {
    && |FileOf(e.out)| == |e.logged|
    && forall i :: 0 <= i < |e.logged| ==> e.logged[i].segmentNum - e.segmentOffset == FileOf(e.out)[i]
  }

  function Times(n: nat, x: int): seq<int> {
    seq(n, i requires 0 <= i => x)
  }

  lemma TimesSnoc(n: nat, x: int)
    ensures Times(n, x) + [x] == Times(n + 1, x)
  {
  }

  lemma WriteFiled(e: Enc, p: Packet, info: EncoderInfo)
    requires e.hasWriter
    ensures var w := WriteEncodeData(e, p, info);
            && LastOpen(w.out) == LastOpen(e.out)
            && |e.logged| <= |w.logged| <= |e.logged| + 1
            && FileOf(w.out) == if |w.logged| == |e.logged| then FileOf(e.out) else FileOf(e.out) + [LastOpen(e.out)]
  {
    hide FileOf, LastOpen;
    FileOfSnoc(e.out, Header(p));
    FileOfSnoc(e.out, Data(p));
    FileOfSnoc(e.out + [Header(p)], Data(p));
    assert FileOf(e.out) + [] == FileOf(e.out);
  }

  /** What is written goes to the file opened last. */
  lemma {:induction false} WriteAllFiled(e: Enc, ps: seq<Packet>, info: EncoderInfo)
    requires FilesOk(e, info) && info.record && e.hasWriter
    ensures var w := WriteAll(e, ps, info);
            && LastOpen(w.out) == LastOpen(e.out) && |w.logged| >= |e.logged|
            && FileOf(w.out) == FileOf(e.out) + Times(|w.logged| - |e.logged|, LastOpen(e.out))
    decreases |ps|
  {
    if ps == [] {
      assert FileOf(e.out) + Times(0, LastOpen(e.out)) == FileOf(e.out);
    } else {
      hide FilesOk, FileOf, LastOpen, WriteEncodeData, Times, DataIn;
      var n := |ps| - 1;
      var v := WriteAll(e, ps[..n], info);
      WriteAllFiled(e, ps[..n], info);
      WriteAllFilesOk(e, ps[..n], info);
      WriteFiled(v, ps[n], info);
      var k := |v.logged| - |e.logged|;
      TimesSnoc(k, LastOpen(e.out));
      ConcatSnoc(FileOf(e.out), Times(k, LastOpen(e.out)), LastOpen(e.out));
    }
  }

  /** What a packet that need not wait writes: the queue and itself, without a lead-in if nothing was recorded yet. */
  function Writes(e: Enc, p: Packet, segment: int, info: EncoderInfo): seq<Packet> {
    var ps := e.q + [p];
    if EnterSegment(Greeted(e, p), segment, info).recording || LeadIn(ps) > |ps| then ps else ps[LeadIn(ps)..]
  }

  /** If the packet need not wait, everything written with it has its segment number. */
  ghost predicate WritesOwn(e: Enc, p: Packet, segment: int, info: EncoderInfo) {
    Waits(e, p, segment, info) || forall x <- Writes(e, p, segment, info) :: x.segmentNum == p.segmentNum
  }

  /** What every run without an older packet keeps: the last file is that of the segment entered last. */
  ghost predicate Filed(e: Enc, info: EncoderInfo) {
    && EncInv(e, info) && (e.hasWriter ==> LastOpen(e.out) == e.currentSegment)
    && (!e.seenFirst ==> e.logged == [] && e.q == [])
  }

  lemma EnterFiled(e: Enc, segment: int, info: EncoderInfo)
    requires Filed(e, info) && info.record && segment >= 0
    ensures var c := EnterSegment(e, segment, info);
            && FilesOk(c, info) && c.hasWriter && LastOpen(c.out) == segment
            && FileOf(c.out) == FileOf(e.out) && c.logged == e.logged && c.segmentOffset == e.segmentOffset
            && c.seenFirst == e.seenFirst && c.currentSegment == segment && c.q == e.q
  {
    EnterFilesOk(e, segment, info);
    FileOfSnoc(e.out, Open(segment));
  }

  lemma GreetedFiled(e: Enc, p: Packet, info: EncoderInfo)
    requires Filed(e, info)
    ensures Filed(Greeted(e, p), info)
  {
  }

  lemma WaitsFiled(e: Enc, p: Packet, segment: int, info: EncoderInfo)
    requires Filed(e, info) && info.record && segment >= 0 && Waits(e, p, segment, info)
    ensures var h := HandleEncoderMsg(e, p, segment, info);
            && Filed(h, info) && h.seenFirst && h.logged == e.logged && FileOf(h.out) == FileOf(e.out)
            && h.segmentOffset == Greeted(e, p).segmentOffset
  {
    hide WriteEncodeData, WriteAll, EnterSegment, LastOpen, FileOf, FilesOk;
    var g := Greeted(e, p);
    HandleEncInv(e, p, segment, info);
    WaitingIsQueued(e, p, segment, info);
    GreetedFiled(e, p, info);
    EnterFiled(g, segment, info);
  }

  lemma WritesFiled(e: Enc, p: Packet, segment: int, info: EncoderInfo)
    requires Filed(e, info) && info.record && segment >= 0 && !Waits(e, p, segment, info) && !IsOlder(e, p, segment)
    ensures var h, ps := HandleEncoderMsg(e, p, segment, info), Writes(e, p, segment, info);
            && Filed(h, info) && h.seenFirst && h.segmentOffset == Greeted(e, p).segmentOffset
            && h.logged == e.logged + ps && FileOf(h.out) == FileOf(e.out) + Times(|ps|, segment)
  {
    hide WriteEncodeData, WriteAll, EnterSegment, LastOpen, FileOf, FilesOk, LeadIn;
    var g, ps := Greeted(e, p), e.q + [p];
    var c := EnterSegment(g, segment, info);
    HandleEncInv(e, p, segment, info);
    CurrentIsWritten(e, p, segment, info);
    GreetedFiled(e, p, info);
    EnterFiled(g, segment, info);
    WriteAllDropsLeadIn(c, ps, info);
    WriteAllFiled(c, ps, info);
    WriteAllKeepsSegment(c, ps, info);
    HandleRotationFields(e, p, segment, info);
  }

  /** No packet of the run was older than the logger's segment. */
  ghost predicate NoOlder(evs: seq<Event>, info: EncoderInfo) {
    forall k :: 0 <= k < |evs| && evs[k].Msg? ==> !IsOlder(Run(evs[..k], info), PacketAt(evs, k), evs[k].segment)
  }

  ghost predicate AllWriteOwn(evs: seq<Event>, info: EncoderInfo) {
    forall k :: 0 <= k < |evs| && evs[k].Msg? ==> WritesOwn(Run(evs[..k], info), PacketAt(evs, k), evs[k].segment, info)
  }

  /** Where the files stand after a write, given where they stood before it. */
  lemma OwnGrows(logged: seq<Packet>, files: seq<int>, ps: seq<Packet>, segment: int, offset: int, p: Packet)
    requires |files| == |logged| && p.segmentNum - offset == segment
    ensures var all, fs := logged + ps, files + Times(|ps|, segment);
            (forall i :: 0 <= i < |all| ==> all[i].segmentNum - offset == fs[i]) <==>
              (forall i :: 0 <= i < |logged| ==> logged[i].segmentNum - offset == files[i])
              && (forall x <- ps :: x.segmentNum == p.segmentNum)
  {
    var all, fs := logged + ps, files + Times(|ps|, segment);
    if forall i :: 0 <= i < |all| ==> all[i].segmentNum - offset == fs[i] {
      forall i | 0 <= i < |logged|
        ensures logged[i].segmentNum - offset == files[i]
      {
        assert all[i] == logged[i] && fs[i] == files[i];
      }
      forall x <- ps
        ensures x.segmentNum == p.segmentNum
      {
        var i :| 0 <= i < |ps| && ps[i] == x;
        assert all[|logged| + i] == x && fs[|logged| + i] == segment;
      }
    }
  }

  lemma StepOwn(e: Enc, p: Packet, segment: int, info: EncoderInfo)
    requires Filed(e, info) && info.record && segment >= 0 && !IsOlder(e, p, segment)
    ensures var h := HandleEncoderMsg(e, p, segment, info);
            && Filed(h, info)
            && (OwnFiles(h) <==> OwnFiles(e) && WritesOwn(e, p, segment, info))
  {
    hide HandleEncoderMsg, Waits, Writes, FileOf, EncInv;
    var h := HandleEncoderMsg(e, p, segment, info);
    FiledCounts(e, info);
    if Waits(e, p, segment, info) {
      WaitsFiled(e, p, segment, info);
    } else {
      var ps := Writes(e, p, segment, info);
      WritesFiled(e, p, segment, info);
      CurrentIsHere(e, p, segment, info);
      OwnGrows(e.logged, FileOf(e.out), ps, segment, h.segmentOffset, p);
    }
  }

  lemma CurrentIsHere(e: Enc, p: Packet, segment: int, info: EncoderInfo)
    requires !IsOlder(e, p, segment) && !Waits(e, p, segment, info)
    ensures p.segmentNum - Greeted(e, p).segmentOffset == segment
  {
  }

  /**
    On every run of a recorded encoder without older packets: all files hold only packets of their
    own segment exactly if, each time the queue is written, none of it is of another segment than the
    packet behind it.
   */
  lemma {:induction false} OwnFilesIff(evs: seq<Event>, info: EncoderInfo)
    requires info.record && SegmentsExist(evs) && NoOlder(evs, info)
    ensures Filed(Run(evs, info), info)
    ensures OwnFiles(Run(evs, info)) <==> AllWriteOwn(evs, info)
    decreases |evs|
  {
    hide HandleEncoderMsg, WritesOwn, IsOlder, FileOf, OwnFiles, EncInv;
    if evs == [] {
      NothingFiled(info);
    } else {
      var n := |evs| - 1;
      var front := evs[..n];
      assert forall k :: 0 <= k < n ==> front[..k] == evs[..k];
      assert forall k :: 0 <= k < n && evs[k].Msg? ==> PacketAt(front, k) == PacketAt(evs, k);
      OwnFilesIff(front, info);
      if evs[n].Msg? {
        StepOwn(Run(front, info), PacketAt(evs, n), evs[n].segment, info);
      } else {
        AudioOwn(Run(front, info), info);
      }
      assert AllWriteOwn(evs, info) <==>
               AllWriteOwn(front, info)
               && (evs[n].Msg? ==> WritesOwn(Run(front, info), PacketAt(evs, n), evs[n].segment, info));
    }
  }

  lemma NothingFiled(info: EncoderInfo)
    ensures Filed(NewEncoder, info) && OwnFiles(NewEncoder)
  {
  }

  lemma FiledCounts(e: Enc, info: EncoderInfo)
    requires Filed(e, info) && info.record
    ensures |FileOf(e.out)| == |e.logged|
  {
  }

  lemma AudioOwn(e: Enc, info: EncoderInfo)
    requires Filed(e, info)
    ensures Filed(AudioArrives(e), info) && (OwnFiles(AudioArrives(e)) <==> OwnFiles(e))
  {
  }

  lemma SecondWaits(info: EncoderInfo)
    requires info == EncoderInfo(true, false)
    ensures var e := Run([Msg(0, true, 0), Msg(1, true, 0)], info);
            e.q == [Packet(1, 1, true)] && e.segmentOffset == 0 && e.seenFirst && e.currentSegment == 0
  {
    hide HandleEncoderMsg;
    var one, two := [Msg(0, true, 0)], [Msg(0, true, 0), Msg(1, true, 0)];
    assert two[..1] == one && one[..0] == [];
    FirstIsWritten(info);
    var e, p := Run(one, info), Packet(1, 1, true);
    HandleRotationFields(e, p, 0, info);
    WaitingIsQueued(e, p, 0, info);
  }

  /** A keyframe of segment 1 that waits is written into the file of segment 2. */
  lemma ThirdWritesBoth(e: Enc, p: Packet, info: EncoderInfo)
    requires info == EncoderInfo(true, false)
    requires e.q == [Packet(1, 1, true)] && e.segmentOffset == 0 && e.seenFirst && e.currentSegment == 0
    requires p.segmentNum == 2
    ensures !WritesOwn(e, p, 2, info)
  {
    assert (e.q + [p])[0] == e.q[0];
    assert Writes(e, p, 2, info) == e.q + [p];
    assert e.q[0] in Writes(e, p, 2, info);
  }

  lemma FirstIsNotOlder(info: EncoderInfo, p: Packet)
    ensures !IsOlder(Run([], info), p, 0)
  {
  }

  /** A file can hold an earlier segment's packets: one that waits while the logger passes over its segment. */
  lemma FileHoldsEarlierSegment()
    ensures exists evs, info: EncoderInfo ::
              info.record && SegmentsExist(evs) && NoOlder(evs, info) && !OwnFiles(Run(evs, info))
  {
    hide HandleEncoderMsg, OwnFiles, Filed, WritesOwn, Run;
    var evs, info := [Msg(0, true, 0), Msg(1, true, 0), Msg(2, true, 2)], EncoderInfo(true, false);
    assert evs[..1] == [evs[0]] && evs[..2] == [evs[0], evs[1]];
    FirstIsWritten(info);
    SecondWaits(info);
    ThirdWritesBoth(Run(evs[..2], info), PacketAt(evs, 2), info);
    assert NoOlder(evs, info) by {
      assert evs[..0] == [];
      FirstIsNotOlder(info, PacketAt(evs, 0));
      assert !IsOlder(Run(evs[..1], info), PacketAt(evs, 1), 0);
      assert !IsOlder(Run(evs[..2], info), PacketAt(evs, 2), 2);
    }
    OwnFilesIff(evs, info);
    assert !WritesOwn(Run(evs[..2], info), PacketAt(evs, 2), evs[2].segment, info);
  }
}
