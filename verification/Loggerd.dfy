/** The logger's state and its remote encoders, updated message by message. */
module Loggerd {
  import opened Logging
  import Rotation

  class LoggerdState {
    var segment: int
    var readyToRotate: nat
    var maxWaiting: nat

    constructor (maxWaiting: nat)
      ensures segment == 0 && readyToRotate == 0 && this.maxWaiting == maxWaiting
    {
      segment, readyToRotate := 0, 0;
      this.maxWaiting := maxWaiting;
    }

    method LoggerRotate()
      modifies this`segment, this`readyToRotate
      ensures segment == old(segment) + 1 && readyToRotate == 0
    {
      segment := segment + 1;
      readyToRotate := 0;
    }

    /** `timedOut` is the outcome of the clock checks on segment length and camera silence. */
    method RotateIfNeeded(timedOut: bool, ghost f: Rotation.Fleet)
      requires f.segment == segment && f.ready == readyToRotate && |f.encs| == maxWaiting
      modifies this`segment, this`readyToRotate
      ensures f.(segment := segment, ready := readyToRotate) == Rotation.RotateIfNeeded(f, timedOut)
      ensures var goes := timedOut || old(readyToRotate) == maxWaiting;
              && segment == old(segment) + (if goes then 1 else 0)
              && readyToRotate == if goes then 0 else old(readyToRotate)
    {
      var allReady := readyToRotate == maxWaiting;
      if allReady || timedOut {
        LoggerRotate();
      }
    }
  }

  class RemoteEncoder {
    var segmentOffset: int
    var currentSegment: int
    var q: seq<Packet>
    var droppedFrames: nat
    var recording: bool
    var markedReadyToRotate: bool
    var seenFirstPacket: bool
    var audioInitialized: bool
    var hasWriter: bool
    var out: seq<FileEvent>
    var logged: seq<Packet>
    ghost var drops: seq<Drop>

    ghost function Model(): Enc
      reads this
    {
      Enc(segmentOffset, currentSegment, q, droppedFrames, recording, markedReadyToRotate, seenFirstPacket,
          audioInitialized, hasWriter, out, logged, drops)
    }

    constructor ()
      ensures Model() == NewEncoder
    {
      segmentOffset, currentSegment, q, droppedFrames := 0, -1, [], 0;
      recording, markedReadyToRotate, seenFirstPacket, audioInitialized, hasWriter := false, false, false, false, false;
      out, logged, drops := [], [], [];
    }

    method DoWriteEncodeData(p: Packet, info: EncoderInfo)
      modifies this`droppedFrames, this`drops, this`out, this`recording, this`logged
      ensures Model() == WriteEncodeData(old(Model()), p, info)
    {
      if !recording {
        if p.keyframe {
          if droppedFrames != 0 {
            droppedFrames := 0;
          }
          if info.record {
            out := out + [Header(p)];
          }
          recording := true;
        } else {
          droppedFrames := droppedFrames + 1;
          drops := drops + [Drop(p, NoKeyframeYet)];
          return;
        }
      }
      if hasWriter {
        out := out + [Data(p)];
      }
      logged := logged + [p];
    }

    /** Process the queued messages in order, then empty the queue. */
    method FlushQueue(info: EncoderInfo)
      modifies this`droppedFrames, this`drops, this`out, this`recording, this`logged, this`q
      ensures Model() == WriteAll(old(Model()), old(q), info).(q := [])
    {
      ghost var e := Model();
      for k := 0 to |q|
        invariant q == e.q && Model() == WriteAll(e, q[..k], info)
      {
        assert q[..k + 1][..k] == q[..k];
        DoWriteEncodeData(q[k], info);
      }
      assert q[..|q|] == q;
      q := [];
    }

    method DoEnterSegment(segment: int, info: EncoderInfo)
      modifies this
      ensures Model() == EnterSegment(old(Model()), segment, info)
    {
      if currentSegment != segment {
        if info.record {
          hasWriter := true;
          out := out + [Open(segment)];
          recording := false;
          audioInitialized := false;
        }
        currentSegment := segment;
        markedReadyToRotate := false;
      }
    }

    method DoEnqueue(p: Packet)
      modifies this`q, this`drops
      ensures Model() == Enqueue(old(Model()), p)
    {
      if |q| > QUEUE_LIMIT {
        drops := drops + [Drop(p, QueueFull)];
      } else {
        q := q + [p];
      }
    }

    method Greet(p: Packet)
      modifies this`seenFirstPacket, this`segmentOffset
      ensures Model() == Greeted(old(Model()), p)
    {
      if !seenFirstPacket {
        seenFirstPacket := true;
        segmentOffset := p.segmentNum;
      }
    }

    method HandleMsg(s: LoggerdState, p: Packet, info: EncoderInfo)
      modifies this, s`readyToRotate
      ensures Model() == HandleEncoderMsg(old(Model()), p, s.segment, info)
      ensures s.readyToRotate == old(s.readyToRotate) + (if NewlyReady(old(Model()), p, s.segment) then 1 else 0)
    {
      Greet(p);
      var offsetSegmentNum := p.segmentNum - segmentOffset;
      if offsetSegmentNum == s.segment {
        // the packet belongs to the segment being logged
        DoEnterSegment(s.segment, info);
        if audioInitialized || !info.includeAudio {
          FlushQueue(info);
          DoWriteEncodeData(p, info);
        } else {
          DoEnqueue(p);
        }
      } else if offsetSegmentNum > s.segment {
        // a later segment: note it once for the rotation
        if !markedReadyToRotate {
          markedReadyToRotate := true;
          s.readyToRotate := s.readyToRotate + 1;
        }
        DoEnqueue(p);
      } else {
        // a packet of a segment that is already closed
        segmentOffset := -s.segment;
        drops := drops + [Drop(p, OlderSegment)];
      }
    }

    method AudioData()
      modifies this`audioInitialized
      ensures Model() == AudioArrives(old(Model()))
    {
      if hasWriter {
        audioInitialized := true;
      }
    }
  }
}
