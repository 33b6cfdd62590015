/**
  The panda object: the send buffer filled record by record, and the receive buffer that
  carries an undecoded tail from one bulk read to the next.
 */
module Panda {
  import opened Framing
  import opened Sequences
  import opened PandaCodec

  method Memcpy(dst: array<byte>, pos: nat, src: seq<byte>)
    requires pos + |src| <= dst.Length
    modifies dst
    ensures dst[pos..pos + |src|] == src
    ensures forall i :: 0 <= i < dst.Length && !(pos <= i < pos + |src|) ==> dst[i] == old(dst[i])
  {
    forall i | 0 <= i < |src| {
      dst[pos + i] := src[i];
    }
  }

  method CalculateChecksum(data: array<byte>, pos: nat, len: nat) returns (checksum: byte)
    requires pos + len <= data.Length
    ensures checksum == Checksum(data[pos..pos + len])
  {
    checksum := 0;
    for i := 0 to len
      invariant checksum == Checksum(data[pos..pos + i])
    {
      assert data[pos..pos + i + 1][..i] == data[pos..pos + i];
      checksum := checksum ^ data[pos + i];
    }
  }

  /** Copy header and data behind `pos`, then store the checksum in the header. */
  method PutRecord(sendBuf: array<byte>, pos: nat, cmsg: CanMsg, busOffset: nat) returns (msgSize: nat)
    requires Mine(cmsg, busOffset) && DlcSized(cmsg.data)
    requires pos + MAX_RECORD <= sendBuf.Length
    modifies sendBuf
    ensures msgSize == |Encode(cmsg, busOffset)|
    ensures sendBuf[..pos + msgSize] == old(sendBuf[..pos]) + Encode(cmsg, busOffset)
  {
    hide EncodeHeader, HeaderOf, Mine, Checksum;
    var header := HeaderOf(cmsg, busOffset);
    ghost var raw := EncodeHeader(header) + cmsg.data;
    msgSize := HEADER_SIZE + |cmsg.data|;
    Memcpy(sendBuf, pos, EncodeHeader(header));
    Memcpy(sendBuf, pos + HEADER_SIZE, cmsg.data);
    assert sendBuf[pos..pos + msgSize] == raw by {
      assert sendBuf[pos..pos + HEADER_SIZE] == EncodeHeader(header);
    }
    // seal the record
    var checksum := CalculateChecksum(sendBuf, pos, msgSize);
    sendBuf[pos + 5] := checksum;
    assert sendBuf[pos..pos + msgSize] == raw[5 := checksum];
    assert header.(checksum := 0) == header;
  }

  class Panda {
    const busOffset: nat
    const receiveBuffer: array<byte>
    var receiveBufferSize: nat

    ghost predicate Valid()
      reads this, receiveBuffer
    {
      && receiveBuffer.Length == RECV_SIZE + MAX_RECORD
      && receiveBufferSize <= receiveBuffer.Length
      && Incomplete(Pending())
    }

    /** Bytes received but not yet part of a complete record. */
    ghost function Pending(): seq<byte>
      requires receiveBufferSize <= receiveBuffer.Length
      reads this, receiveBuffer
    {
      receiveBuffer[..receiveBufferSize]
    }

    constructor (busOffset: nat)
      ensures Valid() && fresh(receiveBuffer)
      ensures this.busOffset == busOffset && Pending() == []
    {
      this.busOffset := busOffset;
      receiveBuffer := new byte[RECV_SIZE + MAX_RECORD];
      receiveBufferSize := 0;
    }

    /**
      Serialise the messages of this panda's buses; `writes` are the calls to the write
      function.  The groups are the messages of each write: a write ends on a record boundary,
      as soon as the soft limit is reached, and never overruns the buffer.
     */
    method PackCanBuffer(canDataList: seq<CanMsg>) returns (writes: seq<seq<byte>>)
      requires forall m <- canDataList :: Mine(m, busOffset) ==> DlcSized(m.data)
      ensures exists groups :: Packed(canDataList, writes, groups, busOffset)
    {
      hide Packed, Encode, EncodeHeader, HeaderOf, Flatten, Relevant, Framed;
      var pos := 0;
      var sendBuf := new byte[2 * USB_TX_SOFT_LIMIT];
      writes := [];
      ghost var groups: seq<seq<CanMsg>> := [];
      ghost var group: seq<CanMsg> := [];
      PackingStarts(busOffset);
      assert canDataList[..0] == [];
      for k := 0 to |canDataList|
        invariant fresh(sendBuf) && sendBuf.Length == 2 * USB_TX_SOFT_LIMIT
        invariant Packing(canDataList[..k], writes, groups, group, busOffset)
        invariant 0 <= pos < USB_TX_SOFT_LIMIT && sendBuf[..pos] == EncodeAll(group, busOffset)
      {
        var cmsg := canDataList[k];
        TakeNext(canDataList, k);
        if cmsg.src < busOffset || cmsg.src >= busOffset + PANDA_BUS_OFFSET {
          PackingSkips(canDataList[..k], cmsg, writes, groups, group, busOffset);
          continue;
        }
        PackingTakes(canDataList[..k], cmsg, writes, groups, group, busOffset);
        ghost var bytes := EncodeAll(group, busOffset) + Encode(cmsg, busOffset);
        var msgSize := PutRecord(sendBuf, pos, cmsg, busOffset);
        pos := pos + msgSize;
        group := group + [cmsg];
        assert sendBuf[..pos] == bytes == EncodeAll(group, busOffset);
        if pos < USB_TX_SOFT_LIMIT {
          assert Packing(canDataList[..k + 1], writes, groups, group, busOffset);
        } else {
          assert Packing(canDataList[..k + 1], writes + [bytes], groups + [group], [], busOffset);
        }

        if pos >= USB_TX_SOFT_LIMIT {
          writes := writes + [sendBuf[..pos]];
          groups := groups + [group];
          group := [];
          pos := 0;
        }
      }
      assert canDataList[..|canDataList|] == canDataList;
      PackingEnds(canDataList, writes, groups, group, busOffset);
      // flush what is left
      if pos > 0 {
        writes := writes + [sendBuf[..pos]];
        groups := groups + [group];
      }
    }

    /**
      One bulk read: `recv` is its return value, `bytes` what it stored, `healthy` the state of
      the link afterwards.  The space check at the top never fails.
     */
    method CanReceive(recv: int, bytes: seq<byte>, healthy: bool, outVec: seq<CanFrame>)
      returns (ok: bool, outVec': seq<CanFrame>)
      requires Valid()
      requires |bytes| == if recv > 0 then recv else 0
      requires |bytes| <= RECV_SIZE
      modifies this, receiveBuffer
      ensures Valid()
      ensures var p := ParseCan(old(Pending()) + bytes, busOffset);
              if healthy then
                ok == p.ok && outVec' == outVec + p.frames && Pending() == p.rest
              else
                !ok && outVec' == outVec && Pending() == old(Pending())
    {
      outVec' := outVec;
      // a whole read fits behind any tail
      assert receiveBufferSize + RECV_SIZE <= receiveBuffer.Length;
      Memcpy(receiveBuffer, receiveBufferSize, bytes);
      assert receiveBuffer[..receiveBufferSize] == old(Pending());
      if !healthy {
        return false, outVec';
      }
      assert receiveBuffer[..receiveBufferSize + |bytes|] == old(Pending()) + bytes;
      ok := true;
      if recv > 0 {
        receiveBufferSize := receiveBufferSize + recv;
        ok, receiveBufferSize, outVec' := UnpackCanBuffer(receiveBuffer, receiveBufferSize, outVec);
        TailIsShort(old(Pending()) + bytes, busOffset);
      } else {
        assert old(Pending()) + bytes == old(Pending());
        assert outVec + [] == outVec;
      }
    }

    /** Decode complete records in place and move the undecoded tail to the front. */
    method UnpackCanBuffer(data: array<byte>, size: nat, outVec: seq<CanFrame>)
      returns (ok: bool, size': nat, outVec': seq<CanFrame>)
      requires HEADER_SIZE <= data.Length && size <= data.Length < 0x1_0000_0000
      modifies data
      ensures size' <= size
      ensures var p := ParseCan(old(data[..size]), busOffset);
              ok == p.ok && outVec' == outVec + p.frames && data[..size'] == p.rest
    {
      var pos;
      ok, pos, outVec' := DecodeRecords(data, size, outVec);
      if !ok {
        return false, 0, outVec';
      }
      // the undecoded tail goes to the front, where the next read will append
      forall i | 0 <= i < size - pos {
        data[i] := data[pos + i];
      }
      size' := size - pos;
      assert data[..size'] == old(data[pos..size]);
    }

    /** The decoding loop: `pos` is where the undecoded tail starts. */
    method DecodeRecords(data: array<byte>, size: nat, outVec: seq<CanFrame>)
      returns (ok: bool, pos: nat, outVec': seq<CanFrame>)
      requires HEADER_SIZE <= data.Length && size <= data.Length < 0x1_0000_0000
      ensures pos <= size
      ensures var p := ParseCan(data[..size], busOffset);
              ok == p.ok && outVec' == outVec + p.frames && p.rest == if ok then data[pos..size] else []
    {
      pos, outVec' := 0, outVec;
      ghost var s, trail: seq<Found<CanFrame>> := data[..size], [];
      while pos <= LastStart(size)
        invariant 0 <= pos <= size
        invariant size < HEADER_SIZE ==> pos == 0
        invariant CanTrail(s, trail, busOffset) && End(trail) == pos
        invariant outVec' == outVec + Frames(trail)
        decreases size - pos
      {
        var r := ReadOne(data, pos, size);
        if !r.Record? {
          // stop here: either a checksum fails or the record is cut off
          CanTrailMeans(s, trail, r, busOffset);
          assert s[pos..] == data[pos..size];
          return r.More?, pos, outVec';
        }
        CanTrailGrows(s, trail, r, busOffset);
        trail := trail + [Found(pos, r.frame, pos + r.len)];
        outVec' := outVec' + [r.frame];
        pos := pos + r.len;
      }
      CanTrailMeans(s, trail, More, busOffset);
      assert s[pos..] == data[pos..size];
      return true, pos, outVec';
    }

    /**
      The body of the loop above.  With fewer than six bytes pending the header is read from
      stale buffer contents, and the length check is what stops the loop.
     */
    method ReadOne(data: array<byte>, pos: nat, size: nat) returns (r: Head<CanFrame>)
      requires pos <= size <= data.Length && pos + HEADER_SIZE <= data.Length
      ensures r == ReadRecord(data[..size][pos..], busOffset)
    {
      var header := DecodeHeader(data[pos..pos + HEADER_SIZE]);
      DecodedHeaderFits(data[pos..pos + HEADER_SIZE]);
      var n := HEADER_SIZE + DlcToLen(header.dataLenCode);
      if pos + n > size {
        assert pos + HEADER_SIZE <= size ==> data[..size][pos..][..HEADER_SIZE] == data[pos..pos + HEADER_SIZE];
        return More;
      }
      assert data[..size][pos..][..HEADER_SIZE] == data[pos..pos + HEADER_SIZE];
      assert data[..size][pos..][..n] == data[pos..pos + n];
      var checksum := CalculateChecksum(data, pos, n);
      if checksum != 0 {
        return Corrupt;
      }
      return Record(FrameOf(data[pos..pos + n], busOffset), n);
    }
  }
}
