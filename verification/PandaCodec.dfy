/**
  The panda CAN wire format: a six-byte packed header, a DLC-sized payload and an XOR
  checksum that makes every record fold to zero.  Pure encoding and parsing functions
  and their laws; the buffers that carry the bytes are in Panda.dfy.
 */
module PandaCodec {
  import opened Framing
  import opened Sequences

  type byte = bv8

  const USB_TX_SOFT_LIMIT := 0x100
  const RECV_SIZE := 0x4000
  const HEADER_SIZE := 6
  const MAX_RECORD := HEADER_SIZE + 64
  const PANDA_BUS_OFFSET := 4
  const CAN_REJECTED_BUS_OFFSET := 0xC0
  const CAN_RETURNED_BUS_OFFSET := 0x80

  // CAN FD data length codes, ISO 11898-1 control field
  const DLC_TO_LEN: seq<nat> := [0, 1, 2, 3, 4, 5, 6, 7, 8, 12, 16, 20, 24, 32, 48, 64]

  /** A message handed to the sender. */
  datatype CanMsg = CanMsg(address: bv32, src: nat, data: seq<byte>)

  /** A frame handed out by the receiver. */
  datatype CanFrame = CanFrame(address: bv32, src: nat, data: seq<byte>)

  /** The packed struct: bit fields in declaration order, least significant bit first. */
  datatype CanHeader = CanHeader(
    reserved: bool, bus: bv8, dataLenCode: bv8,
    rejected: bool, returned: bool, extended: bool, addr: bv32, checksum: byte)
  {
    /** Every field fits its declared width. */
    predicate Fits() {
      bus < 8 && dataLenCode < 16 && addr < 0x2000_0000
    }
  }

  // ---------- header ----------

  /** The 32 bits after the first byte: three flags and the 29-bit address. */
  function Word(addr: bv32, rejected: bool, returned: bool, extended: bool): bv32 {
    (addr << 3)
    | (if rejected then 1 else 0) | (if returned then 2 else 0) | (if extended then 4 else 0)
  }

  function FirstByte(reserved: bool, bus: bv8, dataLenCode: bv8): byte {
    (if reserved then 1 else 0) | (bus << 1) | (dataLenCode << 4)
  }

  function Join(b1: byte, b2: byte, b3: byte, b4: byte): bv32 {
    (b1 as bv32) | ((b2 as bv32) << 8) | ((b3 as bv32) << 16) | ((b4 as bv32) << 24)
  }

  function EncodeHeader(h: CanHeader): (r: seq<byte>)
    requires h.Fits()
    ensures |r| == HEADER_SIZE
  {
    var w := Word(h.addr, h.rejected, h.returned, h.extended);
    [ FirstByte(h.reserved, h.bus, h.dataLenCode),
      (w & 0xFF) as byte, ((w >> 8) & 0xFF) as byte, ((w >> 16) & 0xFF) as byte, (w >> 24) as byte,
      h.checksum ]
  }

  function DecodeHeader(s: seq<byte>): (h: CanHeader)
    requires |s| == HEADER_SIZE
  {
    var w := Join(s[1], s[2], s[3], s[4]);
    CanHeader(s[0] & 1 == 1, (s[0] >> 1) & 7, s[0] >> 4,
              w & 1 == 1, w & 2 == 2, w & 4 == 4, w >> 3, s[5])
  }

  lemma JoinSplit(w: bv32)
    ensures Join((w & 0xFF) as byte, ((w >> 8) & 0xFF) as byte, ((w >> 16) & 0xFF) as byte, (w >> 24) as byte) == w
  {
  }

  lemma WordFields(addr: bv32, rejected: bool, returned: bool, extended: bool)
    requires addr < 0x2000_0000
    ensures var w := Word(addr, rejected, returned, extended);
            && w >> 3 == addr
            && (w & 1 == 1) == rejected && (w & 2 == 2) == returned && (w & 4 == 4) == extended
  {
  }

  lemma FirstByteFields(reserved: bool, bus: bv8, dataLenCode: bv8)
    requires bus < 8 && dataLenCode < 16
    ensures var b := FirstByte(reserved, bus, dataLenCode);
            (b & 1 == 1) == reserved && (b >> 1) & 7 == bus && b >> 4 == dataLenCode
  {
  }

  /** The header layout is a bijection: no field overlaps another and no bit is lost. */
  lemma HeaderRoundTrip(h: CanHeader)
    requires h.Fits()
    ensures DecodeHeader(EncodeHeader(h)) == h
  {
    JoinSplit(Word(h.addr, h.rejected, h.returned, h.extended));
    WordFields(h.addr, h.rejected, h.returned, h.extended);
    FirstByteFields(h.reserved, h.bus, h.dataLenCode);
  }

  lemma DecodedHeaderFits(s: seq<byte>)
    requires |s| == HEADER_SIZE
    ensures DecodeHeader(s).Fits()
  {
  }

  lemma SmallNatRoundTrip(k: nat)
    requires k < 16
    ensures k as bv8 < 16 && (k as bv8) as nat == k
    ensures k < 8 ==> k as bv8 < 8
  {
  }

  // ---------- data length code ----------

  function LenToDlc(len: nat): (r: nat)
    requires len <= 64
    ensures r < 16
  {
    if len <= 8 then len
    else if len <= 24 then 8 + (len - 8) / 4 + (if len % 4 != 0 then 1 else 0)
    else 11 + len / 16 + (if len % 16 != 0 then 1 else 0)
  }

  /** The code picks the smallest CAN FD length that holds the data. */
  lemma LenToDlcIsLeast(len: nat)
    requires len <= 64
    ensures len <= DLC_TO_LEN[LenToDlc(len)]
    ensures forall d: nat :: d < LenToDlc(len) ==> DLC_TO_LEN[d] < len
  {
  }

  function DlcToLen(code: bv8): (r: nat)
    requires code < 16
    ensures r <= 64
  {
    DLC_TO_LEN[code as nat]
  }

  predicate DlcSized(data: seq<byte>) {
    |data| <= 64 && DLC_TO_LEN[LenToDlc(|data|)] == |data|
  }

  /** The data lengths that can be sent are exactly those of the table. */
  lemma DlcSizedIff(data: seq<byte>)
    ensures DlcSized(data) <==> exists d :: 0 <= d < 16 && DLC_TO_LEN[d] == |data|
  {
    if |data| <= 64 {
      LenToDlcIsLeast(|data|);
    }
  }

  // ---------- checksum ----------

  function Checksum(s: seq<byte>): byte {
    if s == [] then 0 else Checksum(s[..|s| - 1]) ^ s[|s| - 1]
  }

  lemma {:induction false} ChecksumConcat(a: seq<byte>, b: seq<byte>)
    ensures Checksum(a + b) == Checksum(a) ^ Checksum(b)
  {
    if b == [] {
      assert a + b == a;
    } else {
      assert (a + b)[..|a + b| - 1] == a + b[..|b| - 1];
      ChecksumConcat(a, b[..|b| - 1]);
    }
  }

  /** Storing the checksum in a zeroed byte makes the whole record fold to zero. */
  lemma ChecksumSeals(s: seq<byte>, k: nat)
    requires k < |s| && s[k] == 0
    ensures Checksum(s[k := Checksum(s)]) == 0
  {
    var c := Checksum(s);
    var t := s[k := c];
    assert s == s[..k] + ([s[k]] + s[k + 1..]);
    assert t == s[..k] + ([c] + s[k + 1..]);
    ChecksumConcat(s[..k], [s[k]] + s[k + 1..]);
    ChecksumConcat(s[..k], [c] + s[k + 1..]);
    ChecksumConcat([s[k]], s[k + 1..]);
    ChecksumConcat([c], s[k + 1..]);
    assert [s[k]][..0] == [] && [c][..0] == [];
  }

  // ---------- one record ----------

  function HeaderOf(m: CanMsg, busOffset: nat): (h: CanHeader)
    requires Mine(m, busOffset) && DlcSized(m.data)
    ensures h.Fits() && h.checksum == 0
  {
    SmallNatRoundTrip(LenToDlc(|m.data|));
    SmallNatRoundTrip(m.src - busOffset);
    CanHeader(false, (m.src - busOffset) as bv8, LenToDlc(|m.data|) as bv8,
              false, false, m.address >= 0x800, m.address & 0x1FFF_FFFF, 0)
  }

  /** A record with its checksum filled in. */
  function Seal(h: CanHeader, data: seq<byte>): (r: seq<byte>)
    requires h.Fits()
    ensures |r| == HEADER_SIZE + |data|
  {
    var raw := EncodeHeader(h.(checksum := 0)) + data;
    raw[5 := Checksum(raw)]
  }

  function Encode(m: CanMsg, busOffset: nat): (r: seq<byte>)
    requires Mine(m, busOffset) && DlcSized(m.data)
    ensures HEADER_SIZE <= |r| <= MAX_RECORD
  {
    Seal(HeaderOf(m, busOffset), m.data)
  }

  /** Length of the record that starts at the head of `s`. */
  function RecordLen(s: seq<byte>): (n: nat)
    requires |s| >= HEADER_SIZE
    ensures HEADER_SIZE <= n <= MAX_RECORD
  {
    DecodedHeaderFits(s[..HEADER_SIZE]);
    HEADER_SIZE + DlcToLen(DecodeHeader(s[..HEADER_SIZE]).dataLenCode)
  }

  /** No complete record at the head of `s`. */
  predicate Incomplete(s: seq<byte>) {
    |s| < HEADER_SIZE || |s| < RecordLen(s)
  }

  function FrameOf(record: seq<byte>, busOffset: nat): CanFrame
    requires |record| >= HEADER_SIZE
  {
    var h := DecodeHeader(record[..HEADER_SIZE]);
    CanFrame(h.addr,
             h.bus as nat + busOffset
             + (if h.rejected then CAN_REJECTED_BUS_OFFSET else 0)
             + (if h.returned then CAN_RETURNED_BUS_OFFSET else 0),
             record[HEADER_SIZE..])
  }

  /** An encoded message carries a zero checksum, its own length and every field. */
  lemma RecordRoundTrip(m: CanMsg, busOffset: nat, more: seq<byte>)
    requires Mine(m, busOffset) && DlcSized(m.data)
    ensures var r := Encode(m, busOffset);
            && !Incomplete(r + more)
            && RecordLen(r + more) == |r|
            && (r + more)[..|r|] == r
            && (r + more)[|r|..] == more
            && Checksum(r) == 0
            && FrameOf(r, busOffset) == Delivered(m)
  {
    hide Checksum, EncodeHeader, DecodeHeader, Encode;
    var r := Encode(m, busOffset);
    var h' := SealedHeader(m, busOffset);
    RecordFields(r, h', m.data, more);
    SmallNatRoundTrip(LenToDlc(|m.data|));
    SmallNatRoundTrip(m.src - busOffset);
  }

  /** The extended flag on the wire says whether the address needs more than eleven bits; no other flag is set. */
  lemma ExtendedFlag(m: CanMsg, busOffset: nat)
    requires Mine(m, busOffset) && DlcSized(m.data)
    ensures var h := DecodeHeader(Encode(m, busOffset)[..HEADER_SIZE]);
            && (h.extended <==> m.address as nat > 0x7FF)
            && !h.reserved && !h.rejected && !h.returned
  {
    hide Encode, EncodeHeader, DecodeHeader, Checksum, HeaderOf, DlcSized;
    var h' := SealedHeader(m, busOffset);
    RecordFields(Encode(m, busOffset), h', m.data, []);
    HeaderExtended(m, busOffset);
  }

  lemma HeaderExtended(m: CanMsg, busOffset: nat)
    requires Mine(m, busOffset) && DlcSized(m.data)
    ensures var h := HeaderOf(m, busOffset);
            (h.extended <==> m.address as nat > 0x7FF) && !h.reserved && !h.rejected && !h.returned
  {
    hide LenToDlc;
  }

  /** The source of a frame tells its bus and its flags apart: normal, returned, rejected, or both. */
  lemma SourceTellsFlags(record: seq<byte>, busOffset: nat)
    requires |record| >= HEADER_SIZE && busOffset + 8 <= 0x40
    ensures var h, src := DecodeHeader(record[..HEADER_SIZE]), FrameOf(record, busOffset).src;
            && (src < 0x80 <==> !h.rejected && !h.returned)
            && (0x80 <= src < 0xC0 <==> h.returned && !h.rejected)
            && (0xC0 <= src < 0x140 <==> h.rejected && !h.returned)
            && (0x140 <= src <==> h.rejected && h.returned)
            && src % 0x40 == h.bus as nat + busOffset
  {
    DecodedHeaderFits(record[..HEADER_SIZE]);
    hide DecodeHeader;
    BusIsSmall(DecodeHeader(record[..HEADER_SIZE]).bus);
  }

  lemma BusIsSmall(b: bv8)
    requires b < 8
    ensures b as nat < 8
  {
  }

  /** A sealed record is its header, checksum filled in, and the data; it folds to zero. */
  lemma SealIs(h: CanHeader, data: seq<byte>) returns (h': CanHeader)
    requires h.Fits()
    ensures h'.Fits() && h' == h.(checksum := h'.checksum)
    ensures Seal(h, data) == EncodeHeader(h') + data && Checksum(Seal(h, data)) == 0
  {
    hide Checksum, EncodeHeader;
    var raw := EncodeHeader(h.(checksum := 0)) + data;
    var c := Checksum(raw);
    PutChecksum(h, c);
    ChecksumSeals(raw, 5);
    h' := h.(checksum := c);
    assert raw[5 := c] == EncodeHeader(h') + data;
  }

  lemma PutChecksum(h: CanHeader, c: byte)
    requires h.Fits()
    ensures var blank := EncodeHeader(h.(checksum := 0));
            |blank| == 6 && blank[5] == 0 && blank[5 := c] == EncodeHeader(h.(checksum := c))
  {
    hide Word, FirstByte;
    var e, blank := EncodeHeader(h.(checksum := c)), EncodeHeader(h.(checksum := 0));
    assert e[5] == c && blank[5] == 0;
    assert e[..5] == blank[..5];
    assert blank[5 := c] == e[..5] + [c];
  }

  lemma SealedHeader(m: CanMsg, busOffset: nat) returns (h': CanHeader)
    requires Mine(m, busOffset) && DlcSized(m.data)
    ensures h'.Fits() && h' == HeaderOf(m, busOffset).(checksum := h'.checksum)
    ensures Encode(m, busOffset) == EncodeHeader(h') + m.data
    ensures Checksum(Encode(m, busOffset)) == 0
  {
    hide Checksum, EncodeHeader, HeaderOf, Seal;
    h' := SealIs(HeaderOf(m, busOffset), m.data);
  }

  /** What the receiver reads off a record followed by more bytes. */
  lemma RecordFields(r: seq<byte>, h: CanHeader, data: seq<byte>, more: seq<byte>)
    requires h.Fits() && r == EncodeHeader(h) + data
    ensures |r| == HEADER_SIZE + |data|
    ensures DecodeHeader((r + more)[..HEADER_SIZE]) == DecodeHeader(r[..HEADER_SIZE]) == h
    ensures (r + more)[..|r|] == r && (r + more)[|r|..] == more && r[HEADER_SIZE..] == data
  {
    HeaderRoundTrip(h);
    hide EncodeHeader, DecodeHeader;
    assert (r + more)[..HEADER_SIZE] == r[..HEADER_SIZE] == EncodeHeader(h);
  }

  // ---------- streams of records ----------

  /** Is the message meant for the panda at this bus offset? */
  predicate Mine(m: CanMsg, busOffset: nat) {
    busOffset <= m.src < busOffset + PANDA_BUS_OFFSET
  }

  /** What the receiver should see for a message: 29 address bits, same bus, same data. */
  function Delivered(m: CanMsg): CanFrame {
    CanFrame(m.address & 0x1FFF_FFFF, m.src, m.data)
  }

  predicate Sendable(ms: seq<CanMsg>, busOffset: nat) {
    forall m <- ms :: Mine(m, busOffset) && DlcSized(m.data)
  }

  function EncodeAll(ms: seq<CanMsg>, busOffset: nat): seq<byte>
    requires Sendable(ms, busOffset)
  {
    if ms == [] then [] else Encode(ms[0], busOffset) + EncodeAll(ms[1..], busOffset)
  }

  lemma {:induction false} EncodeAllConcat(a: seq<CanMsg>, b: seq<CanMsg>, busOffset: nat)
    requires Sendable(a, busOffset) && Sendable(b, busOffset)
    ensures Sendable(a + b, busOffset)
    ensures EncodeAll(a + b, busOffset) == EncodeAll(a, busOffset) + EncodeAll(b, busOffset)
  {
    hide Encode, DlcSized, Mine;
    if a == [] {
      assert a + b == b;
    } else {
      assert (a + b)[1..] == a[1..] + b;
      EncodeAllConcat(a[1..], b, busOffset);
      ConcatAssoc(Encode(a[0], busOffset), EncodeAll(a[1..], busOffset), EncodeAll(b, busOffset));
    }
  }

  lemma EncodeAllSnoc(ms: seq<CanMsg>, m: CanMsg, busOffset: nat)
    requires Sendable(ms, busOffset) && Mine(m, busOffset) && DlcSized(m.data)
    ensures Sendable(ms + [m], busOffset)
    ensures EncodeAll(ms + [m], busOffset) == EncodeAll(ms, busOffset) + Encode(m, busOffset)
  {
    EncodeAllConcat(ms, [m], busOffset);
    assert [m][1..] == [];
  }

  /** `size - sizeof(can_header)` in 64-bit unsigned arithmetic: huge when fewer than six bytes are pending. */
  function LastStart(size: nat): (r: nat)
    requires size < 0x1_0000_0000
    ensures size >= HEADER_SIZE ==> r == size - HEADER_SIZE
    ensures size < HEADER_SIZE ==> r > 0x1_0000_0000
  {
    (size - HEADER_SIZE) % 0x1_0000_0000_0000_0000
  }

  /** What the unpacking loop decides from the bytes at its current position. */
  function ReadRecord(s: seq<byte>, busOffset: nat): Head<CanFrame> {
    if Incomplete(s) then More
    else
      var n := RecordLen(s);
      if Checksum(s[..n]) != 0 then Corrupt
      else Record(FrameOf(s[..n], busOffset), n)
  }

  function Reader(busOffset: nat): seq<byte> -> Head<CanFrame> {
    (s: seq<byte>) => ReadRecord(s, busOffset)
  }

  lemma ReaderIsSound(busOffset: nat)
    ensures Sound(Reader(busOffset))
  {
  }

  /** A record is decided by its own bytes: the length code and checksum do not look further. */
  lemma RecordIsStable(a: seq<byte>, b: seq<byte>, busOffset: nat)
    requires !Incomplete(a)
    ensures ReadRecord(a + b, busOffset) == ReadRecord(a, busOffset)
  {
    assert (a + b)[..HEADER_SIZE] == a[..HEADER_SIZE];
    assert (a + b)[..RecordLen(a)] == a[..RecordLen(a)];
  }

  lemma ReaderIsStable(busOffset: nat)
    ensures Stable(Reader(busOffset))
  {
    forall a: seq<byte>, b: seq<byte> | !Reader(busOffset)(a).More?
      ensures Reader(busOffset)(a + b) == Reader(busOffset)(a)
    {
      RecordIsStable(a, b, busOffset);
    }
  }

  ghost predicate CanTrail(s: seq<byte>, trail: seq<Found<CanFrame>>, busOffset: nat) {
    Trail(Reader(busOffset), s, trail) && End(trail) <= |s|
  }

  lemma CanTrailGrows(s: seq<byte>, trail: seq<Found<CanFrame>>, r: Head<CanFrame>, busOffset: nat)
    requires CanTrail(s, trail, busOffset) && r.Record? && r == ReadRecord(s[End(trail)..], busOffset)
    ensures var more := trail + [Found(End(trail), r.frame, End(trail) + r.len)];
            CanTrail(s, more, busOffset) && Frames(more) == Frames(trail) + [r.frame]
  {
    TrailGrows(Reader(busOffset), s, trail);
  }

  lemma CanTrailMeans(s: seq<byte>, trail: seq<Found<CanFrame>>, r: Head<CanFrame>, busOffset: nat)
    requires CanTrail(s, trail, busOffset) && !r.Record? && r == ReadRecord(s[End(trail)..], busOffset)
    ensures ParseCan(s, busOffset)
            == Parsed(r.More?, Frames(trail), if r.More? then s[End(trail)..] else [])
  {
    ReaderIsSound(busOffset);
    TrailMeans(Reader(busOffset), s, trail);
  }

  /** What a stream means: frames, undecoded tail and verdict. */
  ghost function ParseCan(s: seq<byte>, busOffset: nat): Parsed<byte, CanFrame> {
    ReaderIsSound(busOffset);
    Parse(Reader(busOffset), s)
  }

  ghost function ReceiveCan(pieces: seq<seq<byte>>, busOffset: nat): Parsed<byte, CanFrame> {
    ReaderIsSound(busOffset);
    ReceiveAll(Reader(busOffset), [], pieces)
  }

  /** An undecoded tail is always shorter than one maximal record. */
  lemma TailIsShort(s: seq<byte>, busOffset: nat)
    ensures var rest := ParseCan(s, busOffset).rest;
            Incomplete(rest) && |rest| < MAX_RECORD
  {
    ReaderIsSound(busOffset);
    RestIsUndecided(Reader(busOffset), s);
  }

  /** The reader takes one record off the front and leaves the rest. */
  lemma FirstRecord(m: CanMsg, busOffset: nat, more: seq<byte>)
    requires Mine(m, busOffset) && DlcSized(m.data)
    ensures var r := Encode(m, busOffset);
            && ReadRecord(r + more, busOffset) == Record(Delivered(m), |r|)
            && (r + more)[|r|..] == more
  {
    hide Encode, Checksum, RecordLen, FrameOf, DlcSized, Mine, Delivered;
    RecordRoundTrip(m, busOffset, more);
  }

  /** Parsing an encoded list gives back exactly that list, in order, with nothing left over. */
  lemma {:induction false} ParseEncodeAll(ms: seq<CanMsg>, busOffset: nat)
    requires Sendable(ms, busOffset)
    ensures ParseCan(EncodeAll(ms, busOffset), busOffset)
            == Parsed(true, seq(|ms|, i requires 0 <= i < |ms| => Delivered(ms[i])), [])
  {
    hide Encode, Checksum, RecordLen, FrameOf, DlcSized, Mine;
    if ms != [] {
      var more := EncodeAll(ms[1..], busOffset);
      FirstRecord(ms[0], busOffset, more);
      ParseEncodeAll(ms[1..], busOffset);
    }
  }

  /** The CAN receiver does not care how the stream was cut into reads. */
  lemma CanChunkIndependence(pieces: seq<seq<byte>>, busOffset: nat)
    ensures ReceiveCan(pieces, busOffset) == ParseCan(Flatten(pieces), busOffset)
  {
    ReaderIsSound(busOffset);
    ReaderIsStable(busOffset);
    ChunkIndependence(Reader(busOffset), [], pieces);
    ConcatAssoc(Flatten(pieces), [], []);
  }

  // ---------- what a device sends back ----------

  /** The source that a frame shows: its bus, and the mark of a returned or a rejected frame. */
  function Source(h: CanHeader, busOffset: nat): nat {
    match (h.rejected, h.returned)
    case (false, false) => busOffset + h.bus as nat
    case (false, true) => 0x80 + busOffset + h.bus as nat
    case (true, false) => 0xC0 + busOffset + h.bus as nat
    case (true, true) => 0x140 + busOffset + h.bus as nat
  }

  /** Every sealed record, whatever its flags and whatever follows it, is read as its own address, bus and data. */
  lemma SealedIsRead(h: CanHeader, data: seq<byte>, busOffset: nat, more: seq<byte>)
    requires h.Fits() && |data| == DlcToLen(h.dataLenCode)
    ensures ReadRecord(Seal(h, data) + more, busOffset)
            == Record(CanFrame(h.addr, Source(h, busOffset), data), HEADER_SIZE + |data|)
  {
    hide EncodeHeader, DecodeHeader, Seal, Checksum, DlcToLen;
    var r := Seal(h, data);
    var h' := SealIs(h, data);
    RecordFields(r, h', data, more);
    assert RecordLen(r + more) == |r|;
  }

  /** One damaged byte behind the length code is always noticed. */
  lemma DamageIsNoticed(h: CanHeader, data: seq<byte>, busOffset: nat, more: seq<byte>, k: nat, b: byte)
    requires h.Fits() && |data| == DlcToLen(h.dataLenCode)
    requires 0 < k < HEADER_SIZE + |data| && b != Seal(h, data)[k]
    ensures ReadRecord(Seal(h, data)[k := b] + more, busOffset) == Corrupt
  {
    hide EncodeHeader, Seal, DlcToLen, Checksum;
    var r := Seal(h, data);
    var t := r[k := b];
    var h' := SealIs(h, data);
    RecordFields(r, h', data, more);
    assert (t + more)[..|t|] == t && (t + more)[..HEADER_SIZE][0] == r[..HEADER_SIZE][0];
    SameLength(r[..HEADER_SIZE], (t + more)[..HEADER_SIZE]);
    OneByteTells(r, k, b);
  }

  lemma SameLength(a: seq<byte>, b: seq<byte>)
    requires |a| == |b| == HEADER_SIZE && a[0] == b[0]
    ensures DecodeHeader(a).dataLenCode == DecodeHeader(b).dataLenCode
  {
  }

  lemma OneByteTells(s: seq<byte>, k: nat, b: byte)
    requires k < |s| && b != s[k]
    ensures Checksum(s[k := b]) != Checksum(s)
  {
    var t, left, right := s[k := b], s[..k], s[k + 1..];
    assert s == left + ([s[k]] + right) && t == left + ([b] + right);
    ChecksumConcat(left, [s[k]] + right);
    ChecksumConcat(left, [b] + right);
    ChecksumConcat([s[k]], right);
    ChecksumConcat([b], right);
    assert [s[k]][..0] == [] && [b][..0] == [];
  }

  /** What is decoded before a damaged record is kept; from there on nothing is, and the stream is reported. */
  lemma {:induction false} ParseStopsAtDamage(ms: seq<CanMsg>, h: CanHeader, data: seq<byte>, k: nat, b: byte, more: seq<byte>,
                                              busOffset: nat)
    requires Sendable(ms, busOffset) && h.Fits() && |data| == DlcToLen(h.dataLenCode)
    requires 0 < k < HEADER_SIZE + |data| && b != Seal(h, data)[k]
    ensures ParseCan(EncodeAll(ms, busOffset) + (Seal(h, data)[k := b] + more), busOffset)
            == Parsed(false, seq(|ms|, i requires 0 <= i < |ms| => Delivered(ms[i])), [])
  {
    hide Encode, Seal, ReadRecord, DlcSized, Mine;
    var bad := Seal(h, data)[k := b] + more;
    if ms == [] {
      DamageIsNoticed(h, data, busOffset, more, k, b);
      assert EncodeAll(ms, busOffset) + bad == bad;
    } else {
      var rest := EncodeAll(ms[1..], busOffset) + bad;
      FirstRecord(ms[0], busOffset, rest);
      ParseStopsAtDamage(ms[1..], h, data, k, b, more, busOffset);
      ConcatAssoc(Encode(ms[0], busOffset), EncodeAll(ms[1..], busOffset), bad);
    }
  }

  /** A message that a panda sends back, marked as returned (sent), as rejected, or both. */
  datatype Reply = Reply(m: CanMsg, rejected: bool, returned: bool)

  ghost predicate Repliable(rs: seq<Reply>, busOffset: nat) {
    forall r <- rs :: Mine(r.m, busOffset) && DlcSized(r.m.data)
  }

  function ReplyBytes(r: Reply, busOffset: nat): seq<byte>
    requires Mine(r.m, busOffset) && DlcSized(r.m.data)
  {
    Seal(HeaderOf(r.m, busOffset).(rejected := r.rejected, returned := r.returned), r.m.data)
  }

  function AllReplies(rs: seq<Reply>, busOffset: nat): seq<byte>
    requires Repliable(rs, busOffset)
  {
    if rs == [] then [] else ReplyBytes(rs[0], busOffset) + AllReplies(rs[1..], busOffset)
  }

  /** The sent message, its source raised by 0x80 if returned and by 0xC0 if rejected. */
  function Shown(r: Reply): CanFrame {
    Delivered(r.m).(src := r.m.src + (if r.returned then 0x80 else 0) + (if r.rejected then 0xC0 else 0))
  }

  lemma ReplyIsRead(r: Reply, busOffset: nat, more: seq<byte>)
    requires Mine(r.m, busOffset) && DlcSized(r.m.data)
    ensures ReadRecord(ReplyBytes(r, busOffset) + more, busOffset) == Record(Shown(r), |ReplyBytes(r, busOffset)|)
  {
    hide Seal, ReadRecord;
    var h := HeaderOf(r.m, busOffset).(rejected := r.rejected, returned := r.returned);
    SmallNatRoundTrip(LenToDlc(|r.m.data|));
    SmallNatRoundTrip(r.m.src - busOffset);
    SealedIsRead(h, r.m.data, busOffset, more);
  }

  lemma {:induction false} ParseReplies(rs: seq<Reply>, busOffset: nat)
    requires Repliable(rs, busOffset)
    ensures ParseCan(AllReplies(rs, busOffset), busOffset)
            == Parsed(true, seq(|rs|, i requires 0 <= i < |rs| => Shown(rs[i])), [])
  {
    hide ReplyBytes, ReadRecord, DlcSized, Mine, Shown;
    if rs != [] {
      var more := AllReplies(rs[1..], busOffset);
      ReplyIsRead(rs[0], busOffset, more);
      assert (ReplyBytes(rs[0], busOffset) + more)[|ReplyBytes(rs[0], busOffset)|..] == more;
      ParseReplies(rs[1..], busOffset);
    } else {
      assert ReadRecord([], busOffset) == More by {
        EmptyIsMore(busOffset);
      }
    }
  }

  lemma EmptyIsMore(busOffset: nat)
    ensures ReadRecord([], busOffset) == More
  {
  }

  /** End to end: replies cut into reads in any way arrive in order, each with its own bus and marks. */
  lemma RepliesAreReceived(rs: seq<Reply>, pieces: seq<seq<byte>>, busOffset: nat)
    requires Repliable(rs, busOffset) && Flatten(pieces) == AllReplies(rs, busOffset)
    ensures ReceiveCan(pieces, busOffset)
            == Parsed(true, seq(|rs|, i requires 0 <= i < |rs| => Shown(rs[i])), [])
  {
    CanChunkIndependence(pieces, busOffset);
    ParseReplies(rs, busOffset);
  }

  // ---------- sending ----------

  function Relevant(ms: seq<CanMsg>, busOffset: nat): seq<CanMsg> {
    if ms == [] then []
    else Relevant(ms[..|ms| - 1], busOffset)
         + (if Mine(ms[|ms| - 1], busOffset) then [ms[|ms| - 1]] else [])
  }

  /** Of the pandas at offsets 0, 4, 8 and so on, exactly one sends a given message: the one of its group of four buses. */
  lemma OnePandaSends(m: CanMsg, k: nat)
    ensures Mine(m, 4 * k) <==> m.src / 4 == k
  {
  }

  lemma {:induction false} RelevantConcat(a: seq<CanMsg>, b: seq<CanMsg>, busOffset: nat)
    ensures Relevant(a + b, busOffset) == Relevant(a, busOffset) + Relevant(b, busOffset)
  {
    if b == [] {
      assert a + b == a;
    } else {
      RelevantConcat(a, b[..|b| - 1], busOffset);
      assert (a + b)[..|a + b| - 1] == a + b[..|b| - 1];
    }
  }

  /** A panda sends the messages of its four buses, in the order given, and no others. */
  lemma RelevantIs(a: seq<CanMsg>, m: CanMsg, b: seq<CanMsg>, busOffset: nat)
    ensures Relevant(a + [m] + b, busOffset)
            == Relevant(a, busOffset) + (if busOffset <= m.src <= busOffset + 3 then [m] else []) + Relevant(b, busOffset)
    ensures Relevant([], busOffset) == []
  {
    RelevantConcat(a + [m], b, busOffset);
    RelevantConcat(a, [m], busOffset);
    assert [m][..0] == [];
  }

  /** The writes are whole records: write `i` encodes group `i`, and no group is empty. */
  ghost predicate Framed(writes: seq<seq<byte>>, groups: seq<seq<CanMsg>>, busOffset: nat) {
    && |writes| == |groups|
    && forall i :: 0 <= i < |writes| ==>
         groups[i] != [] && Sendable(groups[i], busOffset) && writes[i] == EncodeAll(groups[i], busOffset)
  }

  /**
    Bookkeeping of the sender after the messages `done`: finished writes, and the records of
    `group` waiting in the send buffer.  A write ends with the first record that reaches the
    soft limit.
   */
  ghost predicate Packing(done: seq<CanMsg>, writes: seq<seq<byte>>, groups: seq<seq<CanMsg>>,
                          group: seq<CanMsg>, busOffset: nat)
  {
    && Framed(writes, groups, busOffset)
    && Sendable(group, busOffset)
    && Flatten(groups) + group == Relevant(done, busOffset)
    && (forall i :: 0 <= i < |writes| ==> FilledJustNow(groups[i], busOffset))
    && |EncodeAll(group, busOffset)| < USB_TX_SOFT_LIMIT
    && (group == [] <==> EncodeAll(group, busOffset) == [])
  }

  ghost predicate FilledJustNow(group: seq<CanMsg>, busOffset: nat)
    requires group != [] && Sendable(group, busOffset)
  {
    && USB_TX_SOFT_LIMIT <= |EncodeAll(group, busOffset)| < USB_TX_SOFT_LIMIT + MAX_RECORD
    && |EncodeAll(group[..|group| - 1], busOffset)| < USB_TX_SOFT_LIMIT
  }

  lemma PackingStarts(busOffset: nat)
    ensures Packing([], [], [], [], busOffset)
  {
  }

  lemma PackingSkips(done: seq<CanMsg>, m: CanMsg, writes: seq<seq<byte>>, groups: seq<seq<CanMsg>>,
                     group: seq<CanMsg>, busOffset: nat)
    requires Packing(done, writes, groups, group, busOffset) && !Mine(m, busOffset)
    ensures Packing(done + [m], writes, groups, group, busOffset)
  {
    assert (done + [m])[..|done|] == done;
    ConcatAssoc(Relevant(done, busOffset), [], []);
  }

  lemma PackingAdds(done: seq<CanMsg>, m: CanMsg, writes: seq<seq<byte>>, groups: seq<seq<CanMsg>>,
                    group: seq<CanMsg>, busOffset: nat)
    requires Packing(done, writes, groups, group, busOffset)
    requires Mine(m, busOffset) && DlcSized(m.data)
    ensures Sendable(group + [m], busOffset)
    ensures EncodeAll(group + [m], busOffset) == EncodeAll(group, busOffset) + Encode(m, busOffset)
    ensures Flatten(groups) + (group + [m]) == Relevant(done + [m], busOffset)
    ensures |EncodeAll(group + [m], busOffset)| < USB_TX_SOFT_LIMIT ==>
              Packing(done + [m], writes, groups, group + [m], busOffset)
    ensures |EncodeAll(group + [m], busOffset)| >= USB_TX_SOFT_LIMIT ==> FilledJustNow(group + [m], busOffset)
  {
    assert (done + [m])[..|done|] == done;
    EncodeAllSnoc(group, m, busOffset);
    ConcatAssoc(Flatten(groups), group, [m]);
    assert (group + [m])[..|group|] == group;
  }

  lemma PackingFlushes(done: seq<CanMsg>, writes: seq<seq<byte>>, groups: seq<seq<CanMsg>>,
                       group: seq<CanMsg>, busOffset: nat)
    requires Framed(writes, groups, busOffset)
    requires forall i :: 0 <= i < |writes| ==> FilledJustNow(groups[i], busOffset)
    requires group != [] && Sendable(group, busOffset) && FilledJustNow(group, busOffset)
    requires Flatten(groups) + group == Relevant(done, busOffset)
    ensures Packing(done, writes + [EncodeAll(group, busOffset)], groups + [group], [], busOffset)
  {
    hide Encode, DlcSized, Mine, Relevant;
    FlattenSnoc(groups, group);
    ConcatAssoc(Relevant(done, busOffset), [], []);
    var ws, gs := writes + [EncodeAll(group, busOffset)], groups + [group];
    forall i | 0 <= i < |ws|
      ensures gs[i] != [] && Sendable(gs[i], busOffset) && ws[i] == EncodeAll(gs[i], busOffset)
      ensures FilledJustNow(gs[i], busOffset)
    {
      if i < |writes| {
        assert gs[i] == groups[i] && ws[i] == writes[i];
      }
    }
  }

  /** One message of this panda: it joins the waiting group, and the group is written once it is big enough. */
  lemma PackingTakes(done: seq<CanMsg>, m: CanMsg, writes: seq<seq<byte>>, groups: seq<seq<CanMsg>>,
                     group: seq<CanMsg>, busOffset: nat)
    requires Packing(done, writes, groups, group, busOffset)
    requires Mine(m, busOffset) && DlcSized(m.data)
    ensures var bytes := EncodeAll(group, busOffset) + Encode(m, busOffset);
            && Sendable(group + [m], busOffset)
            && EncodeAll(group + [m], busOffset) == bytes
            && if |bytes| >= USB_TX_SOFT_LIMIT then
                 Packing(done + [m], writes + [bytes], groups + [group + [m]], [], busOffset)
               else
                 Packing(done + [m], writes, groups, group + [m], busOffset)
  {
    PackingAdds(done, m, writes, groups, group, busOffset);
    if |EncodeAll(group + [m], busOffset)| >= USB_TX_SOFT_LIMIT {
      PackingFlushes(done + [m], writes, groups, group + [m], busOffset);
    }
  }

  lemma {:induction false} FramedFlattens(writes: seq<seq<byte>>, groups: seq<seq<CanMsg>>, busOffset: nat)
    requires Framed(writes, groups, busOffset)
    ensures Sendable(Flatten(groups), busOffset)
    ensures Flatten(writes) == EncodeAll(Flatten(groups), busOffset)
  {
    if writes != [] {
      assert Framed(writes[1..], groups[1..], busOffset);
      FramedFlattens(writes[1..], groups[1..], busOffset);
      EncodeAllConcat(groups[0], Flatten(groups[1..]), busOffset);
    }
  }

  /**
    The result of packing `ms`: whole records of this panda's messages, in order; every write
    but the last ends with the first record that reaches the soft limit.
   */
  ghost predicate Packed(ms: seq<CanMsg>, writes: seq<seq<byte>>, groups: seq<seq<CanMsg>>, busOffset: nat) {
    && Framed(writes, groups, busOffset)
    && Flatten(groups) == Relevant(ms, busOffset)
    && (forall i :: 0 <= i < |writes| - 1 ==> FilledJustNow(groups[i], busOffset))
    && (forall w <- writes :: 0 < |w| < USB_TX_SOFT_LIMIT + MAX_RECORD)
  }

  lemma PackingEnds(ms: seq<CanMsg>, writes: seq<seq<byte>>, groups: seq<seq<CanMsg>>,
                    group: seq<CanMsg>, busOffset: nat)
    requires Packing(ms, writes, groups, group, busOffset)
    ensures group == [] ==> Packed(ms, writes, groups, busOffset)
    ensures group != [] ==>
              Packed(ms, writes + [EncodeAll(group, busOffset)], groups + [group], busOffset)
  {
    hide Encode, DlcSized, Mine, Relevant;
    if group == [] {
      ConcatAssoc(Flatten(groups), [], []);
    } else {
      FlattenSnoc(groups, group);
      var ws, gs := writes + [EncodeAll(group, busOffset)], groups + [group];
      forall i | 0 <= i < |ws|
        ensures gs[i] != [] && Sendable(gs[i], busOffset) && ws[i] == EncodeAll(gs[i], busOffset)
        ensures i < |ws| - 1 ==> FilledJustNow(gs[i], busOffset)
      {
        if i < |writes| {
          assert gs[i] == groups[i] && ws[i] == writes[i];
        }
      }
    }
  }

  /**
    End to end: the bytes of the writes, cut into reads in any way, reach the other side as
    exactly the messages of this panda's buses, in order.
   */
  lemma SentIsReceived(ms: seq<CanMsg>, writes: seq<seq<byte>>, groups: seq<seq<CanMsg>>,
                       pieces: seq<seq<byte>>, busOffset: nat)
    requires Packed(ms, writes, groups, busOffset)
    requires Flatten(pieces) == Flatten(writes)
    ensures var sent := Relevant(ms, busOffset);
            ReceiveCan(pieces, busOffset)
            == Parsed(true, seq(|sent|, i requires 0 <= i < |sent| => Delivered(sent[i])), [])
  {
    FramedFlattens(writes, groups, busOffset);
    CanChunkIndependence(pieces, busOffset);
    ParseEncodeAll(Relevant(ms, busOffset), busOffset);
  }
}
