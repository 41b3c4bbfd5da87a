/** The wire format: common header, VIDEO and input bodies. Packing writes a byte
    buffer in place and is proved against the byte sequence of the message; parsing is
    proved to be the exact inverse of that byte sequence. */
module Wire {
  import opened Words

  type Bytes = seq<u8>

  const PROTO_MAGIC: u32 := 0x5753_5531
  const PROTO_VERSION: u8 := 1
  const HEADER_SIZE := 8
  const MAX_SLICE_PAYLOAD := 1200
  const MAX_PLAYERS := 4
  const NO_SLOT: u8 := 0xFF
  const TOUCH_NONE: u16 := 0xFFFF
  const INPUT_TIMEOUT_MS := 1000
  const PEER_TIMEOUT_MS := 5000
  const PKT_VIDEO: u8 := 4
  const PKT_INPUT_BUNDLE: u8 := 7
  const VIDEO_FLAG_KEYFRAME: u8 := 1
  const VIDEO_HEADER_SIZE := 15
  const INPUT_STATE_SIZE := 26

  // ---------------------------------------------------------------- words as bytes

  function BytesU16(v: u16): Bytes {
    [v / 256, v % 256]
  }

  function BytesU32(v: u32): Bytes {
    [v / 0x100_0000, v / 0x1_0000 % 256, v / 256 % 256, v % 256]
  }

  /** `(uint16_t)v`: two's complement. */
  function BytesI16(v: i16): Bytes {
    BytesU16(Wrap16(v))
  }

  function GetU16(p: Bytes, off: nat): u16
    requires off + 2 <= |p|
  {
    (p[off] as int) * 256 + p[off + 1]
  }

  function GetU32(p: Bytes, off: nat): u32
    requires off + 4 <= |p|
  {
    (p[off] as int) * 0x100_0000 + (p[off + 1] as int) * 0x1_0000 + (p[off + 2] as int) * 256 + p[off + 3]
  }

  function GetI16(p: Bytes, off: nat): i16
    requires off + 2 <= |p|
  {
    var w := GetU16(p, off);
    if w < 0x8000 then w else w - 0x1_0000
  }

  lemma U16Inverse(p: Bytes, off: nat, v: u16)
    requires off + 2 <= |p|
    ensures p[off..off + 2] == BytesU16(v) <==> GetU16(p, off) == v
  {
    assert p[off..off + 2] == [p[off], p[off + 1]];
    assert v == v / 256 * 256 + v % 256;
  }

  lemma U32Inverse(p: Bytes, off: nat, v: u32)
    requires off + 4 <= |p|
    ensures p[off..off + 4] == BytesU32(v) <==> GetU32(p, off) == v
  {
    assert p[off..off + 4] == [p[off], p[off + 1], p[off + 2], p[off + 3]];
    FourDigits(v, p[off], p[off + 1], p[off + 2], p[off + 3]);
  }

  /** The base-256 digits of a word are unique. */
  lemma FourDigits(v: u32, a: u8, b: u8, c: u8, d: u8)
    ensures a == v / 0x100_0000 && b == v / 0x1_0000 % 256 && c == v / 256 % 256 && d == v % 256 <==>
            v == (a as int) * 0x100_0000 + (b as int) * 0x1_0000 + (c as int) * 256 + d
  {
    var hi: u16, lo: u16 := v / 0x1_0000, v % 0x1_0000;
    DigitsOfHalves(v, hi, lo);
    TwoDigits(hi, a, b);
    TwoDigits(lo, c, d);
    Halves(v, (a as int) * 256 + b, (c as int) * 256 + d);
  }

  lemma TwoDigits(w: u16, a: u8, b: u8)
    ensures a == w / 256 && b == w % 256 <==> w == (a as int) * 256 + b
  {
  }

  lemma Halves(v: u32, hi: u16, lo: u16)
    ensures hi == v / 0x1_0000 && lo == v % 0x1_0000 <==> v == (hi as int) * 0x1_0000 + lo
  {
  }

  lemma DigitsOfHalves(v: u32, hi: u16, lo: u16)
    requires hi == v / 0x1_0000 && lo == v % 0x1_0000
    ensures v / 0x100_0000 == hi / 256 && v / 256 % 256 == lo / 256 && v % 256 == lo % 256
  {
    assert v / 256 == hi * 256 + lo / 256;
  }

  /** The number that two or four bytes spell, the most significant first. */
  predicate Spells16(hi: u8, lo: u8, v: int) {
    (hi as int) * 256 + lo == v
  }

  predicate Spells32(a: u8, b: u8, c: u8, d: u8, v: int) {
    (a as int) * 16777216 + (b as int) * 65536 + (c as int) * 256 + d == v
  }

  /** On the wire the most significant byte comes first. */
  lemma MostSignificantFirst(v: u16, w: u32, a: u8, b: u8, c: u8, d: u8)
    ensures BytesU16(v) == [a, b] <==> Spells16(a, b, v)
    ensures BytesU32(w) == [a, b, c, d] <==> Spells32(a, b, c, d, w)
  {
    TwoDigits(v, a, b);
    FourDigits(w, a, b, c, d);
  }

  lemma I16Inverse(p: Bytes, off: nat, v: i16)
    requires off + 2 <= |p|
    ensures p[off..off + 2] == BytesI16(v) <==> GetI16(p, off) == v
  {
    U16Inverse(p, off, Wrap16(v));
  }

  /** A slice equals a concatenation exactly when its two parts do. */
  lemma SliceOfConcat(p: Bytes, off: nat, a: Bytes, b: Bytes)
    requires off + |a| + |b| <= |p|
    ensures p[off..off + |a| + |b|] == a + b <==>
            p[off..off + |a|] == a && p[off + |a|..off + |a| + |b|] == b
  {
    var w := p[off..off + |a| + |b|];
    assert w[..|a|] == p[off..off + |a|];
    assert w[|a|..] == p[off + |a|..off + |a| + |b|];
    assert w == w[..|a|] + w[|a|..];
    assert (a + b)[..|a|] == a && (a + b)[|a|..] == b;
  }

  // ---------------------------------------------------------------- concatenation

  function Concat(parts: seq<Bytes>): Bytes {
    if parts == [] then [] else Concat(parts[..|parts| - 1]) + parts[|parts| - 1]
  }

  lemma ConcatNext(front: Bytes, parts: seq<Bytes>)
    requires parts != []
    ensures front + Concat(parts[..|parts| - 1]) + parts[|parts| - 1] == front + Concat(parts)
  {
    var done, last := Concat(parts[..|parts| - 1]), parts[|parts| - 1];
    assert front + done + last == front + (done + last);
  }

  /** In a table of 26-byte cells, cell `j` lies at `26 * j`. */
  lemma {:induction false} TableLength(cells: seq<Bytes>)
    requires forall i :: 0 <= i < |cells| ==> |cells[i]| == 26
    ensures |Concat(cells)| == 26 * |cells|
  {
    if cells != [] {
      TableLength(cells[..|cells| - 1]);
    }
  }

  lemma {:induction false} TableAt(cells: seq<Bytes>, j: nat, lo: nat)
    requires forall i :: 0 <= i < |cells| ==> |cells[i]| == 26
    requires j < |cells| && lo == j * 26
    ensures lo + 26 <= |Concat(cells)|
    ensures Concat(cells)[lo..lo + 26] == cells[j]
  {
    var n := |cells| - 1;
    var front, last := Concat(cells[..n]), cells[n];
    TableLength(cells[..n]);
    if j < n {
      TableAt(cells[..n], j, lo);
      SliceOfFront(front, last, lo, lo + 26);
    } else {
      assert (front + last)[lo..lo + 26] == last;
    }
  }

  lemma SliceOfFront(front: Bytes, back: Bytes, lo: nat, hi: nat)
    requires lo <= hi <= |front|
    ensures (front + back)[lo..hi] == front[lo..hi]
  {
  }

  /** A word stored at `off` extends the finished part of the buffer and touches nothing
      after itself: the contract shared by all `wsu_put_*` writers. */
  twostate predicate Appends(buf: array<u8>, off: nat, written: Bytes)
    reads buf
  {
    && off + |written| <= buf.Length
    && buf[..off + |written|] == old(buf[..off]) + written
    && forall k :: off + |written| <= k < buf.Length ==> buf[k] == old(buf[k])
  }

  method PutU8(buf: array<u8>, off: nat, v: u8)
    requires off + 1 <= buf.Length
    modifies buf
    ensures Appends(buf, off, [v])
  {
    buf[off] := v;
  }

  method PutU16(buf: array<u8>, off: nat, v: u16)
    requires off + 2 <= buf.Length
    modifies buf
    ensures Appends(buf, off, BytesU16(v))
  {
    buf[off] := v / 256;
    buf[off + 1] := v % 256;
  }

  method PutU32(buf: array<u8>, off: nat, v: u32)
    requires off + 4 <= buf.Length
    modifies buf
    ensures Appends(buf, off, BytesU32(v))
  {
    buf[off] := v / 0x100_0000;
    buf[off + 1] := v / 0x1_0000 % 256;
    buf[off + 2] := v / 256 % 256;
    buf[off + 3] := v % 256;
  }

  /** `memcpy` of a whole source into the buffer. */
  method PutBytes(buf: array<u8>, off: nat, src: Bytes)
    requires off + |src| <= buf.Length
    modifies buf
    ensures Appends(buf, off, src)
  {
    for i := 0 to |src|
      invariant buf[..off + i] == old(buf[..off]) + src[..i]
      invariant forall k :: off + i <= k < buf.Length ==> buf[k] == old(buf[k])
    {
      buf[off + i] := src[i];
      assert src[..i + 1] == src[..i] + [src[i]];
      assert buf[..off + i + 1] == buf[..off + i] + [src[i]];
    }
    assert src[..|src|] == src;
  }

  // ---------------------------------------------------------------- common header

  datatype Header = Header(version: u8, kind: u8, seqNo: u16)

  function HeaderBytes(kind: u8, seqNo: u16): Bytes {
    BytesU32(PROTO_MAGIC) + [PROTO_VERSION, kind] + BytesU16(seqNo)
  }

  method PackHeader(buf: array<u8>, kind: u8, seqNo: u16) returns (n: nat)
    requires HEADER_SIZE <= buf.Length
    modifies buf
    ensures n == HEADER_SIZE
    ensures Appends(buf, 0, HeaderBytes(kind, seqNo))
  {
    PutU32(buf, 0, PROTO_MAGIC);
    PutU8(buf, 4, PROTO_VERSION);
    PutU8(buf, 5, kind);
    PutU16(buf, 6, seqNo);
    n := HEADER_SIZE;
    assert buf[..8] == HeaderBytes(kind, seqNo);
  }

  function ParseHeader(buf: Bytes): Option<Header> {
    if |buf| < HEADER_SIZE || GetU32(buf, 0) != PROTO_MAGIC then None
    else Some(Header(buf[4], buf[5], GetU16(buf, 6)))
  }

  /** Parsing accepts exactly the datagrams that begin with an encoded header. */
  lemma HeaderRoundTrip(buf: Bytes, h: Header)
    ensures ParseHeader(buf) == Some(h) <==>
            |buf| >= HEADER_SIZE && buf[..8] == BytesU32(PROTO_MAGIC) + [h.version, h.kind] + BytesU16(h.seqNo)
  {
    if |buf| >= HEADER_SIZE {
      U32Inverse(buf, 0, PROTO_MAGIC);
      U16Inverse(buf, 6, h.seqNo);
      assert buf[..8] == buf[0..4] + [buf[4], buf[5]] + buf[6..8];
    }
  }

  /** What is taken for a datagram of this protocol, and where its type is read. */
  lemma KindOnWire(dg: Bytes)
    ensures ParseHeader(dg).Some? <==> |dg| >= 8 && dg[..4] == [0x57, 0x53, 0x55, 0x31]
    ensures ParseHeader(dg).Some? ==> ParseHeader(dg).value.kind == dg[5]
  {
    if |dg| >= 8 {
      U32Inverse(dg, 0, PROTO_MAGIC);
      MostSignificantFirst(0, PROTO_MAGIC, 0x57, 0x53, 0x55, 0x31);
    }
  }

  // ---------------------------------------------------------------- VIDEO

  datatype VideoHeader = VideoHeader(
    frameId: u32, timestampMs: u32, flags: u8, sliceIndex: u16, sliceCount: u16, payloadLen: u16)

  function FrameFields(v: VideoHeader): Bytes {
    BytesU32(v.frameId) + BytesU32(v.timestampMs) + [v.flags]
  }

  function SliceFields(v: VideoHeader): Bytes {
    BytesU16(v.sliceIndex) + BytesU16(v.sliceCount) + BytesU16(v.payloadLen)
  }

  function VideoBody(v: VideoHeader, payload: Bytes): Bytes {
    FrameFields(v) + SliceFields(v) + payload
  }

  function VideoDatagram(seqNo: u16, v: VideoHeader, payload: Bytes): Bytes {
    HeaderBytes(PKT_VIDEO, seqNo) + VideoBody(v, payload)
  }

  method PutFrameFields(buf: array<u8>, off: nat, v: VideoHeader)
    requires off + 9 <= buf.Length
    modifies buf
    ensures Appends(buf, off, FrameFields(v))
  {
    ghost var was := buf[..off];
    PutU32(buf, off, v.frameId);
    PutU32(buf, off + 4, v.timestampMs);
    PutU8(buf, off + 8, v.flags);
    assert buf[..off + 9] == was + FrameFields(v);
  }

  method PutSliceFields(buf: array<u8>, off: nat, v: VideoHeader)
    requires off + 6 <= buf.Length
    modifies buf
    ensures Appends(buf, off, SliceFields(v))
  {
    ghost var was := buf[..off];
    PutU16(buf, off, v.sliceIndex);
    PutU16(buf, off + 2, v.sliceCount);
    PutU16(buf, off + 4, v.payloadLen);
    assert buf[..off + 6] == was + SliceFields(v);
  }

  /** Everything of a VIDEO datagram before its payload. */
  method PackVideoFront(buf: array<u8>, seqNo: u16, v: VideoHeader) returns (n: nat)
    requires HEADER_SIZE + VIDEO_HEADER_SIZE <= buf.Length
    modifies buf
    ensures n == HEADER_SIZE + VIDEO_HEADER_SIZE
    ensures Appends(buf, 0, HeaderBytes(PKT_VIDEO, seqNo) + VideoBody(v, []))
  {
    var off := PackHeader(buf, PKT_VIDEO, seqNo);
    PutFrameFields(buf, off, v);
    PutSliceFields(buf, off + 9, v);
    n := off + VIDEO_HEADER_SIZE;
    assert buf[..n] == HeaderBytes(PKT_VIDEO, seqNo) + VideoBody(v, []);
  }

  lemma FrontAndPayload(seqNo: u16, v: VideoHeader, payload: Bytes)
    ensures HeaderBytes(PKT_VIDEO, seqNo) + VideoBody(v, []) + payload == VideoDatagram(seqNo, v, payload)
  {
  }

  /** `wsu_pack_video`: refuses a payload over the slice limit or a buffer too small, and
      otherwise leaves exactly the datagram at the front of the buffer. */
  method PackVideo(buf: array<u8>, seqNo: u16, v: VideoHeader, payload: Bytes) returns (n: int)
    requires |payload| >= v.payloadLen
    modifies buf
    ensures n == -1 <==> v.payloadLen > MAX_SLICE_PAYLOAD
                         || buf.Length < HEADER_SIZE + VIDEO_HEADER_SIZE + v.payloadLen
    ensures n == -1 ==> buf[..] == old(buf[..])
    ensures n != -1 ==> n == HEADER_SIZE + VIDEO_HEADER_SIZE + v.payloadLen
    ensures n != -1 ==> Appends(buf, 0, VideoDatagram(seqNo, v, payload[..v.payloadLen]))
  {
    var need := HEADER_SIZE + VIDEO_HEADER_SIZE + v.payloadLen;
    if buf.Length < need || v.payloadLen > MAX_SLICE_PAYLOAD {
      return -1;
    }
    var off := PackVideoFront(buf, seqNo, v);
    PutBytes(buf, off, payload[..v.payloadLen]);
    FrontAndPayload(seqNo, v, payload[..v.payloadLen]);
    n := need;
  }

  /** `wsu_parse_video` on the bytes after the common header. */
  function ParseVideo(p: Bytes): Option<(VideoHeader, Bytes)> {
    if |p| < VIDEO_HEADER_SIZE then None
    else
      var v := VideoHeader(GetU32(p, 0), GetU32(p, 4), p[8], GetU16(p, 9), GetU16(p, 11), GetU16(p, 13));
      if v.payloadLen > MAX_SLICE_PAYLOAD
         || |p| < VIDEO_HEADER_SIZE + v.payloadLen
         || v.sliceCount == 0 || v.sliceIndex >= v.sliceCount
      then None
      else Some((v, p[VIDEO_HEADER_SIZE..VIDEO_HEADER_SIZE + v.payloadLen]))
  }

  /** The headers the assembler is ever given. */
  predicate ParsedSlice(v: VideoHeader, payload: Bytes) {
    v.sliceIndex < v.sliceCount && |payload| == v.payloadLen <= MAX_SLICE_PAYLOAD
  }

  /** Parsing succeeds with `(v, payload)` exactly on the byte strings that begin with the
      encoding of a well-formed slice, so packing and parsing are mutually inverse. */
  lemma VideoRoundTrip(p: Bytes, v: VideoHeader, payload: Bytes)
    ensures ParseVideo(p) == Some((v, payload)) <==>
            ParsedSlice(v, payload) && VideoBody(v, payload) <= p
  {
    var body := VideoBody(v, payload);
    if |p| >= |body| {
      FrameFieldsInverse(p, v);
      SliceFieldsInverse(p, v);
      SliceOfConcat(p, 0, FrameFields(v), SliceFields(v));
      SliceOfConcat(p, 0, FrameFields(v) + SliceFields(v), payload);
      assert p[..|body|] == p[0..|body|];
    }
  }

  lemma FrameFieldsInverse(p: Bytes, v: VideoHeader)
    requires |p| >= 9
    ensures p[0..9] == FrameFields(v) <==>
            GetU32(p, 0) == v.frameId && GetU32(p, 4) == v.timestampMs && p[8] == v.flags
  {
    U32Inverse(p, 0, v.frameId);
    U32Inverse(p, 4, v.timestampMs);
    SliceOfConcat(p, 0, BytesU32(v.frameId), BytesU32(v.timestampMs));
    SliceOfConcat(p, 0, BytesU32(v.frameId) + BytesU32(v.timestampMs), [v.flags]);
    assert p[8..9] == [p[8]];
  }

  lemma SliceFieldsInverse(p: Bytes, v: VideoHeader)
    requires |p| >= 15
    ensures p[9..15] == SliceFields(v) <==>
            GetU16(p, 9) == v.sliceIndex && GetU16(p, 11) == v.sliceCount && GetU16(p, 13) == v.payloadLen
  {
    U16Inverse(p, 9, v.sliceIndex);
    U16Inverse(p, 11, v.sliceCount);
    U16Inverse(p, 13, v.payloadLen);
    SliceOfConcat(p, 9, BytesU16(v.sliceIndex), BytesU16(v.sliceCount));
    SliceOfConcat(p, 9, BytesU16(v.sliceIndex) + BytesU16(v.sliceCount), BytesU16(v.payloadLen));
  }

  /** A receiver that strips the header recovers the slice from the whole datagram. */
  lemma VideoDatagramRoundTrip(seqNo: u16, v: VideoHeader, payload: Bytes)
    requires ParsedSlice(v, payload)
    ensures var dg := VideoDatagram(seqNo, v, payload);
            && |dg| == HEADER_SIZE + VIDEO_HEADER_SIZE + v.payloadLen
            && ParseHeader(dg) == Some(Header(PROTO_VERSION, PKT_VIDEO, seqNo))
            && ParseVideo(dg[HEADER_SIZE..]) == Some((v, payload))
  {
    var dg := VideoDatagram(seqNo, v, payload);
    HeaderRoundTrip(dg, Header(PROTO_VERSION, PKT_VIDEO, seqNo));
    assert dg[..8] == HeaderBytes(PKT_VIDEO, seqNo);
    assert dg[HEADER_SIZE..] == VideoBody(v, payload);
    VideoRoundTrip(dg[HEADER_SIZE..], v, payload);
  }

  /** The header, byte by byte. */
  predicate HeaderOnWire(dg: Bytes, kind: u8, seqNo: u16) {
    |dg| >= 8 && dg[..6] == [0x57, 0x53, 0x55, 0x31, 1, kind] && Spells16(dg[6], dg[7], seqNo)
  }

  lemma HeaderLayout(kind: u8, seqNo: u16, rest: Bytes, dg: Bytes)
    requires dg == HeaderBytes(kind, seqNo) + rest
    ensures HeaderOnWire(dg, kind, seqNo) && dg[8..] == rest
  {
    MostSignificantFirst(seqNo, PROTO_MAGIC, dg[6], dg[7], dg[2], dg[3]);
    assert dg[..6] == BytesU32(PROTO_MAGIC) + [PROTO_VERSION, kind];
    assert BytesU16(seqNo) == [dg[6], dg[7]];
  }

  /** A VIDEO body, byte by byte. */
  predicate VideoOnWire(p: Bytes, v: VideoHeader, payload: Bytes) {
    && |p| == 15 + |payload|
    && Spells32(p[0], p[1], p[2], p[3], v.frameId)
    && Spells32(p[4], p[5], p[6], p[7], v.timestampMs)
    && p[8] == v.flags
    && Spells16(p[9], p[10], v.sliceIndex)
    && Spells16(p[11], p[12], v.sliceCount)
    && Spells16(p[13], p[14], v.payloadLen)
    && p[15..] == payload
  }

  lemma FrameFieldsLayout(v: VideoHeader, p: Bytes)
    requires p == FrameFields(v)
    ensures |p| == 9 && p[8] == v.flags
    ensures Spells32(p[0], p[1], p[2], p[3], v.frameId)
    ensures Spells32(p[4], p[5], p[6], p[7], v.timestampMs)
  {
    assert BytesU32(v.frameId) == [p[0], p[1], p[2], p[3]];
    assert BytesU32(v.timestampMs) == [p[4], p[5], p[6], p[7]];
    MostSignificantFirst(0, v.frameId, p[0], p[1], p[2], p[3]);
    MostSignificantFirst(0, v.timestampMs, p[4], p[5], p[6], p[7]);
  }

  lemma SliceFieldsLayout(v: VideoHeader, p: Bytes)
    requires p == SliceFields(v)
    ensures |p| == 6
    ensures Spells16(p[0], p[1], v.sliceIndex) && Spells16(p[2], p[3], v.sliceCount)
    ensures Spells16(p[4], p[5], v.payloadLen)
  {
    assert BytesU16(v.sliceIndex) == [p[0], p[1]];
    assert BytesU16(v.sliceCount) == [p[2], p[3]];
    assert BytesU16(v.payloadLen) == [p[4], p[5]];
    MostSignificantFirst(v.sliceIndex, 0, p[0], p[1], 0, 0);
    MostSignificantFirst(v.sliceCount, 0, p[2], p[3], 0, 0);
    MostSignificantFirst(v.payloadLen, 0, p[4], p[5], 0, 0);
  }

  lemma VideoBodyLayout(v: VideoHeader, payload: Bytes, p: Bytes)
    requires p == VideoBody(v, payload)
    ensures VideoOnWire(p, v, payload)
  {
    var frame, slice := FrameFields(v), SliceFields(v);
    FrameFieldsLayout(v, frame);
    SliceFieldsLayout(v, slice);
    assert forall k :: 0 <= k < 9 ==> p[k] == frame[k];
    assert forall k :: 0 <= k < 6 ==> p[9 + k] == slice[k];
  }

  /** Where every field of a VIDEO datagram lies, and how. */
  lemma VideoLayout(seqNo: u16, v: VideoHeader, payload: Bytes, dg: Bytes)
    requires dg == VideoDatagram(seqNo, v, payload)
    ensures HeaderOnWire(dg, 4, seqNo) && VideoOnWire(dg[8..], v, payload)
  {
    HeaderLayout(PKT_VIDEO, seqNo, VideoBody(v, payload), dg);
    VideoBodyLayout(v, payload, dg[8..]);
  }

  // ---------------------------------------------------------------- INPUT_BUNDLE

  datatype InputState = InputState(
    slot: u8, flags: u8, buttons: u32, lx: i16, ly: i16, rx: i16, ry: i16, lt: u8, rt: u8,
    touchX: u16, touchY: u16, gyroPitch: i16, gyroYaw: i16, gyroRoll: i16)

  /** `wsu_input_state_init`. */
  function NeutralState(slot: u8): InputState {
    InputState(slot, 0, 0, 0, 0, 0, 0, 0, 0, TOUCH_NONE, TOUCH_NONE, 0, 0, 0)
  }

  function ButtonFields(s: InputState): Bytes {
    [s.slot, s.flags] + BytesU32(s.buttons)
  }

  function StickFields(s: InputState): Bytes {
    BytesI16(s.lx) + BytesI16(s.ly) + BytesI16(s.rx) + BytesI16(s.ry)
  }

  function TouchFields(s: InputState): Bytes {
    [s.lt, s.rt] + BytesU16(s.touchX) + BytesU16(s.touchY)
  }

  function GyroFields(s: InputState): Bytes {
    BytesI16(s.gyroPitch) + BytesI16(s.gyroYaw) + BytesI16(s.gyroRoll)
  }

  function StateBytes(s: InputState): Bytes {
    ButtonFields(s) + StickFields(s) + TouchFields(s) + GyroFields(s)
  }

  method PutButtonFields(buf: array<u8>, off: nat, s: InputState)
    requires off + 6 <= buf.Length
    modifies buf
    ensures Appends(buf, off, ButtonFields(s))
  {
    ghost var was := buf[..off];
    PutU8(buf, off, s.slot);
    PutU8(buf, off + 1, s.flags);
    PutU32(buf, off + 2, s.buttons);
    assert buf[..off + 6] == was + ButtonFields(s);
  }

  method PutStickFields(buf: array<u8>, off: nat, s: InputState)
    requires off + 8 <= buf.Length
    modifies buf
    ensures Appends(buf, off, StickFields(s))
  {
    ghost var was := buf[..off];
    PutU16(buf, off, Wrap16(s.lx));
    PutU16(buf, off + 2, Wrap16(s.ly));
    PutU16(buf, off + 4, Wrap16(s.rx));
    PutU16(buf, off + 6, Wrap16(s.ry));
    assert buf[..off + 8] == was + StickFields(s);
  }

  method PutTouchFields(buf: array<u8>, off: nat, s: InputState)
    requires off + 6 <= buf.Length
    modifies buf
    ensures Appends(buf, off, TouchFields(s))
  {
    ghost var was := buf[..off];
    PutU8(buf, off, s.lt);
    PutU8(buf, off + 1, s.rt);
    PutU16(buf, off + 2, s.touchX);
    PutU16(buf, off + 4, s.touchY);
    assert buf[..off + 6] == was + TouchFields(s);
  }

  method PutGyroFields(buf: array<u8>, off: nat, s: InputState)
    requires off + 6 <= buf.Length
    modifies buf
    ensures Appends(buf, off, GyroFields(s))
  {
    ghost var was := buf[..off];
    PutU16(buf, off, Wrap16(s.gyroPitch));
    PutU16(buf, off + 2, Wrap16(s.gyroYaw));
    PutU16(buf, off + 4, Wrap16(s.gyroRoll));
    assert buf[..off + 6] == was + GyroFields(s);
  }

  /** `wsu_write_input_state`, one group of fields after the other. */
  method WriteInputState(buf: array<u8>, off: nat, s: InputState) returns (n: nat)
    requires off + INPUT_STATE_SIZE <= buf.Length
    modifies buf
    ensures n == INPUT_STATE_SIZE
    ensures Appends(buf, off, StateBytes(s))
  {
    ghost var was := buf[..off];
    PutButtonFields(buf, off, s);
    PutStickFields(buf, off + 6, s);
    PutTouchFields(buf, off + 14, s);
    PutGyroFields(buf, off + 20, s);
    n := INPUT_STATE_SIZE;
    assert buf[..off + 26] == was + StateBytes(s);
  }

  /** `wsu_read_input_state` at an offset of the payload. */
  function ReadInputState(p: Bytes, off: nat): InputState
    requires off + INPUT_STATE_SIZE <= |p|
  {
    InputState(p[off], p[off + 1], GetU32(p, off + 2), GetI16(p, off + 6), GetI16(p, off + 8),
               GetI16(p, off + 10), GetI16(p, off + 12), p[off + 14], p[off + 15],
               GetU16(p, off + 16), GetU16(p, off + 18), GetI16(p, off + 20), GetI16(p, off + 22),
               GetI16(p, off + 24))
  }

  /** Every field of a controller state, signed ones included, survives the wire. */
  lemma StateRoundTrip(p: Bytes, off: nat, s: InputState)
    requires off + INPUT_STATE_SIZE <= |p|
    ensures p[off..off + INPUT_STATE_SIZE] == StateBytes(s) <==> ReadInputState(p, off) == s
  {
    ButtonsInverse(p, off, s);
    SticksInverse(p, off + 6, s);
    TouchInverse(p, off + 14, s);
    GyroInverse(p, off + 20, s);
    SliceOfConcat(p, off, ButtonFields(s), StickFields(s));
    SliceOfConcat(p, off, ButtonFields(s) + StickFields(s), TouchFields(s));
    SliceOfConcat(p, off, ButtonFields(s) + StickFields(s) + TouchFields(s), GyroFields(s));
  }

  lemma ButtonsInverse(p: Bytes, off: nat, s: InputState)
    requires off + 6 <= |p|
    ensures p[off..off + 6] == ButtonFields(s) <==>
            p[off] == s.slot && p[off + 1] == s.flags && GetU32(p, off + 2) == s.buttons
  {
    U32Inverse(p, off + 2, s.buttons);
    SliceOfConcat(p, off, [s.slot, s.flags], BytesU32(s.buttons));
    assert p[off..off + 2] == [p[off], p[off + 1]];
  }

  lemma SticksInverse(p: Bytes, off: nat, s: InputState)
    requires off + 8 <= |p|
    ensures p[off..off + 8] == StickFields(s) <==>
            GetI16(p, off) == s.lx && GetI16(p, off + 2) == s.ly
            && GetI16(p, off + 4) == s.rx && GetI16(p, off + 6) == s.ry
  {
    I16Inverse(p, off, s.lx);
    I16Inverse(p, off + 2, s.ly);
    I16Inverse(p, off + 4, s.rx);
    I16Inverse(p, off + 6, s.ry);
    SliceOfConcat(p, off, BytesI16(s.lx), BytesI16(s.ly));
    SliceOfConcat(p, off, BytesI16(s.lx) + BytesI16(s.ly), BytesI16(s.rx));
    SliceOfConcat(p, off, BytesI16(s.lx) + BytesI16(s.ly) + BytesI16(s.rx), BytesI16(s.ry));
  }

  lemma TouchInverse(p: Bytes, off: nat, s: InputState)
    requires off + 6 <= |p|
    ensures p[off..off + 6] == TouchFields(s) <==>
            p[off] == s.lt && p[off + 1] == s.rt
            && GetU16(p, off + 2) == s.touchX && GetU16(p, off + 4) == s.touchY
  {
    U16Inverse(p, off + 2, s.touchX);
    U16Inverse(p, off + 4, s.touchY);
    SliceOfConcat(p, off, [s.lt, s.rt], BytesU16(s.touchX));
    SliceOfConcat(p, off, [s.lt, s.rt] + BytesU16(s.touchX), BytesU16(s.touchY));
    assert p[off..off + 2] == [p[off], p[off + 1]];
  }

  lemma GyroInverse(p: Bytes, off: nat, s: InputState)
    requires off + 6 <= |p|
    ensures p[off..off + 6] == GyroFields(s) <==>
            GetI16(p, off) == s.gyroPitch && GetI16(p, off + 2) == s.gyroYaw && GetI16(p, off + 4) == s.gyroRoll
  {
    I16Inverse(p, off, s.gyroPitch);
    I16Inverse(p, off + 2, s.gyroYaw);
    I16Inverse(p, off + 4, s.gyroRoll);
    SliceOfConcat(p, off, BytesI16(s.gyroPitch), BytesI16(s.gyroYaw));
    SliceOfConcat(p, off, BytesI16(s.gyroPitch) + BytesI16(s.gyroYaw), BytesI16(s.gyroRoll));
  }

  /** A 16-bit word read as two's complement. */
  predicate Signed(hi: u8, lo: u8, v: i16) {
    Spells16(hi, lo, if v < 0 then v + 65536 else v)
  }

  /** A controller state, byte by byte. */
  predicate StateOnWire(b: Bytes, s: InputState) {
    && |b| == 26 && b[0] == s.slot && b[1] == s.flags
    && Spells32(b[2], b[3], b[4], b[5], s.buttons)
    && Signed(b[6], b[7], s.lx) && Signed(b[8], b[9], s.ly)
    && Signed(b[10], b[11], s.rx) && Signed(b[12], b[13], s.ry)
    && b[14] == s.lt && b[15] == s.rt
    && Spells16(b[16], b[17], s.touchX) && Spells16(b[18], b[19], s.touchY)
    && Signed(b[20], b[21], s.gyroPitch) && Signed(b[22], b[23], s.gyroYaw) && Signed(b[24], b[25], s.gyroRoll)
  }

  lemma SignedLayout(v: i16, hi: u8, lo: u8)
    requires BytesI16(v) == [hi, lo]
    ensures Signed(hi, lo, v)
  {
    MostSignificantFirst(Wrap16(v), 0, hi, lo, 0, 0);
  }

  lemma ButtonsLayout(s: InputState, b: Bytes)
    requires b == ButtonFields(s)
    ensures |b| == 6 && b[0] == s.slot && b[1] == s.flags
    ensures Spells32(b[2], b[3], b[4], b[5], s.buttons)
  {
    assert BytesU32(s.buttons) == [b[2], b[3], b[4], b[5]];
    MostSignificantFirst(0, s.buttons, b[2], b[3], b[4], b[5]);
  }

  lemma SticksLayout(s: InputState, b: Bytes)
    requires b == StickFields(s)
    ensures |b| == 8 && Signed(b[0], b[1], s.lx) && Signed(b[2], b[3], s.ly)
    ensures Signed(b[4], b[5], s.rx) && Signed(b[6], b[7], s.ry)
  {
    SignedLayout(s.lx, b[0], b[1]);
    SignedLayout(s.ly, b[2], b[3]);
    SignedLayout(s.rx, b[4], b[5]);
    SignedLayout(s.ry, b[6], b[7]);
  }

  lemma TouchLayout(s: InputState, b: Bytes)
    requires b == TouchFields(s)
    ensures |b| == 6 && b[0] == s.lt && b[1] == s.rt
    ensures Spells16(b[2], b[3], s.touchX) && Spells16(b[4], b[5], s.touchY)
  {
    assert BytesU16(s.touchX) == [b[2], b[3]] && BytesU16(s.touchY) == [b[4], b[5]];
    MostSignificantFirst(s.touchX, 0, b[2], b[3], 0, 0);
    MostSignificantFirst(s.touchY, 0, b[4], b[5], 0, 0);
  }

  lemma GyroLayout(s: InputState, b: Bytes)
    requires b == GyroFields(s)
    ensures |b| == 6
    ensures Signed(b[0], b[1], s.gyroPitch) && Signed(b[2], b[3], s.gyroYaw) && Signed(b[4], b[5], s.gyroRoll)
  {
    SignedLayout(s.gyroPitch, b[0], b[1]);
    SignedLayout(s.gyroYaw, b[2], b[3]);
    SignedLayout(s.gyroRoll, b[4], b[5]);
  }

  /** Where every field of a controller state lies, and how. */
  lemma StateLayout(s: InputState, b: Bytes)
    requires b == StateBytes(s)
    ensures StateOnWire(b, s)
  {
    var buttons, sticks, touch, gyro := ButtonFields(s), StickFields(s), TouchFields(s), GyroFields(s);
    ButtonsLayout(s, buttons);
    SticksLayout(s, sticks);
    TouchLayout(s, touch);
    GyroLayout(s, gyro);
    assert forall k :: 0 <= k < 6 ==> b[k] == buttons[k];
    assert forall k :: 0 <= k < 8 ==> b[6 + k] == sticks[k];
    assert forall k :: 0 <= k < 6 ==> b[14 + k] == touch[k];
    assert forall k :: 0 <= k < 6 ==> b[20 + k] == gyro[k];
  }

  function Cells(states: seq<InputState>): (c: seq<Bytes>)
    ensures |c| == |states| && forall i :: 0 <= i < |c| ==> |c[i]| == 26
  {
    seq(|states|, i requires 0 <= i < |states| => StateBytes(states[i]))
  }

  function StatesBytes(states: seq<InputState>): (b: Bytes)
    ensures |b| == 26 * |states|
  {
    TableLength(Cells(states));
    Concat(Cells(states))
  }

  function BundleBody(timestampMs: u32, states: seq<InputState>): Bytes
    requires |states| <= MAX_PLAYERS
  {
    BytesU32(timestampMs) + [|states|] + StatesBytes(states)
  }

  function BundleDatagram(seqNo: u16, timestampMs: u32, states: seq<InputState>): Bytes
    requires |states| <= MAX_PLAYERS
  {
    HeaderBytes(PKT_INPUT_BUNDLE, seqNo) + BundleBody(timestampMs, states)
  }

  method PackInputBundle(buf: array<u8>, seqNo: u16, timestampMs: u32, states: seq<InputState>)
    returns (n: int)
    requires |states| < 0x100
    modifies buf
    ensures n == -1 <==> |states| > MAX_PLAYERS
                         || buf.Length < HEADER_SIZE + 5 + |states| * 26
    ensures n == -1 ==> buf[..] == old(buf[..])
    ensures n != -1 ==> n == HEADER_SIZE + 5 + |states| * 26
    ensures n != -1 ==> Appends(buf, 0, BundleDatagram(seqNo, timestampMs, states))
  {
    var need := HEADER_SIZE + 5 + |states| * 26;
    if |states| > MAX_PLAYERS || buf.Length < need {
      return -1;
    }
    var off := PackBundleFront(buf, seqNo, timestampMs, |states|);
    ghost var front := buf[..off];
    n := WriteStates(buf, off, states);
    assert buf[..n] == front + StatesBytes(states);
    BundleParts(seqNo, timestampMs, states);
  }

  function BundleFront(seqNo: u16, timestampMs: u32, count: u8): Bytes {
    HeaderBytes(PKT_INPUT_BUNDLE, seqNo) + BytesU32(timestampMs) + [count]
  }

  lemma BundleParts(seqNo: u16, timestampMs: u32, states: seq<InputState>)
    requires |states| <= MAX_PLAYERS
    ensures BundleDatagram(seqNo, timestampMs, states)
         == BundleFront(seqNo, timestampMs, |states|) + StatesBytes(states)
  {
  }

  method PackBundleFront(buf: array<u8>, seqNo: u16, timestampMs: u32, count: u8) returns (n: nat)
    requires HEADER_SIZE + 5 <= buf.Length
    modifies buf
    ensures n == HEADER_SIZE + 5
    ensures Appends(buf, 0, BundleFront(seqNo, timestampMs, count))
  {
    var off := PackHeader(buf, PKT_INPUT_BUNDLE, seqNo);
    PutU32(buf, off, timestampMs);
    PutU8(buf, off + 4, count);
    n := off + 5;
    assert buf[..n] == BundleFront(seqNo, timestampMs, count);
  }

  method WriteStates(buf: array<u8>, start: nat, states: seq<InputState>) returns (off: nat)
    requires start + |states| * 26 <= buf.Length
    modifies buf
    ensures off == start + |states| * 26
    ensures Appends(buf, start, StatesBytes(states))
  {
    ghost var front := buf[..start];
    off := start;
    for i := 0 to |states|
      invariant off == start + i * 26
      invariant buf[..off] == front + StatesBytes(states[..i])
      invariant forall k :: off <= k < buf.Length ==> buf[k] == old(buf[k])
    {
      StatesBytesNext(states, i, front);
      var written := WriteInputState(buf, off, states[i]);
      off := off + written;
    }
    assert states[..|states|] == states;
  }

  lemma StatesBytesNext(states: seq<InputState>, i: nat, front: Bytes)
    requires i < |states|
    ensures front + StatesBytes(states[..i]) + StateBytes(states[i]) == front + StatesBytes(states[..i + 1])
  {
    assert Cells(states[..i + 1])[..i] == Cells(states[..i]);
    ConcatNext(front, Cells(states[..i + 1]));
  }

  /** `wsu_parse_input_bundle`: the loop that fills the states array. */
  method ParseInputBundle(p: Bytes) returns (r: Option<(u32, seq<InputState>)>)
    ensures r == BundleOf(p)
  {
    if |p| < 5 {
      return None;
    }
    var n := p[4];
    if n > MAX_PLAYERS || |p| < 5 + n * 26 {
      return None;
    }
    var states: seq<InputState> := [];
    for i := 0 to n
      invariant states == StatesIn(p, i)
    {
      states := states + [ReadInputState(p, 5 + i * 26)];
    }
    r := Some((GetU32(p, 0), states));
  }

  /** What a bundle payload means: its timestamp and the states at their fixed places. */
  function BundleOf(p: Bytes): Option<(u32, seq<InputState>)> {
    if |p| < 5 || p[4] > MAX_PLAYERS || |p| < 5 + p[4] * 26 then None
    else Some((GetU32(p, 0), StatesIn(p, p[4])))
  }

  function StatesIn(p: Bytes, n: nat): (states: seq<InputState>)
    requires |p| >= 5 + n * 26
    ensures |states| == n
    ensures forall j :: 0 <= j < n ==> states[j] == ReadInputState(p, 5 + j * 26)
  {
    if n == 0 then [] else StatesIn(p, n - 1) + [ReadInputState(p, 5 + (n - 1) * 26)]
  }

  lemma StatesBytesAt(states: seq<InputState>, j: nat, lo: nat)
    requires j < |states| && lo == j * 26
    ensures lo + 26 <= |StatesBytes(states)|
    ensures StatesBytes(states)[lo..lo + 26] == StateBytes(states[j])
  {
    TableAt(Cells(states), j, lo);
  }

  lemma SliceOfTail(p: Bytes, start: nat, from: nat, to: nat)
    requires start <= |p| && from <= to && start + to <= |p|
    ensures p[start + from..start + to] == p[start..][from..to]
  {
  }

  lemma BundleStateAt(p: Bytes, states: seq<InputState>, j: nat, lo: nat)
    requires |p| >= 5 && p[5..] == StatesBytes(states)
    requires j < |states| && lo == j * 26
    ensures ReadInputState(p, 5 + lo) == states[j]
  {
    StatesBytesAt(states, j, lo);
    SliceOfTail(p, 5, lo, lo + 26);
    StateRoundTrip(p, 5 + lo, states[j]);
  }

  lemma BundleOfParts(p: Bytes, timestampMs: u32, states: seq<InputState>)
    requires |states| <= MAX_PLAYERS && |p| == 5 + |states| * 26
    requires GetU32(p, 0) == timestampMs && p[4] == |states|
    requires forall j :: 0 <= j < |states| ==> ReadInputState(p, 5 + j * 26) == states[j]
    ensures BundleOf(p) == Some((timestampMs, states))
  {
    assert StatesIn(p, |states|) == states;
  }

  lemma BundleBodyParts(timestampMs: u32, count: u8, tail: Bytes, p: Bytes)
    requires p == BytesU32(timestampMs) + [count] + tail
    ensures |p| == 5 + |tail| && p[5..] == tail
    ensures GetU32(p, 0) == timestampMs && p[4] == count
  {
    U32Inverse(p, 0, timestampMs);
    assert p[0..4] == BytesU32(timestampMs);
  }

  /** The console recovers the timestamp and every state of a packed bundle. */
  lemma BundleRoundTrip(timestampMs: u32, states: seq<InputState>)
    requires |states| <= MAX_PLAYERS
    ensures BundleOf(BundleBody(timestampMs, states)) == Some((timestampMs, states))
  {
    var p := BundleBody(timestampMs, states);
    BundleBodyParts(timestampMs, |states|, StatesBytes(states), p);
    forall j | 0 <= j < |states|
      ensures ReadInputState(p, 5 + j * 26) == states[j]
    {
      BundleStateAt(p, states, j, j * 26);
    }
    BundleOfParts(p, timestampMs, states);
  }

  lemma StatesBytesMore(states: seq<InputState>, s: InputState)
    ensures StatesBytes(states + [s]) == StatesBytes(states) + StateBytes(s)
  {
    assert Cells(states + [s])[..|states|] == Cells(states);
  }

  lemma OneMoreState(p: Bytes, lo: nat, s: InputState)
    requires 5 <= lo && lo + 26 <= |p| && s == ReadInputState(p, lo)
    ensures p[5..lo] + StateBytes(s) == p[5..lo + 26]
  {
    StateRoundTrip(p, lo, s);
  }

  lemma {:induction false} StatesParse(p: Bytes, n: nat)
    requires |p| >= 5 + n * 26
    ensures StatesBytes(StatesIn(p, n)) == p[5..5 + n * 26]
  {
    if n == 0 {
      assert Cells([]) == [];
    } else {
      var s := ReadInputState(p, 5 + (n - 1) * 26);
      StatesParse(p, n - 1);
      StatesBytesMore(StatesIn(p, n - 1), s);
      OneMoreState(p, 5 + (n - 1) * 26, s);
    }
  }

  lemma BodyOfBundle(p: Bytes, timestampMs: u32, states: seq<InputState>)
    requires BundleOf(p) == Some((timestampMs, states))
    ensures |states| <= MAX_PLAYERS && BundleBody(timestampMs, states) <= p
  {
    var n := |states|;
    StatesParse(p, n);
    U32Inverse(p, 0, timestampMs);
    assert p[..5 + n * 26] == p[0..4] + [p[4]] + p[5..5 + n * 26];
  }

  lemma ReadPrefix(p: Bytes, body: Bytes, off: nat)
    requires body <= p && off + 26 <= |body|
    ensures ReadInputState(p, off) == ReadInputState(body, off)
  {
  }

  lemma {:induction false} StatesPrefix(p: Bytes, body: Bytes, n: nat)
    requires body <= p && |body| >= 5 + n * 26
    ensures StatesIn(p, n) == StatesIn(body, n)
  {
    if n > 0 {
      StatesPrefix(p, body, n - 1);
      ReadPrefix(p, body, 5 + (n - 1) * 26);
    }
  }

  /** What follows a bundle is not looked at. */
  lemma BundlePrefix(p: Bytes, body: Bytes)
    requires body <= p && BundleOf(body).Some?
    ensures BundleOf(p) == BundleOf(body)
  {
    StatesPrefix(p, body, body[4]);
  }

  /** Parsing a bundle succeeds with these states exactly on the byte strings that begin with their
      encoding, at most four of them. */
  lemma BundleParsesExactly(p: Bytes, timestampMs: u32, states: seq<InputState>)
    ensures BundleOf(p) == Some((timestampMs, states)) <==>
            |states| <= 4 && BundleBody(timestampMs, states) <= p
  {
    if BundleOf(p) == Some((timestampMs, states)) {
      BodyOfBundle(p, timestampMs, states);
    } else if |states| <= 4 && BundleBody(timestampMs, states) <= p {
      BundleRoundTrip(timestampMs, states);
      BundlePrefix(p, BundleBody(timestampMs, states));
    }
  }

  /** An INPUT_BUNDLE body, byte by byte. */
  predicate BundleOnWire(p: Bytes, timestampMs: u32, states: seq<InputState>) {
    && |p| == 5 + 26 * |states|
    && Spells32(p[0], p[1], p[2], p[3], timestampMs)
    && p[4] == |states|
    && forall j :: 0 <= j < |states| ==> StateOnWire(p[5 + 26 * j..31 + 26 * j], states[j])
  }

  lemma StateInBody(p: Bytes, states: seq<InputState>, j: nat, lo: nat)
    requires |p| >= 5 && p[5..] == StatesBytes(states) && j < |states| && lo == 26 * j
    ensures 31 + lo <= |p| && StateOnWire(p[5 + lo..31 + lo], states[j])
  {
    StatesBytesAt(states, j, lo);
    SliceOfTail(p, 5, lo, lo + 26);
    StateLayout(states[j], StateBytes(states[j]));
  }

  lemma BundleBodyLayout(timestampMs: u32, states: seq<InputState>, p: Bytes)
    requires |states| <= MAX_PLAYERS && p == BundleBody(timestampMs, states)
    ensures BundleOnWire(p, timestampMs, states)
  {
    BundleBodyParts(timestampMs, |states|, StatesBytes(states), p);
    MostSignificantFirst(0, timestampMs, p[0], p[1], p[2], p[3]);
    forall j | 0 <= j < |states|
      ensures StateOnWire(p[5 + 26 * j..31 + 26 * j], states[j])
    {
      StateInBody(p, states, j, 26 * j);
    }
  }

  /** Where every field of an INPUT_BUNDLE datagram lies, and how. */
  lemma BundleLayout(seqNo: u16, timestampMs: u32, states: seq<InputState>, dg: Bytes)
    requires |states| <= MAX_PLAYERS && dg == BundleDatagram(seqNo, timestampMs, states)
    ensures HeaderOnWire(dg, 7, seqNo) && BundleOnWire(dg[8..], timestampMs, states)
  {
    HeaderLayout(PKT_INPUT_BUNDLE, seqNo, BundleBody(timestampMs, states), dg);
    BundleBodyLayout(timestampMs, states, dg[8..]);
  }
}
