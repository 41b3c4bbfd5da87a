/** The sending side of video: one encoded frame becomes a row of VIDEO datagrams. */
module Slicer {
  import opened Words
  import opened Wire

  /** One call of the frame sender. */
  datatype SourceFrame = SourceFrame(data: Bytes, timestampMs: u32, keyframe: bool)

  /** The longest frame whose slice count fits the 16-bit field. */
  const MAX_FRAME := 65535 * 1200

  /** `wsu_video_slice_count`, with its 32-bit sum and 16-bit cast. */
  function SliceCount(frameBytes: u32): u16 {
    if frameBytes == 0 then 1 else Wrap16(Wrap32(frameBytes + 1199) / 1200)
  }

  /** The bytes slice `i` is meant to carry. */
  function Slice(data: Bytes, i: nat): Bytes {
    if i * 1200 >= |data| then [] else
    if (i + 1) * 1200 >= |data| then data[i * 1200..] else data[i * 1200..(i + 1) * 1200]
  }

  function SlicesUpTo(data: Bytes, n: nat): seq<Bytes> {
    seq(n, i requires 0 <= i => Slice(data, i))
  }

  function FlagsOf(f: SourceFrame): u8 {
    if f.keyframe then VIDEO_FLAG_KEYFRAME else 0
  }

  function CountOf(f: SourceFrame): u16
    requires |f.data| < TWO32
  {
    SliceCount(|f.data|)
  }

  /** Header of slice `i` of frame `f` sent under `id`. */
  function SliceHeader(f: SourceFrame, id: u32, i: u16): VideoHeader
    requires |f.data| < TWO32
  {
    VideoHeader(id, f.timestampMs, FlagsOf(f), i, CountOf(f), |Slice(f.data, i)|)
  }

  function SliceDatagram(f: SourceFrame, id: u32, i: u16, seqNo: u16): Bytes
    requires |f.data| < TWO32
  {
    VideoDatagram(seqNo, SliceHeader(f, id, i), Slice(f.data, i))
  }

  /** The datagrams of the first slices, under the sequence numbers given. */
  function FrameDatagrams(f: SourceFrame, id: u32, seqNos: seq<u16>): (r: seq<Bytes>)
    requires |f.data| < TWO32 && |seqNos| < 0x1_0000
    ensures |r| == |seqNos|
  {
    if seqNos == [] then []
    else
      var n := |seqNos| - 1;
      FrameDatagrams(f, id, seqNos[..n]) + [SliceDatagram(f, id, n, seqNos[n])]
  }

  lemma FrameDatagramsNext(before: seq<Bytes>, f: SourceFrame, id: u32, seqNos: seq<u16>, seqNo: u16)
    requires |f.data| < TWO32 && |seqNos| < 65535
    ensures before + FrameDatagrams(f, id, seqNos) + [SliceDatagram(f, id, |seqNos|, seqNo)]
         == before + FrameDatagrams(f, id, seqNos + [seqNo])
  {
    assert (seqNos + [seqNo])[..|seqNos|] == seqNos;
  }

  /** What goes out for a frame is one datagram per slice, in order. */
  lemma {:induction false} FrameDatagramAt(f: SourceFrame, id: u32, seqNos: seq<u16>, i: nat)
    requires |f.data| < TWO32 && i < |seqNos| < 0x1_0000
    ensures FrameDatagrams(f, id, seqNos)[i] == SliceDatagram(f, id, i, seqNos[i])
    decreases |seqNos|
  {
    var n := |seqNos| - 1;
    if i < n {
      FrameDatagramAt(f, id, seqNos[..n], i);
    }
  }

  /** The numbers a thread draws from the counter that all senders share, when `skips[s]` packets of
      other threads went out before its draw number `s`. */
  predicate Drawn(seqNos: seq<u16>, first: u16, skips: seq<nat>)
    requires |seqNos| <= |skips|
  {
    seqNos != [] ==>
      var n := |seqNos| - 1;
      Drawn(seqNos[..n], first, skips) && seqNos[n] == Wrap16(NextSeq(seqNos[..n], first) + skips[n])
  }

  function NextSeq(drawn: seq<u16>, first: u16): u16 {
    if drawn == [] then first else Wrap16(drawn[|drawn| - 1] as int + 1)
  }

  lemma DrawnNext(seqNos: seq<u16>, first: u16, skips: seq<nat>, seqNo: u16)
    requires |seqNos| < |skips| && Drawn(seqNos, first, skips)
    requires seqNo == Wrap16(NextSeq(seqNos, first) + skips[|seqNos|])
    ensures Drawn(seqNos + [seqNo], first, skips) && NextSeq(seqNos + [seqNo], first) == Wrap16(seqNo + 1)
  {
    assert (seqNos + [seqNo])[..|seqNos|] == seqNos;
  }

  function Sum(counts: seq<nat>): nat {
    if counts == [] then 0 else Sum(counts[..|counts| - 1]) + counts[|counts| - 1]
  }

  /** Draw number `i` gets the number after all `i` draws before it and all packets of other threads
      so far, modulo 2^16. */
  lemma {:induction false} DrawnCountsPackets(seqNos: seq<u16>, first: u16, skips: seq<nat>, i: nat)
    requires i < |seqNos| <= |skips| && Drawn(seqNos, first, skips)
    ensures seqNos[i] == (first + i + Sum(skips[..i + 1])) % 0x1_0000
    decreases |seqNos|
  {
    var n := |seqNos| - 1;
    assert skips[..i + 1][..i] == skips[..i];
    if i < n {
      DrawnCountsPackets(seqNos[..n], first, skips, i);
    } else if n > 0 {
      DrawnCountsPackets(seqNos[..n], first, skips, n - 1);
      var before := first + (n - 1) + Sum(skips[..n]);
      WrapSteps(before, 1);
      WrapSteps(before + 1, skips[n]);
    } else {
      assert skips[..0] == [];
    }
  }

  /** A datagram that carries piece `i` of `n` of a frame, byte by byte. */
  predicate PieceOnWire(dg: Bytes, seqNo: u16, id: u32, timestampMs: u32, keyframe: bool, i: int, n: int,
                        piece: Bytes)
  {
    && HeaderOnWire(dg, 4, seqNo) && |dg| == 23 + |piece|
    && Spells32(dg[8], dg[9], dg[10], dg[11], id)
    && Spells32(dg[12], dg[13], dg[14], dg[15], timestampMs)
    && dg[16] == (if keyframe then 1 else 0)
    && Spells16(dg[17], dg[18], i) && Spells16(dg[19], dg[20], n) && Spells16(dg[21], dg[22], |piece|)
    && dg[23..] == piece
  }

  /** Piece `k` of a frame cut every 1200 bytes. */
  predicate CutOnWire(dg: Bytes, seqNo: u16, id: u32, timestampMs: u32, keyframe: bool, k: nat, n: int, data: Bytes) {
    1200 * k < |data| &&
    PieceOnWire(dg, seqNo, id, timestampMs, keyframe, k, n,
                data[1200 * k..if 1200 * k + 1200 < |data| then 1200 * k + 1200 else |data|])
  }

  lemma SliceIsCut(data: Bytes, k: nat)
    requires 0 < |data| < TWO32 && k < SliceCount(|data|)
    ensures 1200 * k < |data|
    ensures Slice(data, k) == data[1200 * k..if 1200 * k + 1200 < |data| then 1200 * k + 1200 else |data|]
  {
  }

  /** What a receiver of the bytes sees in slice `k` of a frame. */
  lemma SliceOnWire(f: SourceFrame, id: u32, k: u16, seqNo: u16, dg: Bytes)
    requires 0 < |f.data| < TWO32 && k < CountOf(f) && dg == SliceDatagram(f, id, k, seqNo)
    ensures CutOnWire(dg, seqNo, id, f.timestampMs, f.keyframe, k, CountOf(f), f.data)
  {
    var v, piece := SliceHeader(f, id, k), Slice(f.data, k);
    SliceIsCut(f.data, k);
    VideoLayout(seqNo, v, piece, dg);
    assert dg[8..][15..] == dg[23..];
  }

  /** The datagrams are a frame's, all of it, in order. */
  predicate FrameOnWire(dgs: seq<Bytes>, seqNos: seq<u16>, id: u32, timestampMs: u32, keyframe: bool, data: Bytes) {
    && |dgs| == |seqNos|
    && (|data| <= MAX_FRAME ==> |dgs| == (|data| + 1199) / 1200)
    && forall k :: 0 <= k < |dgs| ==> CutOnWire(dgs[k], seqNos[k], id, timestampMs, keyframe, k, |dgs|, data)
  }

  lemma DatagramsOnWire(f: SourceFrame, id: u32, seqNos: seq<u16>, dgs: seq<Bytes>)
    requires 0 < |f.data| < TWO32 && |seqNos| == CountOf(f) && dgs == FrameDatagrams(f, id, seqNos)
    ensures FrameOnWire(dgs, seqNos, id, f.timestampMs, f.keyframe, f.data)
  {
    if |f.data| <= MAX_FRAME {
      ByteCount(f.data);
    }
    forall k | 0 <= k < |dgs|
      ensures CutOnWire(dgs[k], seqNos[k], id, f.timestampMs, f.keyframe, k, |dgs|, f.data)
    {
      FrameDatagramAt(f, id, seqNos, k);
      SliceOnWire(f, id, k, seqNos[k], dgs[k]);
    }
  }

  lemma ByteCount(data: Bytes)
    requires 0 < |data| <= MAX_FRAME
    ensures SliceCount(|data|) == (|data| + 1199) / 1200
  {
  }

  /** Where slice `s` starts. */
  function Offset(data: Bytes, s: nat): nat {
    if s * 1200 <= |data| then s * 1200 else |data|
  }

  lemma OffsetNext(data: Bytes, s: nat)
    ensures Offset(data, s) + |Slice(data, s)| == Offset(data, s + 1)
  {
  }

  lemma {:induction false} ConcatOfSlices(data: Bytes, n: nat)
    ensures Concat(SlicesUpTo(data, n)) == if n * 1200 <= |data| then data[..n * 1200] else data
  {
    if n > 0 {
      ConcatOfSlices(data, n - 1);
      assert SlicesUpTo(data, n)[..n - 1] == SlicesUpTo(data, n - 1);
    }
  }

  /** The slices sent for a frame concatenate to the frame exactly when the frame is at most
      65535 full slices long: beyond that the 16-bit count wraps and data is lost. */
  lemma SlicesRebuildFrame(data: Bytes)
    requires 0 < |data| < TWO32
    ensures Concat(SlicesUpTo(data, SliceCount(|data|))) == data <==> |data| <= MAX_FRAME
  {
    ConcatOfSlices(data, SliceCount(|data|));
  }

  /** Every slice but the last is full, the last is not empty, and the count is the ceiling of
      the length over 1200. */
  lemma SliceShape(data: Bytes, i: nat)
    requires 0 < |data| <= MAX_FRAME && i < SliceCount(|data|)
    ensures var n := SliceCount(|data|);
            && (n - 1) * 1200 < |data| <= n * 1200
            && |Slice(data, i)| == (if i < n - 1 then 1200 else |data| - (n - 1) * 1200)
            && 0 < |Slice(data, i)| <= MAX_SLICE_PAYLOAD
  {
  }

  /** The encoder's output buffer, 854 x 480 x 3 bytes, never needs more than 1025 slices. */
  lemma EncoderFramesFit(data: Bytes)
    requires 0 < |data| <= 854 * 480 * 3
    ensures SliceCount(|data|) <= 1025 && |data| <= MAX_FRAME
  {
  }

  /** Every datagram of a frame parses back to its slice, for any frame the sender accepts. */
  lemma SliceParses(f: SourceFrame, id: u32, i: u16, seqNo: u16)
    requires 0 < |f.data| <= MAX_FRAME && i < CountOf(f)
    ensures var dg := SliceDatagram(f, id, i, seqNo);
            && |dg| <= 1223
            && ParseHeader(dg) == Some(Header(PROTO_VERSION, PKT_VIDEO, seqNo))
            && ParseVideo(dg[HEADER_SIZE..]) == Some((SliceHeader(f, id, i), Slice(f.data, i)))
            && ParsedSlice(SliceHeader(f, id, i), Slice(f.data, i))
  {
    SliceShape(f.data, i);
    VideoDatagramRoundTrip(seqNo, SliceHeader(f, id, i), Slice(f.data, i));
  }

  /** The sending state of net.cpp; `sent` stands for the socket. */
  class StreamSender {
    var hostActive: bool
    var frameId: u32
    var txSeq: u16
    var sent: seq<Bytes>
    /** Every frame sent so far. */
    ghost var history: seq<SourceFrame>

    /** Ids number the frames sent, modulo 2^32, starting from 1. */
    ghost predicate Valid()
      reads this
    {
      frameId == Wrap32(|history|)
    }

    constructor ()
      ensures Valid() && !hostActive && txSeq == 0 && sent == [] && history == []
    {
      hostActive, frameId, txSeq, sent, history := false, 0, 0, [], [];
    }

    /** The body of the slicing loop: packs slice `s`, which starts at `off`, under the next
        sequence number and sends it. The counter is shared: `skip` packets of other threads may
        have gone out since it was last drawn from. */
    method SendSlice(packet: array<u8>, data: Bytes, off: nat, timestampMs: u32, keyframe: bool, s: u16, slices: u16,
                     skip: nat)
      returns (len: nat, seqNo: u16)
      requires packet.Length == 1400 && |data| < TWO32 && slices == SliceCount(|data|)
      requires off == Offset(data, s)
      modifies this`txSeq, this`sent, packet
      ensures len == |Slice(data, s)| && seqNo == Wrap16(old(txSeq) + skip) && txSeq == Wrap16(seqNo + 1)
      ensures sent == old(sent) + [SliceDatagram(SourceFrame(data, timestampMs, keyframe), frameId, s, seqNo)]
    {
      var remain := |data| - off;
      len := if remain < MAX_SLICE_PAYLOAD then remain else MAX_SLICE_PAYLOAD;
      var v := VideoHeader(frameId, timestampMs, if keyframe then VIDEO_FLAG_KEYFRAME else 0, s, slices, len);
      assert data[off..][..len] == Slice(data, s);
      seqNo := Wrap16(txSeq + skip);
      var n := PackVideo(packet, seqNo, v, data[off..]);
      txSeq := Wrap16(seqNo + 1);
      if n > 0 {
        assert packet[..n] == VideoDatagram(seqNo, v, Slice(data, s));
        sent := sent + [packet[..n]];
      }
    }

    /** The slicing loop. */
    method SendSlices(f: SourceFrame, slices: u16, skips: seq<nat>) returns (ghost seqNos: seq<u16>)
      requires |f.data| < TWO32 && slices == CountOf(f) && |skips| >= slices
      modifies this`txSeq, this`sent
      ensures |seqNos| == slices <= |skips| && Drawn(seqNos, old(txSeq), skips) && txSeq == NextSeq(seqNos, old(txSeq))
      ensures sent == old(sent) + FrameDatagrams(f, frameId, seqNos)
    {
      var packet := new u8[1400];
      var off := 0;
      seqNos := [];
      for s := 0 to slices
        invariant off == Offset(f.data, s)
        invariant |seqNos| == s && Drawn(seqNos, old(txSeq), skips) && txSeq == NextSeq(seqNos, old(txSeq))
        invariant sent == old(sent) + FrameDatagrams(f, frameId, seqNos)
      {
        var len, seqNo := SendSlice(packet, f.data, off, f.timestampMs, f.keyframe, s, slices, skips[s]);
        FrameDatagramsNext(old(sent), f, frameId, seqNos, seqNo);
        DrawnNext(seqNos, old(txSeq), skips, seqNo);
        OffsetNext(f.data, s);
        seqNos := seqNos + [seqNo];
        off := off + len;
      }
    }

    /** `netSendVideoFrame`. An idle host or an empty frame sends nothing and uses up no id;
        otherwise exactly the frame's datagrams go out, in slice order, under the sequence numbers
        drawn while other threads draw from the same counter. */
    method NetSendVideoFrame(data: Bytes, timestampMs: u32, keyframe: bool, skips: seq<nat>)
      returns (ghost seqNos: seq<u16>)
      requires Valid() && |data| < TWO32 && |skips| >= SliceCount(|data|)
      modifies this
      ensures Valid() && hostActive == old(hostActive)
      ensures !old(hostActive) || data == [] ==>
                frameId == old(frameId) && txSeq == old(txSeq) && sent == old(sent) && history == old(history)
      ensures old(hostActive) && data != [] ==>
                var f := SourceFrame(data, timestampMs, keyframe);
                && history == old(history) + [f] && frameId == Wrap32(|history|)
                && |seqNos| == CountOf(f) <= |skips| && Drawn(seqNos, old(txSeq), skips)
                && txSeq == NextSeq(seqNos, old(txSeq))
                && sent == old(sent) + FrameDatagrams(f, frameId, seqNos)
      ensures old(hostActive) && data != [] ==>
                && old(sent) <= sent
                && FrameOnWire(sent[|old(sent)|..], seqNos, frameId, timestampMs, keyframe, data)
    {
      if !hostActive || |data| == 0 {
        return [];
      }
      WrapSteps(|history|, 1);
      frameId := Wrap32(frameId + 1);
      var f := SourceFrame(data, timestampMs, keyframe);
      history := history + [f];
      seqNos := SendSlices(f, SliceCount(|data|), skips);
      DatagramsOnWire(f, frameId, seqNos, FrameDatagrams(f, frameId, seqNos));
      assert sent[|old(sent)|..] == FrameDatagrams(f, frameId, seqNos);
    }
  }
}
