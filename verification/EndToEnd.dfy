/** Slicer, wire, parser and assembler together: whatever the network loses, repeats, reorders
    or interleaves, a delivered frame is the frame that was sent. */
module EndToEnd {
  import opened Words
  import opened Wire
  import opened FrameIds
  import opened Slicer
  import opened Reassembly
  import opened AssemblerRuns

  predicate Sendable(f: SourceFrame) {
    0 < |f.data| <= MAX_FRAME
  }

  /** What a receiver should hand out for `f` sent under `id`. */
  function Image(f: SourceFrame, id: u32): AssembledFrame {
    AssembledFrame(id, f.timestampMs, FlagsOf(f), f.data)
  }

  /** The frame handed out is `f`, field by field. */
  predicate IsTheFrame(frame: AssembledFrame, f: SourceFrame, id: u32) {
    && frame.frameId == id && frame.data == f.data && frame.timestampMs == f.timestampMs
    && frame.flags == (if f.keyframe then 1 else 0)
  }

  /** One received datagram: strip the header, parse VIDEO, feed the assembler. */
  function Receive(w: Window, dg: Bytes): (r: (Window, Option<AssembledFrame>))
    requires Shaped(w)
    ensures Shaped(r.0)
  {
    var h := ParseHeader(dg);
    if h.None? || h.value.kind != PKT_VIDEO then (w, None)
    else
      match ParseVideo(dg[HEADER_SIZE..])
      case None => (w, None)
      case Some((v, payload)) => Feed(w, v, payload)
  }

  // ---------------------------------------------------------------- one slice

  /** A partial frame that holds nothing but slices of `f`. */
  predicate Faithful(p: Partial, f: SourceFrame)
    requires Sendable(f)
  {
    && |p.chunks| == CountOf(f) && p.timestampMs == f.timestampMs && p.flags == FlagsOf(f)
    && forall i :: 0 <= i < |p.chunks| && p.chunks[i].Some? ==> p.chunks[i].value == Slice(f.data, i)
  }

  lemma {:induction false} JoinIsConcat(chunks: seq<Option<Bytes>>, parts: seq<Bytes>)
    requires |chunks| == |parts| && forall i :: 0 <= i < |parts| ==> chunks[i] == Some(parts[i])
    ensures Join(chunks) == Concat(parts)
  {
    if parts != [] {
      JoinIsConcat(chunks[..|parts| - 1], parts[..|parts| - 1]);
    }
  }

  lemma CompleteIsImage(p: Partial, f: SourceFrame)
    requires Sendable(f) && Faithful(p, f) && Complete(p)
    ensures FrameOf(p) == Image(f, p.id)
  {
    JoinIsConcat(p.chunks, SlicesUpTo(f.data, CountOf(f)));
    SlicesRebuildFrame(f.data);
  }

  function FeedSliceOf(w: Window, f: SourceFrame, id: u32, i: nat): (r: (Window, Option<AssembledFrame>))
    requires Shaped(w) && Sendable(f) && i < CountOf(f)
    ensures Shaped(r.0)
  {
    Feed(w, SliceHeader(f, id, i), Slice(f.data, i))
  }

  /** On the wire or handed over directly, a slice has the same effect. */
  lemma ReceiveIsFeed(w: Window, f: SourceFrame, id: u32, i: nat, seqNo: u16)
    requires Shaped(w) && Sendable(f) && i < CountOf(f)
    ensures Receive(w, SliceDatagram(f, id, i, seqNo)) == FeedSliceOf(w, f, id, i)
  {
    SliceParses(f, id, i, seqNo);
  }

  /** What a slice of `f`, sent under `id`, may do to a window: the other slots stay or are freed,
      the slot of its id is faithful to `f`, and only `f` itself can be delivered. */
  predicate SliceEffect(w: Window, f: SourceFrame, id: u32, w': Window, out: Option<AssembledFrame>)
    requires Shaped(w) && Shaped(w') && Sendable(f)
  {
    && (out.Some? ==> out.value == Image(f, id) && w'.newest == Some(id) && AllNewer(w'.slots, id))
    && (out.None? ==> w'.newest == w.newest)
    && forall j :: 0 <= j < MAX_PENDING && w'.slots[j].Some? ==>
         w'.slots[j] == w.slots[j] || (w'.slots[j].value.id == id && Faithful(w'.slots[j].value, f))
  }

  lemma NextIsFaithful(w: Window, f: SourceFrame, id: u32, i: nat)
    requires Shaped(w) && Sendable(f) && i < CountOf(f) && !Ignored(w, SliceHeader(f, id, i))
    requires forall j :: 0 <= j < MAX_PENDING && Holds(w.slots[j], id) ==> Faithful(w.slots[j].value, f)
    ensures Faithful(Next(w, SliceHeader(f, id, i), Slice(f.data, i)), f)
  {
    assert Faithful(Target(w, SliceHeader(f, id, i)), f);
  }

  lemma SliceOutcome(w: Window, f: SourceFrame, id: u32, i: nat)
    requires Shaped(w) && Sendable(f) && i < CountOf(f)
    requires forall j :: 0 <= j < MAX_PENDING && Holds(w.slots[j], id) ==> Faithful(w.slots[j].value, f)
    ensures var (w', out) := FeedSliceOf(w, f, id, i); SliceEffect(w, f, id, w', out)
  {
    var v, payload := SliceHeader(f, id, i), Slice(f.data, i);
    FeedOutcome(w, v, payload);
    if !Ignored(w, v) {
      NextIsFaithful(w, f, id, i);
      if Completes(w, v, payload) {
        CompleteIsImage(Next(w, v, payload), f);
      }
    }
  }

  // ---------------------------------------------------------------- frames named by id

  predicate AllSendable(source: map<u32, SourceFrame>) {
    forall id :: id in source ==> Sendable(source[id])
  }

  /** A datagram of some frame of `source`, or anything the receiver does not take for video. */
  predicate Genuine(source: map<u32, SourceFrame>, dg: Bytes)
    requires AllSendable(source)
  {
    || IsNotVideo(dg)
    || exists id: u32, i: u16, seqNo: u16 ::
         id in source && i < CountOf(source[id]) && dg == SliceDatagram(source[id], id, i, seqNo)
  }

  predicate IsNotVideo(dg: Bytes) {
    var h := ParseHeader(dg);
    h.None? || h.value.kind != PKT_VIDEO || ParseVideo(dg[HEADER_SIZE..]).None?
  }

  function ReceiveAll(dgs: seq<Bytes>): (r: (Window, seq<AssembledFrame>))
    ensures Shaped(r.0)
  {
    if dgs == [] then (EMPTY, [])
    else
      var (w, out) := ReceiveAll(dgs[..|dgs| - 1]);
      var (w', frame) := Receive(w, dgs[|dgs| - 1]);
      (w', if frame.Some? then out + [frame.value] else out)
  }

  predicate AllFaithful(source: map<u32, SourceFrame>, slots: seq<Option<Partial>>)
    requires AllSendable(source)
  {
    forall j :: 0 <= j < |slots| && slots[j].Some? ==>
      slots[j].value.id in source && Faithful(slots[j].value, source[slots[j].value.id])
  }

  lemma EffectKeepsFaithful(source: map<u32, SourceFrame>, w: Window, id: u32, w': Window, out: Option<AssembledFrame>)
    requires AllSendable(source) && id in source
    requires Shaped(w) && Shaped(w') && AllFaithful(source, w.slots) && SliceEffect(w, source[id], id, w', out)
    ensures AllFaithful(source, w'.slots)
    ensures out.Some? ==> out.value.frameId == id && out.value == Image(source[id], id)
  {
  }

  lemma GenuineKeepsFaithful(source: map<u32, SourceFrame>, w: Window, dg: Bytes)
    requires AllSendable(source)
    requires Shaped(w) && AllFaithful(source, w.slots) && Genuine(source, dg)
    ensures var (w', out) := Receive(w, dg);
            && AllFaithful(source, w'.slots)
            && (out.Some? ==> var id := out.value.frameId; id in source && IsTheFrame(out.value, source[id], id))
  {
    if !IsNotVideo(dg) {
      var id: u32, i: u16, seqNo: u16 :|
        id in source && i < CountOf(source[id]) && dg == SliceDatagram(source[id], id, i, seqNo);
      ReceiveIsFeed(w, source[id], id, i, seqNo);
      SliceOutcome(w, source[id], id, i);
      var (w', out) := FeedSliceOf(w, source[id], id, i);
      EffectKeepsFaithful(source, w, id, w', out);
    }
  }

  /** Main result: from any sequence of genuine datagrams, in any order, with any of them missing
      or repeated and foreign traffic in between, every delivered frame is byte for byte the
      source frame of its id, with its timestamp and flags. */
  lemma {:induction false} DeliveredIsSent(source: map<u32, SourceFrame>, dgs: seq<Bytes>)
    requires AllSendable(source)
    requires forall t :: 0 <= t < |dgs| ==> Genuine(source, dgs[t])
    ensures var (w, out) := ReceiveAll(dgs);
            && AllFaithful(source, w.slots)
            && forall j :: 0 <= j < |out| ==>
                 var id := out[j].frameId; id in source && IsTheFrame(out[j], source[id], id)
  {
    if dgs != [] {
      var n := |dgs| - 1;
      DeliveredIsSent(source, dgs[..n]);
      GenuineKeepsFaithful(source, ReceiveAll(dgs[..n]).0, dgs[n]);
    }
  }

  // ---------------------------------------------------------------- frames numbered for ever

  /** The sender's history: its `k`-th frame carries id `k` modulo 2^32. An arrival is slice
      `slice` of frame number `frame`. */
  datatype Arrival = Arrival(frame: nat, slice: nat, seqNo: u16)

  datatype Delivery = Delivery(number: nat, frame: AssembledFrame)

  /** `reference` is the number of the frame delivered last, or the starting point given. */
  datatype Play = Play(w: Window, reference: nat, out: seq<Delivery>)

  /** Frame number `k` of a history, counting from 1. */
  function Nth(src: seq<SourceFrame>, k: nat): SourceFrame
    requires 1 <= k <= |src|
  {
    src[k - 1]
  }

  predicate IsArrival(src: seq<SourceFrame>, a: Arrival) {
    && 1 <= a.frame <= |src| && Sendable(Nth(src, a.frame)) && a.slice < CountOf(Nth(src, a.frame))
  }

  function ArrivalBytes(src: seq<SourceFrame>, a: Arrival): Bytes
    requires IsArrival(src, a)
  {
    SliceDatagram(Nth(src, a.frame), Wrap32(a.frame), a.slice, a.seqNo)
  }

  function Advance(p: Play, number: nat, w': Window, frame: Option<AssembledFrame>): Play {
    if frame.None? then p.(w := w') else Play(w', number, p.out + [Delivery(number, frame.value)])
  }

  function Step(src: seq<SourceFrame>, p: Play, a: Arrival): (r: Play)
    requires Shaped(p.w) && IsArrival(src, a)
    ensures Shaped(r.w)
  {
    var (w', frame) := FeedSliceOf(p.w, Nth(src, a.frame), Wrap32(a.frame), a.slice);
    Advance(p, a.frame, w', frame)
  }

  predicate AllArrivals(src: seq<SourceFrame>, arrivals: seq<Arrival>) {
    forall t :: 0 <= t < |arrivals| ==> IsArrival(src, arrivals[t])
  }

  function PlayOf(src: seq<SourceFrame>, start: nat, arrivals: seq<Arrival>): (p: Play)
    requires AllArrivals(src, arrivals)
    ensures Shaped(p.w)
  {
    if arrivals == [] then Play(EMPTY, start, [])
    else Step(src, PlayOf(src, start, arrivals[..|arrivals| - 1]), arrivals[|arrivals| - 1])
  }

  /** The datagram is less than half an id ring away from the frame delivered last; before any
      delivery, from the starting point, after which it lies. */
  predicate InReach(p: Play, a: Arrival) {
    && a.frame < p.reference + HALF32
    && p.reference < a.frame + (if p.out == [] then 0 else HALF32 + 1)
  }

  predicate NeverFarBehind(src: seq<SourceFrame>, start: nat, arrivals: seq<Arrival>)
    requires AllArrivals(src, arrivals)
  {
    arrivals != [] ==>
      var before := arrivals[..|arrivals| - 1];
      NeverFarBehind(src, start, before) && InReach(PlayOf(src, start, before), arrivals[|arrivals| - 1])
  }

  /** The frame number a pending id stands for. */
  function NumberOf(reference: nat, id: u32): nat {
    reference + Sub32(id, Wrap32(reference))
  }

  predicate SlotNumbered(src: seq<SourceFrame>, reference: nat, p: Partial) {
    var n := NumberOf(reference, p.id);
    IdNewer(p.id, Wrap32(reference)) && 1 <= n <= |src| && Sendable(Nth(src, n)) && Faithful(p, Nth(src, n))
  }

  predicate DeliveryRight(src: seq<SourceFrame>, d: Delivery) {
    1 <= d.number <= |src| && IsTheFrame(d.frame, Nth(src, d.number), Wrap32(d.number))
  }

  /** The invariant of a run whose datagrams stay in reach. */
  predicate InStep(src: seq<SourceFrame>, p: Play) {
    && Shaped(p.w)
    && p.w.newest == (if p.out == [] then None else Some(Wrap32(p.reference)))
    && (forall j :: 0 <= j < MAX_PENDING && p.w.slots[j].Some? ==>
          SlotNumbered(src, p.reference, p.w.slots[j].value))
    && (forall j :: 0 <= j < |p.out| ==> DeliveryRight(src, p.out[j]) && p.out[j].number <= p.reference)
    && (forall i, j :: 0 <= i < j < |p.out| ==> p.out[i].number < p.out[j].number)
  }

  /** In reach, a slice is stale exactly when its frame is not after the last one delivered, and
      its id, if pending, stands for its own frame number. */
  lemma ReachDecides(p: Play, a: Arrival)
    requires p.w.newest == (if p.out == [] then None else Some(Wrap32(p.reference)))
    requires InReach(p, a)
    ensures Stale(p.w, Wrap32(a.frame)) <==> a.frame <= p.reference
    ensures a.frame > p.reference ==>
              NumberOf(p.reference, Wrap32(a.frame)) == a.frame && IdNewer(Wrap32(a.frame), Wrap32(p.reference))
  {
    NewerIffGreater(a.frame, p.reference);
    SubOfWraps(a.frame, p.reference);
  }

  /** Pending numbers do not change when the reference moves to a delivered frame below them. */
  lemma NumberSurvivesDelivery(reference: nat, next: nat, id: u32)
    requires reference < next < reference + HALF32
    requires IdNewer(id, Wrap32(reference)) && IdNewer(id, Wrap32(next))
    ensures NumberOf(next, id) == NumberOf(reference, id)
  {
    var n := NumberOf(reference, id);
    LiftIsInverse(reference, id);
    NewerIffGreater(n, next);
    SubOfWraps(n, next);
  }

  lemma PendingOwnFrame(src: seq<SourceFrame>, p: Play, a: Arrival, j: nat)
    requires InStep(src, p) && IsArrival(src, a) && InReach(p, a) && a.frame > p.reference
    requires j < MAX_PENDING && Holds(p.w.slots[j], Wrap32(a.frame))
    ensures Faithful(p.w.slots[j].value, Nth(src, a.frame))
  {
    ReachDecides(p, a);
    assert SlotNumbered(src, p.reference, p.w.slots[j].value);
  }

  /** After an arrival beyond the reference every pending frame is still part of the frame its
      number names. */
  lemma EffectKeepsNumbers(src: seq<SourceFrame>, p: Play, a: Arrival, w': Window, out: Option<AssembledFrame>)
    requires InStep(src, p) && IsArrival(src, a) && InReach(p, a) && a.frame > p.reference
    requires Shaped(w') && SliceEffect(p.w, Nth(src, a.frame), Wrap32(a.frame), w', out)
    ensures forall j :: 0 <= j < MAX_PENDING && w'.slots[j].Some? ==>
              SlotNumbered(src, if out.Some? then a.frame else p.reference, w'.slots[j].value)
  {
    ReachDecides(p, a);
    forall j | 0 <= j < MAX_PENDING && w'.slots[j].Some?
      ensures SlotNumbered(src, if out.Some? then a.frame else p.reference, w'.slots[j].value)
    {
      assert SlotNumbered(src, p.reference, w'.slots[j].value);
      if out.Some? {
        NumberSurvivesDelivery(p.reference, a.frame, w'.slots[j].value.id);
      }
    }
  }

  lemma EffectKeepsStep(src: seq<SourceFrame>, p: Play, a: Arrival, w': Window, out: Option<AssembledFrame>)
    requires InStep(src, p) && IsArrival(src, a) && InReach(p, a) && a.frame > p.reference
    requires Shaped(w') && SliceEffect(p.w, Nth(src, a.frame), Wrap32(a.frame), w', out)
    ensures InStep(src, Advance(p, a.frame, w', out))
  {
    EffectKeepsNumbers(src, p, a, w', out);
  }

  lemma NewArrivalEffect(src: seq<SourceFrame>, p: Play, a: Arrival, f: SourceFrame, id: u32)
    requires InStep(src, p) && IsArrival(src, a) && InReach(p, a) && a.frame > p.reference
    requires f == Nth(src, a.frame) && id == Wrap32(a.frame)
    ensures var (w', out) := FeedSliceOf(p.w, f, id, a.slice); SliceEffect(p.w, f, id, w', out)
  {
    forall j | 0 <= j < MAX_PENDING && Holds(p.w.slots[j], id)
      ensures Faithful(p.w.slots[j].value, f)
    {
      PendingOwnFrame(src, p, a, j);
    }
    SliceOutcome(p.w, f, id, a.slice);
  }

  lemma NewArrival(src: seq<SourceFrame>, p: Play, a: Arrival, p': Play)
    requires InStep(src, p) && IsArrival(src, a) && InReach(p, a) && a.frame > p.reference
    requires p' == Step(src, p, a)
    ensures InStep(src, p')
  {
    var f, id := Nth(src, a.frame), Wrap32(a.frame);
    NewArrivalEffect(src, p, a, f, id);
    var (w', out) := FeedSliceOf(p.w, f, id, a.slice);
    EffectKeepsStep(src, p, a, w', out);
    assert p' == Advance(p, a.frame, w', out);
  }

  /** An arrival at or before the reference only counts. */
  lemma StaleArrival(src: seq<SourceFrame>, p: Play, a: Arrival, p': Play)
    requires InStep(src, p) && IsArrival(src, a) && InReach(p, a) && a.frame <= p.reference
    requires p' == Step(src, p, a)
    ensures p' == p.(w := p.w.(stats := p.w.stats.(slicesIn := p.w.stats.slicesIn + 1)))
  {
    ReachDecides(p, a);
    FeedOutcome(p.w, SliceHeader(Nth(src, a.frame), Wrap32(a.frame), a.slice), Slice(Nth(src, a.frame).data, a.slice));
  }

  lemma ArrivalKeepsStep(src: seq<SourceFrame>, p: Play, a: Arrival, p': Play)
    requires InStep(src, p) && IsArrival(src, a) && InReach(p, a) && p' == Step(src, p, a)
    ensures InStep(src, p')
  {
    if a.frame <= p.reference {
      StaleArrival(src, p, a, p');
    } else {
      NewArrival(src, p, a, p');
    }
  }

  lemma {:induction false} StaysInStep(src: seq<SourceFrame>, start: nat, arrivals: seq<Arrival>)
    requires AllArrivals(src, arrivals) && NeverFarBehind(src, start, arrivals)
    ensures InStep(src, PlayOf(src, start, arrivals))
  {
    if arrivals != [] {
      var n := |arrivals| - 1;
      StaysInStep(src, start, arrivals[..n]);
      ArrivalKeepsStep(src, PlayOf(src, start, arrivals[..n]), arrivals[n], PlayOf(src, start, arrivals));
    }
  }

  // ---------------------------------------------------------------- back to the wire

  function FramesOf(out: seq<Delivery>): seq<AssembledFrame> {
    seq(|out|, j requires 0 <= j < |out| => out[j].frame)
  }

  /** The receiver reads the datagram as the arrival's slice. */
  predicate Carries(src: seq<SourceFrame>, dg: Bytes, a: Arrival)
    requires IsArrival(src, a)
  {
    var f := Nth(src, a.frame);
    var h := ParseHeader(dg);
    && h.Some? && h.value.kind == PKT_VIDEO
    && ParseVideo(dg[HEADER_SIZE..]) == Some((SliceHeader(f, Wrap32(a.frame), a.slice), Slice(f.data, a.slice)))
  }

  lemma ArrivalBytesCarry(src: seq<SourceFrame>, a: Arrival)
    requires IsArrival(src, a)
    ensures Carries(src, ArrivalBytes(src, a), a)
  {
    SliceParses(Nth(src, a.frame), Wrap32(a.frame), a.slice, a.seqNo);
  }

  /** The numbered run is the run of the receiver on the datagrams' bytes. */
  lemma {:induction false} PlayIsReceived(src: seq<SourceFrame>, start: nat, arrivals: seq<Arrival>, dgs: seq<Bytes>)
    requires AllArrivals(src, arrivals) && |dgs| == |arrivals|
    requires forall t :: 0 <= t < |dgs| ==> Carries(src, dgs[t], arrivals[t])
    ensures var p := PlayOf(src, start, arrivals);
            ReceiveAll(dgs) == (p.w, FramesOf(p.out))
  {
    if arrivals == [] {
      assert FramesOf([]) == [];
    } else {
      var n := |arrivals| - 1;
      PlayIsReceived(src, start, arrivals[..n], dgs[..n]);
      StepIsReceived(src, PlayOf(src, start, arrivals[..n]), arrivals[n], dgs[n]);
    }
  }

  lemma StepIsReceived(src: seq<SourceFrame>, p: Play, a: Arrival, dg: Bytes)
    requires Shaped(p.w) && IsArrival(src, a) && Carries(src, dg, a)
    ensures var (w', frame) := Receive(p.w, dg);
            Step(src, p, a).w == w'
            && FramesOf(Step(src, p, a).out) == if frame.Some? then FramesOf(p.out) + [frame.value] else FramesOf(p.out)
  {
    var (w', frame) := FeedSliceOf(p.w, Nth(src, a.frame), Wrap32(a.frame), a.slice);
    AdvanceFrames(p, a.frame, w', frame);
  }

  lemma AdvanceFrames(p: Play, number: nat, w': Window, frame: Option<AssembledFrame>)
    ensures FramesOf(Advance(p, number, w', frame).out)
         == if frame.Some? then FramesOf(p.out) + [frame.value] else FramesOf(p.out)
  {
  }

  /** The datagrams the sender emits for its `k`-th frame, under whatever sequence numbers, are the
      arrivals of that frame. */
  lemma SenderEmitsArrivals(src: seq<SourceFrame>, k: nat, seqNos: seq<u16>, i: nat)
    requires 1 <= k <= |src| && Sendable(Nth(src, k)) && i < CountOf(Nth(src, k)) == |seqNos|
    ensures var sent := FrameDatagrams(Nth(src, k), Wrap32(k), seqNos); var a := Arrival(k, i, seqNos[i]);
            |sent| == CountOf(Nth(src, k)) && IsArrival(src, a) && sent[i] == ArrivalBytes(src, a)
  {
    FrameDatagramAt(Nth(src, k), Wrap32(k), seqNos, i);
  }

  /** The datagrams received are those of the arrivals. */
  predicate OnTheWire(src: seq<SourceFrame>, arrivals: seq<Arrival>, dgs: seq<Bytes>)
    requires AllArrivals(src, arrivals)
  {
    |dgs| == |arrivals| && forall t :: 0 <= t < |dgs| ==> dgs[t] == ArrivalBytes(src, arrivals[t])
  }

  lemma WireIsPlayed(src: seq<SourceFrame>, start: nat, arrivals: seq<Arrival>, dgs: seq<Bytes>)
    requires AllArrivals(src, arrivals) && OnTheWire(src, arrivals, dgs)
    ensures ReceiveAll(dgs) == (PlayOf(src, start, arrivals).w, FramesOf(PlayOf(src, start, arrivals).out))
  {
    forall t | 0 <= t < |dgs|
      ensures Carries(src, dgs[t], arrivals[t])
    {
      ArrivalBytesCarry(src, arrivals[t]);
    }
    PlayIsReceived(src, start, arrivals, dgs);
  }

  /** The frames are those sent under these numbers, with their bytes, times and flags. */
  predicate SentUnder(src: seq<SourceFrame>, frames: seq<AssembledFrame>, numbers: seq<nat>) {
    && |numbers| == |frames|
    && forall j :: 0 <= j < |frames| ==> DeliveryRight(src, Delivery(numbers[j], frames[j]))
  }

  predicate Increasing(numbers: seq<nat>) {
    forall i, j :: 0 <= i < j < |numbers| ==> numbers[i] < numbers[j]
  }

  function NumbersOf(out: seq<Delivery>): (r: seq<nat>)
    ensures |r| == |out| && forall j :: 0 <= j < |out| ==> r[j] == out[j].number
  {
    seq(|out|, j requires 0 <= j < |out| => out[j].number)
  }

  lemma NumbersTell(src: seq<SourceFrame>, p: Play)
    requires InStep(src, p)
    ensures SentUnder(src, FramesOf(p.out), NumbersOf(p.out)) && Increasing(NumbersOf(p.out))
  {
    forall j | 0 <= j < |p.out|
      ensures DeliveryRight(src, Delivery(NumbersOf(p.out)[j], FramesOf(p.out)[j]))
    {
      assert p.out[j] == Delivery(NumbersOf(p.out)[j], FramesOf(p.out)[j]);
    }
  }

  /** Main result with ids going round, from bytes to frames: as long as no datagram lags or leads
      by half the id ring, the receiver delivers frames in strictly increasing order of the number
      they were sent under - none twice, no abandoned frame ever again - and each is the frame
      sent under that number. */
  lemma DeliveredInOrderAcrossWrap(src: seq<SourceFrame>, start: nat, arrivals: seq<Arrival>, dgs: seq<Bytes>)
    requires AllArrivals(src, arrivals) && NeverFarBehind(src, start, arrivals) && OnTheWire(src, arrivals, dgs)
    ensures exists numbers :: SentUnder(src, ReceiveAll(dgs).1, numbers) && Increasing(numbers)
  {
    var p := PlayOf(src, start, arrivals);
    StaysInStep(src, start, arrivals);
    WireIsPlayed(src, start, arrivals, dgs);
    NumbersTell(src, p);
  }
}
