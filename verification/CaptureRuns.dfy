/** The capture hook and the encoder thread running side by side. The hook holds the capture
    mutex for a whole scan-out, the message queue has its own lock, so the encoder can receive
    in the middle of a scan-out but can release a surface only between scan-outs. The description of
    a surface is read by the encoder without any lock, so a hand-off is three steps: the description,
    the state, the message. */
module CaptureRuns {
  import opened Words
  import opened Capture

  /** One scan-out: when it read the clock, before wrapping, the rate and the source. */
  datatype Call = Call(time: nat, fps: Fps, src: Surface)

  /** Where the hook is: looking at slot `i`, having described it to the encoder, having marked it
      ENCODING, or past the hand-offs. */
  datatype Hook =
    | Outside
    | HandingOff(i: nat, call: Call)
    | Marking(i: nat, call: Call)
    | Submitting(i: nat, call: Call)
    | Issuing(call: Call)

  /** Where the encoder thread is: waiting for a message, reading a surface, or done with it and
      about to send frame `copy` with the timestamp it still has to look up. */
  datatype Encoder =
    | Waiting
    | Reading(index: int)
    | Sending(index: int, copy: nat)

  /** A GPU copy: its time on the unbounded clock and the rate in force. */
  datatype Blit = Blit(time: nat, fps: Fps)

  /** A frame handed to the network: its pixels came from `copy`, its timestamp from the
      description of copy `described`. `again` and `behind` are what the lookup of the timestamp
      met: whether the frame's slot was being handed over again, and behind the other slot. */
  datatype Sent = Sent(copy: nat, described: nat, timestampMs: u32, again: bool, behind: bool)

  datatype World = World(
    pipe: Pipeline, hook: Hook, encoder: Encoder, clock: nat,
    blits: seq<Blit>, encoded: seq<nat>, sent: seq<Sent>)

  datatype Event =
    | ScanoutStart(elapsed: nat, fps: Fps, hostActive: bool, buffer: Option<ColorBuffer>)
    | HookStep(alloc: bool)
    | EncoderStep(jpegFits: bool)

  const START := World(
    Pipeline([Slot(Free, None, 0), Slot(Free, None, 0)],
             [Captured(false, Surface(0, 0, UnormRgba8), 0, 0), Captured(false, Surface(0, 0, UnormRgba8), 0, 0)],
             0, [], 0),
    Outside, Waiting, 0, [], [], [])

  function Start(w: World, e: Event): World
    requires e.ScanoutStart?
  {
    var clock := w.clock + e.elapsed;
    if w.hook.Outside? && Eligible(true, e.hostActive, e.buffer) then
      w.(clock := clock, hook := HandingOff(0, Call(clock, e.fps, e.buffer.value.surface)))
    else w.(clock := clock)
  }

  /** After slot `i` comes the other slot, then the next copy. */
  function Past(i: nat, call: Call): Hook {
    if i == 0 then HandingOff(1, call) else Issuing(call)
  }

  function HookNext(w: World, alloc: bool): World
    requires Shape(w)
  {
    match w.hook
    case Outside => w
    case HandingOff(i, call) =>
      if Due(w.pipe, i, Wrap32(call.time)) then w.(pipe := Described(w.pipe, i), hook := Marking(i, call))
      else w.(hook := Past(i, call))
    case Marking(i, call) => w.(pipe := Marked(w.pipe, i), hook := Submitting(i, call))
    case Submitting(i, call) => w.(pipe := Submit(w.pipe, i), hook := Past(i, call))
    case Issuing(call) =>
      var p := Issue(w.pipe, Wrap32(call.time), Interval(call.fps), call.src, alloc);
      w.(pipe := p, hook := Outside,
         blits := if p.issued > w.pipe.issued then w.blits + [Blit(call.time, call.fps)] else w.blits)
  }

  /** What a slot's pixels are a copy of. */
  function Pixels(p: Pipeline, i: int): nat
    requires TwoSlots(p)
  {
    if 0 <= i < 2 && p.slots[i].image.Some? && p.slots[i].image.value.copy.Some?
    then p.slots[i].image.value.copy.value else 0
  }

  /** The slot the hook has described but not marked yet. */
  function Midway(hook: Hook): Option<nat> {
    if hook.Marking? then Some(hook.i) else None
  }

  /** The slot of the frame being sent is in state ENCODING again, or just being handed over. */
  predicate Again(w: World)
    requires TwoSlots(w.pipe) && w.encoder.Sending? && 0 <= w.encoder.index < 2
  {
    w.pipe.slots[w.encoder.index].state.Encoding? || Midway(w.hook) == Some(w.encoder.index)
  }

  /** And the other slot was handed over before it. */
  predicate Behind(w: World)
    requires TwoSlots(w.pipe) && w.encoder.Sending? && 0 <= w.encoder.index < 2
  {
    Again(w) && w.pipe.queue != [] && w.pipe.queue[0] != w.encoder.index
  }

  /** The frame that goes out when the encoder looks up the timestamp in this state. */
  function Lookup(w: World): Sent
    requires TwoSlots(w.pipe) && w.encoder.Sending? && 0 <= w.encoder.index < 2
  {
    var c := w.pipe.captured[w.encoder.index];
    Sent(w.encoder.copy, c.copy, c.timestampMs, Again(w), Behind(w))
  }

  function EncoderNext(w: World, jpegFits: bool): World
    requires TwoSlots(w.pipe)
  {
    match w.encoder
    case Waiting =>
      if w.pipe.queue == [] then w
      else w.(pipe := w.pipe.(queue := w.pipe.queue[1..]), encoder := Reading(w.pipe.queue[0]))
    case Reading(index) =>
      if !w.hook.Outside? then w
      else if 0 <= index < 2 && w.pipe.captured[index].pixels then
        var copy := Pixels(w.pipe, index);
        w.(pipe := Release(w.pipe, index), encoder := Sending(index, copy), encoded := w.encoded + [copy])
      else w.(pipe := Release(w.pipe, index), encoder := Waiting)
    case Sending(index, copy) =>
      if 0 <= index < 2 && jpegFits then
        w.(encoder := Waiting, sent := w.sent + [Lookup(w)])
      else w.(encoder := Waiting)
  }

  predicate Shape(w: World) {
    TwoSlots(w.pipe) && (w.hook.HandingOff? || w.hook.Marking? || w.hook.Submitting? ==> w.hook.i < 2)
  }

  function Step(w: World, e: Event): (r: World)
    requires Shape(w)
    ensures Shape(r)
  {
    match e
    case ScanoutStart(_, _, _, _) => Start(w, e)
    case HookStep(alloc) => HookNext(w, alloc)
    case EncoderStep(jpegFits) => EncoderNext(w, jpegFits)
  }

  // ---------------------------------------------------------------- invariant

  /** The slots on the encoder's side, oldest first: the one it holds, the queue, and the one the
      hook is just putting there. */
  function Line(encoder: Encoder, queue: seq<int>, hook: Hook): seq<int> {
    (if encoder.Reading? then [encoder.index] else []) + queue + (if hook.Submitting? then [hook.i] else [])
  }

  function LineOf(w: World): seq<int> {
    Line(w.encoder, w.pipe.queue, w.hook)
  }

  /** The line is exactly the slots being encoded, without repeats, and at most one slot has a copy
      pending. */
  predicate Owned(slots: seq<Slot>, line: seq<int>)
    requires |slots| == 2
  {
    && |line| <= 2 && (|line| == 2 ==> line[0] != line[1])
    && (forall k :: 0 <= k < |line| ==> line[k] == 0 || line[k] == 1)
    && (slots[0].state.Encoding? <==> 0 in line)
    && (slots[1].state.Encoding? <==> 1 in line)
    && !(slots[0].state.CopyPending? && slots[1].state.CopyPending?)
  }

  /** A slot holds copy number `n`. */
  predicate Filled(slot: Slot, n: nat) {
    slot.image.Some? && slot.image.value.copy == Some(n)
  }

  /** The encoder was told of copy `n`, as it lies in the slot. */
  predicate Told(slot: Slot, c: Captured, n: nat) {
    Filled(slot, n) && c.pixels && c.surface == slot.image.value.surface && c.copy == n
  }

  predicate InLine(p: Pipeline, i: int, n: nat)
    requires TwoSlots(p)
  {
    0 <= i < 2 && Told(p.slots[i], p.captured[i], n)
  }

  /** The last copy issued, where it is pending. */
  predicate Latest(slot: Slot, issued: nat, lastCaptureMs: u32) {
    slot.state.CopyPending? ==> issued > 0 && Filled(slot, issued - 1) && slot.issuedAtMs == lastCaptureMs
  }

  function Waits(slots: seq<Slot>): nat
    requires |slots| == 2
  {
    if slots[0].state.CopyPending? || slots[1].state.CopyPending? then 1 else 0
  }

  /** Copies go down the line in the order they were issued and none is missing: those encoded,
      then the line, then the pending one, are 0, 1, 2, ... */
  predicate Ordered(p: Pipeline, line: seq<int>, done: nat)
    requires TwoSlots(p)
  {
    && p.issued == done + |line| + Waits(p.slots)
    && (forall k :: 0 <= k < |line| ==> InLine(p, line[k], done + k))
    && Latest(p.slots[0], p.issued, p.lastCaptureMs)
    && Latest(p.slots[1], p.issued, p.lastCaptureMs)
  }

  /** When copy `n` was issued, as the console's clock showed it. */
  predicate IssuedAt(blits: seq<Blit>, n: nat, ms: u32) {
    n < |blits| && ms == Wrap32(blits[n].time)
  }

  /** The log of copies agrees with the last capture time and with what the encoder was told. */
  predicate Stamped(captured: seq<Captured>, lastCaptureMs: u32, blits: seq<Blit>) {
    && (blits != [] ==> lastCaptureMs == Wrap32(blits[|blits| - 1].time))
    && (forall i :: 0 <= i < |captured| && captured[i].pixels ==>
          IssuedAt(blits, captured[i].copy, captured[i].timestampMs))
  }

  /** Consecutive copies are at least the interval in force apart, in true time. */
  predicate Spaced(blits: seq<Blit>) {
    forall k :: 0 < k < |blits| ==> blits[k].time - blits[k - 1].time >= Interval(blits[k].fps)
  }

  predicate NotBefore(time: nat, blits: seq<Blit>) {
    blits != [] ==> blits[|blits| - 1].time <= time
  }

  predicate PendingSince(slot: Slot, time: nat) {
    slot.state.CopyPending? ==> slot.issuedAtMs == Wrap32(time)
  }

  /** A scan-out under way: copies pending from earlier have been handed off up to its place. */
  predicate HookOk(hook: Hook, slots: seq<Slot>, blits: seq<Blit>, clock: nat)
    requires |slots| == 2
  {
    if hook.Outside? then NotBefore(clock, blits)
    else
      && hook.call.time <= clock && NotBefore(hook.call.time, blits)
      && (hook.Issuing? ==> PendingSince(slots[0], hook.call.time) && PendingSince(slots[1], hook.call.time))
      && (!hook.Issuing? ==> hook.i < 2 && (hook.i == 1 ==> PendingSince(slots[0], hook.call.time)))
  }

  /** A slot described but not marked yet is pending, and described as it is. */
  predicate MidwayOk(p: Pipeline, midway: Option<nat>)
    requires TwoSlots(p)
  {
    midway.Some? ==> midway.value < 2 && p.slots[midway.value].state.CopyPending?
                     && p.captured[midway.value] == Describe(p.slots[midway.value])
  }

  /** The frame being sent is the last one encoded, and its slot's description stays until the slot
      is handed over again. */
  predicate SendingOk(encoder: Encoder, p: Pipeline, midway: Option<nat>, encoded: seq<nat>)
    requires TwoSlots(p)
  {
    encoder.Sending? ==>
      && 0 <= encoder.index < 2 && |encoded| > 0 && encoder.copy == |encoded| - 1
      && p.captured[encoder.index].pixels
      && (p.slots[encoder.index].state.Encoding? || midway == Some(encoder.index)
          || p.captured[encoder.index].copy == encoder.copy)
  }

  /** How many copies after its own the description of a frame is. */
  function Lag(again: bool, behind: bool): nat {
    if !again then 0 else if behind then 2 else 1
  }

  /** Frames go out in order, each with the time of its own copy or of a later one. */
  predicate SentOk(sent: seq<Sent>, bound: nat, blits: seq<Blit>) {
    && (forall k :: 0 <= k < |sent| ==>
          && sent[k].copy < bound && sent[k].described == sent[k].copy + Lag(sent[k].again, sent[k].behind)
          && IssuedAt(blits, sent[k].described, sent[k].timestampMs))
    && (forall k :: 0 < k < |sent| ==> sent[k - 1].copy < sent[k].copy)
  }

  /** The logs. */
  predicate History(blits: seq<Blit>, encoded: seq<nat>, sent: seq<Sent>, encoder: Encoder) {
    && Spaced(blits)
    && (forall k :: 0 <= k < |encoded| ==> encoded[k] == k)
    && SentOk(sent, if encoder.Sending? then encoder.copy else |encoded|, blits)
  }

  predicate Core(p: Pipeline, line: seq<int>, midway: Option<nat>, encoder: Encoder, blits: seq<Blit>,
                 encoded: seq<nat>) {
    && TwoSlots(p) && p.issued == |blits|
    && Owned(p.slots, line)
    && Ordered(p, line, |encoded|)
    && Stamped(p.captured, p.lastCaptureMs, blits)
    && MidwayOk(p, midway)
    && SendingOk(encoder, p, midway, encoded)
  }

  predicate Inv(w: World) {
    && Core(w.pipe, LineOf(w), Midway(w.hook), w.encoder, w.blits, w.encoded)
    && HookOk(w.hook, w.pipe.slots, w.blits, w.clock)
    && History(w.blits, w.encoded, w.sent, w.encoder)
  }

  // ---------------------------------------------------------------- steps

  lemma StartKeepsInv(w: World, e: Event)
    requires Inv(w) && e.ScanoutStart?
    ensures Inv(Start(w, e))
  {
    var w' := Start(w, e);
    assert LineOf(w') == LineOf(w) && Midway(w'.hook) == Midway(w.hook);
    assert w' == w.(clock := w'.clock, hook := w'.hook);
    assert HookOk(w'.hook, w.pipe.slots, w.blits, w'.clock);
  }

  /** Marking the described slot puts it at the end of the line. */
  lemma MarkedKeepsOrder(p: Pipeline, line: seq<int>, done: nat, i: nat, q: Pipeline)
    requires TwoSlots(p) && Owned(p.slots, line) && Ordered(p, line, done)
    requires i < 2 && MidwayOk(p, Some(i)) && q == Marked(p, i)
    ensures Owned(q.slots, line + [i]) && Ordered(q, line + [i], done)
  {
    assert i !in line;
    assert |line| <= 1;
    assert Told(q.slots[i], q.captured[i], done + |line|);
    assert q.slots[1 - i] == p.slots[1 - i];
  }

  /** Describing a pending slot touches no description in the line. */
  lemma DescribedKeepsOrder(p: Pipeline, line: seq<int>, done: nat, i: nat, q: Pipeline)
    requires TwoSlots(p) && Owned(p.slots, line) && Ordered(p, line, done)
    requires i < 2 && p.slots[i].state.CopyPending? && q == Described(p, i)
    ensures Ordered(q, line, done)
  {
    assert i !in line;
    assert q.captured[1 - i] == p.captured[1 - i];
  }

  lemma DescribeIsStamped(p: Pipeline, i: nat, blits: seq<Blit>)
    requires TwoSlots(p) && p.issued == |blits| && Stamped(p.captured, p.lastCaptureMs, blits)
    requires i < 2 && p.slots[i].state.CopyPending? && Latest(p.slots[i], p.issued, p.lastCaptureMs)
    ensures Stamped(p.captured[i := Describe(p.slots[i])], p.lastCaptureMs, blits)
  {
  }

  lemma DescribedKeepsCore(p: Pipeline, i: nat, line: seq<int>, encoder: Encoder, blits: seq<Blit>, encoded: seq<nat>,
                           q: Pipeline)
    requires Core(p, line, None, encoder, blits, encoded)
    requires i < 2 && p.slots[i].state.CopyPending? && q == Described(p, i)
    ensures Core(q, line, Some(i), encoder, blits, encoded)
  {
    DescribedKeepsOrder(p, line, |encoded|, i, q);
    DescribeIsStamped(p, i, blits);
  }

  /** On to the next slot when this one has no copy pending from earlier. */
  lemma PastIsOk(hook: Hook, slots: seq<Slot>, blits: seq<Blit>, clock: nat)
    requires |slots| == 2 && HookOk(hook, slots, blits, clock) && (hook.HandingOff? || hook.Submitting?)
    requires PendingSince(slots[hook.i], hook.call.time)
    ensures HookOk(Past(hook.i, hook.call), slots, blits, clock)
  {
  }

  lemma DescribingKeepsInv(w: World, alloc: bool)
    requires Inv(w) && Shape(w) && w.hook.HandingOff?
    ensures Inv(HookNext(w, alloc))
  {
    var i, w' := w.hook.i, HookNext(w, alloc);
    assert LineOf(w') == LineOf(w);
    if Due(w.pipe, i, Wrap32(w.hook.call.time)) {
      DescribedKeepsCore(w.pipe, i, LineOf(w), w.encoder, w.blits, w.encoded, w'.pipe);
    } else {
      PastIsOk(w.hook, w.pipe.slots, w.blits, w.clock);
    }
  }

  lemma MarkedKeepsCore(p: Pipeline, i: nat, line: seq<int>, encoder: Encoder, blits: seq<Blit>, encoded: seq<nat>,
                        q: Pipeline)
    requires Core(p, line, Some(i), encoder, blits, encoded) && q == Marked(p, i)
    ensures Core(q, line + [i], None, encoder, blits, encoded)
  {
    MarkedKeepsOrder(p, line, |encoded|, i, q);
  }

  lemma MarkingKeepsInv(w: World, alloc: bool)
    requires Inv(w) && Shape(w) && w.hook.Marking?
    ensures Inv(HookNext(w, alloc))
  {
    var i, w' := w.hook.i, HookNext(w, alloc);
    MarkedKeepsCore(w.pipe, i, LineOf(w), w.encoder, w.blits, w.encoded, w'.pipe);
    assert LineOf(w') == LineOf(w) + [i];
  }

  /** The queue always has room for the slot just marked. */
  lemma SubmitIsQueued(p: Pipeline, encoder: Encoder, hook: Hook)
    requires TwoSlots(p) && hook.Submitting? && Owned(p.slots, Line(encoder, p.queue, hook))
    ensures 0 <= hook.i < 2 && p.slots[hook.i].state.Encoding? && Submit(p, hook.i) == p.(queue := p.queue + [hook.i])
  {
    var line := Line(encoder, p.queue, hook);
    assert line[|line| - 1] == hook.i;
  }

  /** Only the line tells how the queue stands. */
  lemma QueueIsInTheLine(p: Pipeline, q: Pipeline, line: seq<int>, encoder: Encoder, blits: seq<Blit>,
                         encoded: seq<nat>)
    requires Core(p, line, None, encoder, blits, encoded) && q == p.(queue := q.queue)
    ensures Core(q, line, None, encoder, blits, encoded)
  {
  }

  lemma SubmittingKeepsInv(w: World, alloc: bool)
    requires Inv(w) && Shape(w) && w.hook.Submitting?
    ensures Inv(HookNext(w, alloc))
  {
    var w' := HookNext(w, alloc);
    SubmitIsQueued(w.pipe, w.encoder, w.hook);
    PastIsOk(w.hook, w.pipe.slots, w.blits, w.clock);
    assert LineOf(w') == LineOf(w);
    QueueIsInTheLine(w.pipe, w'.pipe, LineOf(w), w.encoder, w.blits, w.encoded);
  }

  /** While a copy is pending at this scan-out's own time, the rate cap holds the next one back. */
  lemma CapHoldsWhilePending(p: Pipeline, time: nat, interval: nat, src: Surface, alloc: bool)
    requires TwoSlots(p) && interval >= 1 && Waits(p.slots) == 1
    requires PendingSince(p.slots[0], time) && PendingSince(p.slots[1], time)
    requires Latest(p.slots[0], p.issued, p.lastCaptureMs) && Latest(p.slots[1], p.issued, p.lastCaptureMs)
    ensures Issue(p, Wrap32(time), interval, src, alloc) == p
  {
  }

  lemma IssueKeepsOrder(p: Pipeline, line: seq<int>, done: nat, now: u32, interval: nat, src: Surface, alloc: bool,
                        q: Pipeline)
    requires TwoSlots(p) && Owned(p.slots, line) && Ordered(p, line, done) && Waits(p.slots) == 0
    requires q == Issue(p, now, interval, src, alloc)
    ensures Owned(q.slots, line) && Ordered(q, line, done) && q.captured == p.captured && q.queue == p.queue
    ensures (q.issued == p.issued && q.lastCaptureMs == p.lastCaptureMs) ||
            (q.issued == p.issued + 1 && q.lastCaptureMs == now && Sub32(now, p.lastCaptureMs) >= interval)
    ensures forall i :: 0 <= i < 2 && p.slots[i].state.Encoding? ==> q.slots[i].state.Encoding?
  {
    if q != p {
      var i := FirstFree(p.slots).value;
      assert i !in line;
      assert q.slots[1 - i] == p.slots[1 - i];
    }
  }

  /** One more copy in the log, an interval after the last one. */
  lemma LogGrows(blits: seq<Blit>, b: Blit, captured: seq<Captured>, lastCaptureMs: u32, sent: seq<Sent>, bound: nat)
    requires Stamped(captured, lastCaptureMs, blits) && Spaced(blits) && SentOk(sent, bound, blits)
    requires NotBefore(b.time, blits) && Sub32(Wrap32(b.time), lastCaptureMs) >= Interval(b.fps)
    ensures Stamped(captured, Wrap32(b.time), blits + [b]) && Spaced(blits + [b]) && SentOk(sent, bound, blits + [b])
    ensures NotBefore(b.time, blits + [b])
  {
    if blits != [] {
      WrappedAgeUnderestimates(b.time, blits[|blits| - 1].time);
    }
  }

  /** The log after the copy, or after none. */
  function Logged(blits: seq<Blit>, call: Call, p: Pipeline, q: Pipeline): seq<Blit> {
    if q.issued > p.issued then blits + [Blit(call.time, call.fps)] else blits
  }

  lemma IssueKeepsLog(w: World, q: Pipeline, blits: seq<Blit>)
    requires Inv(w) && w.hook.Issuing? && blits == Logged(w.blits, w.hook.call, w.pipe, q)
    requires q.captured == w.pipe.captured
    requires (q.issued == w.pipe.issued && q.lastCaptureMs == w.pipe.lastCaptureMs) ||
             (q.issued == w.pipe.issued + 1 && q.lastCaptureMs == Wrap32(w.hook.call.time) &&
              Sub32(q.lastCaptureMs, w.pipe.lastCaptureMs) >= Interval(w.hook.call.fps))
    ensures q.issued == |blits| && Stamped(q.captured, q.lastCaptureMs, blits)
    ensures History(blits, w.encoded, w.sent, w.encoder) && NotBefore(w.clock, blits)
  {
    var p, call := w.pipe, w.hook.call;
    if q.issued > p.issued {
      LogGrows(w.blits, Blit(call.time, call.fps), p.captured, p.lastCaptureMs, w.sent,
               if w.encoder.Sending? then w.encoder.copy else |w.encoded|);
    }
  }

  lemma IssueKeepsSending(p: Pipeline, q: Pipeline, encoder: Encoder, encoded: seq<nat>)
    requires TwoSlots(p) && TwoSlots(q) && SendingOk(encoder, p, None, encoded) && q.captured == p.captured
    requires forall i :: 0 <= i < 2 && p.slots[i].state.Encoding? ==> q.slots[i].state.Encoding?
    ensures SendingOk(encoder, q, None, encoded)
  {
  }

  lemma IssueKeepsInv(w: World, alloc: bool)
    requires Inv(w) && w.hook.Issuing?
    ensures Inv(HookNext(w, alloc))
  {
    var p, call, w' := w.pipe, w.hook.call, HookNext(w, alloc);
    var q := w'.pipe;
    assert w'.blits == Logged(w.blits, call, p, q);
    if Waits(p.slots) == 1 {
      CapHoldsWhilePending(p, call.time, Interval(call.fps), call.src, alloc);
    } else {
      IssueKeepsOrder(p, LineOf(w), |w.encoded|, Wrap32(call.time), Interval(call.fps), call.src, alloc, q);
    }
    IssueKeepsLog(w, q, w'.blits);
    IssueKeepsSending(p, q, w.encoder, w.encoded);
    assert LineOf(w') == LineOf(w);
  }

  /** The oldest slot of the line is released, its copy encoded. */
  lemma ReleaseKeepsOrder(p: Pipeline, index: int, rest: seq<int>, done: nat, q: Pipeline)
    requires TwoSlots(p) && Owned(p.slots, [index] + rest) && Ordered(p, [index] + rest, done)
    requires q == Release(p, index)
    ensures 0 <= index < 2 && p.captured[index].pixels && p.captured[index].copy == Pixels(p, index) == done
    ensures Owned(q.slots, rest) && Ordered(q, rest, done + 1) && q == p.(slots := q.slots)
  {
    var line := [index] + rest;
    assert line[0] == index && InLine(p, line[0], done);
    assert forall k :: 0 <= k < |rest| ==> rest[k] == line[k + 1];
    assert index !in rest;
    assert q.slots[1 - index] == p.slots[1 - index];
  }

  lemma ReleaseKeepsCore(p: Pipeline, index: int, rest: seq<int>, blits: seq<Blit>, encoded: seq<nat>, q: Pipeline)
    requires Core(p, [index] + rest, None, Reading(index), blits, encoded) && q == Release(p, index)
    ensures 0 <= index < 2 && p.captured[index].pixels && Pixels(p, index) == |encoded|
    ensures Core(q, rest, None, Sending(index, |encoded|), blits, encoded + [|encoded|])
  {
    ReleaseKeepsOrder(p, index, rest, |encoded|, q);
  }

  lemma ReleaseKeepsInv(w: World, jpegFits: bool)
    requires Inv(w) && w.encoder.Reading? && w.hook.Outside?
    ensures Inv(EncoderNext(w, jpegFits)) && EncoderNext(w, jpegFits).encoder.Sending?
  {
    var queue, w' := w.pipe.queue, EncoderNext(w, jpegFits);
    assert LineOf(w) == [w.encoder.index] + queue;
    ReleaseKeepsCore(w.pipe, w.encoder.index, queue, w.blits, w.encoded, Release(w.pipe, w.encoder.index));
    assert LineOf(w') == queue;
  }

  /** A slot in the line was described by the copy its place in the line says. */
  lemma PlaceInLine(p: Pipeline, queue: seq<int>, hook: Hook, line: seq<int>, done: nat, i: int)
    requires TwoSlots(p) && Owned(p.slots, line) && Ordered(p, line, done) && i in line
    requires line == Line(Waiting, queue, hook)
    ensures 0 <= i < 2 && p.captured[i].copy == done + if queue != [] && queue[0] != i then 1 else 0
  {
    var k :| 0 <= k < |line| && line[k] == i;
    assert InLine(p, line[k], done + k);
  }

  /** One that is just being handed over comes after the whole line. */
  lemma PlaceMidway(p: Pipeline, line: seq<int>, done: nat, i: nat)
    requires TwoSlots(p) && Owned(p.slots, line) && Ordered(p, line, done) && i < 2 && MidwayOk(p, Some(i))
    ensures p.captured[i].copy == done + if line != [] && line[0] != i then 1 else 0
  {
    assert i !in line;
    assert |line| <= 1;
  }

  /** Which copy the description of the frame being sent is of. */
  lemma DescriptionLag(p: Pipeline, hook: Hook, line: seq<int>, encoder: Encoder, blits: seq<Blit>, encoded: seq<nat>,
                       again: bool, behind: bool)
    requires encoder.Sending? && Core(p, line, Midway(hook), encoder, blits, encoded)
    requires line == Line(encoder, p.queue, hook)
    requires again == (p.slots[encoder.index].state.Encoding? || Midway(hook) == Some(encoder.index))
    requires behind == (again && p.queue != [] && p.queue[0] != encoder.index)
    ensures p.captured[encoder.index].copy == encoder.copy + Lag(again, behind)
  {
    if p.slots[encoder.index].state.Encoding? {
      PlaceInLine(p, p.queue, hook, line, |encoded|, encoder.index);
    } else if again {
      assert line == p.queue;
      PlaceMidway(p, line, |encoded|, encoder.index);
    }
  }

  /** Which copy's time a lookup finds. */
  lemma LookupLag(w: World, s: Sent)
    requires Inv(w) && w.encoder.Sending? && s == Lookup(w)
    ensures s.described == s.copy + Lag(s.again, s.behind) && IssuedAt(w.blits, s.described, s.timestampMs)
  {
    DescriptionLag(w.pipe, w.hook, LineOf(w), w.encoder, w.blits, w.encoded, s.again, s.behind);
  }

  lemma SentGrows(sent: seq<Sent>, s: Sent, bound: nat, blits: seq<Blit>)
    requires SentOk(sent, s.copy, blits) && s.copy < bound
    requires s.described == s.copy + Lag(s.again, s.behind) && IssuedAt(blits, s.described, s.timestampMs)
    ensures SentOk(sent, bound, blits) && SentOk(sent + [s], bound, blits)
  {
  }

  lemma NothingBeingSent(p: Pipeline, line: seq<int>, midway: Option<nat>, encoder: Encoder, blits: seq<Blit>,
                         encoded: seq<nat>)
    requires Core(p, line, midway, encoder, blits, encoded)
    ensures Core(p, line, midway, Waiting, blits, encoded)
  {
  }

  lemma SendKeepsInv(w: World, jpegFits: bool)
    requires Inv(w) && w.encoder.Sending?
    ensures Inv(EncoderNext(w, jpegFits))
  {
    var s, w' := Lookup(w), EncoderNext(w, jpegFits);
    LookupLag(w, s);
    SentGrows(w.sent, s, |w.encoded|, w.blits);
    assert LineOf(w') == LineOf(w) && Midway(w'.hook) == Midway(w.hook);
    NothingBeingSent(w.pipe, LineOf(w), Midway(w.hook), w.encoder, w.blits, w.encoded);
  }

  lemma EncoderKeepsInv(w: World, jpegFits: bool)
    requires Inv(w)
    ensures Inv(EncoderNext(w, jpegFits))
  {
    match w.encoder
    case Waiting =>
      if w.pipe.queue != [] {
        assert [w.pipe.queue[0]] + w.pipe.queue[1..] == w.pipe.queue;
        assert LineOf(EncoderNext(w, jpegFits)) == LineOf(w);
      }
    case Reading(_) => if w.hook.Outside? { ReleaseKeepsInv(w, jpegFits); }
    case Sending(_, _) => SendKeepsInv(w, jpegFits);
  }

  lemma HookKeepsInv(w: World, alloc: bool)
    requires Inv(w)
    ensures Shape(w) && Inv(HookNext(w, alloc))
  {
    match w.hook
    case Outside =>
    case HandingOff(_, _) => DescribingKeepsInv(w, alloc);
    case Marking(_, _) => MarkingKeepsInv(w, alloc);
    case Submitting(_, _) => SubmittingKeepsInv(w, alloc);
    case Issuing(_) => IssueKeepsInv(w, alloc);
  }

  lemma StepKeepsInv(w: World, e: Event)
    requires Inv(w)
    ensures Inv(Step(w, e))
  {
    match e
    case ScanoutStart(_, _, _, _) => StartKeepsInv(w, e);
    case HookStep(alloc) => HookKeepsInv(w, alloc);
    case EncoderStep(jpegFits) => EncoderKeepsInv(w, jpegFits);
  }

  /** A run: any sequence of events, with scan-outs at any times, any heap and any encoder speed,
      and the worlds it goes through. */
  ghost predicate IsRun(worlds: seq<World>, events: seq<Event>) {
    && |worlds| == |events| + 1 && worlds[0] == START
    && forall k {:trigger events[k]} :: 0 <= k < |events| ==>
         Shape(worlds[k]) && worlds[k + 1] == Step(worlds[k], events[k])
  }

  ghost predicate Reachable(w: World) {
    exists worlds: seq<World>, events: seq<Event> :: IsRun(worlds, events) && worlds[|events|] == w
  }

  lemma StartIsReachable()
    ensures Reachable(START)
  {
    assert IsRun([START], []);
  }

  lemma NextIsReachable(w: World, e: Event, w': World)
    requires Reachable(w) && Shape(w) && w' == Step(w, e)
    ensures Reachable(w')
  {
    var worlds, events :| IsRun(worlds, events) && worlds[|events|] == w;
    var n := |events|;
    forall k | 0 <= k < n + 1
      ensures Shape((worlds + [w'])[k]) && (worlds + [w'])[k + 1] == Step((worlds + [w'])[k], (events + [e])[k])
    {
      assert k < n ==> events[k] == (events + [e])[k];
    }
    assert IsRun(worlds + [w'], events + [e]);
  }

  lemma {:induction false} RunKeepsInv(worlds: seq<World>, events: seq<Event>, k: nat)
    requires IsRun(worlds, events) && k <= |events|
    ensures Inv(worlds[k])
  {
    if k > 0 {
      RunKeepsInv(worlds, events, k - 1);
      var e := events[k - 1];
      StepKeepsInv(worlds[k - 1], e);
    }
  }

  lemma ReachableKeepsInv(w: World)
    requires Reachable(w)
    ensures Inv(w)
  {
    var worlds, events :| IsRun(worlds, events) && worlds[|events|] == w;
    RunKeepsInv(worlds, events, |events|);
  }

  // ---------------------------------------------------------------- what this means

  /** In every reachable state the surface being read, the queued ones and the one just being put
      in the queue are exactly the slots in state ENCODING, each once; the queue holds at most two
      of its four entries, so the send-failed fallback never runs; the encoder is never given a
      surface without pixels. */
  lemma SurfacesAreOwnedOnce(w: World, line: seq<int>)
    requires Reachable(w) && line == LineOf(w)
    ensures TwoSlots(w.pipe) && |w.pipe.queue| <= 2 < QUEUE_SIZE
    ensures forall i :: 0 <= i < 2 ==> (w.pipe.slots[i].state.Encoding? <==> i in line)
    ensures forall i, j :: 0 <= i < j < |line| ==> line[i] != line[j]
    ensures w.encoder.Reading? ==> 0 <= w.encoder.index < 2 && w.pipe.captured[w.encoder.index].pixels
  {
    ReachableKeepsInv(w);
    if w.encoder.Reading? {
      assert line[0] == w.encoder.index;
      assert InLine(w.pipe, line[0], |w.encoded|);
    }
    forall i | 0 <= i < 2
      ensures w.pipe.slots[i].state.Encoding? <==> i in line
    {
      assert i == 0 || i == 1;
    }
  }

  predicate Spared(p: Pipeline, q: Pipeline, j: int)
    requires TwoSlots(p) && TwoSlots(q)
  {
    0 <= j < 2 && q.slots[j] == p.slots[j] && q.captured[j] == p.captured[j]
  }

  lemma PendingSparesLine(p: Pipeline, line: seq<int>, i: nat, j: int)
    requires TwoSlots(p) && Owned(p.slots, line) && i < 2 && p.slots[i].state.CopyPending? && j in line
    ensures Spared(p, Described(p, i), j) && Spared(p, Marked(p, i), j)
  {
  }

  lemma IssueSparesLine(p: Pipeline, line: seq<int>, call: Call, alloc: bool, j: int)
    requires TwoSlots(p) && Owned(p.slots, line) && j in line
    ensures Spared(p, Issue(p, Wrap32(call.time), Interval(call.fps), call.src, alloc), j)
  {
  }

  /** No step of the hook writes, reallocates or describes anew a surface the encoder is reading
      or is about to read. */
  lemma HookSparesTheEncoder(w: World, alloc: bool, j: int)
    requires Reachable(w) && j in LineOf(w)
    ensures Shape(w) && Spared(w.pipe, HookNext(w, alloc).pipe, j)
  {
    ReachableKeepsInv(w);
    var line := LineOf(w);
    match w.hook
    case Outside =>
    case HandingOff(i, call) =>
      if Due(w.pipe, i, Wrap32(call.time)) { PendingSparesLine(w.pipe, line, i, j); }
    case Marking(i, _) => PendingSparesLine(w.pipe, line, i, j);
    case Submitting(_, _) => assert |w.pipe.queue| < |line|;
    case Issuing(call) => IssueSparesLine(w.pipe, line, call, alloc, j);
  }

  lemma LineInOrder(p: Pipeline, line: seq<int>, done: nat)
    requires TwoSlots(p) && Ordered(p, line, done)
    ensures forall k :: 0 <= k < |line| ==> Pixels(p, line[k]) == done + k
  {
    forall k | 0 <= k < |line|
      ensures Pixels(p, line[k]) == done + k
    {
      assert InLine(p, line[k], done + k);
    }
  }

  lemma PendingIsLast(p: Pipeline, line: seq<int>, done: nat, blits: seq<Blit>)
    requires TwoSlots(p) && Ordered(p, line, done)
    requires p.issued == |blits| && Stamped(p.captured, p.lastCaptureMs, blits)
    ensures forall i :: 0 <= i < 2 && p.slots[i].state.CopyPending? ==>
              && p.slots[i].image.Some? && Pixels(p, i) == |blits| - 1 == done + |line|
              && p.slots[i].issuedAtMs == p.lastCaptureMs == Wrap32(blits[|blits| - 1].time)
  {
    forall i | 0 <= i < 2 && p.slots[i].state.CopyPending?
      ensures Latest(p.slots[i], p.issued, p.lastCaptureMs)
    {
      assert i == 0 || i == 1;
    }
  }

  lemma CopiesInOrder(p: Pipeline, line: seq<int>, midway: Option<nat>, encoder: Encoder, blits: seq<Blit>,
                      encoded: seq<nat>)
    requires Core(p, line, midway, encoder, blits, encoded)
    ensures |blits| == |encoded| + |line| + Waits(p.slots)
    ensures forall k :: 0 <= k < |line| ==> Pixels(p, line[k]) == |encoded| + k
    ensures !(p.slots[0].state.CopyPending? && p.slots[1].state.CopyPending?)
    ensures forall i :: 0 <= i < 2 && p.slots[i].state.CopyPending? ==>
              && p.slots[i].image.Some? && Pixels(p, i) == |blits| - 1 == |encoded| + |line|
              && p.slots[i].issuedAtMs == p.lastCaptureMs == Wrap32(blits[|blits| - 1].time)
  {
    LineInOrder(p, line, |encoded|);
    PendingIsLast(p, line, |encoded|, blits);
  }

  /** Every copy issued is encoded exactly once and in the order of issue: those encoded, those in
      the encoder's line and the one pending are copies 0, 1, 2, ... without a gap. At most one
      slot is pending, it holds the last copy issued, and was issued at the last capture time. */
  lemma EveryCopyIsEncodedInOrder(w: World, line: seq<int>)
    requires Reachable(w) && line == LineOf(w)
    ensures TwoSlots(w.pipe) && |w.blits| == |w.encoded| + |line| + Waits(w.pipe.slots)
    ensures forall k :: 0 <= k < |w.encoded| ==> w.encoded[k] == k
    ensures forall k :: 0 <= k < |line| ==> Pixels(w.pipe, line[k]) == |w.encoded| + k
    ensures !(w.pipe.slots[0].state.CopyPending? && w.pipe.slots[1].state.CopyPending?)
    ensures forall i :: 0 <= i < 2 && w.pipe.slots[i].state.CopyPending? ==>
              && w.pipe.slots[i].image.Some? && Pixels(w.pipe, i) == |w.blits| - 1 == |w.encoded| + |line|
              && w.pipe.slots[i].issuedAtMs == w.pipe.lastCaptureMs == Wrap32(w.blits[|w.blits| - 1].time)
  {
    ReachableKeepsInv(w);
    CopiesInOrder(w.pipe, line, Midway(w.hook), w.encoder, w.blits, w.encoded);
  }

  /** Two copies are never closer than the rate in force at the later one allows, measured on a
      clock that does not wrap, in whole milliseconds. */
  lemma RateIsCapped(w: World, k: nat)
    requires Reachable(w) && 0 < k < |w.blits|
    ensures var age, fps := w.blits[k].time - w.blits[k - 1].time, w.blits[k].fps;
            age >= 1 && (fps > 0 ==> (age + 1) * fps > 1000) && (fps <= 0 ==> age >= 50)
  {
    ReachableKeepsInv(w);
    IntervalIsThePace(w.blits[k].time - w.blits[k - 1].time, w.blits[k].fps);
  }

  /** And none is withheld: a scan-out that reaches its second half issues a copy exactly when the
      first free slot can take it and, in true time, the last copy is as old as the rate asks. (A
      last copy a whole wrap of the clock old passes for a younger one.) */
  lemma CopyIsIssuedIff(w: World, alloc: bool)
    requires Reachable(w) && w.hook.Issuing? && w.blits != []
    requires w.hook.call.time < w.blits[|w.blits| - 1].time + TWO32
    ensures Shape(w)
    ensures var w', call, p := HookNext(w, alloc), w.hook.call, w.pipe;
            var age := call.time - w.blits[|w.blits| - 1].time;
            var due := age >= 0 && (if call.fps > 0 then (age + 1) * call.fps > 1000 else age >= 50);
            var can := CanTake(p.slots[0], call.src, alloc)
                       || (!p.slots[0].state.Free? && CanTake(p.slots[1], call.src, alloc));
            if due && can
            then w'.blits == w.blits + [Blit(call.time, call.fps)] && Issued(p, Wrap32(call.time), call.src, w'.pipe)
            else w'.blits == w.blits
  {
    ReachableKeepsInv(w);
    var call := w.hook.call;
    SubOfWraps(call.time, w.blits[|w.blits| - 1].time);
    IssueIff(w.pipe, Wrap32(call.time), call.fps, call.src, alloc, HookNext(w, alloc).pipe);
  }

  lemma {:induction false} TimesGrow(blits: seq<Blit>, i: nat, j: nat)
    requires Spaced(blits) && i < j < |blits|
    ensures blits[i].time < blits[j].time
  {
    if i < j - 1 {
      TimesGrow(blits, i, j - 1);
    }
  }

  /** Whether a sent timestamp is the one of the frame's own copy. */
  predicate OwnTime(blits: seq<Blit>, s: Sent)
    requires s.copy < |blits|
  {
    s.timestampMs == Wrap32(blits[s.copy].time)
  }

  lemma OwnTimeIff(blits: seq<Blit>, s: Sent)
    requires Spaced(blits) && s.copy <= s.described && IssuedAt(blits, s.described, s.timestampMs)
    ensures blits[s.described].time - blits[s.copy].time < TWO32 ==>
              (OwnTime(blits, s) <==> s.described == s.copy)
  {
    if s.copy < s.described {
      TimesGrow(blits, s.copy, s.described);
      SubOfWraps(blits[s.described].time, blits[s.copy].time);
    }
  }

  lemma NoneAfterNow(blits: seq<Blit>, i: nat, clock: nat)
    requires Spaced(blits) && NotBefore(clock, blits) && i < |blits|
    ensures blits[i].time <= clock
  {
    if i < |blits| - 1 {
      TimesGrow(blits, i, |blits| - 1);
    }
  }

  /** The timestamp is looked up after the surface was given back, and without the mutex. The frame
      goes out with the time of its own copy exactly when, at the lookup, its slot has not been
      handed over again: the slot is neither in state ENCODING nor in the middle of its hand-off.
      (The one exception is an encoder that has held on to the frame for a whole wrap of the clock,
      and so might meet the same time again.) */
  lemma TimestampIsTheCopysOwnIff(w: World)
    requires Reachable(w) && w.encoder.Sending?
    ensures TwoSlots(w.pipe) && 0 <= w.encoder.index < 2 && w.encoder.copy < |w.blits|
    ensures EncoderNext(w, true).sent == w.sent + [Lookup(w)]
    ensures !Again(w) ==> OwnTime(w.blits, Lookup(w))
    ensures w.clock - w.blits[w.encoder.copy].time < TWO32 ==> (OwnTime(w.blits, Lookup(w)) <==> !Again(w))
  {
    ReachableKeepsInv(w);
    var s := Lookup(w);
    LookupLag(w, s);
    assert NotBefore(w.clock, w.blits);
    NoneAfterNow(w.blits, s.described, w.clock);
    OwnTimeIff(w.blits, s);
  }

  lemma OrderOfTimes(blits: seq<Blit>, i: nat, j: nat)
    requires Spaced(blits) && i < |blits| && j < |blits|
    ensures blits[i].time < blits[j].time <==> i < j
  {
    if i < j {
      TimesGrow(blits, i, j);
    } else if j < i {
      TimesGrow(blits, j, i);
    }
  }

  /** A frame goes out with an earlier time than the frame before it exactly when the frame before
      it met its slot being handed over again behind the other slot, and this one, of the very next
      copy, met its own slot left alone. */
  lemma TimesGoBackIff(w: World, k: nat)
    requires Reachable(w) && 0 < k < |w.sent|
    ensures w.sent[k].described < |w.blits| && w.sent[k - 1].described < |w.blits|
    ensures w.sent[k].timestampMs == Wrap32(w.blits[w.sent[k].described].time)
    ensures w.blits[w.sent[k].described].time < w.blits[w.sent[k - 1].described].time <==>
              w.sent[k - 1].again && w.sent[k - 1].behind && !w.sent[k].again
              && w.sent[k].copy == w.sent[k - 1].copy + 1
  {
    ReachableKeepsInv(w);
    var s, r := w.sent[k], w.sent[k - 1];
    OrderOfTimes(w.blits, s.described, r.described);
  }

  /** The world after one call of `onTvScanout` that the encoder does not interrupt. */
  function Scanned(w: World, elapsed: nat, fps: Fps, buffer: ColorBuffer, alloc: bool): World
    requires Shape(w)
  {
    var now := w.clock + elapsed;
    var p := Scanout(w.pipe, Wrap32(now), fps, buffer.surface, alloc);
    w.(pipe := p, clock := now,
       blits := if p.issued > w.pipe.issued then w.blits + [Blit(now, fps)] else w.blits)
  }

  /** One hand-off, in one step or in three. */
  lemma UninterruptedHandOff(w: World, i: nat, call: Call, w': World)
    requires Reachable(w) && TwoSlots(w.pipe) && i < 2 && w.hook == HandingOff(i, call)
    requires w' == w.(pipe := HandOff(w.pipe, i, Wrap32(call.time)), hook := Past(i, call))
    ensures Reachable(w')
  {
    var w1 := HookNext(w, true);
    NextIsReachable(w, HookStep(true), w1);
    if Due(w.pipe, i, Wrap32(call.time)) {
      var w2 := HookNext(w1, true);
      NextIsReachable(w1, HookStep(true), w2);
      NextIsReachable(w2, HookStep(true), w');
    }
  }

  lemma ScanoutAddsUp(w: World, elapsed: nat, fps: Fps, buffer: ColorBuffer, alloc: bool, call: Call, w': World)
    requires Shape(w) && w.hook.Outside? && call == Call(w.clock + elapsed, fps, buffer.surface)
    requires var p := HandOff(HandOff(w.pipe, 0, Wrap32(call.time)), 1, Wrap32(call.time));
             w' == w.(pipe := p, clock := call.time, hook := Issuing(call))
    ensures HookNext(w', alloc) == Scanned(w, elapsed, fps, buffer, alloc)
  {
  }

  /** The steps of the hook in the interleaved run add up to the call. */
  lemma UninterruptedScanout(w: World, elapsed: nat, fps: Fps, buffer: ColorBuffer, alloc: bool, w': World)
    requires Reachable(w) && Shape(w) && w.hook.Outside? && Eligible(true, true, Some(buffer))
    requires w' == Scanned(w, elapsed, fps, buffer, alloc)
    ensures Reachable(w')
  {
    var e := ScanoutStart(elapsed, fps, true, Some(buffer));
    var call := Call(w.clock + elapsed, fps, buffer.surface);
    var now := Wrap32(call.time);
    var w1 := w.(clock := call.time, hook := HandingOff(0, call));
    var w2 := w1.(pipe := HandOff(w.pipe, 0, now), hook := HandingOff(1, call));
    var w3 := w2.(pipe := HandOff(w2.pipe, 1, now), hook := Issuing(call));
    NextIsReachable(w, e, w1);
    UninterruptedHandOff(w1, 0, call, w2);
    UninterruptedHandOff(w2, 1, call, w3);
    ScanoutAddsUp(w, elapsed, fps, buffer, alloc, call, w3);
    NextIsReachable(w3, HookStep(alloc), w');
  }

  // ---------------------------------------------------------------- a run at 20 frames a second

  const SHOT := ColorBuffer(Surface(1280, 720, UnormRgba8), false)

  function Shot(state: SlotState, copy: nat, issuedAtMs: u32): Slot {
    Slot(state, Some(Image(SHOT.surface, Some(copy))), issuedAtMs)
  }

  function Shown(copy: nat, timestampMs: u32): Captured {
    Captured(true, SHOT.surface, timestampMs, copy)
  }

  /** A scan-out that finds nothing to hand over and slot `i` free. */
  lemma ScanFills(p: Pipeline, i: nat, now: u32, q: Pipeline)
    requires TwoSlots(p) && i < 2 && FirstFree(p.slots) == Some(i) && !p.slots[1 - i].state.CopyPending?
    requires p.slots[i].image.Some? ==> p.slots[i].image.value.surface == SHOT.surface
    requires Sub32(now, p.lastCaptureMs) >= 50
    requires q == p.(slots := p.slots[i := Shot(CopyPending, p.issued, now)], lastCaptureMs := now,
                     issued := p.issued + 1)
    ensures Scanout(p, now, 20, SHOT.surface, true) == q
  {
  }

  /** A scan-out that hands over slot `i` and is too early for the next copy. */
  lemma ScanHandsOver(p: Pipeline, i: nat, copy: nat, ms: u32, now: u32, q: Pipeline)
    requires TwoSlots(p) && i < 2 && p.slots[i] == Shot(CopyPending, copy, ms) && ms != now
    requires !p.slots[1 - i].state.CopyPending? && |p.queue| < QUEUE_SIZE && Sub32(now, p.lastCaptureMs) < 50
    requires q == p.(slots := p.slots[i := Shot(Encoding, copy, ms)],
                     captured := p.captured[i := Shown(copy, ms)], queue := p.queue + [i])
    ensures Scanout(p, now, 20, SHOT.surface, true) == q
  {
  }

  const UNUSED := Slot(Free, None, 0)
  const UNTOLD := Captured(false, Surface(0, 0, UnormRgba8), 0, 0)

  /** Copy 0 goes to slot 0, */
  const X1 := World(
    Pipeline([Shot(CopyPending, 0, 50), UNUSED], [UNTOLD, UNTOLD], 50, [], 1),
    Outside, Waiting, 50, [Blit(50, 20)], [], [])
  const X2 := World(
    Pipeline([Shot(Encoding, 0, 50), UNUSED], [Shown(0, 50), UNTOLD], 50, [0], 1),
    Outside, Waiting, 66, [Blit(50, 20)], [], [])
  const X3 := World(
    Pipeline([Shot(Encoding, 0, 50), UNUSED], [Shown(0, 50), UNTOLD], 50, [], 1),
    Outside, Reading(0), 66, [Blit(50, 20)], [], [])
  /** copy 1 to slot 1; */
  const X4 := World(
    Pipeline([Shot(Encoding, 0, 50), Shot(CopyPending, 1, 100)], [Shown(0, 50), UNTOLD], 100, [], 2),
    Outside, Reading(0), 100, [Blit(50, 20), Blit(100, 20)], [], [])
  const X5 := World(
    Pipeline([Shot(Encoding, 0, 50), Shot(Encoding, 1, 100)], [Shown(0, 50), Shown(1, 100)], 100, [1], 2),
    Outside, Reading(0), 116, [Blit(50, 20), Blit(100, 20)], [], [])
  /** the encoder gives slot 0 back, */
  const X6 := World(
    Pipeline([Shot(Free, 0, 50), Shot(Encoding, 1, 100)], [Shown(0, 50), Shown(1, 100)], 100, [1], 2),
    Outside, Sending(0, 0), 116, [Blit(50, 20), Blit(100, 20)], [0], [])
  /** copy 2 goes there */
  const X7 := World(
    Pipeline([Shot(CopyPending, 2, 166), Shot(Encoding, 1, 100)], [Shown(0, 50), Shown(1, 100)], 166, [1], 3),
    Outside, Sending(0, 0), 166, [Blit(50, 20), Blit(100, 20), Blit(166, 20)], [0], [])
  /** and is handed over behind copy 1, before the time of copy 0 is looked up. */
  const X8 := World(
    Pipeline([Shot(Encoding, 2, 166), Shot(Encoding, 1, 100)], [Shown(2, 166), Shown(1, 100)], 166, [1, 0], 3),
    Outside, Sending(0, 0), 182, [Blit(50, 20), Blit(100, 20), Blit(166, 20)], [0], [])
  const X9 := World(
    Pipeline([Shot(Encoding, 2, 166), Shot(Encoding, 1, 100)], [Shown(2, 166), Shown(1, 100)], 166, [1, 0], 3),
    Outside, Waiting, 182, [Blit(50, 20), Blit(100, 20), Blit(166, 20)], [0], [Sent(0, 2, 166, true, true)])
  const X10 := World(
    Pipeline([Shot(Encoding, 2, 166), Shot(Encoding, 1, 100)], [Shown(2, 166), Shown(1, 100)], 166, [0], 3),
    Outside, Reading(1), 182, [Blit(50, 20), Blit(100, 20), Blit(166, 20)], [0], [Sent(0, 2, 166, true, true)])
  const X11 := World(
    Pipeline([Shot(Encoding, 2, 166), Shot(Free, 1, 100)], [Shown(2, 166), Shown(1, 100)], 166, [0], 3),
    Outside, Sending(1, 1), 182, [Blit(50, 20), Blit(100, 20), Blit(166, 20)], [0, 1], [Sent(0, 2, 166, true, true)])
  const X12 := World(
    Pipeline([Shot(Encoding, 2, 166), Shot(Free, 1, 100)], [Shown(2, 166), Shown(1, 100)], 166, [0], 3),
    Outside, Waiting, 182, [Blit(50, 20), Blit(100, 20), Blit(166, 20)], [0, 1],
    [Sent(0, 2, 166, true, true), Sent(1, 1, 100, false, false)])

  /** From one scan-out of the run to the next. */
  lemma ScanIsReachable(w: World, elapsed: nat, q: Pipeline, w': World)
    requires Reachable(w) && TwoSlots(w.pipe) && w.hook.Outside?
    requires Scanout(w.pipe, Wrap32(w.clock + elapsed), 20, SHOT.surface, true) == q
    requires w' == w.(pipe := q, clock := w.clock + elapsed,
                      blits := if q.issued > w.pipe.issued then w.blits + [Blit(w.clock + elapsed, 20)] else w.blits)
    ensures Reachable(w')
  {
    assert Scanned(w, elapsed, 20, SHOT, true) == w';
    UninterruptedScanout(w, elapsed, 20, SHOT, true, w');
  }

  lemma EncoderIsReachable(w: World, w': World)
    requires Reachable(w) && TwoSlots(w.pipe) && w.hook.Outside? && w' == EncoderNext(w, true)
    ensures Reachable(w')
  {
    NextIsReachable(w, EncoderStep(true), w');
  }

  lemma CopyZeroPending()
    ensures Reachable(X1)
  {
    StartIsReachable();
    ScanFills(START.pipe, 0, 50, X1.pipe);
    ScanIsReachable(START, 50, X1.pipe, X1);
  }

  lemma CopyZero()
    ensures Reachable(X2)
  {
    CopyZeroPending();
    ScanHandsOver(X1.pipe, 0, 0, 50, 66, X2.pipe);
    ScanIsReachable(X1, 16, X2.pipe, X2);
  }

  lemma CopyOnePending()
    ensures Reachable(X4)
  {
    CopyZero();
    EncoderIsReachable(X2, X3);
    ScanFills(X3.pipe, 1, 100, X4.pipe);
    ScanIsReachable(X3, 34, X4.pipe, X4);
  }

  lemma CopyOne()
    ensures Reachable(X5)
  {
    CopyOnePending();
    ScanHandsOver(X4.pipe, 1, 1, 100, 116, X5.pipe);
    ScanIsReachable(X4, 16, X5.pipe, X5);
  }

  lemma SlotZeroBack()
    ensures Reachable(X6)
  {
    CopyOne();
    EncoderIsReachable(X5, X6);
  }

  lemma CopyTwoPending()
    ensures Reachable(X7)
  {
    SlotZeroBack();
    ScanFills(X6.pipe, 0, 166, X7.pipe);
    ScanIsReachable(X6, 50, X7.pipe, X7);
  }

  lemma LookupOvertaken()
    ensures Reachable(X9)
  {
    CopyTwoPending();
    ScanHandsOver(X7.pipe, 0, 2, 166, 182, X8.pipe);
    ScanIsReachable(X7, 16, X8.pipe, X8);
    EncoderIsReachable(X8, X9);
  }

  /** Overtaking does happen: the pixels of copy 0 go out with the time of copy 2, */
  lemma TimestampCanBeOvertaken()
    ensures exists w :: && Reachable(w) && w.sent == [Sent(0, 2, 166, true, true)]
                        && w.blits == [Blit(50, 20), Blit(100, 20), Blit(166, 20)]
  {
    LookupOvertaken();
  }

  /** and those of copy 1 after them with their own, so that time goes back. */
  lemma TimesCanGoBack()
    ensures exists w :: && Reachable(w) && w.sent == [Sent(0, 2, 166, true, true), Sent(1, 1, 100, false, false)]
                        && w.blits == [Blit(50, 20), Blit(100, 20), Blit(166, 20)]
  {
    LookupOvertaken();
    EncoderIsReachable(X9, X10);
    EncoderIsReachable(X10, X11);
    EncoderIsReachable(X11, X12);
  }

  /** The same can happen while the slot is still pending, between the two stores of a hand-off. */
  lemma LookupInsideHandOff()
    ensures exists w :: && Reachable(w) && TwoSlots(w.pipe) && w.encoder == Sending(0, 0)
                        && w.pipe.slots[0].state.CopyPending? && Lookup(w) == Sent(0, 2, 166, true, true)
  {
    CopyTwoPending();
    var w := Start(X7, ScanoutStart(16, 20, true, Some(SHOT)));
    NextIsReachable(X7, ScanoutStart(16, 20, true, Some(SHOT)), w);
    var w' := HookNext(w, true);
    NextIsReachable(w, HookStep(true), w');
    assert Lookup(w') == Sent(0, 2, 166, true, true);
  }
}
