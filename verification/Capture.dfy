/** The two capture surfaces, the hook that fills them on every TV scan-out, and the queue that
    hands them to the encoder thread. */
module Capture {
  import opened Words

  const QUEUE_SIZE := 4

  datatype Format = UnormRgba8 | SrgbRgba8 | OtherFormat(code: u32)
  datatype Surface = Surface(width: u32, height: u32, format: Format)
  datatype ColorBuffer = ColorBuffer(surface: Surface, multisampled: bool)

  /** Memory of a capture surface. `copy` is the number of the GPU copy that filled it. */
  datatype Image = Image(surface: Surface, copy: Option<nat>)

  datatype SlotState = Free | CopyPending | Encoding
  datatype Slot = Slot(state: SlotState, image: Option<Image>, issuedAtMs: u32)

  /** `CapturedSurface`: what the encoder is told about a slot. `pixels` is whether the pointer
      is set, `copy` the copy that was in the image when the slot was handed over. */
  datatype Captured = Captured(pixels: bool, surface: Surface, timestampMs: u32, copy: nat)

  /** Frame rates the settings allow are 5 to 30; nothing here needs more than this bound. */
  type Fps = f: int | f <= 1000

  function Interval(fps: Fps): (r: nat)
    ensures r >= 1
  {
    if fps > 0 then 1000 / fps else 50
  }

  /** A copy `age` milliseconds after the last one keeps to `fps` copies a second, counted in whole
      milliseconds; a rate that is not positive stands for one copy every 50 ms. */
  predicate Paced(age: nat, fps: Fps) {
    if fps > 0 then (age + 1) * fps > 1000 else age >= 50
  }

  /** The interval is the least age that keeps to the rate. */
  lemma IntervalIsThePace(age: nat, fps: Fps)
    ensures age >= Interval(fps) <==> Paced(age, fps)
    ensures fps > 0 ==> fps * Interval(fps) <= 1000 < fps * (Interval(fps) + 1)
    ensures fps <= 0 ==> Interval(fps) == 50
  {
    if fps > 0 {
      var q := 1000 / fps;
      assert 1000 == fps * q + 1000 % fps;
      if age >= q {
        ProductsGrow(fps, q + 1, age + 1);
      } else {
        ProductsGrow(fps, age + 1, q);
      }
    }
  }

  lemma ProductsGrow(f: nat, a: nat, b: nat)
    requires a <= b
    ensures f * a <= f * b && f * a == a * f && f * b == b * f
  {
    assert f * b == f * a + f * (b - a);
  }

  /** State under the capture mutex and in the message queue, and the number of copies issued. */
  datatype Pipeline = Pipeline(
    slots: seq<Slot>, captured: seq<Captured>, lastCaptureMs: u32, queue: seq<int>, issued: nat)

  predicate TwoSlots(p: Pipeline) {
    |p.slots| == 2 == |p.captured|
  }

  function Release(p: Pipeline, i: int): (r: Pipeline)
    requires TwoSlots(p)
    ensures TwoSlots(r)
  {
    if 0 <= i < 2 then p.(slots := p.slots[i := p.slots[i].(state := Free)]) else p
  }

  /** `encoderSubmit`: a full queue skips the frame. */
  function Submit(p: Pipeline, i: int): (r: Pipeline)
    requires TwoSlots(p)
    ensures TwoSlots(r)
  {
    if |p.queue| < QUEUE_SIZE then p.(queue := p.queue + [i]) else Release(p, i)
  }

  function Describe(slot: Slot): Captured {
    match slot.image
    case Some(image) =>
      Captured(true, image.surface, slot.issuedAtMs, if image.copy.Some? then image.copy.value else 0)
    case None => Captured(false, Surface(0, 0, UnormRgba8), slot.issuedAtMs, 0)
  }

  /** A copy of an earlier millisecond is due for the encoder. */
  predicate Due(p: Pipeline, i: nat, now: u32)
    requires TwoSlots(p) && i < 2
  {
    p.slots[i].state.CopyPending? && p.slots[i].issuedAtMs != now
  }

  /** The description the encoder will read, */
  function Described(p: Pipeline, i: nat): (r: Pipeline)
    requires TwoSlots(p) && i < 2
    ensures TwoSlots(r)
  {
    p.(captured := p.captured[i := Describe(p.slots[i])])
  }

  /** then the state. */
  function Marked(p: Pipeline, i: nat): (r: Pipeline)
    requires TwoSlots(p) && i < 2
    ensures TwoSlots(r)
  {
    p.(slots := p.slots[i := p.slots[i].(state := Encoding)])
  }

  /** First step of a scan-out, for one slot. */
  function HandOff(p: Pipeline, i: nat, now: u32): (r: Pipeline)
    requires TwoSlots(p) && i < 2
    ensures TwoSlots(r)
  {
    if Due(p, i, now) then Submit(Marked(Described(p, i), i), i) else p
  }

  /** `prepareSlot`: the image kept when it fits, otherwise the outcome of a new allocation. */
  function Prepared(slot: Slot, src: Surface, alloc: bool): Option<Image> {
    if slot.image.Some? && slot.image.value.surface == src then slot.image
    else if alloc then Some(Image(src, None))
    else None
  }

  function FirstFree(slots: seq<Slot>): (r: Option<nat>)
    requires |slots| == 2
    ensures r.Some? ==> r.value < 2 && slots[r.value].state.Free? && (r.value == 1 ==> !slots[0].state.Free?)
    ensures r.None? ==> !slots[0].state.Free? && !slots[1].state.Free?
  {
    if slots[0].state.Free? then Some(0) else if slots[1].state.Free? then Some(1) else None
  }

  /** A copy into a prepared slot. */
  function Copied(p: Pipeline, i: nat, image: Image, now: u32): (r: Pipeline)
    requires TwoSlots(p) && i < 2
    ensures TwoSlots(r)
  {
    p.(slots := p.slots[i := Slot(CopyPending, Some(image.(copy := Some(p.issued))), now)],
       lastCaptureMs := now, issued := p.issued + 1)
  }

  /** Second step of a scan-out: the rate cap and the next copy. */
  function Issue(p: Pipeline, now: u32, interval: nat, src: Surface, alloc: bool): (r: Pipeline)
    requires TwoSlots(p)
    ensures TwoSlots(r)
  {
    if Sub32(now, p.lastCaptureMs) < interval || FirstFree(p.slots).None? then p
    else
      var i := FirstFree(p.slots).value;
      match Prepared(p.slots[i], src, alloc)
      case None => p.(slots := p.slots[i := p.slots[i].(image := None)])
      case Some(image) => Copied(p, i, image, now)
  }

  predicate Eligible(initialized: bool, hostActive: bool, buffer: Option<ColorBuffer>) {
    initialized && buffer.Some? && hostActive && !buffer.value.multisampled &&
    !buffer.value.surface.format.OtherFormat?
  }

  /** A whole scan-out. */
  function Scanout(p: Pipeline, now: u32, fps: Fps, src: Surface, alloc: bool): (r: Pipeline)
    requires TwoSlots(p)
    ensures TwoSlots(r)
  {
    Issue(HandOff(HandOff(p, 0, now), 1, now), now, Interval(fps), src, alloc)
  }

  /** The slot can take a copy of `src`: it is free, and its image has the size and format of `src`
      or there is memory for a new one. */
  predicate CanTake(slot: Slot, src: Surface, alloc: bool) {
    slot.state.Free? && (alloc || (slot.image.Some? && slot.image.value.surface == src))
  }

  /** The age of the last copy keeps to the rate, and the first free slot can take the next one. */
  predicate Issues(p: Pipeline, now: u32, fps: Fps, src: Surface, alloc: bool)
    requires TwoSlots(p)
  {
    && Paced(Sub32(now, p.lastCaptureMs), fps)
    && (CanTake(p.slots[0], src, alloc) || (!p.slots[0].state.Free? && CanTake(p.slots[1], src, alloc)))
  }

  /** Copy number `p.issued`, of the source's size and format, waits in the first free slot. */
  predicate Issued(p: Pipeline, now: u32, src: Surface, q: Pipeline)
    requires TwoSlots(p) && TwoSlots(q)
  {
    && q.issued == p.issued + 1 && q.lastCaptureMs == now
    && q.slots[if p.slots[0].state.Free? then 0 else 1] == Slot(CopyPending, Some(Image(src, Some(p.issued))), now)
  }

  lemma IssueIff(p: Pipeline, now: u32, fps: Fps, src: Surface, alloc: bool, q: Pipeline)
    requires TwoSlots(p) && q == Issue(p, now, Interval(fps), src, alloc)
    ensures if Issues(p, now, fps, src, alloc) then Issued(p, now, src, q)
            else q.issued == p.issued && q.lastCaptureMs == p.lastCaptureMs
    ensures q.queue == p.queue && q.captured == p.captured
    ensures forall i :: 0 <= i < 2 && !p.slots[i].state.Free? ==> q.slots[i] == p.slots[i]
  {
    IntervalIsThePace(Sub32(now, p.lastCaptureMs), fps);
  }

  /** The encoder is told of the copy in the slot: its pixels, size, format and time. */
  predicate HandedOver(slot: Slot, slot': Slot, c: Captured) {
    && slot' == slot.(state := Encoding) && c.timestampMs == slot.issuedAtMs
    && c.pixels == slot.image.Some?
    && (slot.image.Some? ==> c.surface == slot.image.value.surface)
    && (slot.image.Some? && slot.image.value.copy.Some? ==> c.copy == slot.image.value.copy.value)
  }

  /** What one turn of the first loop leaves behind while the queue has room. */
  predicate TurnDone(p: Pipeline, i: nat, now: u32, q: Pipeline)
    requires TwoSlots(p) && TwoSlots(q) && i < 2
  {
    var due := p.slots[i].state.CopyPending? && p.slots[i].issuedAtMs != now;
    && q.queue == (if due then p.queue + [i] else p.queue)
    && (if due then HandedOver(p.slots[i], q.slots[i], q.captured[i])
        else q.slots[i] == p.slots[i] && q.captured[i] == p.captured[i])
    && q.slots[1 - i] == p.slots[1 - i] && q.captured[1 - i] == p.captured[1 - i]
    && q.issued == p.issued && q.lastCaptureMs == p.lastCaptureMs
  }

  lemma HandOffDone(p: Pipeline, i: nat, now: u32)
    requires TwoSlots(p) && i < 2 && |p.queue| < QUEUE_SIZE
    ensures TurnDone(p, i, now, HandOff(p, i, now))
  {
  }

  /** A whole scan-out, slot by slot: every copy pending from an earlier millisecond goes to the
      encoder, slot 0 before slot 1; and the next copy is issued exactly when the rate allows it and
      the first free slot can take it. */
  lemma ScanoutOutcome(p: Pipeline, now: u32, fps: Fps, src: Surface, alloc: bool, q: Pipeline)
    requires TwoSlots(p) && |p.queue| + 2 <= QUEUE_SIZE && q == Scanout(p, now, fps, src, alloc)
    ensures if Issues(p, now, fps, src, alloc) then Issued(p, now, src, q)
            else q.issued == p.issued && q.lastCaptureMs == p.lastCaptureMs
    ensures q.queue == p.queue + (if Due(p, 0, now) then [0] else []) + (if Due(p, 1, now) then [1] else [])
    ensures forall i :: 0 <= i < 2 ==>
              (Due(p, i, now) ==> HandedOver(p.slots[i], q.slots[i], q.captured[i]))
              && (!Due(p, i, now) ==> q.captured[i] == p.captured[i])
              && (!Due(p, i, now) && !p.slots[i].state.Free? ==> q.slots[i] == p.slots[i])
  {
    var p1 := HandOff(p, 0, now);
    var p2 := HandOff(p1, 1, now);
    HandOffDone(p, 0, now);
    HandOffDone(p1, 1, now);
    IssueIff(p2, now, fps, src, alloc, q);
    forall i | 0 <= i < 2
      ensures Due(p, i, now) ==> HandedOver(p.slots[i], q.slots[i], q.captured[i])
      ensures !Due(p, i, now) ==> q.captured[i] == p.captured[i]
      ensures !Due(p, i, now) && !p.slots[i].state.Free? ==> q.slots[i] == p.slots[i]
    {
      assert i == 0 || i == 1;
    }
  }

  class Recorder {
    const slots: array<Slot>
    const captured: array<Captured>
    var lastCaptureMs: u32
    var initialized: bool
    var formatWarned: bool
    var queue: seq<int>
    var issued: nat

    ghost predicate Valid()
      reads this
    {
      slots.Length == 2 == captured.Length
    }

    ghost function View(): (r: Pipeline)
      requires Valid()
      reads this, slots, captured
      ensures TwoSlots(r)
    {
      Pipeline(slots[..], captured[..], lastCaptureMs, queue, issued)
    }

    constructor ()
      ensures Valid() && initialized && fresh(slots) && fresh(captured)
      ensures View() == Pipeline(seq(2, _ => Slot(Free, None, 0)),
                                 seq(2, _ => Captured(false, Surface(0, 0, UnormRgba8), 0, 0)), 0, [], 0)
    {
      slots := new Slot[2](_ => Slot(Free, None, 0));
      captured := new Captured[2](_ => Captured(false, Surface(0, 0, UnormRgba8), 0, 0));
      lastCaptureMs, initialized, formatWarned, queue, issued := 0, true, false, [], 0;
    }

    method CaptureRelease(i: int)
      requires Valid()
      modifies slots
      ensures View() == Release(old(View()), i)
      ensures forall j :: 0 <= j < 2 ==> slots[j] == if j == i then old(slots[j]).(state := Free) else old(slots[j])
    {
      if i < 0 || i > 1 {
        return;
      }
      slots[i] := slots[i].(state := Free);
    }

    method EncoderSubmit(i: int)
      requires Valid()
      modifies this`queue, slots
      ensures View() == Submit(old(View()), i)
      ensures |old(queue)| < 4 ==> queue == old(queue) + [i] && slots[..] == old(slots[..])
      ensures |old(queue)| >= 4 ==>
                queue == old(queue)
                && forall j :: 0 <= j < 2 ==>
                     slots[j] == if j == i then old(slots[j]).(state := Free) else old(slots[j])
    {
      if |queue| < QUEUE_SIZE {
        queue := queue + [i];
      } else {
        CaptureRelease(i);
      }
    }

    /** The body of the first loop. */
    method HandOffSlot(i: nat, now: u32)
      requires Valid() && i < 2
      modifies this`queue, slots, captured
      ensures View() == HandOff(old(View()), i, now)
    {
      var slot := slots[i];
      if slot.state.CopyPending? && slot.issuedAtMs != now {
        captured[i] := Describe(slot);
        slots[i] := slot.(state := Encoding);
        EncoderSubmit(i);
      }
    }

    method PrepareSlot(i: nat, src: Surface, alloc: bool) returns (ok: bool)
      requires Valid() && i < 2 && slots[i].state.Free?
      modifies slots
      ensures ok <==> Prepared(old(slots[i]), src, alloc).Some?
      ensures slots[..] == old(slots[..])[i := old(slots[i]).(image := Prepared(old(slots[i]), src, alloc))]
    {
      if slots[i].image.Some? && slots[i].image.value.surface == src {
        return true;
      }
      slots[i] := slots[i].(image := None, state := Free);
      if !alloc {
        return false;
      }
      slots[i] := slots[i].(image := Some(Image(src, None)));
      return true;
    }

    /** The search for a free slot and the copy into it. */
    method IssueCopy(now: u32, interval: nat, src: Surface, alloc: bool)
      requires Valid()
      modifies this`lastCaptureMs, this`issued, slots
      ensures View() == Issue(old(View()), now, interval, src, alloc)
    {
      if Sub32(now, lastCaptureMs) < interval {
        return;
      }
      for i := 0 to 2
        invariant View() == old(View())
        invariant forall j :: 0 <= j < i ==> !slots[j].state.Free?
      {
        if !slots[i].state.Free? {
          continue;
        }
        var ok := PrepareSlot(i, src, alloc);
        if ok {
          slots[i] := Slot(CopyPending, Some(slots[i].image.value.(copy := Some(issued))), now);
          lastCaptureMs, issued := now, issued + 1;
        }
        return;
      }
    }

    /** `onTvScanout`. `alloc` is whether the heap can serve a new surface. */
    method OnTvScanout(buffer: Option<ColorBuffer>, hostActive: bool, now: u32, fps: Fps, alloc: bool)
      requires Valid()
      modifies this`lastCaptureMs, this`issued, this`queue, this`formatWarned, slots, captured
      ensures View() == if Eligible(initialized, hostActive, buffer)
                        then Scanout(old(View()), now, fps, buffer.value.surface, alloc) else old(View())
      ensures var taken := initialized && hostActive && buffer.Some? && !buffer.value.multisampled
                           && !buffer.value.surface.format.OtherFormat?;
              && (!taken ==> View() == old(View()))
              && (taken && |old(queue)| + 2 <= QUEUE_SIZE ==>
                    if Issues(old(View()), now, fps, buffer.value.surface, alloc)
                    then Issued(old(View()), now, buffer.value.surface, View())
                    else issued == old(issued) && lastCaptureMs == old(lastCaptureMs))
      ensures formatWarned == (old(formatWarned) ||
                (initialized && hostActive && buffer.Some? && !buffer.value.multisampled
                 && buffer.value.surface.format.OtherFormat?))
    {
      if !initialized || buffer.None? || !hostActive || buffer.value.multisampled {
        return;
      }
      var src := buffer.value.surface;
      if src.format.OtherFormat? {
        formatWarned := true;
        return;
      }
      ghost var p := View();
      for i := 0 to 2
        modifies this`queue, slots, captured
        invariant View() == if i == 0 then p else if i == 1 then HandOff(p, 0, now)
                            else HandOff(HandOff(p, 0, now), 1, now)
      {
        HandOffSlot(i, now);
      }
      IssueCopy(now, Interval(fps), src, alloc);
      if |p.queue| + 2 <= QUEUE_SIZE {
        ScanoutOutcome(p, now, fps, src, alloc, View());
      }
    }
  }
}
