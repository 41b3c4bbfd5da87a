/** What the frame assembler computes, as a state machine on values: a window of at most
    four partial frames, each a row of received or missing slices. FrameAssembler.dfy proves
    the buffer-and-counter implementation equal to this machine; the theorems about
    whole runs are stated here and in the modules above. */
module Reassembly {
  import opened Words
  import opened Wire
  import opened FrameIds

  const MAX_PENDING := 4

  /** A frame being collected; `chunks[i]` is slice `i` once it has arrived. */
  datatype Partial = Partial(id: u32, timestampMs: u32, flags: u8, chunks: seq<Option<Bytes>>)

  datatype Stats = Stats(slicesIn: nat, framesCompleted: nat, framesDropped: nat, bytesCompleted: nat)

  datatype AssembledFrame = AssembledFrame(frameId: u32, timestampMs: u32, flags: u8, data: Bytes)

  /** `newest` is the id of the frame delivered last, if any was. */
  datatype Window = Window(slots: seq<Option<Partial>>, newest: Option<u32>, stats: Stats)

  const EMPTY: Window := Window([None, None, None, None], None, Stats(0, 0, 0, 0))

  predicate Shaped(w: Window) {
    |w.slots| == MAX_PENDING
  }

  predicate Holds(slot: Option<Partial>, id: u32) {
    slot.Some? && slot.value.id == id
  }

  predicate Complete(p: Partial) {
    forall i :: 0 <= i < |p.chunks| ==> p.chunks[i].Some?
  }

  function Piece(c: Option<Bytes>): Bytes {
    match c
    case None => []
    case Some(b) => b
  }

  function Join(chunks: seq<Option<Bytes>>): Bytes {
    if chunks == [] then [] else Join(chunks[..|chunks| - 1]) + Piece(chunks[|chunks| - 1])
  }

  function FrameOf(p: Partial): AssembledFrame {
    AssembledFrame(p.id, p.timestampMs, p.flags, Join(p.chunks))
  }

  // ---------------------------------------------------------------- findOrAllocate

  /** The first slot from `i` on that holds `id`, or `|slots|`. */
  function FindFrom(slots: seq<Option<Partial>>, id: u32, i: nat): (k: nat)
    requires i <= |slots|
    ensures i <= k <= |slots|
    ensures k < |slots| ==> Holds(slots[k], id)
    ensures forall j :: i <= j < k ==> !Holds(slots[j], id)
    decreases |slots| - i
  {
    if i == |slots| || Holds(slots[i], id) then i else FindFrom(slots, id, i + 1)
  }

  /** The first free slot from `i` on, or `|slots|`. */
  function FreeFrom(slots: seq<Option<Partial>>, i: nat): (k: nat)
    requires i <= |slots|
    ensures i <= k <= |slots|
    ensures k < |slots| ==> slots[k].None?
    ensures forall j :: i <= j < k ==> slots[j].Some?
    decreases |slots| - i
  {
    if i == |slots| || slots[i].None? then i else FreeFrom(slots, i + 1)
  }

  /** The left-to-right scan for the oldest frame among the first `n` slots: a later slot
      replaces the candidate only if the candidate is newer than it. */
  function Oldest(slots: seq<Option<Partial>>, n: nat): (o: Option<nat>)
    requires n <= |slots|
    ensures o.Some? ==> o.value < n && slots[o.value].Some?
    ensures o.None? ==> forall j :: 0 <= j < n ==> slots[j].None?
  {
    if n == 0 then None
    else
      var o := Oldest(slots, n - 1);
      if slots[n - 1].Some? && (o.None? || IdNewer(slots[o.value].value.id, slots[n - 1].value.id))
      then Some(n - 1) else o
  }

  function Fresh(v: VideoHeader): Partial {
    Partial(v.frameId, v.timestampMs, v.flags, seq(v.sliceCount, _ => None))
  }

  /** Outcome of looking for the slot of a header. */
  datatype Claim = Refused | Found(slot: nat) | Opened(slot: nat, evicted: bool)

  function ClaimFor(w: Window, v: VideoHeader): (c: Claim)
    requires Shaped(w)
    ensures c.Found? ==> c.slot < MAX_PENDING && Holds(w.slots[c.slot], v.frameId)
    ensures c.Opened? ==> c.slot < MAX_PENDING && c.evicted == w.slots[c.slot].Some?
    ensures !c.Found? ==> forall j :: 0 <= j < MAX_PENDING ==> !Holds(w.slots[j], v.frameId)
  {
    var k := FindFrom(w.slots, v.frameId, 0);
    if k < MAX_PENDING then Found(k)
    else
      var free := FreeFrom(w.slots, 0);
      if free < MAX_PENDING then Opened(free, false)
      else
        var oldest := Oldest(w.slots, MAX_PENDING).value;
        if IdNewer(v.frameId, w.slots[oldest].value.id) then Opened(oldest, true) else Refused
  }

  /** The window after the claim. */
  function Claimed(w: Window, v: VideoHeader): (r: Window)
    requires Shaped(w)
    ensures Shaped(r)
  {
    match ClaimFor(w, v)
    case Opened(k, evicted) =>
      var s := w.stats.(framesDropped := w.stats.framesDropped + if evicted then 1 else 0);
      w.(slots := w.slots[k := Some(Fresh(v))], stats := s)
    case _ => w
  }

  // ---------------------------------------------------------------- deliver

  /** Slots still worth keeping once frame `id` has been delivered. */
  function Survivors(slots: seq<Option<Partial>>, id: u32): (r: seq<Option<Partial>>)
    ensures |r| == |slots|
    ensures forall j :: 0 <= j < |slots| ==>
              r[j] == if slots[j].Some? && IdNewer(slots[j].value.id, id) then slots[j] else None
  {
    seq(|slots|, j requires 0 <= j < |slots| =>
          if slots[j].Some? && IdNewer(slots[j].value.id, id) then slots[j] else None)
  }

  function InUse(slots: seq<Option<Partial>>): nat {
    if slots == [] then 0 else InUse(slots[..|slots| - 1]) + if slots[|slots| - 1].Some? then 1 else 0
  }

  /** How many of the slots delivering `id` abandons. */
  function Abandoned(slots: seq<Option<Partial>>, id: u32): nat {
    if slots == [] then 0
    else
      var last := slots[|slots| - 1];
      Abandoned(slots[..|slots| - 1], id) + if last.Some? && !IdNewer(last.value.id, id) then 1 else 0
  }

  /** Delivery of slot `k`: everything not newer is abandoned. */
  function Delivered(w: Window, k: nat): (r: Window)
    requires Shaped(w) && k < MAX_PENDING && w.slots[k].Some?
    ensures Shaped(r)
  {
    var p := w.slots[k].value;
    var rest := w.slots[k := None];
    Window(Survivors(rest, p.id), Some(p.id),
           w.stats.(framesCompleted := w.stats.framesCompleted + 1,
                    framesDropped := w.stats.framesDropped + Abandoned(rest, p.id),
                    bytesCompleted := w.stats.bytesCompleted + |Join(p.chunks)|))
  }

  // ---------------------------------------------------------------- feed

  predicate Stale(w: Window, id: u32) {
    w.newest.Some? && !IdNewer(id, w.newest.value)
  }

  /** Store a slice that is neither out of range nor a duplicate. */
  function Stored(p: Partial, i: nat, payload: Bytes): Partial {
    if i < |p.chunks| && p.chunks[i].None? then p.(chunks := p.chunks[i := Some(payload)]) else p
  }

  /** A slice stored in entry `k`, and the frame it completes, if any. */
  function StoredIn(w: Window, k: nat, i: nat, payload: Bytes): (r: (Window, Option<AssembledFrame>))
    requires Shaped(w) && k < MAX_PENDING && w.slots[k].Some?
    ensures Shaped(r.0)
  {
    var p := w.slots[k].value;
    var p' := Stored(p, i, payload);
    var w' := w.(slots := w.slots[k := Some(p')]);
    if p' != p && Complete(p') then (Delivered(w', k), Some(FrameOf(p'))) else (w', None)
  }

  /** What a slice that is not stale does. */
  function Admitted(w: Window, v: VideoHeader, payload: Bytes): (r: (Window, Option<AssembledFrame>))
    requires Shaped(w)
    ensures Shaped(r.0)
  {
    var c := ClaimFor(w, v);
    if c.Refused? then (Claimed(w, v), None) else StoredIn(Claimed(w, v), c.slot, v.sliceIndex, payload)
  }

  function Feed(w: Window, v: VideoHeader, payload: Bytes): (r: (Window, Option<AssembledFrame>))
    requires Shaped(w)
    ensures Shaped(r.0)
  {
    var w := w.(stats := w.stats.(slicesIn := w.stats.slicesIn + 1));
    if Stale(w, v.frameId) then (w, None) else Admitted(w, v, payload)
  }
}
