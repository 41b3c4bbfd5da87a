/** The frame assembler as written: four reusable slots with raw buffers, flags, lengths and
    a counter, updated in place. Every method is proved equal to the machine of Reassembly. */
module FrameAssembler {
  import opened Words
  import opened Wire
  import opened FrameIds
  import opened Reassembly

  function CountTrue(flags: seq<bool>): nat {
    if flags == [] then 0 else CountTrue(flags[..|flags| - 1]) + if flags[|flags| - 1] then 1 else 0
  }

  lemma {:induction false} CountTrueUpdate(flags: seq<bool>, i: nat)
    requires i < |flags| && !flags[i]
    ensures CountTrue(flags[i := true]) == CountTrue(flags) + 1
  {
    var n := |flags| - 1;
    if i < n {
      CountTrueUpdate(flags[..n], i);
      assert flags[i := true][..n] == flags[..n][i := true];
    } else {
      assert flags[i := true][..n] == flags[..n];
    }
  }

  /** The counter reaches the slice count exactly when no flag is missing. */
  lemma {:induction false} CountTrueFull(flags: seq<bool>)
    ensures CountTrue(flags) <= |flags|
    ensures CountTrue(flags) == |flags| <==> forall i :: 0 <= i < |flags| ==> flags[i]
  {
    if flags != [] {
      var n := |flags| - 1;
      CountTrueFull(flags[..n]);
      assert forall i :: 0 <= i < n ==> flags[..n][i] == flags[i];
    }
  }

  lemma {:induction false} CountTrueNone(n: nat)
    ensures CountTrue(seq(n, _ => false)) == 0
  {
    if n > 0 {
      CountTrueNone(n - 1);
      assert seq(n, _ => false)[..n - 1] == seq(n - 1, _ => false);
    }
  }

  /** `FrameAssembler::Pending`, a struct that lives inside the assembler's array: `data` has
      room for `sliceCount` full slices, slice `i` starting at byte `1200 * i`. */
  datatype Pending = Pending(
    inUse: bool, frameId: u32, timestampMs: u32, flags: u8, sliceCount: u16, slicesHave: u16,
    haveSlice: seq<bool>, data: Bytes, sliceLen: seq<u16>)

  const UNUSED := Pending(false, 0, 0, 0, 0, 0, [], [], [])

  predicate ValidSlot(p: Pending) {
    && |p.haveSlice| == |p.sliceLen| == p.sliceCount
    && |p.data| == p.sliceCount * 1200
    && p.slicesHave == CountTrue(p.haveSlice)
    && forall i :: 0 <= i < p.sliceCount ==> p.sliceLen[i] <= 1200
  }

  /** Slice `i` as it lies in the buffer. */
  function ChunkAt(p: Pending, i: nat): Option<Bytes>
    requires ValidSlot(p) && i < p.sliceCount
  {
    if p.haveSlice[i] then Some(p.data[i * 1200..i * 1200 + p.sliceLen[i]]) else None
  }

  function Chunks(p: Pending, n: nat): (r: seq<Option<Bytes>>)
    requires ValidSlot(p) && n <= p.sliceCount
    ensures |r| == n && forall i :: 0 <= i < n ==> r[i] == ChunkAt(p, i)
  {
    seq(n, i requires 0 <= i < n => ChunkAt(p, i))
  }

  /** What a slot's buffers mean. */
  function Abstract(p: Pending): Option<Partial>
    requires ValidSlot(p)
  {
    if p.inUse then Some(Partial(p.frameId, p.timestampMs, p.flags, Chunks(p, p.sliceCount))) else None
  }

  /** The initialisation at the end of `findOrAllocate`. */
  function Reset(v: VideoHeader): (p: Pending)
    ensures ValidSlot(p) && Abstract(p) == Some(Fresh(v))
  {
    CountTrueNone(v.sliceCount);
    var p := Pending(true, v.frameId, v.timestampMs, v.flags, v.sliceCount, 0,
                     seq(v.sliceCount, _ => false), seq(v.sliceCount * 1200, _ => 0),
                     seq(v.sliceCount, _ => 0));
    assert Chunks(p, p.sliceCount) == Fresh(v).chunks;
    p
  }

  /** `memcpy` of the payload to its place in the buffer. */
  function Overwrite(data: Bytes, at: nat, payload: Bytes): (r: Bytes)
    requires at + |payload| <= |data|
    ensures |r| == |data|
    ensures forall lo, hi {:trigger r[lo..hi]} ::
              0 <= lo <= hi <= at || at + |payload| <= lo <= hi <= |data| ==> r[lo..hi] == data[lo..hi]
    ensures r[at..at + |payload|] == payload
  {
    data[..at] + payload + data[at + |payload|..]
  }

  /** The state of a slot after `feed` has stored slice `i`. */
  function WithSlice(p: Pending, i: u16, payload: Bytes): (q: Pending)
    requires ValidSlot(p) && p.inUse && i < p.sliceCount && !p.haveSlice[i]
    requires |payload| <= MAX_SLICE_PAYLOAD
    ensures ValidSlot(q) && q.inUse
    ensures Abstract(q) == Some(Stored(Abstract(p).value, i, payload))
  {
    CountTrueFull(p.haveSlice[i := true]);
    CountTrueUpdate(p.haveSlice, i);
    var q := p.(data := Overwrite(p.data, i * 1200, payload), sliceLen := p.sliceLen[i := |payload|],
                haveSlice := p.haveSlice[i := true], slicesHave := p.slicesHave + 1);
    assert Chunks(q, q.sliceCount) == Chunks(p, p.sliceCount)[i := Some(payload)] by {
      forall j | 0 <= j < p.sliceCount && j != i
        ensures ChunkAt(q, j) == ChunkAt(p, j)
      {
        var lo, hi := j * 1200, j * 1200 + p.sliceLen[j];
        assert q.data[lo..hi] == p.data[lo..hi];
      }
    }
    q
  }

  /** The slice counter equals the slice count exactly when the frame is complete. */
  lemma CounterTellsCompletion(p: Pending)
    requires ValidSlot(p) && p.inUse
    ensures p.slicesHave == p.sliceCount <==> Complete(Abstract(p).value)
  {
    CountTrueFull(p.haveSlice);
    var c := Abstract(p).value.chunks;
    assert forall i :: 0 <= i < p.sliceCount ==> (c[i].Some? <==> p.haveSlice[i]);
  }

  lemma JoinNext(p: Pending, i: nat)
    requires ValidSlot(p) && i < p.sliceCount && p.haveSlice[i]
    ensures Join(Chunks(p, i + 1)) == Join(Chunks(p, i)) + p.data[i * 1200..i * 1200 + p.sliceLen[i]]
  {
    var chunks := Chunks(p, i + 1);
    assert chunks[..i] == Chunks(p, i) && chunks[i] == ChunkAt(p, i);
    assert Join(chunks) == Join(chunks[..i]) + Piece(chunks[i]);
  }

  /** The copy loop of `deliver`: the slices back to back. */
  method Assemble(p: Pending) returns (frame: AssembledFrame)
    requires ValidSlot(p) && p.inUse && p.slicesHave == p.sliceCount
    ensures frame == FrameOf(Abstract(p).value)
  {
    CountTrueFull(p.haveSlice);
    var bytes: Bytes := [];
    for i := 0 to p.sliceCount
      invariant bytes == Join(Chunks(p, i))
    {
      JoinNext(p, i);
      bytes := bytes + p.data[i * 1200..i * 1200 + p.sliceLen[i]];
    }
    frame := AssembledFrame(p.frameId, p.timestampMs, p.flags, bytes);
  }

  function AbstractAll(ps: seq<Pending>): (r: seq<Option<Partial>>)
    requires forall i :: 0 <= i < |ps| ==> ValidSlot(ps[i])
    ensures |r| == |ps| && forall i :: 0 <= i < |ps| ==> r[i] == Abstract(ps[i])
  {
    seq(|ps|, i requires 0 <= i < |ps| => Abstract(ps[i]))
  }

  /** One step of the abandonment loop, on values. */
  lemma AbandonStep(rest: seq<Option<Partial>>, i: nat, id: u32)
    requires i < |rest|
    ensures var kept := Survivors(rest, id);
            var mid := kept[..i] + rest[i..];
            && mid[i] == rest[i]
            && mid[i := Survivors(mid, id)[i]] == kept[..i + 1] + rest[i + 1..]
            && Abandoned(rest[..i + 1], id) == Abandoned(rest[..i], id) + Abandoned([rest[i]], id)
  {
    assert rest[..i + 1][..i] == rest[..i];
    assert Abandoned([], id) == 0 && [rest[i]][..0] == [];
  }

  class Assembler {
    const pending: array<Pending>
    var newestDelivered: u32
    var anyDelivered: bool
    var stats: Stats

    ghost predicate Valid()
      reads this, pending
    {
      && pending.Length == MAX_PENDING
      && forall i :: 0 <= i < MAX_PENDING ==> ValidSlot(pending[i])
    }

    ghost function Slots(): (r: seq<Option<Partial>>)
      requires Valid()
      reads this, pending
      ensures |r| == MAX_PENDING
    {
      AbstractAll(pending[..])
    }

    ghost function View(): Window
      requires Valid()
      reads this, pending
    {
      Window(Slots(), if anyDelivered then Some(newestDelivered) else None, stats)
    }

    constructor ()
      ensures Valid() && fresh(pending) && View() == EMPTY
    {
      pending := new Pending[4](_ => UNUSED);
      newestDelivered, anyDelivered, stats := 0, false, Stats(0, 0, 0, 0);
      new;
      assert Slots() == [None, None, None, None];
    }

    /** Replaces slot `k`. */
    method SetSlot(k: nat, p: Pending)
      requires Valid() && k < MAX_PENDING && ValidSlot(p)
      modifies pending
      ensures Valid() && pending[k] == p
      ensures Slots() == old(Slots())[k := Abstract(p)]
    {
      pending[k] := p;
      assert Slots() == old(Slots())[k := Abstract(p)];
    }

    /** The scan of `findOrAllocate`: a match, or else the first free slot and the oldest frame. */
    method Scan(id: u32) returns (found: Option<nat>, freeSlot: Option<nat>, oldest: Option<nat>)
      requires Valid()
      ensures var k := FindFrom(Slots(), id, 0); found == if k < MAX_PENDING then Some(k) else None
      ensures found.None? ==>
                var k := FreeFrom(Slots(), 0); freeSlot == if k < MAX_PENDING then Some(k) else None
      ensures found.None? ==> oldest == Oldest(Slots(), MAX_PENDING)
    {
      ghost var slots := Slots();
      freeSlot, oldest := None, None;
      for i := 0 to MAX_PENDING
        invariant FindFrom(slots, id, 0) == FindFrom(slots, id, i)
        invariant freeSlot.None? ==> FreeFrom(slots, 0) == FreeFrom(slots, i)
        invariant freeSlot.Some? ==> freeSlot.value == FreeFrom(slots, 0) < i
        invariant oldest == Oldest(slots, i)
      {
        var p := pending[i];
        assert Abstract(p) == slots[i];
        if p.inUse && p.frameId == id {
          return Some(i), None, None;
        }
        if !p.inUse && freeSlot.None? {
          freeSlot := Some(i);
        }
        if p.inUse {
          assert oldest.Some? ==> slots[oldest.value] == Abstract(pending[oldest.value]);
          if oldest.None? || IdNewer(pending[oldest.value].frameId, p.frameId) {
            oldest := Some(i);
          }
        }
      }
      found := None;
    }

    /** `findOrAllocate`. */
    method FindOrAllocate(v: VideoHeader) returns (slot: Option<nat>)
      requires Valid()
      modifies this, pending
      ensures Valid() && View() == Claimed(old(View()), v)
      ensures var c := ClaimFor(old(View()), v);
              slot == if c.Refused? then None else Some(c.slot)
    {
      var found, freeSlot, oldest := Scan(v.frameId);
      if found.Some? {
        return found;
      }
      if freeSlot.Some? {
        slot := freeSlot;
      } else {
        assert Slots()[oldest.value] == Abstract(pending[oldest.value]);
        if !IdNewer(v.frameId, pending[oldest.value].frameId) {
          return None;
        }
        stats := stats.(framesDropped := stats.framesDropped + 1);
        slot := oldest;
      }
      SetSlot(slot.value, Reset(v));
    }

    /** One step of the abandonment loop of `deliver`. */
    method AbandonIfOlder(i: nat)
      requires Valid() && i < MAX_PENDING
      modifies this, pending
      ensures Valid() && newestDelivered == old(newestDelivered) && anyDelivered == old(anyDelivered)
      ensures Slots() == old(Slots())[i := Survivors(old(Slots()), newestDelivered)[i]]
      ensures stats == old(stats).(framesDropped := old(stats).framesDropped
                                   + Abandoned([old(Slots())[i]], newestDelivered))
    {
      var q := pending[i];
      assert Abstract(q) == Slots()[i];
      assert Slots()[i := Slots()[i]] == Slots();
      if q.inUse && !IdNewer(q.frameId, newestDelivered) {
        SetSlot(i, q.(inUse := false));
        stats := stats.(framesDropped := stats.framesDropped + 1);
      }
    }

    method AbandonOlder()
      requires Valid()
      modifies this, pending
      ensures Valid()
      ensures View() == old(View()).(slots := Survivors(old(Slots()), old(newestDelivered)),
                                     stats := old(stats).(framesDropped := old(stats).framesDropped
                                                          + Abandoned(old(Slots()), old(newestDelivered))))
    {
      ghost var rest, id := Slots(), newestDelivered;
      ghost var kept := Survivors(rest, id);
      for i := 0 to MAX_PENDING
        invariant Valid() && Slots() == kept[..i] + rest[i..]
        invariant stats == old(stats).(framesDropped := old(stats).framesDropped + Abandoned(rest[..i], id))
        invariant newestDelivered == id && anyDelivered == old(anyDelivered)
      {
        AbandonStep(rest, i, id);
        AbandonIfOlder(i);
      }
      assert rest[..MAX_PENDING] == rest;
    }

    /** `deliver`: hands out the frame and abandons everything not newer. */
    method Deliver(k: nat) returns (frame: AssembledFrame)
      requires Valid() && k < MAX_PENDING
      requires pending[k].inUse && pending[k].slicesHave == pending[k].sliceCount
      modifies this, pending
      ensures Valid() && View() == Delivered(old(View()), k)
      ensures frame == FrameOf(old(Slots())[k].value)
    {
      frame := Assemble(pending[k]);
      newestDelivered, anyDelivered := pending[k].frameId, true;
      SetSlot(k, pending[k].(inUse := false));
      AbandonOlder();
      stats := stats.(framesCompleted := stats.framesCompleted + 1,
                      bytesCompleted := stats.bytesCompleted + |frame.data|);
    }

    /** `feed`: the callback's frame, if this slice completes one, is the result. */
    method Feed(v: VideoHeader, payload: Bytes) returns (frame: Option<AssembledFrame>)
      requires Valid()
      requires |payload| >= v.payloadLen && v.payloadLen <= MAX_SLICE_PAYLOAD
      modifies this, pending
      ensures Valid()
      ensures (View(), frame) == Reassembly.Feed(old(View()), v, payload[..v.payloadLen])
    {
      CountSlice();
      ghost var w := View();
      if anyDelivered && !IdNewer(v.frameId, newestDelivered) {
        return None;
      }
      assert !Stale(w, v.frameId);
      frame := Admit(v, payload[..v.payloadLen]);
    }

    method CountSlice()
      requires Valid()
      modifies this`stats
      ensures Valid() && View() == old(View()).(stats := old(stats).(slicesIn := old(stats).slicesIn + 1))
    {
      stats := stats.(slicesIn := stats.slicesIn + 1);
    }

    /** The part of `feed` after the test for stale slices. */
    method Admit(v: VideoHeader, payload: Bytes) returns (frame: Option<AssembledFrame>)
      requires Valid() && |payload| <= MAX_SLICE_PAYLOAD
      modifies this, pending
      ensures Valid()
      ensures (View(), frame) == Admitted(old(View()), v, payload)
    {
      var slot := FindOrAllocate(v);
      if slot.None? {
        return None;
      }
      assert Slots()[slot.value] == Abstract(pending[slot.value]);
      frame := StoreSlice(slot.value, v.sliceIndex, payload);
    }

    /** The second half of `feed`, once the slot is known. */
    method StoreSlice(k: nat, i: u16, payload: Bytes) returns (frame: Option<AssembledFrame>)
      requires Valid() && k < MAX_PENDING && pending[k].inUse
      requires |payload| <= MAX_SLICE_PAYLOAD
      modifies this, pending
      ensures Valid()
      ensures (View(), frame) == StoredIn(old(View()), k, i, payload)
    {
      ghost var slots := Slots();
      assert slots[k] == Abstract(pending[k]);
      if i >= pending[k].sliceCount || pending[k].haveSlice[i] {
        assert slots[k := slots[k]] == slots;
        return None;
      }
      SetSlot(k, WithSlice(pending[k], i, payload));
      CounterTellsCompletion(pending[k]);
      if pending[k].slicesHave == pending[k].sliceCount {
        var done := Deliver(k);
        return Some(done);
      }
      return None;
    }
  }
}
