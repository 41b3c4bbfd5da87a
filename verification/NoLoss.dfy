/** No needless loss: when nothing is lost on the way, frames complete in order and at most four
    undelivered frames are ever under way, every frame is delivered once, in order, and nothing
    is dropped - in particular while ids wrap around. */
module NoLoss {
  import opened Words
  import opened Wire
  import opened FrameIds
  import opened Slicer
  import opened Reassembly
  import opened AssemblerRuns
  import opened EndToEnd

  // ---------------------------------------------------------------- what has arrived

  /** The slices of frame `k` among the arrivals. */
  function Seen(arrivals: seq<Arrival>, k: nat): set<nat> {
    set t | 0 <= t < |arrivals| && arrivals[t].frame == k :: arrivals[t].slice
  }

  predicate AllSent(src: seq<SourceFrame>) {
    forall k :: 1 <= k <= |src| ==> Sendable(Nth(src, k))
  }

  /** Every slice of frame `k` has arrived. */
  predicate Done(src: seq<SourceFrame>, arrivals: seq<Arrival>, k: nat)
    requires AllSent(src) && 1 <= k <= |src|
  {
    forall i :: 0 <= i < CountOf(Nth(src, k)) ==> i in Seen(arrivals, k)
  }

  /** Frames of which some but not all slices have arrived. */
  function Open(src: seq<SourceFrame>, arrivals: seq<Arrival>): set<nat>
    requires AllSent(src) && AllArrivals(src, arrivals)
  {
    set t | 0 <= t < |arrivals| && !Done(src, arrivals, arrivals[t].frame) :: arrivals[t].frame
  }

  /** No frame completes before an earlier one. */
  predicate InOrder(src: seq<SourceFrame>, start: nat, arrivals: seq<Arrival>)
    requires AllSent(src)
  {
    forall j, k :: start < j < k <= |src| && Done(src, arrivals, k) ==> Done(src, arrivals, j)
  }

  /** With the arriving frame, at most four undelivered frames are under way. */
  predicate Fits(src: seq<SourceFrame>, before: seq<Arrival>, a: Arrival)
    requires AllSent(src) && AllArrivals(src, before) && IsArrival(src, a)
  {
    Done(src, before, a.frame) || |Open(src, before) + {a.frame}| <= MAX_PENDING
  }

  /** Exactly the frames up to `reference` are complete. */
  predicate DoneUpTo(src: seq<SourceFrame>, start: nat, arrivals: seq<Arrival>, reference: nat)
    requires AllSent(src)
  {
    start <= reference <= |src|
    && forall k :: start < k <= |src| ==> (Done(src, arrivals, k) <==> k <= reference)
  }

  /** The arriving frame is less than half an id ring away from the last of the frames completed so
      far, or, before any has been completed, from the starting point, after which it lies. */
  predicate Near(src: seq<SourceFrame>, start: nat, before: seq<Arrival>, a: Arrival)
    requires AllSent(src)
  {
    forall r {:trigger DoneUpTo(src, start, before, r)} :: start <= r <= |src| && DoneUpTo(src, start, before, r) ==>
      a.frame < r + HALF32 && r < a.frame + (if r == start then 0 else HALF32 + 1)
  }

  /** Each arrival lies beyond the start, near enough, fits the window and completes in order: all
      of it a matter of what has arrived. */
  predicate Orderly(src: seq<SourceFrame>, start: nat, arrivals: seq<Arrival>)
    requires AllSent(src) && AllArrivals(src, arrivals)
  {
    arrivals != [] ==>
      var before, a := arrivals[..|arrivals| - 1], arrivals[|arrivals| - 1];
      && Orderly(src, start, before)
      && a.frame > start && Near(src, start, before, a)
      && Fits(src, before, a) && InOrder(src, start, before + [a])
  }

  lemma SeenNext(arrivals: seq<Arrival>, a: Arrival, k: nat)
    ensures Seen(arrivals + [a], k) == if k == a.frame then Seen(arrivals, k) + {a.slice} else Seen(arrivals, k)
  {
    var all := arrivals + [a];
    forall i | i in Seen(arrivals, k)
      ensures i in Seen(all, k)
    {
      var t :| 0 <= t < |arrivals| && arrivals[t].frame == k && arrivals[t].slice == i;
      assert all[t] == arrivals[t];
    }
    if k == a.frame {
      assert all[|arrivals|] == a;
    }
  }

  // ---------------------------------------------------------------- the window mirrors the arrivals

  predicate Tracks(p: Partial, seen: set<nat>, count: nat) {
    |p.chunks| == count && forall i :: 0 <= i < count ==> (p.chunks[i].Some? <==> i in seen)
  }

  /** Slot `p` holds exactly the slices that have arrived of the open frame `n`. */
  predicate Mirrors(src: seq<SourceFrame>, arrivals: seq<Arrival>, n: nat, p: Partial)
    requires AllSent(src)
  {
    && 1 <= n <= |src| && Tracks(p, Seen(arrivals, n), CountOf(Nth(src, n)))
    && !Done(src, arrivals, n) && Seen(arrivals, n) != {}
  }

  predicate SlotsMirror(src: seq<SourceFrame>, arrivals: seq<Arrival>, reference: nat, slots: seq<Option<Partial>>)
    requires AllSent(src)
  {
    forall j :: 0 <= j < |slots| && slots[j].Some? ==>
      Mirrors(src, arrivals, NumberOf(reference, slots[j].value.id), slots[j].value)
  }

  predicate HasSlot(slots: seq<Option<Partial>>, id: u32) {
    exists j :: 0 <= j < |slots| && Holds(slots[j], id)
  }

  predicate OpenHaveSlots(src: seq<SourceFrame>, arrivals: seq<Arrival>, reference: nat, slots: seq<Option<Partial>>) {
    forall k :: reference < k <= |src| && Seen(arrivals, k) != {} ==> HasSlot(slots, Wrap32(k))
  }

  predicate AllWithin(arrivals: seq<Arrival>, reference: nat) {
    forall t :: 0 <= t < |arrivals| ==> arrivals[t].frame < reference + HALF32
  }

  predicate NumbersFrom(start: nat, out: seq<Delivery>) {
    forall j :: 0 <= j < |out| ==> out[j].number == start + 1 + j
  }

  /** The delivered frames are the complete ones, the pending ones the open ones. */
  predicate Exact(src: seq<SourceFrame>, start: nat, arrivals: seq<Arrival>, p: Play)
    requires AllSent(src)
  {
    && Shaped(p.w) && p.w.stats.framesDropped == 0 && DistinctIds(p.w.slots)
    && p.reference == start + |p.out| && NumbersFrom(start, p.out)
    && DoneUpTo(src, start, arrivals, p.reference) && AllWithin(arrivals, p.reference)
    && SlotsMirror(src, arrivals, p.reference, p.w.slots)
    && OpenHaveSlots(src, arrivals, p.reference, p.w.slots)
  }

  lemma {:induction false} SubsetSize<T>(a: set<T>, b: set<T>)
    requires a <= b
    ensures |a| <= |b|
  {
    if a != {} {
      var x :| x in a;
      SubsetSize(a - {x}, b - {x});
    }
  }

  lemma OpenMember(src: seq<SourceFrame>, arrivals: seq<Arrival>, k: nat)
    requires AllSent(src) && AllArrivals(src, arrivals) && 1 <= k <= |src|
    requires Seen(arrivals, k) != {} && !Done(src, arrivals, k)
    ensures k in Open(src, arrivals)
  {
    var i :| i in Seen(arrivals, k);
    var t :| 0 <= t < |arrivals| && arrivals[t].frame == k && arrivals[t].slice == i;
    assert arrivals[t].frame in Open(src, arrivals);
  }

  lemma FiveMembers(a: nat, b: nat, c: nat, d: nat, e: nat, s: set<nat>)
    requires {a, b, c, d, e} <= s
    requires a != b && a != c && a != d && a != e && b != c && b != d && b != e && c != d && c != e && d != e
    ensures |s| >= 5
  {
    SubsetSize({a, b, c, d, e}, s);
  }

  /** The frame a slot stands for is open, and its number determines the slot's id. */
  lemma SlotIsOpen(src: seq<SourceFrame>, arrivals: seq<Arrival>, reference: nat, p: Partial, n: nat)
    requires AllSent(src) && AllArrivals(src, arrivals)
    requires n == NumberOf(reference, p.id) && Mirrors(src, arrivals, n, p)
    ensures n in Open(src, arrivals) && Seen(arrivals, n) != {} && Wrap32(n) == p.id
  {
    OpenMember(src, arrivals, n);
    LiftIsInverse(reference, p.id);
  }

  /** Four slots in use are four open frames, beside any frame of which nothing has arrived. */
  lemma FourOpen(src: seq<SourceFrame>, arrivals: seq<Arrival>, reference: nat, slots: seq<Option<Partial>>, k: nat)
    requires AllSent(src) && AllArrivals(src, arrivals)
    requires |slots| == MAX_PENDING && SlotsMirror(src, arrivals, reference, slots) && DistinctIds(slots)
    requires Seen(arrivals, k) == {}
    ensures (forall j :: 0 <= j < MAX_PENDING ==> slots[j].Some?) ==> |Open(src, arrivals) + {k}| > MAX_PENDING
  {
    if forall j :: 0 <= j < MAX_PENDING ==> slots[j].Some? {
      var n0, n1 := NumberOf(reference, slots[0].value.id), NumberOf(reference, slots[1].value.id);
      var n2, n3 := NumberOf(reference, slots[2].value.id), NumberOf(reference, slots[3].value.id);
      SlotIsOpen(src, arrivals, reference, slots[0].value, n0);
      SlotIsOpen(src, arrivals, reference, slots[1].value, n1);
      SlotIsOpen(src, arrivals, reference, slots[2].value, n2);
      SlotIsOpen(src, arrivals, reference, slots[3].value, n3);
      FiveMembers(n0, n1, n2, n3, k, Open(src, arrivals) + {k});
    }
  }

  /** So a frame that has no slot yet finds a free one. */
  lemma RoomForNew(src: seq<SourceFrame>, arrivals: seq<Arrival>, reference: nat, slots: seq<Option<Partial>>, k: nat)
    requires AllSent(src) && AllArrivals(src, arrivals)
    requires |slots| == MAX_PENDING && SlotsMirror(src, arrivals, reference, slots) && DistinctIds(slots)
    requires Seen(arrivals, k) == {} && |Open(src, arrivals) + {k}| <= MAX_PENDING
    ensures exists j :: 0 <= j < MAX_PENDING && slots[j].None?
  {
    FourOpen(src, arrivals, reference, slots, k);
  }

  // ---------------------------------------------------------------- one arrival

  /** A slice of a frame beyond the reference is never refused and evicts nothing, and it meets a
      partial frame that holds exactly what has arrived so far. */
  lemma FindsItsSlot(src: seq<SourceFrame>, arrivals: seq<Arrival>, reference: nat, w: Window, v: VideoHeader, k: nat)
    requires AllSent(src) && AllArrivals(src, arrivals) && Shaped(w)
    requires SlotsMirror(src, arrivals, reference, w.slots) && DistinctIds(w.slots)
    requires OpenHaveSlots(src, arrivals, reference, w.slots)
    requires reference < k <= |src| && v.frameId == Wrap32(k) && NumberOf(reference, v.frameId) == k
    requires v.sliceCount == CountOf(Nth(src, k)) && |Open(src, arrivals) + {k}| <= MAX_PENDING
    ensures !ClaimFor(w, v).Refused? && Evictions(w, v) == 0
    ensures Tracks(Target(w, v), Seen(arrivals, k), CountOf(Nth(src, k)))
  {
    if Seen(arrivals, k) != {} {
      assert HasSlot(w.slots, v.frameId);
    } else {
      RoomForNew(src, arrivals, reference, w.slots, k);
      forall j | 0 <= j < MAX_PENDING
        ensures !Holds(w.slots[j], v.frameId)
      {
        assert w.slots[j].Some? ==> Seen(arrivals, NumberOf(reference, w.slots[j].value.id)) != {};
      }
    }
  }

  /** Storing the slice keeps track of what has arrived, and completes the frame exactly when
      nothing is missing any more. */
  lemma StoreTracks(b: Partial, i: nat, payload: Bytes, seen: set<nat>, count: nat)
    requires Tracks(b, seen, count) && i < count
    ensures Tracks(Stored(b, i, payload), seen + {i}, count)
    ensures Complete(Stored(b, i, payload)) <==> forall x :: 0 <= x < count ==> x in seen + {i}
    ensures (exists x :: 0 <= x < count && x !in seen) && Complete(Stored(b, i, payload)) ==> Stored(b, i, payload) != b
  {
    var p := Stored(b, i, payload);
    assert Tracks(p, seen + {i}, count);
    if x :| 0 <= x < count && x !in seen {
      assert b.chunks[x].None?;
    }
  }

  /** An arrival changes what is known of its own frame only. */
  lemma OthersUnchanged(src: seq<SourceFrame>, before: seq<Arrival>, a: Arrival, n: nat, p: Partial)
    requires AllSent(src) && IsArrival(src, a) && n != a.frame && Mirrors(src, before, n, p)
    ensures Mirrors(src, before + [a], n, p)
  {
    SeenNext(before, a, n);
  }

  lemma DoneNext(src: seq<SourceFrame>, before: seq<Arrival>, a: Arrival, k: nat)
    requires AllSent(src) && 1 <= k <= |src|
    ensures Done(src, before, k) ==> Done(src, before + [a], k)
    ensures k != a.frame ==> (Done(src, before, k) <==> Done(src, before + [a], k))
  {
    SeenNext(before, a, k);
  }

  lemma DoneUpToNext(src: seq<SourceFrame>, start: nat, before: seq<Arrival>, a: Arrival, reference: nat)
    requires AllSent(src) && IsArrival(src, a) && DoneUpTo(src, start, before, reference) && a.frame > start
    requires InOrder(src, start, before + [a])
    ensures !Done(src, before + [a], a.frame) || a.frame <= reference ==>
              DoneUpTo(src, start, before + [a], reference)
    ensures Done(src, before + [a], a.frame) && a.frame > reference ==>
              a.frame == reference + 1 && DoneUpTo(src, start, before + [a], a.frame)
  {
    forall k | start < k <= |src|
      ensures k != a.frame ==> (Done(src, before, k) <==> Done(src, before + [a], k))
      ensures Done(src, before, k) ==> Done(src, before + [a], k)
    {
      DoneNext(src, before, a, k);
    }
    var prior := a.frame - 1;
    if Done(src, before + [a], a.frame) && prior > start {
      assert Done(src, before + [a], prior);
    }
  }

  /** The slot that the claim picks: the one of the id, or a free one if there is none. */
  predicate Claims(slots: seq<Option<Partial>>, s: nat, id: u32) {
    && s < |slots|
    && (Holds(slots[s], id) || (slots[s].None? && !HasSlot(slots, id)))
  }

  lemma OthersHaveOtherIds(slots: seq<Option<Partial>>, s: nat, id: u32, j: nat)
    requires DistinctIds(slots) && Claims(slots, s, id) && j < |slots| && j != s && slots[j].Some?
    ensures slots[j].value.id != id
  {
  }

  lemma OtherSlotMirrors(src: seq<SourceFrame>, before: seq<Arrival>, a: Arrival, reference: nat, p: Partial)
    requires AllSent(src) && IsArrival(src, a) && p.id != Wrap32(a.frame)
    requires Mirrors(src, before, NumberOf(reference, p.id), p)
    ensures Mirrors(src, before + [a], NumberOf(reference, p.id), p)
  {
    LiftIsInverse(reference, p.id);
    OthersUnchanged(src, before, a, NumberOf(reference, p.id), p);
  }

  lemma CollectKeepsDistinct(slots: seq<Option<Partial>>, s: nat, next: Partial)
    requires DistinctIds(slots) && Claims(slots, s, next.id)
    ensures DistinctIds(slots[s := Some(next)])
  {
    forall j | 0 <= j < |slots| && j != s && slots[j].Some?
      ensures slots[j].value.id != next.id
    {
      OthersHaveOtherIds(slots, s, next.id, j);
    }
  }

  lemma CollectKeepsMirror(src: seq<SourceFrame>, before: seq<Arrival>, a: Arrival, reference: nat,
                           slots: seq<Option<Partial>>, s: nat, next: Partial)
    requires AllSent(src) && IsArrival(src, a)
    requires SlotsMirror(src, before, reference, slots) && DistinctIds(slots) && Claims(slots, s, next.id)
    requires next.id == Wrap32(a.frame) && NumberOf(reference, next.id) == a.frame
    requires Mirrors(src, before + [a], a.frame, next)
    ensures SlotsMirror(src, before + [a], reference, slots[s := Some(next)]) && DistinctIds(slots[s := Some(next)])
  {
    CollectKeepsDistinct(slots, s, next);
    forall j | 0 <= j < |slots| && j != s && slots[j].Some?
      ensures Mirrors(src, before + [a], NumberOf(reference, slots[j].value.id), slots[j].value)
    {
      OthersHaveOtherIds(slots, s, next.id, j);
      OtherSlotMirrors(src, before, a, reference, slots[j].value);
    }
  }

  lemma CollectKeepsSlots(src: seq<SourceFrame>, before: seq<Arrival>, a: Arrival, reference: nat,
                          slots: seq<Option<Partial>>, s: nat, next: Partial)
    requires OpenHaveSlots(src, before, reference, slots) && Claims(slots, s, next.id)
    requires next.id == Wrap32(a.frame)
    ensures OpenHaveSlots(src, before + [a], reference, slots[s := Some(next)])
  {
    var slots' := slots[s := Some(next)];
    forall k | reference < k <= |src| && Seen(before + [a], k) != {}
      ensures HasSlot(slots', Wrap32(k))
    {
      if k == a.frame {
        assert Holds(slots'[s], Wrap32(k));
      } else {
        SeenNext(before, a, k);
        var j :| 0 <= j < |slots| && Holds(slots[j], Wrap32(k));
        assert Holds(slots'[j], Wrap32(k));
      }
    }
  }

  lemma {:induction false} NothingAbandoned(slots: seq<Option<Partial>>, id: u32)
    requires AllNewer(slots, id)
    ensures Abandoned(slots, id) == 0 && Survivors(slots, id) == slots
  {
    if slots != [] {
      NothingAbandoned(slots[..|slots| - 1], id);
    }
  }

  /** Delivering the next frame in order finds every other pending frame newer. */
  lemma OthersAreNewer(src: seq<SourceFrame>, before: seq<Arrival>, a: Arrival, reference: nat,
                       slots: seq<Option<Partial>>, s: nat)
    requires AllSent(src) && IsArrival(src, a) && a.frame == reference + 1
    requires SlotsMirror(src, before, reference, slots) && DistinctIds(slots)
    requires AllNewer(slots, Wrap32(reference)) && Claims(slots, s, Wrap32(a.frame))
    ensures AllNewer(slots[s := None], Wrap32(a.frame))
  {
    forall j | 0 <= j < |slots| && j != s && slots[j].Some?
      ensures IdNewer(slots[j].value.id, Wrap32(a.frame))
    {
      assert slots[j].value.id != Wrap32(a.frame);
      var n := NumberOf(reference, slots[j].value.id);
      LiftIsInverse(reference, slots[j].value.id);
      NewerIffGreater(n, a.frame);
    }
  }

  lemma DeliverKeepsMirror(src: seq<SourceFrame>, before: seq<Arrival>, a: Arrival, reference: nat,
                           slots: seq<Option<Partial>>, s: nat)
    requires AllSent(src) && IsArrival(src, a) && a.frame == reference + 1
    requires SlotsMirror(src, before, reference, slots) && DistinctIds(slots)
    requires AllNewer(slots, Wrap32(reference)) && Claims(slots, s, Wrap32(a.frame))
    requires AllNewer(slots[s := None], Wrap32(a.frame))
    ensures SlotsMirror(src, before + [a], a.frame, slots[s := None])
  {
    forall j | 0 <= j < |slots| && j != s && slots[j].Some?
      ensures Mirrors(src, before + [a], NumberOf(a.frame, slots[j].value.id), slots[j].value)
    {
      assert slots[s := None][j] == slots[j];
      NumberSurvivesDelivery(reference, a.frame, slots[j].value.id);
      LiftIsInverse(reference, slots[j].value.id);
      assert slots[j].value.id != Wrap32(a.frame);
      OthersUnchanged(src, before, a, NumberOf(reference, slots[j].value.id), slots[j].value);
    }
  }

  lemma DeliverKeepsSlots(src: seq<SourceFrame>, before: seq<Arrival>, a: Arrival, reference: nat,
                          slots: seq<Option<Partial>>, s: nat)
    requires OpenHaveSlots(src, before, reference, slots) && AllWithin(before, reference)
    requires a.frame == reference + 1 && Claims(slots, s, Wrap32(a.frame))
    ensures OpenHaveSlots(src, before + [a], a.frame, slots[s := None])
  {
    forall k | a.frame < k <= |src| && Seen(before + [a], k) != {}
      ensures HasSlot(slots[s := None], Wrap32(k))
    {
      SeenNext(before, a, k);
      var i :| i in Seen(before, k);
      var t :| 0 <= t < |before| && before[t].frame == k && before[t].slice == i;
      NewerIffGreater(k, a.frame);
      var j :| 0 <= j < |slots| && Holds(slots[j], Wrap32(k));
      assert Holds(slots[s := None][j], Wrap32(k));
    }
  }

  /** The effect on the window of a slice that found its slot `s`, whose content becomes `next`. */
  predicate WindowStep(w: Window, w': Window, s: nat, next: Partial, completes: bool)
    requires Shaped(w) && s < MAX_PENDING
  {
    if completes then
      && w'.slots == Survivors(w.slots[s := None], next.id)
      && w'.stats.framesDropped == w.stats.framesDropped + Abandoned(w.slots[s := None], next.id)
    else
      && w'.slots == w.slots[s := Some(next)]
      && w'.stats.framesDropped == w.stats.framesDropped
  }

  lemma SliceFindsItsSlot(src: seq<SourceFrame>, before: seq<Arrival>, a: Arrival, reference: nat, w: Window,
                          f: SourceFrame, id: u32)
    returns (s: nat, next: Partial)
    requires AllSent(src) && AllArrivals(src, before) && IsArrival(src, a) && Shaped(w)
    requires SlotsMirror(src, before, reference, w.slots) && DistinctIds(w.slots)
    requires OpenHaveSlots(src, before, reference, w.slots)
    requires reference < a.frame && id == Wrap32(a.frame) && NumberOf(reference, id) == a.frame
    requires f == Nth(src, a.frame) && !Stale(w, id)
    requires !Done(src, before, a.frame) && |Open(src, before) + {a.frame}| <= MAX_PENDING
    ensures s < MAX_PENDING && Claims(w.slots, s, id)
    ensures next.id == id && Tracks(next, Seen(before + [a], a.frame), CountOf(f))
    ensures var (w', out) := FeedSliceOf(w, f, id, a.slice);
            && (out.Some? <==> Done(src, before + [a], a.frame))
            && WindowStep(w, w', s, next, out.Some?)
  {
    var v, payload := SliceHeader(f, id, a.slice), Slice(f.data, a.slice);
    FindsItsSlot(src, before, reference, w, v, a.frame);
    FeedOutcome(w, v, payload);
    StoreTracks(Target(w, v), a.slice, payload, Seen(before, a.frame), CountOf(f));
    SeenNext(before, a, a.frame);
    s, next := ClaimFor(w, v).slot, Next(w, v, payload);
    assert Claims(w.slots, s, id);
  }

  lemma CollectExact(src: seq<SourceFrame>, start: nat, before: seq<Arrival>, a: Arrival, p: Play,
                     w': Window, s: nat, next: Partial)
    requires AllSent(src) && IsArrival(src, a) && Exact(src, start, before, p) && InOrder(src, start, before + [a])
    requires start <= p.reference < a.frame < p.reference + HALF32 && next.id == Wrap32(a.frame)
    requires NumberOf(p.reference, next.id) == a.frame && Claims(p.w.slots, s, next.id)
    requires Tracks(next, Seen(before + [a], a.frame), CountOf(Nth(src, a.frame)))
    requires !Done(src, before + [a], a.frame) && WindowStep(p.w, w', s, next, false)
    ensures Exact(src, start, before + [a], p.(w := w'))
  {
    DoneUpToNext(src, start, before, a, p.reference);
    SeenNext(before, a, a.frame);
    CollectKeepsMirror(src, before, a, p.reference, p.w.slots, s, next);
    CollectKeepsSlots(src, before, a, p.reference, p.w.slots, s, next);
  }

  lemma DeliverDropsNothing(src: seq<SourceFrame>, before: seq<Arrival>, a: Arrival, reference: nat, w: Window,
                            w': Window, s: nat, next: Partial)
    requires AllSent(src) && IsArrival(src, a) && a.frame == reference + 1 && next.id == Wrap32(a.frame)
    requires Shaped(w) && SlotsMirror(src, before, reference, w.slots) && DistinctIds(w.slots)
    requires Claims(w.slots, s, next.id) && AllNewer(w.slots, Wrap32(reference))
    requires WindowStep(w, w', s, next, true)
    ensures w'.stats.framesDropped == w.stats.framesDropped && w'.slots == w.slots[s := None]
    ensures AllNewer(w'.slots, next.id)
  {
    var rest := w.slots[s := None];
    OthersAreNewer(src, before, a, reference, w.slots, s);
    NothingAbandoned(rest, next.id);
    assert w'.slots == rest;
  }

  lemma DeliverWindow(src: seq<SourceFrame>, before: seq<Arrival>, a: Arrival, reference: nat, w: Window,
                      w': Window, s: nat, next: Partial)
    requires AllSent(src) && IsArrival(src, a) && a.frame == reference + 1 && next.id == Wrap32(a.frame)
    requires Shaped(w) && SlotsMirror(src, before, reference, w.slots) && DistinctIds(w.slots)
    requires OpenHaveSlots(src, before, reference, w.slots) && AllWithin(before, reference)
    requires Claims(w.slots, s, next.id) && AllNewer(w.slots, Wrap32(reference))
    requires WindowStep(w, w', s, next, true)
    ensures w'.stats.framesDropped == w.stats.framesDropped && Shaped(w') && DistinctIds(w'.slots)
    ensures SlotsMirror(src, before + [a], a.frame, w'.slots) && OpenHaveSlots(src, before + [a], a.frame, w'.slots)
  {
    DeliverDropsNothing(src, before, a, reference, w, w', s, next);
    DeliverKeepsMirror(src, before, a, reference, w.slots, s);
    DeliverKeepsSlots(src, before, a, reference, w.slots, s);
  }

  lemma DeliverExact(src: seq<SourceFrame>, start: nat, before: seq<Arrival>, a: Arrival, p: Play,
                     p': Play, s: nat, next: Partial)
    requires AllSent(src) && IsArrival(src, a) && Exact(src, start, before, p) && InOrder(src, start, before + [a])
    requires p'.reference == a.frame && |p'.out| == |p.out| + 1 && p'.out[..|p.out|] == p.out
    requires p'.out[|p.out|].number == a.frame
    requires start <= p.reference < a.frame < p.reference + HALF32 && next.id == Wrap32(a.frame)
    requires Claims(p.w.slots, s, next.id) && AllNewer(p.w.slots, Wrap32(p.reference))
    requires Done(src, before + [a], a.frame) && WindowStep(p.w, p'.w, s, next, true)
    ensures Exact(src, start, before + [a], p')
  {
    DoneUpToNext(src, start, before, a, p.reference);
    DeliverWindow(src, before, a, p.reference, p.w, p'.w, s, next);
    NumbersFromNext(start, p.out, p'.out);
  }

  lemma NumbersFromNext(start: nat, out: seq<Delivery>, out': seq<Delivery>)
    requires NumbersFrom(start, out) && |out'| == |out| + 1 && out'[..|out|] == out
    requires out'[|out|].number == start + 1 + |out|
    ensures NumbersFrom(start, out')
  {
    assert forall j :: 0 <= j < |out| ==> out'[j] == out[j];
  }

  /** What an arrival beyond the reference may count on. */
  lemma NewArrivalFacts(src: seq<SourceFrame>, p: Play, a: Arrival)
    requires InStep(src, p) && IsArrival(src, a) && InReach(p, a) && a.frame > p.reference
    ensures !Stale(p.w, Wrap32(a.frame)) && NumberOf(p.reference, Wrap32(a.frame)) == a.frame
    ensures AllNewer(p.w.slots, Wrap32(p.reference))
  {
    ReachDecides(p, a);
  }

  lemma NotDoneBeyond(src: seq<SourceFrame>, start: nat, before: seq<Arrival>, a: Arrival, p: Play)
    requires AllSent(src) && AllArrivals(src, before) && IsArrival(src, a)
    requires Exact(src, start, before, p) && a.frame > p.reference && Fits(src, before, a)
    ensures !Done(src, before, a.frame) && |Open(src, before) + {a.frame}| <= MAX_PENDING
  {
  }

  lemma NewArrivalExact(src: seq<SourceFrame>, start: nat, before: seq<Arrival>, a: Arrival, p: Play, p': Play)
    requires AllSent(src) && AllArrivals(src, before) && IsArrival(src, a)
    requires InStep(src, p) && Exact(src, start, before, p) && InReach(p, a) && a.frame > p.reference
    requires Fits(src, before, a) && InOrder(src, start, before + [a]) && p' == Step(src, p, a)
    ensures Exact(src, start, before + [a], p')
  {
    var f, id := Nth(src, a.frame), Wrap32(a.frame);
    NewArrivalFacts(src, p, a);
    NotDoneBeyond(src, start, before, a, p);
    var s, next := SliceFindsItsSlot(src, before, a, p.reference, p.w, f, id);
    var (w', out) := FeedSliceOf(p.w, f, id, a.slice);
    assert p' == Advance(p, a.frame, w', out);
    if out.Some? {
      DeliverExact(src, start, before, a, p, p', s, next);
    } else {
      CollectExact(src, start, before, a, p, w', s, next);
    }
  }

  lemma RepeatedSlice(src: seq<SourceFrame>, start: nat, before: seq<Arrival>, a: Arrival, reference: nat)
    requires AllSent(src) && IsArrival(src, a) && start < a.frame <= reference
    requires DoneUpTo(src, start, before, reference)
    ensures forall k :: Seen(before + [a], k) == Seen(before, k)
  {
    assert Done(src, before, a.frame);
    forall k
      ensures Seen(before + [a], k) == Seen(before, k)
    {
      SeenNext(before, a, k);
    }
  }

  lemma SameSeenExact(src: seq<SourceFrame>, start: nat, before: seq<Arrival>, a: Arrival, p: Play, p': Play)
    requires AllSent(src) && IsArrival(src, a) && a.frame < p.reference + HALF32
    requires Exact(src, start, before, p) && forall k :: Seen(before + [a], k) == Seen(before, k)
    requires p' == p.(w := p.w.(stats := p.w.stats.(slicesIn := p.w.stats.slicesIn + 1)))
    ensures Exact(src, start, before + [a], p')
  {
    assert forall k :: 1 <= k <= |src| ==> (Done(src, before + [a], k) <==> Done(src, before, k));
  }

  /** A slice of a delivered frame is a duplicate of one that has arrived. */
  lemma StaleArrivalExact(src: seq<SourceFrame>, start: nat, before: seq<Arrival>, a: Arrival, p: Play, p': Play)
    requires AllSent(src) && AllArrivals(src, before) && IsArrival(src, a) && a.frame > start
    requires InStep(src, p) && Exact(src, start, before, p) && InReach(p, a) && a.frame <= p.reference
    requires p' == Step(src, p, a)
    ensures Exact(src, start, before + [a], p')
  {
    StaleArrival(src, p, a, p');
    RepeatedSlice(src, start, before, a, p.reference);
    SameSeenExact(src, start, before, a, p, p');
  }

  lemma NothingYet(src: seq<SourceFrame>, start: nat)
    requires AllSent(src) && start <= |src|
    ensures Exact(src, start, [], PlayOf(src, start, [])) && InStep(src, PlayOf(src, start, []))
  {
    forall k | 1 <= k <= |src|
      ensures !Done(src, [], k)
    {
      assert 0 !in Seen([], k);
    }
  }

  /** In an exact state the last frame delivered is the last one completed. */
  lemma NearIsInReach(src: seq<SourceFrame>, start: nat, before: seq<Arrival>, a: Arrival, p: Play)
    requires AllSent(src) && Exact(src, start, before, p) && Near(src, start, before, a)
    ensures InReach(p, a)
  {
    assert DoneUpTo(src, start, before, p.reference);
  }

  lemma ArrivalExact(src: seq<SourceFrame>, start: nat, before: seq<Arrival>, a: Arrival, p: Play, p': Play)
    requires AllSent(src) && AllArrivals(src, before) && IsArrival(src, a) && a.frame > start
    requires InStep(src, p) && Exact(src, start, before, p) && Near(src, start, before, a)
    requires Fits(src, before, a) && InOrder(src, start, before + [a]) && p' == Step(src, p, a)
    ensures InStep(src, p') && Exact(src, start, before + [a], p')
  {
    NearIsInReach(src, start, before, a, p);
    ArrivalKeepsStep(src, p, a, p');
    if a.frame <= p.reference {
      StaleArrivalExact(src, start, before, a, p, p');
    } else {
      NewArrivalExact(src, start, before, a, p, p');
    }
  }

  lemma LastFits(src: seq<SourceFrame>, start: nat, arrivals: seq<Arrival>, before: seq<Arrival>, a: Arrival)
    requires AllSent(src) && AllArrivals(src, arrivals) && start <= |src| && Orderly(src, start, arrivals)
    requires arrivals != [] && before == arrivals[..|arrivals| - 1] && a == arrivals[|arrivals| - 1]
    ensures AllArrivals(src, before) && IsArrival(src, a) && Orderly(src, start, before)
    ensures a.frame > start && Near(src, start, before, a)
    ensures Fits(src, before, a) && InOrder(src, start, before + [a])
  {
  }

  lemma LastStep(src: seq<SourceFrame>, start: nat, arrivals: seq<Arrival>, before: seq<Arrival>, a: Arrival)
    requires AllSent(src) && AllArrivals(src, arrivals) && start <= |src|
    requires arrivals != [] && before == arrivals[..|arrivals| - 1] && a == arrivals[|arrivals| - 1]
    ensures AllArrivals(src, before) && IsArrival(src, a)
    ensures PlayOf(src, start, arrivals) == Step(src, PlayOf(src, start, before), a)
  {
  }

  lemma {:induction false} RunIsExact(src: seq<SourceFrame>, start: nat, arrivals: seq<Arrival>)
    requires AllSent(src) && AllArrivals(src, arrivals) && start <= |src| && Orderly(src, start, arrivals)
    ensures InStep(src, PlayOf(src, start, arrivals)) && Exact(src, start, arrivals, PlayOf(src, start, arrivals))
    decreases |arrivals|
  {
    if arrivals == [] {
      NothingYet(src, start);
    } else {
      var before, a := arrivals[..|arrivals| - 1], arrivals[|arrivals| - 1];
      LastFits(src, start, arrivals, before, a);
      assert arrivals == before + [a];
      LastStep(src, start, arrivals, before, a);
      RunIsExact(src, start, before);
      ArrivalExact(src, start, before, a, PlayOf(src, start, before), PlayOf(src, start, arrivals));
    }
  }

  /** The deliveries of an exact state, as frames. */
  lemma ExactDeliveries(src: seq<SourceFrame>, start: nat, arrivals: seq<Arrival>, p: Play)
    requires AllSent(src) && InStep(src, p) && Exact(src, start, arrivals, p)
    ensures forall j :: 0 <= j < |p.out| ==> DeliveryRight(src, Delivery(start + 1 + j, FramesOf(p.out)[j]))
    ensures forall k :: start < k <= |src| ==> (Done(src, arrivals, k) <==> k <= start + |p.out|)
  {
    forall j | 0 <= j < |p.out|
      ensures DeliveryRight(src, Delivery(start + 1 + j, FramesOf(p.out)[j]))
    {
      assert p.out[j] == Delivery(start + 1 + j, FramesOf(p.out)[j]);
    }
  }

  /** Main result, from bytes to frames: when slices arrive in an orderly way, the receiver delivers
      exactly the complete frames, each once, in order and as it was sent, and no frame is ever
      dropped. */
  lemma EveryFrameDelivered(src: seq<SourceFrame>, start: nat, arrivals: seq<Arrival>, dgs: seq<Bytes>)
    requires AllSent(src) && AllArrivals(src, arrivals) && start <= |src| && Orderly(src, start, arrivals)
    requires OnTheWire(src, arrivals, dgs)
    ensures var (w, frames) := ReceiveAll(dgs);
            && w.stats.framesDropped == 0
            && (forall j :: 0 <= j < |frames| ==> DeliveryRight(src, Delivery(start + 1 + j, frames[j])))
            && (forall k :: start < k <= |src| ==> (Done(src, arrivals, k) <==> k <= start + |frames|))
  {
    RunIsExact(src, start, arrivals);
    WireIsPlayed(src, start, arrivals, dgs);
    ExactDeliveries(src, start, arrivals, PlayOf(src, start, arrivals));
  }

  // ---------------------------------------------------------------- a fifth frame

  /** The frame numbers of the pending entries. */
  function NumbersIn(reference: nat, slots: seq<Option<Partial>>): set<nat> {
    set j | 0 <= j < |slots| && slots[j].Some? :: NumberOf(reference, slots[j].value.id)
  }

  lemma NumbersNext(reference: nat, slots: seq<Option<Partial>>, last: Option<Partial>)
    ensures NumbersIn(reference, slots + [last]) ==
              if last.Some? then NumbersIn(reference, slots) + {NumberOf(reference, last.value.id)}
              else NumbersIn(reference, slots)
  {
    var all := slots + [last];
    assert forall j :: 0 <= j < |slots| ==> all[j] == slots[j];
    assert all[|slots|] == last;
  }

  lemma {:induction false} NumbersCount(reference: nat, slots: seq<Option<Partial>>)
    ensures |NumbersIn(reference, slots)| <= InUse(slots) <= |slots|
  {
    if slots != [] {
      var n := |slots| - 1;
      NumbersCount(reference, slots[..n]);
      NumbersNext(reference, slots[..n], slots[n]);
      assert slots[..n] + [slots[n]] == slots;
    }
  }

  lemma {:induction false} AllInUse(slots: seq<Option<Partial>>)
    ensures InUse(slots) <= |slots|
    ensures InUse(slots) == |slots| ==> forall j :: 0 <= j < |slots| ==> slots[j].Some?
  {
    if slots != [] {
      AllInUse(slots[..|slots| - 1]);
      assert forall j :: 0 <= j < |slots| - 1 ==> slots[j] == slots[..|slots| - 1][j];
    }
  }

  /** Every open frame is among the pending ones. */
  lemma OpenIsPending(src: seq<SourceFrame>, start: nat, before: seq<Arrival>, p: Play)
    requires AllSent(src) && AllArrivals(src, before) && Exact(src, start, before, p)
    requires forall t :: 0 <= t < |before| ==> before[t].frame > start
    ensures Open(src, before) <= NumbersIn(p.reference, p.w.slots)
  {
    forall k | k in Open(src, before)
      ensures k in NumbersIn(p.reference, p.w.slots)
    {
      var t :| 0 <= t < |before| && before[t].frame == k && !Done(src, before, k);
      assert before[t].slice in Seen(before, k);
      assert HasSlot(p.w.slots, Wrap32(k));
      var j :| 0 <= j < |p.w.slots| && Holds(p.w.slots[j], Wrap32(k));
      SubOfWraps(k, p.reference);
    }
  }

  lemma OneTooMany(open: set<nat>, x: nat, reference: nat, slots: seq<Option<Partial>>)
    requires |slots| == MAX_PENDING && open <= NumbersIn(reference, slots) && |open + {x}| > MAX_PENDING
    ensures x !in NumbersIn(reference, slots) && forall j :: 0 <= j < MAX_PENDING ==> slots[j].Some?
  {
    NumbersCount(reference, slots);
    AllInUse(slots);
    SubsetSize(open, NumbersIn(reference, slots));
    if x in NumbersIn(reference, slots) {
      SubsetSize(open + {x}, NumbersIn(reference, slots));
    }
  }

  lemma OwnNumber(reference: nat, slots: seq<Option<Partial>>, j: nat, k: nat)
    requires j < |slots| && slots[j].Some? && slots[j].value.id == Wrap32(k) && reference < k < reference + HALF32
    ensures k in NumbersIn(reference, slots)
  {
    SubOfWraps(k, reference);
  }

  /** When the arriving frame is the fifth, all entries are taken and none is its own. */
  lemma NoEntryForFifth(src: seq<SourceFrame>, start: nat, before: seq<Arrival>, a: Arrival, p: Play)
    requires AllSent(src) && AllArrivals(src, before) && IsArrival(src, a) && Exact(src, start, before, p)
    requires forall t :: 0 <= t < |before| ==> before[t].frame > start
    requires InReach(p, a) && a.frame > p.reference && |Open(src, before) + {a.frame}| > MAX_PENDING
    ensures forall j :: 0 <= j < MAX_PENDING ==> p.w.slots[j].Some? && p.w.slots[j].value.id != Wrap32(a.frame)
  {
    OpenIsPending(src, start, before, p);
    OneTooMany(Open(src, before), a.frame, p.reference, p.w.slots);
    forall j | 0 <= j < MAX_PENDING
      ensures p.w.slots[j].value.id != Wrap32(a.frame)
    {
      if p.w.slots[j].value.id == Wrap32(a.frame) {
        OwnNumber(p.reference, p.w.slots, j, a.frame);
      }
    }
  }

  /** So the condition on open frames is exactly what is needed: whenever, after an orderly run, a
      slice arrives for a frame that would be the fifth under way, it is refused or makes the
      assembler drop a frame. */
  lemma FifthFrameCosts(src: seq<SourceFrame>, start: nat, before: seq<Arrival>, a: Arrival, p: Play, p': Play)
    requires AllSent(src) && AllArrivals(src, before) && start <= |src| && Orderly(src, start, before)
    requires IsArrival(src, a) && a.frame > start && Near(src, start, before, a) && !Fits(src, before, a)
    requires p == PlayOf(src, start, before) && p' == Step(src, p, a)
    ensures p'.w.stats.framesDropped > 0 || p' == p.(w := p.w.(stats := p.w.stats.(slicesIn := p.w.stats.slicesIn + 1)))
  {
    RunIsExact(src, start, before);
    AllBeyondStart(src, start, before);
    NearIsInReach(src, start, before, a, p);
    NoEntryForFifth(src, start, before, a, p);
    var f, id := Nth(src, a.frame), Wrap32(a.frame);
    NewArrivalFacts(src, p, a);
    FifthClaim(p.w, SliceHeader(f, id, a.slice), Slice(f.data, a.slice));
  }

  /** A slice for a frame without an entry in a full window is refused or costs a pending frame. */
  lemma FifthClaim(w: Window, v: VideoHeader, payload: Bytes)
    requires Shaped(w) && !Stale(w, v.frameId)
    requires forall j :: 0 <= j < MAX_PENDING ==> w.slots[j].Some? && w.slots[j].value.id != v.frameId
    ensures var (w', out) := Feed(w, v, payload);
            || w'.stats.framesDropped > w.stats.framesDropped
            || (w' == w.(stats := w.stats.(slicesIn := w.stats.slicesIn + 1)) && out.None?)
  {
    FullWindowPolicy(w, v);
    FeedOutcome(w, v, payload);
  }

  lemma {:induction false} AllBeyondStart(src: seq<SourceFrame>, start: nat, arrivals: seq<Arrival>)
    requires AllSent(src) && AllArrivals(src, arrivals) && Orderly(src, start, arrivals)
    ensures forall t :: 0 <= t < |arrivals| ==> arrivals[t].frame > start
  {
    if arrivals != [] {
      var n := |arrivals| - 1;
      AllBeyondStart(src, start, arrivals[..n]);
      assert forall t :: 0 <= t < n ==> arrivals[t] == arrivals[..n][t];
    }
  }

  /** The bound is tight: with four newer frames under way, even a single-slice frame that would
      be next in order is refused. */
  lemma FifthFrameIsRefused(w: Window, v: VideoHeader, payload: Bytes, base: u32)
    requires Good(w) && !Stale(w, v.frameId) && ParsedSlice(v, payload)
    requires IdNewer(v.frameId, base) && AllNewer(w.slots, base)
    requires forall j :: 0 <= j < MAX_PENDING ==> w.slots[j].Some? && IdNewer(w.slots[j].value.id, v.frameId)
    ensures Feed(w, v, payload) == (w.(stats := w.stats.(slicesIn := w.stats.slicesIn + 1)), None)
  {
    FullWindowAfterBase(w, v, base);
    FeedOutcome(w, v, payload);
  }
}
