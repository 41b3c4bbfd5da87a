/** What holds of every run of the frame assembler: the window invariant, the meaning of
    "oldest", eviction, conservation of frames and bytes, and the order of deliveries. */
module AssemblerRuns {
  import opened Words
  import opened Wire
  import opened FrameIds
  import opened Reassembly

  // ---------------------------------------------------------------- one step, case by case

  /** The partial frame a slice is stored into. */
  function Target(w: Window, v: VideoHeader): Partial
    requires Shaped(w)
  {
    var c := ClaimFor(w, v);
    if c.Found? then w.slots[c.slot].value else Fresh(v)
  }

  function Next(w: Window, v: VideoHeader, payload: Bytes): Partial
    requires Shaped(w)
  {
    Stored(Target(w, v), v.sliceIndex, payload)
  }

  predicate Ignored(w: Window, v: VideoHeader)
    requires Shaped(w)
  {
    Stale(w, v.frameId) || ClaimFor(w, v).Refused?
  }

  predicate Completes(w: Window, v: VideoHeader, payload: Bytes)
    requires Shaped(w)
  {
    !Ignored(w, v) && Next(w, v, payload) != Target(w, v) && Complete(Next(w, v, payload))
  }

  function Evictions(w: Window, v: VideoHeader): nat
    requires Shaped(w)
  {
    var c := ClaimFor(w, v);
    if c.Opened? && c.evicted then 1 else 0
  }

  /** The count of slices has no bearing on the claim. */
  lemma ClaimCounts(w: Window, v: VideoHeader)
    requires Shaped(w)
    ensures var w1 := w.(stats := w.stats.(slicesIn := w.stats.slicesIn + 1));
            && ClaimFor(w1, v) == ClaimFor(w, v)
            && Claimed(w1, v) == Claimed(w, v).(stats := Claimed(w, v).stats.(slicesIn := w.stats.slicesIn + 1))
  {
  }

  /** Storing into the claimed entry is storing the next state of the target. */
  lemma StoredInClaimed(w: Window, v: VideoHeader, payload: Bytes)
    requires Shaped(w) && !ClaimFor(w, v).Refused?
    ensures var k := ClaimFor(w, v).slot; var p' := Next(w, v, payload); var c := Claimed(w, v);
            && c.slots[k] == Some(Target(w, v)) && Target(w, v).id == v.frameId
            && c.slots[k := Some(p')] == w.slots[k := Some(p')]
            && c.slots[k := Some(p')][k := None] == w.slots[k := None]
            && c.newest == w.newest && c.stats.framesDropped == w.stats.framesDropped + Evictions(w, v)
  {
    var k := ClaimFor(w, v).slot;
    assert Claimed(w, v).slots[k := Some(Next(w, v, payload))] == w.slots[k := Some(Next(w, v, payload))];
  }

  /** The three outcomes of a slice: ignored, collected in one slot, or completing a frame,
      which then is delivered and leaves only strictly newer frames pending. */
  lemma FeedOutcome(w: Window, v: VideoHeader, payload: Bytes)
    requires Shaped(w)
    ensures var (w', out) := Feed(w, v, payload);
            && w'.stats.slicesIn == w.stats.slicesIn + 1
            && (Ignored(w, v) ==>
                  out == None && w' == w.(stats := w'.stats)
                  && w'.stats == w.stats.(slicesIn := w'.stats.slicesIn))
            && (!Ignored(w, v) ==>
                  var k := ClaimFor(w, v).slot;
                  var p' := Next(w, v, payload);
                  && Target(w, v).id == p'.id == v.frameId
                  && out == (if Completes(w, v, payload) then Some(FrameOf(p')) else None)
                  && (out.None? ==>
                        && w'.slots == w.slots[k := Some(p')] && w'.newest == w.newest
                        && w'.stats == w.stats.(slicesIn := w'.stats.slicesIn,
                                                framesDropped := w.stats.framesDropped + Evictions(w, v)))
                  && (out.Some? ==>
                        && w'.slots == Survivors(w.slots[k := None], v.frameId) && w'.newest == Some(v.frameId)
                        && w'.stats == Stats(w.stats.slicesIn + 1, w.stats.framesCompleted + 1,
                                             w.stats.framesDropped + Evictions(w, v)
                                             + Abandoned(w.slots[k := None], v.frameId),
                                             w.stats.bytesCompleted + |out.value.data|)))
  {
    if !Ignored(w, v) {
      ClaimCounts(w, v);
      StoredInClaimed(w, v, payload);
    }
  }

  // ---------------------------------------------------------------- the window invariant

  predicate InProgress(p: Partial) {
    && (exists i :: 0 <= i < |p.chunks| && p.chunks[i].Some?)
    && !Complete(p)
    && forall i :: 0 <= i < |p.chunks| && p.chunks[i].Some? ==> |p.chunks[i].value| <= MAX_SLICE_PAYLOAD
  }

  predicate DistinctIds(slots: seq<Option<Partial>>) {
    forall i, j :: 0 <= i < j < |slots| && slots[i].Some? && slots[j].Some? ==>
      slots[i].value.id != slots[j].value.id
  }

  /** Every pending id is newer than `base`. */
  predicate AllNewer(slots: seq<Option<Partial>>, base: u32) {
    forall i :: 0 <= i < |slots| && slots[i].Some? ==> IdNewer(slots[i].value.id, base)
  }

  /** Pending ids are distinct and newer than the last delivered one, and every pending frame
      has at least one of its slices but not all. */
  predicate Good(w: Window) {
    && Shaped(w)
    && DistinctIds(w.slots)
    && (w.newest.Some? ==> AllNewer(w.slots, w.newest.value))
    && forall i :: 0 <= i < |w.slots| && w.slots[i].Some? ==> InProgress(w.slots[i].value)
  }

  lemma NextInProgress(w: Window, v: VideoHeader, payload: Bytes)
    requires Good(w) && ParsedSlice(v, payload) && !Ignored(w, v) && !Completes(w, v, payload)
    ensures InProgress(Next(w, v, payload))
  {
    var b, p := Target(w, v), Next(w, v, payload);
    assert ClaimFor(w, v).Found? ==> InProgress(b);
    assert ClaimFor(w, v).Opened? ==> b.chunks[v.sliceIndex].None?;
    if p != b {
      assert p.chunks[v.sliceIndex] == Some(payload);
    }
  }

  /** Replacing one entry by a frame in progress under an id that no other entry has. */
  lemma StoreKeepsGood(w: Window, k: nat, p: Partial, w': Window)
    requires Good(w) && k < MAX_PENDING && w'.slots == w.slots[k := Some(p)] && w'.newest == w.newest
    requires InProgress(p) && !Stale(w, p.id)
    requires forall j :: 0 <= j < MAX_PENDING && j != k ==> !Holds(w.slots[j], p.id)
    ensures Good(w')
  {
  }

  /** Emptying one entry and abandoning the frames not newer than `id`. */
  lemma DeliveryKeepsGood(w: Window, k: nat, id: u32, w': Window)
    requires Good(w) && k < MAX_PENDING
    requires w'.slots == Survivors(w.slots[k := None], id) && w'.newest == Some(id)
    ensures Good(w')
  {
  }

  lemma OthersHoldOtherIds(w: Window, v: VideoHeader)
    requires Shaped(w) && DistinctIds(w.slots) && !ClaimFor(w, v).Refused?
    ensures forall j :: 0 <= j < MAX_PENDING && j != ClaimFor(w, v).slot ==> !Holds(w.slots[j], v.frameId)
  {
    var c := ClaimFor(w, v);
    if c.Found? {
      assert w.slots[c.slot].value.id == v.frameId;
    }
  }

  /** The invariant survives every slice the parser lets through. */
  lemma FeedKeepsGood(w: Window, v: VideoHeader, payload: Bytes)
    requires Good(w) && ParsedSlice(v, payload)
    ensures Good(Feed(w, v, payload).0)
  {
    FeedOutcome(w, v, payload);
    var w' := Feed(w, v, payload).0;
    if !Ignored(w, v) {
      var k := ClaimFor(w, v).slot;
      if Completes(w, v, payload) {
        DeliveryKeepsGood(w, k, v.frameId, w');
      } else {
        NextInProgress(w, v, payload);
        OthersHoldOtherIds(w, v);
        StoreKeepsGood(w, k, Next(w, v, payload), w');
      }
    }
  }

  lemma ClaimFindsTheEntry(w: Window, v: VideoHeader, k: nat)
    requires Good(w) && k < MAX_PENDING && Holds(w.slots[k], v.frameId)
    ensures ClaimFor(w, v) == Found(k)
  {
  }

  /** A slice of a pending frame fills its own place, once: a second copy of it, or one beyond the
      slice count the frame was opened with, changes nothing. Identity, time and flags stay those of
      the slice that opened the frame. */
  lemma SliceOfPendingFrame(w: Window, v: VideoHeader, payload: Bytes, k: nat)
    requires Good(w) && !Stale(w, v.frameId) && k < MAX_PENDING && Holds(w.slots[k], v.frameId)
    ensures var (w', out) := Feed(w, v, payload); var p, i := w.slots[k].value, v.sliceIndex;
            var more := if i < |p.chunks| && p.chunks[i].None? then p.chunks[i := Some(payload)] else p.chunks;
            && (out.None? ==> w'.newest == w.newest && w'.slots == w.slots[k := Some(p.(chunks := more))])
            && (out.Some? <==> more != p.chunks && forall j :: 0 <= j < |more| ==> more[j].Some?)
            && (out.Some? ==> out.value == AssembledFrame(p.id, p.timestampMs, p.flags, Join(more)))
  {
    ClaimFindsTheEntry(w, v, k);
    FeedOutcome(w, v, payload);
    var p, i := w.slots[k].value, v.sliceIndex;
    if i < |p.chunks| && p.chunks[i].None? {
      assert p.chunks[i := Some(payload)][i] != p.chunks[i];
    }
  }

  // ---------------------------------------------------------------- oldest and eviction

  /** Slot `o` holds the strict minimum of the first `n`: every other pending frame is newer. */
  predicate IsOldest(slots: seq<Option<Partial>>, n: nat, o: nat)
    requires n <= |slots|
  {
    && o < n && slots[o].Some?
    && forall j :: 0 <= j < n && slots[j].Some? && j != o ==> IdNewer(slots[j].value.id, slots[o].value.id)
  }

  predicate HasOldest(slots: seq<Option<Partial>>, n: nat)
    requires n <= |slots|
  {
    exists o :: 0 <= o < n && IsOldest(slots, n, o)
  }

  lemma {:induction false} ScanFindsMinimum(slots: seq<Option<Partial>>, n: nat, m: nat)
    requires n <= |slots| && IsOldest(slots, n, m)
    ensures Oldest(slots, n) == Some(m)
  {
    if m < n - 1 {
      ScanFindsMinimum(slots, n - 1, m);
      if slots[n - 1].Some? {
        Trichotomy(slots[n - 1].value.id, slots[m].value.id);
      }
    }
  }

  /** The scan finds the strict minimum exactly when there is one: when some pending frame has
      every other pending frame newer than it. */
  lemma OldestIsMinimumIff(slots: seq<Option<Partial>>, n: nat)
    requires n <= |slots|
    ensures var o := Oldest(slots, n); (o.Some? && IsOldest(slots, n, o.value)) <==> HasOldest(slots, n)
  {
    if HasOldest(slots, n) {
      var m :| 0 <= m < n && IsOldest(slots, n, m);
      ScanFindsMinimum(slots, n, m);
    }
  }

  /** Among ids on one half ring there is one, if anything is pending at all. */
  lemma {:induction false} OldestIsMinimum(slots: seq<Option<Partial>>, n: nat, base: u32)
    requires n <= |slots| && AllNewer(slots, base) && DistinctIds(slots)
    ensures var o := Oldest(slots, n);
            o.Some? ==> forall j :: 0 <= j < n && slots[j].Some? && j != o.value ==>
              IdNewer(slots[j].value.id, slots[o.value].value.id)
  {
    if n > 0 {
      OldestIsMinimum(slots, n - 1, base);
      var o := Oldest(slots, n - 1);
      if o.Some? && slots[n - 1].Some? {
        var a, b := slots[o.value].value.id, slots[n - 1].value.id;
        OrderedAfterBase(base, a, b);
        OrderedAfterBase(base, b, a);
        forall j | 0 <= j < n && slots[j].Some?
          ensures IdNewer(a, b) && j < n - 1 ==> IdNewer(slots[j].value.id, b)
        {
          OrderedAfterBase(base, slots[j].value.id, a);
          OrderedAfterBase(base, slots[j].value.id, b);
        }
      }
    }
  }

  /** A slice for a frame not yet pending in a full window replaces the scan's choice if it is
      newer than that, and is refused otherwise. What is replaced is the strict minimum exactly
      when there is one, and then the refused frames are those not newer than it. */
  lemma FullWindowPolicy(w: Window, v: VideoHeader)
    requires Shaped(w)
    requires forall j :: 0 <= j < MAX_PENDING ==> w.slots[j].Some? && w.slots[j].value.id != v.frameId
    ensures var c := ClaimFor(w, v);
            && !c.Found?
            && (c.Opened? ==>
                  && c.evicted && IdNewer(v.frameId, w.slots[c.slot].value.id)
                  && (IsOldest(w.slots, MAX_PENDING, c.slot) <==> HasOldest(w.slots, MAX_PENDING)))
            && forall m :: 0 <= m < MAX_PENDING && IsOldest(w.slots, MAX_PENDING, m) ==>
                 (c.Refused? <==> !IdNewer(v.frameId, w.slots[m].value.id))
  {
    OldestIsMinimumIff(w.slots, MAX_PENDING);
    forall m | 0 <= m < MAX_PENDING && IsOldest(w.slots, MAX_PENDING, m)
      ensures Oldest(w.slots, MAX_PENDING) == Some(m)
    {
      ScanFindsMinimum(w.slots, MAX_PENDING, m);
    }
  }

  /** With all ids on one half ring, a slice for a frame not yet pending in a full window
      either replaces the strictly oldest pending frame, and is newer than it, or is refused
      because it is older than everything pending. */
  lemma FullWindowAfterBase(w: Window, v: VideoHeader, base: u32)
    requires Good(w) && AllNewer(w.slots, base) && IdNewer(v.frameId, base)
    requires forall j :: 0 <= j < MAX_PENDING ==> w.slots[j].Some? && w.slots[j].value.id != v.frameId
    ensures var c := ClaimFor(w, v);
            && (c.Opened? ==>
                  && c.evicted && IdNewer(v.frameId, w.slots[c.slot].value.id)
                  && forall j :: 0 <= j < MAX_PENDING && j != c.slot ==>
                       IdNewer(w.slots[j].value.id, w.slots[c.slot].value.id))
            && (c.Refused? <==> forall j :: 0 <= j < MAX_PENDING ==> IdNewer(w.slots[j].value.id, v.frameId))
            && !c.Found?
  {
    OldestIsMinimum(w.slots, MAX_PENDING, base);
    var o := Oldest(w.slots, MAX_PENDING).value;
    var old_ := w.slots[o].value.id;
    OrderedAfterBase(base, v.frameId, old_);
    forall j | 0 <= j < MAX_PENDING
      ensures IdNewer(old_, v.frameId) ==> IdNewer(w.slots[j].value.id, v.frameId)
    {
      OrderedAfterBase(base, w.slots[j].value.id, old_);
      OrderedAfterBase(base, w.slots[j].value.id, v.frameId);
      OrderedAfterBase(base, old_, v.frameId);
    }
    Trichotomy(v.frameId, old_);
  }

  /** After a delivery the base exists: the id delivered last. */
  lemma EvictionAfterDelivery(w: Window, v: VideoHeader)
    requires Good(w) && w.newest.Some? && !Stale(w, v.frameId)
    requires forall j :: 0 <= j < MAX_PENDING ==> w.slots[j].Some? && w.slots[j].value.id != v.frameId
    ensures var c := ClaimFor(w, v);
            && (c.Opened? ==> forall j :: 0 <= j < MAX_PENDING && j != c.slot ==>
                  IdNewer(w.slots[j].value.id, w.slots[c.slot].value.id))
            && (c.Refused? <==> forall j :: 0 <= j < MAX_PENDING ==> IdNewer(w.slots[j].value.id, v.frameId))
  {
    FullWindowAfterBase(w, v, w.newest.value);
  }

  // ---------------------------------------------------------------- whole runs

  datatype Fed = Fed(v: VideoHeader, payload: Bytes)

  /** The window and the frames delivered, in order, after feeding `fs` to a new assembler. */
  function Run(fs: seq<Fed>): (r: (Window, seq<AssembledFrame>))
    ensures Shaped(r.0)
  {
    if fs == [] then (EMPTY, [])
    else
      var (w, out) := Run(fs[..|fs| - 1]);
      var (w', frame) := Feed(w, fs[|fs| - 1].v, fs[|fs| - 1].payload);
      (w', if frame.Some? then out + [frame.value] else out)
  }

  /** How many frames were ever opened: slices that found no slot and were given one. */
  function OpenedBy(fs: seq<Fed>): nat {
    if fs == [] then 0
    else
      var n := |fs| - 1;
      var w := Run(fs[..n]).0;
      OpenedBy(fs[..n]) + if !Stale(w, fs[n].v.frameId) && ClaimFor(w, fs[n].v).Opened? then 1 else 0
  }

  function TotalBytes(frames: seq<AssembledFrame>): nat {
    if frames == [] then 0 else TotalBytes(frames[..|frames| - 1]) + |frames[|frames| - 1].data|
  }

  predicate SlicesOnly(fs: seq<Fed>) {
    forall i :: 0 <= i < |fs| ==> ParsedSlice(fs[i].v, fs[i].payload)
  }

  lemma {:induction false} RunGood(fs: seq<Fed>)
    requires SlicesOnly(fs)
    ensures Good(Run(fs).0)
  {
    if fs != [] {
      var n := |fs| - 1;
      RunGood(fs[..n]);
      FeedKeepsGood(Run(fs[..n]).0, fs[n].v, fs[n].payload);
    }
  }

  lemma {:induction false} InUseUpdate(slots: seq<Option<Partial>>, k: nat, p: Option<Partial>)
    requires k < |slots|
    ensures InUse(slots[k := p]) + (if slots[k].Some? then 1 else 0) == InUse(slots) + if p.Some? then 1 else 0
  {
    var n := |slots| - 1;
    if k < n {
      InUseUpdate(slots[..n], k, p);
      assert slots[k := p][..n] == slots[..n][k := p];
    } else {
      assert slots[k := p][..n] == slots[..n];
    }
  }

  lemma {:induction false} NoneInUse(slots: seq<Option<Partial>>)
    requires forall i :: 0 <= i < |slots| ==> slots[i].None?
    ensures InUse(slots) == 0
  {
    if slots != [] {
      NoneInUse(slots[..|slots| - 1]);
    }
  }

  /** Delivery abandons what it does not keep. */
  lemma {:induction false} SurvivorsAndAbandoned(slots: seq<Option<Partial>>, id: u32)
    ensures InUse(Survivors(slots, id)) + Abandoned(slots, id) == InUse(slots)
  {
    if slots != [] {
      var n := |slots| - 1;
      SurvivorsAndAbandoned(slots[..n], id);
      assert Survivors(slots, id)[..n] == Survivors(slots[..n], id);
    }
  }

  lemma FeedConserves(w: Window, v: VideoHeader, payload: Bytes)
    requires Shaped(w)
    ensures var (w', out) := Feed(w, v, payload);
            && w'.stats.framesCompleted + w'.stats.framesDropped + InUse(w'.slots)
               == w.stats.framesCompleted + w.stats.framesDropped + InUse(w.slots)
                  + (if !Stale(w, v.frameId) && ClaimFor(w, v).Opened? then 1 else 0)
            && w'.stats.framesCompleted == w.stats.framesCompleted + (if out.Some? then 1 else 0)
            && w'.stats.bytesCompleted == w.stats.bytesCompleted + (if out.Some? then |out.value.data| else 0)
  {
    FeedOutcome(w, v, payload);
    if !Ignored(w, v) {
      var k, p := ClaimFor(w, v).slot, Next(w, v, payload);
      InUseUpdate(w.slots, k, Some(p));
      InUseUpdate(w.slots, k, None);
      SurvivorsAndAbandoned(w.slots[k := None], v.frameId);
    }
  }

  /** Over any run, every frame ever opened is delivered, dropped or still pending, and the
      byte counter is the length of everything delivered. */
  lemma {:induction false} Conservation(fs: seq<Fed>)
    ensures var (w, out) := Run(fs);
            && OpenedBy(fs) == w.stats.framesCompleted + w.stats.framesDropped + InUse(w.slots)
            && w.stats.framesCompleted == |out|
            && w.stats.bytesCompleted == TotalBytes(out)
            && w.stats.slicesIn == |fs|
  {
    if fs == [] {
      NoneInUse(EMPTY.slots);
    } else {
      var n := |fs| - 1;
      Conservation(fs[..n]);
      var (w, out) := Run(fs[..n]);
      FeedConserves(w, fs[n].v, fs[n].payload);
      FeedOutcome(w, fs[n].v, fs[n].payload);
      var frame := Feed(w, fs[n].v, fs[n].payload).1;
      if frame.Some? {
        assert (out + [frame.value])[..|out|] == out;
      }
    }
  }

  lemma DeliveryIsNewer(w: Window, v: VideoHeader, payload: Bytes)
    requires Shaped(w)
    ensures var (w', out) := Feed(w, v, payload);
            && (out.None? ==> w'.newest == w.newest)
            && (out.Some? ==> w'.newest == Some(out.value.frameId)
                              && (w.newest.Some? ==> IdNewer(out.value.frameId, w.newest.value)))
  {
    FeedOutcome(w, v, payload);
  }

  predicate GetNewer(out: seq<AssembledFrame>) {
    forall j :: 0 < j < |out| ==> IdNewer(out[j].frameId, out[j - 1].frameId)
  }

  lemma NewerNext(out: seq<AssembledFrame>, f: AssembledFrame)
    requires GetNewer(out) && (out != [] ==> IdNewer(f.frameId, out[|out| - 1].frameId))
    ensures GetNewer(out + [f])
  {
  }

  /** Each delivered id is newer than the one delivered before it, and the last one is the
      assembler's `newest`: so a frame id is never delivered twice in a row, nor an older one. */
  lemma {:induction false} DeliveriesGetNewer(fs: seq<Fed>)
    ensures var (w, out) := Run(fs);
            && (w.newest.None? <==> out == [])
            && (out != [] ==> w.newest == Some(out[|out| - 1].frameId))
            && GetNewer(out)
  {
    if fs != [] {
      var n := |fs| - 1;
      DeliveriesGetNewer(fs[..n]);
      var (w, out) := Run(fs[..n]);
      DeliveryIsNewer(w, fs[n].v, fs[n].payload);
      var frame := Feed(w, fs[n].v, fs[n].payload).1;
      if frame.Some? {
        NewerNext(out, frame.value);
      }
    }
  }

  /** Some frame is pending, and each pending frame is newer than another one. */
  predicate NoneIsOldest(slots: seq<Option<Partial>>) {
    && (exists o :: 0 <= o < |slots| && slots[o].Some?)
    && forall o :: 0 <= o < |slots| && slots[o].Some? ==>
         exists j :: 0 <= j < |slots| && slots[j].Some? && IdNewer(slots[o].value.id, slots[j].value.id)
  }

  lemma NewerIsNotOldest(slots: seq<Option<Partial>>, o: nat, j: nat)
    requires o < |slots| && j < |slots| && slots[o].Some? && slots[j].Some?
    requires IdNewer(slots[o].value.id, slots[j].value.id)
    ensures !IsOldest(slots, |slots|, o)
  {
    Trichotomy(slots[o].value.id, slots[j].value.id);
  }

  function FirstOfTwo(id: u32): VideoHeader {
    VideoHeader(id, 0, 0, 0, 2, 0)
  }

  /** The entry of a frame of two slices after its first one. */
  function Begun(id: u32): Option<Partial> {
    Some(Partial(id, 0, 0, [Some([]), None]))
  }

  lemma FirstOpened(w: Window)
    requires w == Feed(EMPTY, FirstOfTwo(0), []).0
    ensures Shaped(w) && w.newest.None? && w.slots == [Begun(0), None, None, None]
  {
    FirstSlice(EMPTY, 0, 0);
  }

  lemma SecondOpened(w: Window, w': Window)
    requires Shaped(w) && w.newest.None? && w.slots == [Begun(0), None, None, None]
    requires w' == Feed(w, FirstOfTwo(0xB000_0000), []).0
    ensures Shaped(w') && w'.newest.None? && w'.slots == [Begun(0), Begun(0xB000_0000), None, None]
  {
    FirstSlice(w, 0xB000_0000, 1);
  }

  lemma ThirdOpened(w: Window, w': Window)
    requires Shaped(w) && w.newest.None? && w.slots == [Begun(0), Begun(0xB000_0000), None, None]
    requires w' == Feed(w, FirstOfTwo(0x5800_0000), []).0
    ensures Thirds(w'.slots)
  {
    FirstSlice(w, 0x5800_0000, 2);
  }

  /** Before the first delivery there need be no oldest frame: after the first slices of three
      frames a third of the ring apart, each is newer than another, whatever the scan picks. */
  lemma NoOldestBeforeDelivery()
    ensures var w1 := Feed(EMPTY, FirstOfTwo(0), []).0;
            var w2 := Feed(w1, FirstOfTwo(0xB000_0000), []).0;
            var w3 := Feed(w2, FirstOfTwo(0x5800_0000), []).0;
            NoneIsOldest(w3.slots) && !HasOldest(w3.slots, MAX_PENDING)
  {
    var w1 := Feed(EMPTY, FirstOfTwo(0), []).0;
    var w2 := Feed(w1, FirstOfTwo(0xB000_0000), []).0;
    var w3 := Feed(w2, FirstOfTwo(0x5800_0000), []).0;
    FirstOpened(w1);
    SecondOpened(w1, w2);
    ThirdOpened(w2, w3);
    ThirdsOfTheRing(w3.slots);
    ThirdsHaveNoOldest(w3.slots);
  }

  /** Three frames a third of the ring apart. */
  predicate Thirds(slots: seq<Option<Partial>>) {
    && |slots| == MAX_PENDING && slots[0].Some? && slots[1].Some? && slots[2].Some? && slots[3].None?
    && slots[0].value.id == 0 && slots[1].value.id == 0xB000_0000 && slots[2].value.id == 0x5800_0000
  }

  lemma ThirdsOfTheRing(slots: seq<Option<Partial>>)
    requires Thirds(slots)
    ensures NoneIsOldest(slots)
  {
    assert IdNewer(0, 0xB000_0000) && IdNewer(0xB000_0000, 0x5800_0000) && IdNewer(0x5800_0000, 0);
  }

  lemma ThirdsHaveNoOldest(slots: seq<Option<Partial>>)
    requires Thirds(slots)
    ensures !HasOldest(slots, MAX_PENDING)
  {
    NewerIsNotOldest(slots, 0, 1);
    NewerIsNotOldest(slots, 1, 2);
    NewerIsNotOldest(slots, 2, 0);
  }

  /** The first slice of a two-slice frame, met by a window whose first free slot is `k`. */
  lemma FirstSlice(w: Window, id: u32, k: nat)
    requires Shaped(w) && w.newest.None? && k < MAX_PENDING
    requires forall j :: 0 <= j < k ==> w.slots[j].Some? && w.slots[j].value.id != id
    requires forall j :: k <= j < MAX_PENDING ==> w.slots[j].None?
    ensures var w' := Feed(w, FirstOfTwo(id), []).0;
            w'.newest.None? && w'.slots == w.slots[k := Some(Partial(id, 0, 0, [Some([]), None]))]
  {
    var v := FirstOfTwo(id);
    FeedOutcome(w, v, []);
    assert w.slots[k].None?;
    assert FreeFrom(w.slots, 0) == k && FindFrom(w.slots, id, 0) == MAX_PENDING;
    assert Fresh(v).chunks == [None, None];
    var next := Next(w, v, []);
    assert next.chunks == [Some([]), None];
    assert next.chunks[1].None?;
    assert next == Partial(id, 0, 0, [Some([]), None]);
  }
}
