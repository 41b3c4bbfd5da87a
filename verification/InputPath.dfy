/** The way of an input from the host's hub to the console over a network that loses, repeats
    and reorders bundles: a controller that falls silent is neutral on the console in time. */
module InputPath {
  import opened Words
  import opened Wire
  import opened InputHub
  import opened ConsoleInput

  /** An update the host recorded, under the slot it was recorded for, and when. */
  datatype Recorded = Recorded(state: InputState, time: nat)

  /** A bundle on the network: every copy of it that arrives is one delivery. */
  datatype InFlight = InFlight(dg: Bytes, states: seq<InputState>, sentAt: nat)

  /** Offsets of the two machines' clocks from true time, and the longest delay of a datagram. */
  datatype Setting = Setting(host: nat, console: nat, delay: nat)

  /** Both tables, true time, when the host's loop last read its clock, the history, and when each
      entry of the tables was last written. */
  datatype World = World(
    hub: Table, remote: Remote, clock: nat, hostRead: nat, log: seq<Recorded>, net: seq<InFlight>,
    hubAt: seq<nat>, seenAt: seq<nat>)

  /** A turn of the host's loop reads the clock once; the local controller is recorded and the bundle
      is packed later in the turn, with that reading. The threads that record a client's input and
      take a bundle into the console's table have read their clocks some time before, `late`. */
  datatype Event =
    | Record(elapsed: nat, late: nat, slot: u8, state: InputState)
    | HostTurn(elapsed: nat)
    | RecordLocal(elapsed: nat, state: InputState)
    | Forget(elapsed: nat, slot: u8)
    | HostTick(elapsed: nat, seqNo: u16)
    | Deliver(elapsed: nat, late: nat, k: nat)
    | Goodbye(elapsed: nat, dg: Bytes)

  const START := World(
    NO_INPUT, Remote([NeutralState(0), NeutralState(1), NeutralState(2), NeutralState(3)], [0, 0, 0, 0]),
    0, 0, [], [], [0, 0, 0, 0], [0, 0, 0, 0])

  predicate Shape(w: World) {
    FourSlots(w.remote) && |w.hubAt| == 4 == |w.seenAt|
    && (forall k :: 0 <= k < |w.net| ==> |w.net[k].states| <= MAX_PLAYERS)
  }

  /** The table entries a list of states writes are written at `now`. */
  function Written(seenAt: seq<nat>, states: seq<InputState>, now: nat): (r: seq<nat>)
    requires |seenAt| == 4
    ensures |r| == 4
  {
    if states == [] then seenAt
    else
      var r, slot := Written(seenAt, states[..|states| - 1], now), states[|states| - 1].slot;
      if slot >= MAX_PLAYERS then r else r[slot := now]
  }

  /** What the host records for a slot at a time of its clock. */
  function Recording(at: Setting, w: World, slot: u8, state: InputState, time: nat): World
    requires |w.hubAt| == 4
  {
    if slot >= MAX_PLAYERS then w
    else w.(hub := WithSet(w.hub, slot, state, Wrap32(time + at.host)), hubAt := w.hubAt[slot := time],
            log := w.log + [Recorded(state.(slot := slot), time)])
  }

  /** The bundle packed in a turn that read the clock at `read`: without an active slot nothing is
      sent. */
  function Sends(w: World, read: nat, seqNo: u16, host: nat): (r: seq<InFlight>)
    ensures |r| <= 1 && forall k :: 0 <= k < |r| ==> |r[k].states| <= MAX_PLAYERS
  {
    var nowMs := Wrap32(read + host);
    var active := ActiveStates(w.hub, nowMs, 4);
    if active == [] then [] else [InFlight(BundleDatagram(seqNo, nowMs, active), active, read)]
  }

  /** What a delivery does to the console's table, at a reading of the console's clock. */
  function Delivery(at: Setting, w: World, k: nat, time: nat): (r: World)
    requires Shape(w)
    ensures Shape(r)
  {
    if k >= |w.net| then w
    else w.(remote := AfterDatagram(w.remote, w.net[k].dg, Wrap32(time + at.console)),
            seenAt := Written(w.seenAt, w.net[k].states, time))
  }

  function Earlier(now: nat, late: nat): (r: nat)
    ensures r <= now
  {
    if late <= now then now - late else 0
  }

  function Step(at: Setting, w: World, e: Event): (r: World)
    requires Shape(w)
    ensures Shape(r)
  {
    var now := w.clock + e.elapsed;
    match e
    case Record(_, late, slot, state) => Recording(at, w, slot, state, Earlier(now, late)).(clock := now)
    case HostTurn(_) => w.(clock := now, hostRead := now)
    case RecordLocal(_, state) => Recording(at, w, 0, state, w.hostRead).(clock := now)
    case Forget(_, slot) => w.(clock := now, hub := WithClear(w.hub, slot))
    case HostTick(_, seqNo) => w.(clock := now, net := w.net + Sends(w, w.hostRead, seqNo, at.host))
    case Deliver(_, late, k) => Delivery(at, w.(clock := now), k, Earlier(now, late))
    case Goodbye(_, dg) =>
      if ParseHeader(dg).Some? && ParseHeader(dg).value.kind == PKT_BYE
      then w.(clock := now, remote := AfterDatagram(w.remote, dg, Wrap32(now + at.console)))
      else w.(clock := now)
  }

  function Run(at: Setting, events: seq<Event>): (w: World)
    ensures Shape(w)
  {
    if events == [] then START else Step(at, Run(at, events[..|events| - 1]), events[|events| - 1])
  }

  /** A clock reading and an update of the hub too close for the clock to have wrapped between. */
  predicate SameWrap(read: nat, update: nat) {
    INPUT_TIMEOUT_MS - TWO32 <= read - update < TWO32
  }

  /** What is assumed of the surroundings: the clock is read for a datagram after it was read for
      sending it, and no later than the longest delay after that, and no entry of the hub is a whole
      wrap of the clock away from that reading. */
  predicate Admissible(at: Setting, w: World, e: Event)
    requires Shape(w)
  {
    && (e.Deliver? && e.k < |w.net| ==>
          w.net[e.k].sentAt <= Earlier(w.clock + e.elapsed, e.late) <= w.net[e.k].sentAt + at.delay)
    && (e.HostTick? ==> forall i :: 0 <= i < 4 && w.hub[i].updatedAtMs != 0 ==> SameWrap(w.hostRead, w.hubAt[i]))
  }

  predicate AdmissibleRun(at: Setting, events: seq<Event>) {
    events != [] ==>
      && AdmissibleRun(at, events[..|events| - 1])
      && Admissible(at, Run(at, events[..|events| - 1]), events[|events| - 1])
  }

  /** The host recorded this very state, after `lo` and no later than `hi`. */
  predicate Backed(log: seq<Recorded>, s: InputState, lo: int, hi: int) {
    exists k :: 0 <= k < |log| && log[k].state == s && lo < log[k].time <= hi
  }

  predicate HubBacked(at: Setting, log: seq<Recorded>, s: ControllerState, slot: nat, hubAt: nat) {
    s.updatedAtMs != 0 ==>
      s.updatedAtMs == Wrap32(hubAt + at.host) && s.wire.slot == slot && Backed(log, s.wire, hubAt - 1, hubAt)
  }

  /** A datagram is as good as the states packed in it, whenever it arrives. */
  ghost predicate Carries(dg: Bytes, states: seq<InputState>) {
    forall r: Remote, nowMs: u32 {:trigger AfterDatagram(r, dg, nowMs)} ::
      FourSlots(r) ==> AfterDatagram(r, dg, nowMs) == UpdatedAll(r, states, nowMs)
  }

  ghost predicate SentBacked(log: seq<Recorded>, f: InFlight) {
    && Carries(f.dg, f.states)
    && (forall j :: 0 <= j < |f.states| ==> Backed(log, f.states[j], f.sentAt - INPUT_TIMEOUT_MS, f.sentAt))
  }

  predicate SeenBacked(at: Setting, log: seq<Recorded>, s: InputState, updatedAtMs: u32, slot: nat, seenAt: nat) {
    updatedAtMs != 0 ==>
      && updatedAtMs == Wrap32(seenAt + at.console) && s.slot == slot
      && Backed(log, s, seenAt - INPUT_TIMEOUT_MS - at.delay, seenAt)
  }

  predicate HubOk(at: Setting, log: seq<Recorded>, hub: Table, hubAt: seq<nat>, clock: nat) {
    |hubAt| == 4 && forall i :: 0 <= i < 4 ==> hubAt[i] <= clock && HubBacked(at, log, hub[i], i, hubAt[i])
  }

  ghost predicate NetOk(log: seq<Recorded>, net: seq<InFlight>, clock: nat) {
    forall k :: 0 <= k < |net| ==> net[k].sentAt <= clock && SentBacked(log, net[k])
  }

  predicate RemoteOk(at: Setting, log: seq<Recorded>, r: Remote, seenAt: seq<nat>, clock: nat) {
    FourSlots(r) && |seenAt| == 4 &&
    forall i :: 0 <= i < 4 ==> seenAt[i] <= clock && SeenBacked(at, log, r.states[i], r.updatedAtMs[i], i, seenAt[i])
  }

  ghost predicate Inv(at: Setting, w: World) {
    && w.hostRead <= w.clock && HubOk(at, w.log, w.hub, w.hubAt, w.clock)
    && NetOk(w.log, w.net, w.clock)
    && RemoteOk(at, w.log, w.remote, w.seenAt, w.clock)
  }

  /** A longer log backs whatever a shorter one does. */
  lemma LogGrows(log: seq<Recorded>, r: Recorded, s: InputState, lo: int, hi: int)
    requires Backed(log, s, lo, hi)
    ensures Backed(log + [r], s, lo, hi)
  {
    var k :| 0 <= k < |log| && log[k].state == s && lo < log[k].time <= hi;
    assert (log + [r])[k] == log[k];
  }

  lemma RecordingKeepsInv(at: Setting, w: World, slot: u8, state: InputState, time: nat)
    requires Shape(w) && Inv(at, w) && time <= w.clock
    ensures Inv(at, Recording(at, w, slot, state, time))
  {
    if slot < MAX_PLAYERS {
      var r := Recorded(state.(slot := slot), time);
      var w' := Recording(at, w, slot, state, time);
      assert w'.log[|w.log|] == r;
      forall i | 0 <= i < 4
        ensures HubBacked(at, w'.log, w'.hub[i], i, w'.hubAt[i])
        ensures SeenBacked(at, w'.log, w.remote.states[i], w.remote.updatedAtMs[i], i, w.seenAt[i])
      {
        if w.hub[i].updatedAtMs != 0 { LogGrows(w.log, r, w.hub[i].wire, w.hubAt[i] as int - 1, w.hubAt[i]); }
        if w.remote.updatedAtMs[i] != 0 {
          LogGrows(w.log, r, w.remote.states[i], w.seenAt[i] - INPUT_TIMEOUT_MS - at.delay, w.seenAt[i]);
        }
      }
      forall k | 0 <= k < |w.net|
        ensures SentBacked(w'.log, w.net[k])
      {
        SentStaysBacked(w.log, r, w.net[k]);
      }
    }
  }

  /** Time passing keeps everything. */
  lemma LaterKeepsInv(at: Setting, w: World, now: nat)
    requires Inv(at, w) && w.clock <= now
    ensures Inv(at, w.(clock := now))
  {
  }

  lemma RecordKeepsInv(at: Setting, w: World, e: Event, now: nat)
    requires Shape(w) && Inv(at, w) && (e.Record? || e.RecordLocal?) && now == w.clock + e.elapsed
    ensures Inv(at, Step(at, w, e))
  {
    var later := w.(clock := now);
    LaterKeepsInv(at, w, now);
    if e.Record? {
      RecordingKeepsInv(at, later, e.slot, e.state, Earlier(now, e.late));
    } else {
      RecordingKeepsInv(at, later, 0, e.state, w.hostRead);
    }
  }

  lemma SentStaysBacked(log: seq<Recorded>, r: Recorded, f: InFlight)
    requires SentBacked(log, f)
    ensures SentBacked(log + [r], f)
  {
    forall j | 0 <= j < |f.states|
      ensures Backed(log + [r], f.states[j], f.sentAt - INPUT_TIMEOUT_MS, f.sentAt)
    {
      LogGrows(log, r, f.states[j], f.sentAt - INPUT_TIMEOUT_MS, f.sentAt);
    }
  }

  /** A wider window backs whatever a narrower one does. */
  lemma Widen(log: seq<Recorded>, s: InputState, lo: int, hi: int, lo': int, hi': int)
    requires Backed(log, s, lo, hi) && lo' <= lo && hi <= hi'
    ensures Backed(log, s, lo', hi')
  {
    var k :| 0 <= k < |log| && log[k].state == s && lo < log[k].time <= hi;
    assert log[k].state == s;
  }

  /** A hub entry active at a reading was recorded in the second before it. */
  lemma ActiveIsBacked(at: Setting, w: World, read: nat, slot: nat)
    requires Inv(at, w) && slot < 4 && SameWrap(read, w.hubAt[slot])
    requires Active(w.hub[slot], Wrap32(read + at.host))
    ensures Backed(w.log, w.hub[slot].wire, read - INPUT_TIMEOUT_MS, read)
  {
    assert HubBacked(at, w.log, w.hub[slot], slot, w.hubAt[slot]);
    ActiveWithinOneWrap(w.hub[slot].wire, w.hubAt[slot] + at.host, read + at.host);
    Widen(w.log, w.hub[slot].wire, w.hubAt[slot] as int - 1, w.hubAt[slot], read - INPUT_TIMEOUT_MS, read);
  }

  lemma HubIsAuthoritative(at: Setting, w: World)
    requires Inv(at, w)
    ensures Authoritative(w.hub)
  {
    forall i | 0 <= i < 4 && w.hub[i].updatedAtMs != 0
      ensures w.hub[i].wire.slot == i
    {
      assert HubBacked(at, w.log, w.hub[i], i, w.hubAt[i]);
    }
  }

  lemma BundledIsBacked(at: Setting, w: World, read: nat, s: InputState)
    requires Inv(at, w) && s in ActiveStates(w.hub, Wrap32(read + at.host), 4)
    requires forall i :: 0 <= i < 4 && w.hub[i].updatedAtMs != 0 ==> SameWrap(read, w.hubAt[i])
    ensures Backed(w.log, s, read - INPUT_TIMEOUT_MS, read)
  {
    HubIsAuthoritative(at, w);
    BundledSlotsAscend(w.hub, Wrap32(read + at.host), 4);
    ActiveIsBacked(at, w, read, s.slot);
  }

  lemma PackedCarries(seqNo: u16, timestampMs: u32, states: seq<InputState>)
    requires |states| <= MAX_PLAYERS
    ensures Carries(BundleDatagram(seqNo, timestampMs, states), states)
  {
    forall r: Remote, nowMs: u32 | FourSlots(r)
      ensures AfterDatagram(r, BundleDatagram(seqNo, timestampMs, states), nowMs) == UpdatedAll(r, states, nowMs)
    {
      DatagramCarries(r, seqNo, timestampMs, states, nowMs);
    }
  }

  lemma SendIsBacked(at: Setting, w: World, e: Event, f: InFlight)
    requires Shape(w) && Inv(at, w) && e.HostTick? && Admissible(at, w, e)
    requires f in Sends(w, w.hostRead, e.seqNo, at.host)
    ensures f.sentAt == w.hostRead && SentBacked(w.log, f)
  {
    var now := w.hostRead;
    PackedCarries(e.seqNo, Wrap32(now + at.host), f.states);
    forall j | 0 <= j < |f.states|
      ensures Backed(w.log, f.states[j], now - INPUT_TIMEOUT_MS, now)
    {
      BundledIsBacked(at, w, now, f.states[j]);
    }
  }

  lemma HostTickKeepsInv(at: Setting, w: World, e: Event)
    requires Shape(w) && Inv(at, w) && e.HostTick? && Admissible(at, w, e)
    ensures Inv(at, Step(at, w, e))
  {
    var sends := Sends(w, w.hostRead, e.seqNo, at.host);
    if sends != [] {
      SendIsBacked(at, w, e, sends[0]);
    }
  }

  /** One entry of the console's table after some states have been written at `now`. */
  lemma {:induction false} WrittenIsBacked(at: Setting, log: seq<Recorded>, r: Remote, seenAt: seq<nat>,
                                           states: seq<InputState>, now: nat, clock: nat, slot: nat)
    requires FourSlots(r) && |seenAt| == 4 && slot < 4 && seenAt[slot] <= clock && now <= clock
    requires SeenBacked(at, log, r.states[slot], r.updatedAtMs[slot], slot, seenAt[slot])
    requires forall j :: 0 <= j < |states| ==> Backed(log, states[j], now - INPUT_TIMEOUT_MS - at.delay, now)
    ensures var r' := UpdatedAll(r, states, Wrap32(now + at.console)); var seen := Written(seenAt, states, now)[slot];
            seen <= clock && SeenBacked(at, log, r'.states[slot], r'.updatedAtMs[slot], slot, seen)
  {
    if states != [] {
      var rest := states[..|states| - 1];
      forall j | 0 <= j < |rest|
        ensures Backed(log, rest[j], now - INPUT_TIMEOUT_MS - at.delay, now)
      {
        assert rest[j] == states[j];
      }
      WrittenIsBacked(at, log, r, seenAt, rest, now, clock, slot);
      assert Backed(log, states[|states| - 1], now - INPUT_TIMEOUT_MS - at.delay, now);
    }
  }

  lemma DeliveredIsBacked(at: Setting, log: seq<Recorded>, r: Remote, seenAt: seq<nat>, f: InFlight, now: nat,
                          clock: nat, slot: nat)
    requires FourSlots(r) && |seenAt| == 4 && slot < 4 && seenAt[slot] <= clock && now <= clock
    requires SentBacked(log, f) && f.sentAt <= now <= f.sentAt + at.delay
    requires SeenBacked(at, log, r.states[slot], r.updatedAtMs[slot], slot, seenAt[slot])
    ensures var r' := AfterDatagram(r, f.dg, Wrap32(now + at.console));
            var seen := Written(seenAt, f.states, now)[slot];
            seen <= clock && SeenBacked(at, log, r'.states[slot], r'.updatedAtMs[slot], slot, seen)
  {
    forall j | 0 <= j < |f.states|
      ensures Backed(log, f.states[j], now - INPUT_TIMEOUT_MS - at.delay, now)
    {
      Widen(log, f.states[j], f.sentAt - INPUT_TIMEOUT_MS, f.sentAt, now - INPUT_TIMEOUT_MS - at.delay, now);
    }
    WrittenIsBacked(at, log, r, seenAt, f.states, now, clock, slot);
  }

  lemma DeliverKeepsRemote(at: Setting, log: seq<Recorded>, r: Remote, seenAt: seq<nat>, f: InFlight, now: nat,
                           clock: nat)
    requires RemoteOk(at, log, r, seenAt, clock) && SentBacked(log, f)
    requires now <= clock && f.sentAt <= now <= f.sentAt + at.delay
    ensures RemoteOk(at, log, AfterDatagram(r, f.dg, Wrap32(now + at.console)), Written(seenAt, f.states, now), clock)
  {
    forall i | 0 <= i < 4
      ensures var r' := AfterDatagram(r, f.dg, Wrap32(now + at.console)); var seen := Written(seenAt, f.states, now)[i];
              seen <= clock && SeenBacked(at, log, r'.states[i], r'.updatedAtMs[i], i, seen)
    {
      DeliveredIsBacked(at, log, r, seenAt, f, now, clock, i);
    }
  }

  lemma OnlyRemoteChanges(at: Setting, w: World, w': World)
    requires Inv(at, w) && w' == w.(remote := w'.remote, seenAt := w'.seenAt)
    requires RemoteOk(at, w.log, w'.remote, w'.seenAt, w.clock)
    ensures Inv(at, w')
  {
  }

  lemma DeliveryKeepsInv(at: Setting, w: World, k: nat, time: nat)
    requires Shape(w) && Inv(at, w) && time <= w.clock
    requires k < |w.net| ==> w.net[k].sentAt <= time <= w.net[k].sentAt + at.delay
    ensures Inv(at, Delivery(at, w, k, time))
  {
    if k < |w.net| {
      var f := w.net[k];
      assert SentBacked(w.log, f);
      DeliverKeepsRemote(at, w.log, w.remote, w.seenAt, f, time, w.clock);
      OnlyRemoteChanges(at, w, Delivery(at, w, k, time));
    }
  }

  lemma DeliverKeepsInv(at: Setting, w: World, e: Event, now: nat)
    requires Shape(w) && Inv(at, w) && e.Deliver? && Admissible(at, w, e) && now == w.clock + e.elapsed
    ensures Inv(at, Step(at, w, e))
  {
    LaterKeepsInv(at, w, now);
    DeliveryKeepsInv(at, w.(clock := now), e.k, Earlier(now, e.late));
  }

  lemma OtherStepKeepsInv(at: Setting, w: World, e: Event)
    requires Shape(w) && Inv(at, w) && (e.Forget? || e.Goodbye? || e.HostTurn?)
    ensures Inv(at, Step(at, w, e))
  {
  }

  lemma {:induction false} RunKeepsInv(at: Setting, events: seq<Event>)
    requires AdmissibleRun(at, events)
    ensures Inv(at, Run(at, events))
  {
    if events != [] {
      var w, e := Run(at, events[..|events| - 1]), events[|events| - 1];
      RunKeepsInv(at, events[..|events| - 1]);
      match e
      case Record(elapsed, _, _, _) => RecordKeepsInv(at, w, e, w.clock + elapsed);
      case RecordLocal(elapsed, _) => RecordKeepsInv(at, w, e, w.clock + elapsed);
      case HostTurn(_) => OtherStepKeepsInv(at, w, e);
      case HostTick(_, _) => HostTickKeepsInv(at, w, e);
      case Deliver(_, _, _) => DeliverKeepsInv(at, w, e, w.clock + e.elapsed);
      case Forget(_, _) => OtherStepKeepsInv(at, w, e);
      case Goodbye(_, _) => OtherStepKeepsInv(at, w, e);
    }
  }

  lemma FreshIsBacked(at: Setting, log: seq<Recorded>, s: InputState, updatedAtMs: u32, slot: nat, seen: nat, now: nat)
    requires SeenBacked(at, log, s, updatedAtMs, slot, seen) && updatedAtMs != 0 && SameWrap(now, seen)
    requires Sub32(Wrap32(now + at.console), updatedAtMs) < INPUT_TIMEOUT_MS
    ensures s.slot == slot && Backed(log, s, now - 2 * INPUT_TIMEOUT_MS - at.delay, now)
  {
    ActiveWithinOneWrap(s, seen + at.console, now + at.console);
    Widen(log, s, seen - INPUT_TIMEOUT_MS - at.delay, seen, now - 2 * INPUT_TIMEOUT_MS - at.delay, now);
  }

  /** Two-stage neutralisation. Whenever the console would inject a slot, what it injects is a
      state that the host recorded for that very slot, less than two timeouts and one network delay
      ago. (The console's entry must not itself be a whole wrap of the clock away from `now`, the
      reading of the reader, which may be older than the entry.) */
  lemma InjectedInputIsRecent(at: Setting, events: seq<Event>, slot: u8, now: nat, w: World)
    requires AdmissibleRun(at, events) && w == Run(at, events) && slot < MAX_PLAYERS
    requires SameWrap(now, w.seenAt[slot])
    requires Fresh(w.remote, slot, Wrap32(now + at.console))
    ensures w.remote.states[slot].slot == slot
    ensures Backed(w.log, w.remote.states[slot], now - 2000 - at.delay, now)
  {
    RunKeepsInv(at, events);
    FreshIsBacked(at, w.log, w.remote.states[slot], w.remote.updatedAtMs[slot], slot, w.seenAt[slot], now);
  }
}
