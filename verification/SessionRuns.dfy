/** Whole runs of the lobby: who owns a slot, whose input a slot shows, and when silence ends a
    membership. */
module SessionRuns {
  import opened Words
  import opened Wire
  import opened InputHub
  import opened SessionServer

  /** A turn of the loop starts with a tick and may go on with one datagram; the host's own
      controller is set from another thread at any time. */
  datatype Event =
    | Tick(elapsed: nat)
    | Arrival(elapsed: nat, from: Endpoint, version: u8, packet: Packet)
    | Local(state: InputState)

  /** The lobby, the clock before wrapping, the time of the last tick, and when each client was
      last heard from. */
  datatype World = World(lobby: Lobby, lastSweepMs: u32, clock: nat, ticked: nat, heard: seq<nat>)

  /** After the first tick of the loop, which finds no clients. */
  function Start(bootTime: nat): World {
    var (l, sweep) := AfterTick(Lobby(seq(3, _ => Client(false, Endpoint(0, 0), 0)), NO_INPUT), 0, Wrap32(bootTime));
    World(l, sweep, bootTime, bootTime, [0, 0, 0])
  }

  /** The client whose silence a datagram ends. */
  function Hears(clients: Clients, from: Endpoint, version: u8, packet: Packet): Option<nat> {
    if version != PROTO_VERSION then None
    else match packet
         case Hello(role) => if role == Some(ROLE_CLIENT) then SlotFor(clients, from) else None
         case Input(_) => FindBySender(clients, from)
         case Ping(_) => FindBySender(clients, from)
         case Bye => None
         case Other => None
  }

  function Step(w: World, e: Event): World
    requires |w.heard| == 3
  {
    match e
    case Tick(elapsed) =>
      var now := w.clock + elapsed;
      var (l, sweep) := AfterTick(w.lobby, w.lastSweepMs, Wrap32(now));
      World(l, sweep, now, now, w.heard)
    case Arrival(elapsed, from, version, packet) =>
      var now := w.clock + elapsed;
      var i := Hears(w.lobby.clients, from, version, packet);
      w.(lobby := AfterPacket(w.lobby, from, version, packet, Wrap32(now)).0, clock := now,
         heard := if i.Some? then w.heard[i.value := now] else w.heard)
    case Local(state) =>
      w.(lobby := w.lobby.(hub := WithSet(w.lobby.hub, 0, state, Wrap32(w.clock))))
  }

  function Run(bootTime: nat, events: seq<Event>): (w: World)
    ensures |w.heard| == 3
  {
    if events == [] then Start(bootTime)
    else Step(Run(bootTime, events[..|events| - 1]), events[|events| - 1])
  }

  // ---------------------------------------------------------------- ownership

  predicate Neutral(s: ControllerState) {
    s.updatedAtMs == 0 && ShowsNothing(s.wire)
  }

  /** The endpoints in use are pairwise distinct, and a slot nobody owns shows no input. */
  predicate LobbyOk(l: Lobby) {
    && (forall i, j :: 0 <= i < j < 3 && l.clients[i].used && l.clients[j].used ==> l.clients[i].ep != l.clients[j].ep)
    && (forall i :: 0 <= i < 3 && !l.clients[i].used ==> Neutral(l.hub[i + 1]))
  }

  lemma DropKeepsLobby(l: Lobby, i: nat)
    requires LobbyOk(l) && i < 3
    ensures LobbyOk(Dropped(l, i))
  {
  }

  lemma TickKeepsLobby(l: Lobby, lastSweepMs: u32, nowMs: u32)
    requires LobbyOk(l)
    ensures LobbyOk(AfterTick(l, lastSweepMs, nowMs).0)
  {
    DropKeepsLobby(l, 0);
    var l1 := SweepOne(l, 0, nowMs);
    DropKeepsLobby(l1, 1);
    DropKeepsLobby(SweepOne(l1, 1, nowMs), 2);
  }

  lemma HelloKeepsLobby(l: Lobby, from: Endpoint, role: u8, nowMs: u32)
    requires LobbyOk(l)
    ensures LobbyOk(AfterHello(l, from, role, nowMs).0)
  {
  }

  lemma PacketKeepsLobby(l: Lobby, from: Endpoint, version: u8, packet: Packet, nowMs: u32)
    requires LobbyOk(l)
    ensures LobbyOk(AfterPacket(l, from, version, packet, nowMs).0)
  {
    if packet.Hello? && packet.role.Some? {
      HelloKeepsLobby(l, from, packet.role.value, nowMs);
    } else if packet.Bye? && FindBySender(l.clients, from).Some? {
      DropKeepsLobby(l, FindBySender(l.clients, from).value);
    }
  }

  lemma LocalKeepsLobby(l: Lobby, state: InputState, nowMs: u32)
    requires LobbyOk(l)
    ensures LobbyOk(l.(hub := WithSet(l.hub, 0, state, nowMs)))
  {
  }

  lemma TickStepKeepsLobby(w: World, e: Event)
    requires |w.heard| == 3 && LobbyOk(w.lobby) && e.Tick?
    ensures LobbyOk(Step(w, e).lobby)
  {
    TickKeepsLobby(w.lobby, w.lastSweepMs, Wrap32(w.clock + e.elapsed));
  }

  lemma ArrivalStepKeepsLobby(w: World, e: Event)
    requires |w.heard| == 3 && LobbyOk(w.lobby) && e.Arrival?
    ensures LobbyOk(Step(w, e).lobby)
  {
    PacketKeepsLobby(w.lobby, e.from, e.version, e.packet, Wrap32(w.clock + e.elapsed));
  }

  lemma StepKeepsLobby(w: World, e: Event)
    requires |w.heard| == 3 && LobbyOk(w.lobby)
    ensures LobbyOk(Step(w, e).lobby)
  {
    match e
    case Tick(_) => TickStepKeepsLobby(w, e);
    case Arrival(_, _, _, _) => ArrivalStepKeepsLobby(w, e);
    case Local(state) => LocalKeepsLobby(w.lobby, state, Wrap32(w.clock));
  }

  lemma {:induction false} RunKeepsLobby(bootTime: nat, events: seq<Event>)
    ensures LobbyOk(Run(bootTime, events).lobby)
  {
    if events != [] {
      RunKeepsLobby(bootTime, events[..|events| - 1]);
      StepKeepsLobby(Run(bootTime, events[..|events| - 1]), events[|events| - 1]);
    }
  }

  // ---------------------------------------------------------------- the hub names its slots

  lemma DropKeepsAuthority(l: Lobby, i: nat)
    requires i < 3 && Authoritative(l.hub)
    ensures Authoritative(Dropped(l, i).hub)
  {
    AuthorityIsKept(l.hub, i + 1, NeutralState(0), 0);
  }

  lemma TickKeepsAuthority(l: Lobby, lastSweepMs: u32, nowMs: u32)
    requires Authoritative(l.hub)
    ensures Authoritative(AfterTick(l, lastSweepMs, nowMs).0.hub)
  {
    DropKeepsAuthority(l, 0);
    var l1 := SweepOne(l, 0, nowMs);
    DropKeepsAuthority(l1, 1);
    DropKeepsAuthority(SweepOne(l1, 1, nowMs), 2);
  }

  lemma PacketKeepsAuthority(l: Lobby, from: Endpoint, version: u8, packet: Packet, nowMs: u32)
    requires Authoritative(l.hub)
    ensures Authoritative(AfterPacket(l, from, version, packet, nowMs).0.hub)
  {
    PacketIsOneHubUpdate(l, from, version, packet, nowMs);
    var state := if packet.Input? then packet.state else NeutralState(0);
    AuthorityIsKept(l.hub, 1, state, nowMs);
    AuthorityIsKept(l.hub, 2, state, nowMs);
    AuthorityIsKept(l.hub, 3, state, nowMs);
  }

  /** In every reachable lobby an active slot of the hub names itself, whatever slots the clients
      claimed; so the console agrees with the hub after every bundle. */
  lemma {:induction false} RunKeepsAuthority(bootTime: nat, events: seq<Event>)
    ensures Authoritative(Run(bootTime, events).lobby.hub)
  {
    if events != [] {
      var w, e := Run(bootTime, events[..|events| - 1]), events[|events| - 1];
      RunKeepsAuthority(bootTime, events[..|events| - 1]);
      match e
      case Tick(elapsed) => TickKeepsAuthority(w.lobby, w.lastSweepMs, Wrap32(w.clock + elapsed));
      case Arrival(elapsed, from, version, packet) =>
        PacketKeepsAuthority(w.lobby, from, version, packet, Wrap32(w.clock + elapsed));
      case Local(state) => AuthorityIsKept(w.lobby.hub, 0, state, Wrap32(w.clock));
    }
  }

  predicate Joined(l: Lobby, ep: Endpoint) {
    exists i :: 0 <= i < 3 && Owns(l.clients[i], ep)
  }

  /** In every reachable lobby a current-version HELLO is answered FULL exactly when it comes from
      a client that is not joined while all three slots are taken; REJECTED exactly when it does
      not come from a client; otherwise the sender owns the slot it is told, the one it had
      before if it was joined and the first free one if it was not, and no other slot changes. */
  lemma HelloOutcome(bootTime: nat, events: seq<Event>, l: Lobby, from: Endpoint, role: u8, nowMs: u32)
    requires l == Run(bootTime, events).lobby
    ensures var (l', reply) := AfterPacket(l, from, PROTO_VERSION, Hello(Some(role)), nowMs);
            && reply.HelloAck? && reply.status != VersionMismatch
            && (reply.status == Rejected <==> role != ROLE_CLIENT)
            && (reply.status == Full <==>
                  role == ROLE_CLIENT && !Joined(l, from) && forall i :: 0 <= i < 3 ==> l.clients[i].used)
            && (reply.status != Accepted ==> l' == l && reply.slot == NO_SLOT)
            && (reply.status == Accepted ==>
                  && 1 <= reply.slot <= 3 && l'.clients[reply.slot - 1] == Client(true, from, nowMs) && l'.hub == l.hub
                  && (Joined(l, from) ==> Owns(l.clients[reply.slot - 1], from))
                  && (!Joined(l, from) ==> !l.clients[reply.slot - 1].used
                                           && forall j :: 0 <= j < reply.slot - 1 ==> l.clients[j].used)
                  && forall j :: 0 <= j < 3 && j != reply.slot - 1 ==> l'.clients[j] == l.clients[j])
  {
    RunKeepsLobby(bootTime, events);
    HelloCases(l, from, role, nowMs);
  }

  lemma HelloCases(l: Lobby, from: Endpoint, role: u8, nowMs: u32)
    requires LobbyOk(l)
    ensures Joined(l, from) <==> FindBySender(l.clients, from).Some?
  {
  }

  /** An owner keeps its slot at every step, and never gets a second one; it loses the slot only
      by its own goodbye or in a tick. */
  lemma OwnerKeepsSlot(l: Lobby, from: Endpoint, version: u8, packet: Packet, nowMs: u32, i: nat, ep: Endpoint)
    requires LobbyOk(l) && i < 3 && Owns(l.clients[i], ep)
    ensures var l' := AfterPacket(l, from, version, packet, nowMs).0;
            && (forall j :: 0 <= j < 3 && j != i ==> !Owns(l'.clients[j], ep))
            && (Owns(l'.clients[i], ep) <==> !(version == PROTO_VERSION && packet.Bye? && from == ep))
  {
  }

  /** The answer to every datagram, and that one of another version changes nothing. */
  lemma AnswersIff(l: Lobby, from: Endpoint, version: u8, packet: Packet, nowMs: u32)
    ensures Answers(version, packet, AfterPacket(l, from, version, packet, nowMs).1)
    ensures version != 1 ==> AfterPacket(l, from, version, packet, nowMs).0 == l
  {
    if version == 1 && packet.Hello? && packet.role.Some? {
      HelloAnswers(l, from, packet.role.value, nowMs);
    }
  }

  lemma HelloAnswers(l: Lobby, from: Endpoint, role: u8, nowMs: u32)
    ensures var reply := AfterHello(l, from, role, nowMs).1; reply.HelloAck? && reply.status != VersionMismatch
  {
  }

  /** A datagram makes a client count as heard from exactly when it is the client's own HELLO, input
      or PING of this version; nothing else changes the entry of a client that stays. */
  lemma HeardExactly(l: Lobby, from: Endpoint, version: u8, packet: Packet, nowMs: u32, i: nat)
    requires LobbyOk(l) && i < 3 && l.clients[i].used
    ensures var c, c' := l.clients[i], AfterPacket(l, from, version, packet, nowMs).0.clients[i];
            var speaks := version == 1 && from == c.ep
                          && (packet == Hello(Some(2)) || packet.Input? || packet.Ping?);
            && (speaks <==> Hears(l.clients, from, version, packet) == Some(i))
            && (speaks ==> c' == Client(true, from, nowMs))
            && (!speaks && c'.used ==> c' == c)
  {
  }

  /** What one datagram does to slot `i + 1`: its owner's input sets it, otherwise it is untouched
      while the owner stays, and it is neutral for a new owner or none. */
  lemma PacketOnSlot(l: Lobby, from: Endpoint, version: u8, packet: Packet, nowMs: u32, i: nat)
    requires LobbyOk(l) && i < 3
    ensures var l' := AfterPacket(l, from, version, packet, nowMs).0; var c, c' := l.clients[i], l'.clients[i];
            if version == PROTO_VERSION && packet.Input? && Owns(c, from)
            then Owns(c', from) && l'.hub[i + 1] == ControllerState(packet.state.(slot := i + 1), nowMs)
            else if c.used && c'.used then c'.ep == c.ep && l'.hub[i + 1] == l.hub[i + 1]
            else Neutral(l'.hub[i + 1])
  {
  }

  /** Towards the hub, a datagram is at most one update of its sender's slot with the state it
      carries, or the clearing of one slot. */
  lemma PacketIsOneHubUpdate(l: Lobby, from: Endpoint, version: u8, packet: Packet, nowMs: u32)
    ensures var hub := AfterPacket(l, from, version, packet, nowMs).0.hub;
            || hub == l.hub
            || (packet.Input? && exists i: nat ::
                  i < 3 && Owns(l.clients[i], from) && hub == WithSet(l.hub, i + 1, packet.state, nowMs))
            || (packet.Bye? && exists i: nat ::
                  i < 3 && Owns(l.clients[i], from) && hub == WithClear(l.hub, i + 1))
  {
  }

  lemma TickOnSlot(l: Lobby, lastSweepMs: u32, nowMs: u32, i: nat)
    requires LobbyOk(l) && i < 3
    ensures var l' := AfterTick(l, lastSweepMs, nowMs).0; var c, c' := l.clients[i], l'.clients[i];
            && (c'.used ==> c' == c && l'.hub[i + 1] == l.hub[i + 1])
            && (!c'.used ==> Neutral(l'.hub[i + 1]))
            && (c'.used <==> c.used && !(Sub32(nowMs, lastSweepMs) >= SWEEP_MS && TimedOut(c, nowMs)))
            && l'.hub[0] == l.hub[0]
  {
    TickKeepsLobby(l, lastSweepMs, nowMs);
  }

  /** The last input of a slot's present owner, carried over one event. */
  function NextLast(before: Client, after: Client, e: Event, nowMs: u32,
                    last: Option<(InputState, u32)>): Option<(InputState, u32)> {
    if !before.used || !after.used then None
    else if e.Arrival? && e.version == PROTO_VERSION && e.packet.Input? && e.from == after.ep
    then Some((e.packet.state, nowMs))
    else last
  }

  /** The last input the present owner of a slot has sent since it joined, by the history of
      ownership and arrivals alone. */
  function LastInput(bootTime: nat, events: seq<Event>, i: nat): Option<(InputState, u32)>
    requires i < 3
  {
    if events == [] then None
    else
      var rest := events[..|events| - 1];
      var before, after := Run(bootTime, rest), Run(bootTime, events);
      NextLast(before.lobby.clients[i], after.lobby.clients[i], events[|events| - 1], Wrap32(after.clock),
               LastInput(bootTime, rest, i))
  }

  predicate Shows(s: ControllerState, slot: u8, last: Option<(InputState, u32)>) {
    match last
    case None => Neutral(s)
    case Some((state, at)) => s == ControllerState(state.(slot := slot), at)
  }

  lemma ArrivalOnSlot(w: World, e: Event, i: nat, last: Option<(InputState, u32)>, w': World)
    requires |w.heard| == 3 && LobbyOk(w.lobby) && i < 3 && Shows(w.lobby.hub[i + 1], i + 1, last)
    requires e.Arrival? && w' == Step(w, e)
    ensures Shows(w'.lobby.hub[i + 1], i + 1,
                  NextLast(w.lobby.clients[i], w'.lobby.clients[i], e, Wrap32(w'.clock), last))
  {
    PacketOnSlot(w.lobby, e.from, e.version, e.packet, Wrap32(w.clock + e.elapsed), i);
  }

  /** A tick either leaves a slot alone or frees it. */
  lemma TickShows(l: Lobby, lastSweepMs: u32, nowMs: u32, i: nat, last: Option<(InputState, u32)>, l': Lobby)
    requires LobbyOk(l) && i < 3 && Shows(l.hub[i + 1], i + 1, last) && l' == AfterTick(l, lastSweepMs, nowMs).0
    ensures Shows(l'.hub[i + 1], i + 1, if l.clients[i].used && l'.clients[i].used then last else None)
  {
    TickOnSlot(l, lastSweepMs, nowMs, i);
  }

  lemma TickStepOnSlot(w: World, e: Event, i: nat, last: Option<(InputState, u32)>, w': World)
    requires |w.heard| == 3 && LobbyOk(w.lobby) && i < 3 && Shows(w.lobby.hub[i + 1], i + 1, last)
    requires e.Tick? && w' == Step(w, e)
    ensures Shows(w'.lobby.hub[i + 1], i + 1,
                  NextLast(w.lobby.clients[i], w'.lobby.clients[i], e, Wrap32(w'.clock), last))
  {
    TickShows(w.lobby, w.lastSweepMs, Wrap32(w.clock + e.elapsed), i, last, w'.lobby);
  }

  lemma StepOnSlot(w: World, e: Event, i: nat, last: Option<(InputState, u32)>, w': World)
    requires |w.heard| == 3 && LobbyOk(w.lobby) && i < 3 && Shows(w.lobby.hub[i + 1], i + 1, last)
    requires w' == Step(w, e)
    ensures Shows(w'.lobby.hub[i + 1], i + 1,
                  NextLast(w.lobby.clients[i], w'.lobby.clients[i], e, Wrap32(w'.clock), last))
  {
    match e
    case Tick(_) => TickStepOnSlot(w, e, i, last, w');
    case Arrival(_, _, _, _) => ArrivalOnSlot(w, e, i, last, w');
    case Local(_) =>
  }

  /** A player slot shows exactly the last input that its present owner sent since it joined, under
      the slot's own number, and nothing while the owner has sent none or there is no owner: no
      other endpoint's input, and nothing of a previous owner's. */
  lemma {:induction false} SlotShowsItsOwnersLastInput(bootTime: nat, events: seq<Event>, i: nat)
    requires i < 3
    ensures Shows(Run(bootTime, events).lobby.hub[i + 1], i + 1, LastInput(bootTime, events, i))
  {
    if events != [] {
      var rest, e := events[..|events| - 1], events[|events| - 1];
      SlotShowsItsOwnersLastInput(bootTime, rest, i);
      RunKeepsLobby(bootTime, rest);
      StepOnSlot(Run(bootTime, rest), e, i, LastInput(bootTime, rest, i), Run(bootTime, events));
    }
  }

  /** The last state the host set for its own controller. */
  function LastLocal(bootTime: nat, events: seq<Event>): ControllerState {
    if events == [] then ControllerState(NeutralState(NO_SLOT), 0)
    else
      var e := events[|events| - 1];
      if e.Local? then ControllerState(e.state.(slot := 0), Wrap32(Run(bootTime, events).clock))
      else LastLocal(bootTime, events[..|events| - 1])
  }

  lemma NoPacketTouchesSlotZero(w: World, e: Event)
    requires |w.heard| == 3 && !e.Local?
    ensures Step(w, e).lobby.hub[0] == w.lobby.hub[0]
  {
    match e
    case Tick(elapsed) =>
    case Arrival(elapsed, from, version, packet) =>
      PacketSparesSlotZero(w.lobby, from, version, packet, Wrap32(w.clock + elapsed));
  }

  lemma PacketSparesSlotZero(l: Lobby, from: Endpoint, version: u8, packet: Packet, nowMs: u32)
    ensures AfterPacket(l, from, version, packet, nowMs).0.hub[0] == l.hub[0]
  {
  }

  /** The server never touches slot 0: it shows what the host last set. */
  lemma {:induction false} SlotZeroIsTheHosts(bootTime: nat, events: seq<Event>)
    ensures Run(bootTime, events).lobby.hub[0] == LastLocal(bootTime, events)
  {
    if events != [] {
      SlotZeroIsTheHosts(bootTime, events[..|events| - 1]);
      if !events[|events| - 1].Local? {
        NoPacketTouchesSlotZero(Run(bootTime, events[..|events| - 1]), events[|events| - 1]);
      }
    }
  }

  // ---------------------------------------------------------------- timeouts

  /** The loop never sleeps for half a wrap of the clock between two ticks. */
  predicate Timely(bootTime: nat, events: seq<Event>) {
    events != [] ==>
      Timely(bootTime, events[..|events| - 1]) && InTime(Run(bootTime, events[..|events| - 1]), events[|events| - 1])
  }

  predicate InTime(w: World, e: Event) {
    e.Tick? ==> w.clock + e.elapsed < w.ticked + 0x8000_0000
  }

  /** A client's stored time is when it was last heard from, and that was at most 5 seconds before
      the last sweep. */
  predicate HeardOk(c: Client, heard: nat, clock: nat, ticked: nat, sinceSweep: nat) {
    c.used ==> c.lastSeenMs == Wrap32(heard) && heard <= clock && heard + 5000 + sinceSweep >= ticked
  }

  predicate TimesOk(w: World) {
    && |w.heard| == 3 && w.ticked <= w.clock && Sub32(Wrap32(w.ticked), w.lastSweepMs) < SWEEP_MS
    && forall i :: 0 <= i < 3 ==>
         HeardOk(w.lobby.clients[i], w.heard[i], w.clock, w.ticked, Sub32(Wrap32(w.ticked), w.lastSweepMs))
  }

  lemma StartIsTimely(bootTime: nat)
    ensures TimesOk(Start(bootTime))
  {
  }

  /** The clock values of a timely tick: the wrapped time since the last sweep is the true one. */
  lemma SweepAge(ticked: nat, now: nat, lastSweepMs: u32)
    requires Sub32(Wrap32(ticked), lastSweepMs) < 1000 && ticked <= now < ticked + 0x8000_0000
    ensures Sub32(Wrap32(now), lastSweepMs) == Sub32(Wrap32(ticked), lastSweepMs) + (now - ticked)
  {
    EarlierCounter(ticked, lastSweepMs);
    SubOfWraps(now, ticked - Sub32(Wrap32(ticked), lastSweepMs));
  }

  /** At a timely tick the wrapped silence of every client is the true one. */
  lemma SilenceIsTrue(c: Client, heard: nat, clock: nat, ticked: nat, sinceSweep: nat, now: nat)
    requires HeardOk(c, heard, clock, ticked, sinceSweep) && c.used
    requires sinceSweep < 1000 && clock <= now < ticked + 0x8000_0000
    ensures Sub32(Wrap32(now), c.lastSeenMs) == now - heard
  {
    SubOfWraps(now, heard);
  }

  /** What a tick decides about one client: it is dropped exactly when a second has passed since the
      last sweep and it has been silent for more than 5 seconds, both in true time. */
  lemma ClientDecided(l: Lobby, lastSweepMs: u32, ticked: nat, clock: nat, now: nat, heard: nat, i: nat, l': Lobby)
    requires LobbyOk(l) && i < 3 && l.clients[i].used && Sub32(Wrap32(ticked), lastSweepMs) < SWEEP_MS
    requires ticked <= clock <= now < ticked + 0x8000_0000
    requires HeardOk(l.clients[i], heard, clock, ticked, Sub32(Wrap32(ticked), lastSweepMs))
    requires l' == AfterTick(l, lastSweepMs, Wrap32(now)).0
    ensures var sinceSweep := Sub32(Wrap32(ticked), lastSweepMs) + (now - ticked);
            l'.clients[i].used <==> !(sinceSweep >= SWEEP_MS && now - heard > PEER_TIMEOUT_MS)
  {
    SweepAge(ticked, now, lastSweepMs);
    SilenceIsTrue(l.clients[i], heard, clock, ticked, Sub32(Wrap32(ticked), lastSweepMs), now);
    TickOnSlot(l, lastSweepMs, Wrap32(now), i);
  }

  lemma TickDecides(w: World, elapsed: nat, i: nat, w': World)
    requires TimesOk(w) && InTime(w, Tick(elapsed)) && i < 3 && w.lobby.clients[i].used && LobbyOk(w.lobby)
    requires w' == Step(w, Tick(elapsed))
    ensures var silence := w'.clock - w.heard[i];
            var sinceSweep := Sub32(Wrap32(w.ticked), w.lastSweepMs) + (w'.clock - w.ticked);
            w'.lobby.clients[i].used <==> !(sinceSweep >= 1000 && silence > 5000)
  {
    ClientDecided(w.lobby, w.lastSweepMs, w.ticked, w.clock, w'.clock, w.heard[i], i, w'.lobby);
  }

  /** A client that is still in after a tick was heard from within 5 seconds of the last sweep. */
  lemma HeardAfterTick(l: Lobby, lastSweepMs: u32, ticked: nat, clock: nat, now: nat, heard: nat, i: nat, l': Lobby,
                       sweep: u32)
    requires LobbyOk(l) && i < 3 && Sub32(Wrap32(ticked), lastSweepMs) < SWEEP_MS
    requires ticked <= clock <= now < ticked + 0x8000_0000
    requires HeardOk(l.clients[i], heard, clock, ticked, Sub32(Wrap32(ticked), lastSweepMs))
    requires (l', sweep) == AfterTick(l, lastSweepMs, Wrap32(now))
    ensures HeardOk(l'.clients[i], heard, now, now, Sub32(Wrap32(now), sweep))
  {
    SweepAge(ticked, now, lastSweepMs);
    TickOnSlot(l, lastSweepMs, Wrap32(now), i);
    if l.clients[i].used {
      ClientDecided(l, lastSweepMs, ticked, clock, now, heard, i, l');
    }
  }

  lemma SweepIsRecent(l: Lobby, lastSweepMs: u32, ticked: nat, now: nat, sweep: u32)
    requires Sub32(Wrap32(ticked), lastSweepMs) < SWEEP_MS && ticked <= now < ticked + 0x8000_0000
    requires sweep == AfterTick(l, lastSweepMs, Wrap32(now)).1
    ensures Sub32(Wrap32(now), sweep) < SWEEP_MS
  {
  }

  lemma AllHeardAfterTick(l: Lobby, lastSweepMs: u32, ticked: nat, clock: nat, now: nat, heard: seq<nat>, l': Lobby,
                          sweep: u32)
    requires LobbyOk(l) && |heard| == 3 && Sub32(Wrap32(ticked), lastSweepMs) < SWEEP_MS
    requires ticked <= clock <= now < ticked + 0x8000_0000
    requires forall i :: 0 <= i < 3 ==>
               HeardOk(l.clients[i], heard[i], clock, ticked, Sub32(Wrap32(ticked), lastSweepMs))
    requires (l', sweep) == AfterTick(l, lastSweepMs, Wrap32(now))
    ensures forall i :: 0 <= i < 3 ==> HeardOk(l'.clients[i], heard[i], now, now, Sub32(Wrap32(now), sweep))
  {
    forall i | 0 <= i < 3
      ensures HeardOk(l'.clients[i], heard[i], now, now, Sub32(Wrap32(now), sweep))
    {
      HeardAfterTick(l, lastSweepMs, ticked, clock, now, heard[i], i, l', sweep);
    }
  }

  lemma TickKeepsTimes(w: World, elapsed: nat, w': World)
    requires TimesOk(w) && InTime(w, Tick(elapsed)) && LobbyOk(w.lobby)
    requires w' == Step(w, Tick(elapsed))
    ensures TimesOk(w')
  {
    var now := w.clock + elapsed;
    SweepIsRecent(w.lobby, w.lastSweepMs, w.ticked, now, w'.lastSweepMs);
    AllHeardAfterTick(w.lobby, w.lastSweepMs, w.ticked, w.clock, now, w.heard, w'.lobby, w'.lastSweepMs);
  }

  lemma ArrivalOnClient(l: Lobby, from: Endpoint, version: u8, packet: Packet, nowMs: u32, i: nat)
    requires i < 3
    ensures var c' := AfterPacket(l, from, version, packet, nowMs).0.clients[i];
            var hears := Hears(l.clients, from, version, packet);
            c'.used ==> if hears == Some(i) then c'.lastSeenMs == nowMs
                        else l.clients[i].used && c'.lastSeenMs == l.clients[i].lastSeenMs
  {
  }

  lemma ArrivalKeepsTimes(w: World, e: Event, w': World)
    requires TimesOk(w) && e.Arrival? && w' == Step(w, e)
    ensures TimesOk(w')
  {
    forall i | 0 <= i < 3
      ensures HeardOk(w'.lobby.clients[i], w'.heard[i], w'.clock, w'.ticked, Sub32(Wrap32(w'.ticked), w'.lastSweepMs))
    {
      ArrivalOnClient(w.lobby, e.from, e.version, e.packet, Wrap32(w'.clock), i);
      assert HeardOk(w.lobby.clients[i], w.heard[i], w.clock, w.ticked, Sub32(Wrap32(w.ticked), w.lastSweepMs));
    }
  }

  lemma {:induction false} RunKeepsTimes(bootTime: nat, events: seq<Event>)
    requires Timely(bootTime, events)
    ensures TimesOk(Run(bootTime, events))
  {
    if events == [] {
      StartIsTimely(bootTime);
    } else {
      var rest, e := events[..|events| - 1], events[|events| - 1];
      RunKeepsTimes(bootTime, rest);
      RunKeepsLobby(bootTime, rest);
      match e
      case Tick(elapsed) => TickKeepsTimes(Run(bootTime, rest), elapsed, Run(bootTime, events));
      case Arrival(_, _, _, _) => ArrivalKeepsTimes(Run(bootTime, rest), e, Run(bootTime, events));
      case Local(_) =>
    }
  }

  /** Timeouts decide true silence, however often the 32-bit clock has wrapped: a client heard from
      within the last 5 seconds is never dropped by a tick, and one silent for 6 seconds or more
      never survives one. */
  lemma TimeoutsDecideTrueSilence(bootTime: nat, events: seq<Event>, elapsed: nat, i: nat, w: World, w': World)
    requires Timely(bootTime, events) && w == Run(bootTime, events) && InTime(w, Tick(elapsed))
    requires i < 3 && w.lobby.clients[i].used && w' == Step(w, Tick(elapsed))
    ensures w'.clock - w.heard[i] <= 5000 ==> w'.lobby.clients[i] == w.lobby.clients[i]
    ensures w'.clock - w.heard[i] >= 6000 ==> !w'.lobby.clients[i].used
  {
    RunKeepsTimes(bootTime, events);
    RunKeepsLobby(bootTime, events);
    TickDecides(w, elapsed, i, w');
    TickOnSlot(w.lobby, w.lastSweepMs, Wrap32(w'.clock), i);
    assert HeardOk(w.lobby.clients[i], w.heard[i], w.clock, w.ticked, Sub32(Wrap32(w.ticked), w.lastSweepMs));
  }
}
