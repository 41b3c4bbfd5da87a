/** The host's lobby: up to three clients, each owning one player slot, whose input it feeds
    into the hub. */
module SessionServer {
  import opened Words
  import opened Wire
  import opened InputHub

  const ROLE_CLIENT: u8 := 2
  const SWEEP_MS := 1000

  datatype Endpoint = Endpoint(addr: u32, port: u16)

  /** Index `i` holds the client assigned player slot `i + 1`. */
  datatype Client = Client(used: bool, ep: Endpoint, lastSeenMs: u32)

  type Clients = c: seq<Client> | |c| == 3 witness seq(3, _ => Client(false, Endpoint(0, 0), 0))

  /** A datagram after its header. What does not parse is `Other`, except a HELLO, which is one by
      its type alone and has no role then. */
  datatype Packet =
    | Hello(role: Option<u8>)
    | Input(state: InputState)
    | Ping(timestampMs: u32)
    | Bye
    | Other

  datatype Status = Accepted | VersionMismatch | Full | Rejected
  datatype Reply = NoReply | HelloAck(status: Status, slot: u8) | Pong(timestampMs: u32)

  datatype Lobby = Lobby(clients: Clients, hub: Table)

  predicate Owns(c: Client, ep: Endpoint) {
    c.used && c.ep == ep
  }

  /** The first client in use with this endpoint. */
  function FindBySender(clients: Clients, from: Endpoint): (r: Option<nat>)
    ensures r.Some? ==> r.value < 3 && Owns(clients[r.value], from)
    ensures r.None? ==> forall i :: 0 <= i < 3 ==> !Owns(clients[i], from)
  {
    if Owns(clients[0], from) then Some(0)
    else if Owns(clients[1], from) then Some(1)
    else if Owns(clients[2], from) then Some(2)
    else None
  }

  function FindUnused(clients: Clients): (r: Option<nat>)
    ensures r.Some? ==> r.value < 3 && !clients[r.value].used
    ensures r.Some? ==> forall i :: 0 <= i < r.value ==> clients[i].used
    ensures r.None? ==> forall i :: 0 <= i < 3 ==> clients[i].used
  {
    if !clients[0].used then Some(0)
    else if !clients[1].used then Some(1)
    else if !clients[2].used then Some(2)
    else None
  }

  function SlotFor(clients: Clients, from: Endpoint): Option<nat> {
    var known := FindBySender(clients, from);
    if known.Some? then known else FindUnused(clients)
  }

  function AfterHello(l: Lobby, from: Endpoint, role: u8, nowMs: u32): (Lobby, Reply) {
    var i := SlotFor(l.clients, from);
    if role != ROLE_CLIENT then (l, HelloAck(Rejected, NO_SLOT))
    else if i.None? then (l, HelloAck(Full, NO_SLOT))
    else (l.(clients := l.clients[i.value := Client(true, from, nowMs)]), HelloAck(Accepted, i.value + 1))
  }

  function Dropped(l: Lobby, i: nat): Lobby
    requires i < 3
  {
    if !l.clients[i].used then l
    else Lobby(l.clients[i := l.clients[i].(used := false)], WithClear(l.hub, i + 1))
  }

  function Seen(clients: Clients, i: nat, nowMs: u32): Clients
    requires i < 3
  {
    clients[i := clients[i].(lastSeenMs := nowMs)]
  }

  /** What one datagram does to the lobby, and the answer. */
  function AfterPacket(l: Lobby, from: Endpoint, version: u8, packet: Packet, nowMs: u32): (Lobby, Reply) {
    if version != PROTO_VERSION then
      (l, if packet.Hello? then HelloAck(VersionMismatch, NO_SLOT) else NoReply)
    else
      var i := FindBySender(l.clients, from);
      match packet
      case Hello(role) => if role.Some? then AfterHello(l, from, role.value, nowMs) else (l, NoReply)
      case Input(state) =>
        if i.None? then (l, NoReply)
        else (Lobby(Seen(l.clients, i.value, nowMs), WithSet(l.hub, i.value + 1, state, nowMs)), NoReply)
      case Ping(ts) =>
        (if i.None? then l else l.(clients := Seen(l.clients, i.value, nowMs)), Pong(ts))
      case Bye => (if i.None? then l else Dropped(l, i.value), NoReply)
      case Other => (l, NoReply)
  }

  /** The answer to a datagram, whoever sent it and whatever the lobby: PONG exactly to a PING, with
      its own timestamp; VERSION_MISMATCH exactly to a HELLO of another version; any other HELLO_ACK
      exactly to a HELLO of this version that parses; and to nothing else anything. */
  predicate Answers(version: u8, packet: Packet, reply: Reply) {
    && (reply.Pong? <==> version == 1 && packet.Ping?)
    && (reply.Pong? ==> reply.timestampMs == packet.timestampMs)
    && (reply == HelloAck(VersionMismatch, 0xFF) <==> version != 1 && packet.Hello?)
    && (reply.HelloAck? && reply.status != VersionMismatch <==> version == 1 && packet.Hello? && packet.role.Some?)
    && (reply.HelloAck? && reply.status == VersionMismatch ==> reply.slot == 0xFF)
  }

  predicate TimedOut(c: Client, nowMs: u32) {
    c.used && Sub32(nowMs, c.lastSeenMs) > PEER_TIMEOUT_MS
  }

  function SweepOne(l: Lobby, i: nat, nowMs: u32): Lobby
    requires i < 3
  {
    if TimedOut(l.clients[i], nowMs) then Dropped(l, i) else l
  }

  function Swept(l: Lobby, nowMs: u32): Lobby {
    SweepOne(SweepOne(SweepOne(l, 0, nowMs), 1, nowMs), 2, nowMs)
  }

  /** The start of a turn of the loop. */
  function AfterTick(l: Lobby, lastSweepMs: u32, nowMs: u32): (Lobby, u32) {
    if Sub32(nowMs, lastSweepMs) >= SWEEP_MS then (Swept(l, nowMs), nowMs) else (l, lastSweepMs)
  }

  class Server {
    const hub: Hub
    const clients: array<Client>
    var lastSweepMs: u32

    ghost predicate Valid()
      reads this, hub
    {
      clients.Length == 3 && hub.Valid()
    }

    ghost function View(): Lobby
      requires Valid()
      reads this, hub, clients, hub.slots
    {
      Lobby(clients[..], hub.View())
    }

    constructor (hub: Hub)
      requires hub.Valid()
      ensures Valid() && this.hub == hub && fresh(clients) && lastSweepMs == 0
      ensures View() == Lobby(seq(3, _ => Client(false, Endpoint(0, 0), 0)), hub.View())
    {
      this.hub := hub;
      clients := new Client[3](_ => Client(false, Endpoint(0, 0), 0));
      lastSweepMs := 0;
    }

    /** `findBySender`, with -1 for "unknown". */
    method Find(from: Endpoint) returns (r: int)
      requires Valid()
      ensures r == var i := FindBySender(clients[..], from); if i.Some? then i.value else -1
    {
      for i := 0 to 3
        invariant forall j :: 0 <= j < i ==> !Owns(clients[j], from)
      {
        if clients[i].used && clients[i].ep == from {
          return i;
        }
      }
      r := -1;
    }

    method HandleHello(from: Endpoint, role: u8, nowMs: u32) returns (reply: Reply)
      requires Valid()
      modifies clients
      ensures Valid() && (View(), reply) == AfterHello(old(View()), from, role, nowMs)
    {
      var idx := Find(from);
      if idx < 0 {
        for i := 0 to 3
          invariant idx == -1
          invariant forall j :: 0 <= j < i ==> clients[j].used
        {
          if !clients[i].used {
            idx := i;
            break;
          }
        }
      }
      assert idx == var i := SlotFor(clients[..], from); if i.Some? then i.value else -1;
      if role != ROLE_CLIENT {
        reply := HelloAck(Rejected, NO_SLOT);
      } else if idx < 0 {
        reply := HelloAck(Full, NO_SLOT);
      } else {
        clients[idx] := Client(true, from, nowMs);
        reply := HelloAck(Accepted, idx + 1);
      }
    }

    method DropClient(i: nat)
      requires Valid() && i < 3
      modifies clients, hub.slots
      ensures Valid() && View() == Dropped(old(View()), i)
    {
      if !clients[i].used {
        return;
      }
      clients[i] := clients[i].(used := false);
      hub.Clear(i + 1);
    }

    /** The timeout check at the start of each turn. */
    method Tick(nowMs: u32)
      requires Valid()
      modifies this`lastSweepMs, clients, hub.slots
      ensures Valid() && (View(), lastSweepMs) == AfterTick(old(View()), old(lastSweepMs), nowMs)
    {
      if Sub32(nowMs, lastSweepMs) < SWEEP_MS {
        return;
      }
      ghost var l := View();
      for i := 0 to 3
        modifies clients, hub.slots
        invariant Valid()
        invariant View() == if i == 0 then l else if i == 1 then SweepOne(l, 0, nowMs)
                            else if i == 2 then SweepOne(SweepOne(l, 0, nowMs), 1, nowMs) else Swept(l, nowMs)
      {
        if clients[i].used && Sub32(nowMs, clients[i].lastSeenMs) > PEER_TIMEOUT_MS {
          DropClient(i);
        }
      }
      lastSweepMs := nowMs;
    }

    method Touch(i: nat, nowMs: u32)
      requires Valid() && i < 3
      modifies clients
      ensures Valid() && View() == old(View()).(clients := Seen(old(View()).clients, i, nowMs))
    {
      clients[i] := clients[i].(lastSeenMs := nowMs);
    }

    /** The dispatch of one received datagram. */
    method OnPacket(from: Endpoint, version: u8, packet: Packet, nowMs: u32) returns (reply: Reply)
      requires Valid()
      modifies clients, hub.slots
      ensures Valid() && (View(), reply) == AfterPacket(old(View()), from, version, packet, nowMs)
      ensures Answers(version, packet, reply)
      ensures version != 1 ==> View() == old(View())
    {
      reply := NoReply;
      if version != PROTO_VERSION {
        if packet.Hello? {
          reply := HelloAck(VersionMismatch, NO_SLOT);
        }
        return;
      }
      match packet
      case Hello(role) =>
        if role.Some? {
          reply := HandleHello(from, role.value, nowMs);
        }
      case Input(state) =>
        var idx := Find(from);
        if idx >= 0 {
          Touch(idx, nowMs);
          hub.Set(idx + 1, state, nowMs);
        }
      case Ping(ts) =>
        var idx := Find(from);
        if idx >= 0 {
          Touch(idx, nowMs);
        }
        reply := Pong(ts);
      case Bye =>
        var idx := Find(from);
        if idx >= 0 {
          DropClient(idx);
        }
      case Other =>
    }
  }
}
