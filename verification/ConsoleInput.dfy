/** The console's table of remote controllers, the network thread that fills it, and the
    agreement between it and the host's hub. */
module ConsoleInput {
  import opened Words
  import opened Wire
  import opened InputHub

  const PKT_BYE: u8 := 11

  /** The two parallel arrays of `RemoteInput`. */
  datatype Remote = Remote(states: seq<InputState>, updatedAtMs: seq<u32>)

  predicate FourSlots(r: Remote) {
    |r.states| == 4 == |r.updatedAtMs|
  }

  function Updated(r: Remote, s: InputState, nowMs: u32): (r': Remote)
    requires FourSlots(r)
    ensures FourSlots(r')
  {
    if s.slot >= MAX_PLAYERS then r
    else Remote(r.states[s.slot := s], r.updatedAtMs[s.slot := nowMs])
  }

  function UpdatedAll(r: Remote, states: seq<InputState>, nowMs: u32): (r': Remote)
    requires FourSlots(r)
    ensures FourSlots(r')
  {
    if states == [] then r
    else Updated(UpdatedAll(r, states[..|states| - 1], nowMs), states[|states| - 1], nowMs)
  }

  predicate Fresh(r: Remote, slot: u8, nowMs: u32)
    requires FourSlots(r)
  {
    slot < MAX_PLAYERS && r.updatedAtMs[slot] != 0 && Sub32(nowMs, r.updatedAtMs[slot]) < INPUT_TIMEOUT_MS
  }

  /** A datagram of this protocol and of one type, byte by byte. */
  predicate IsPacket(dg: Bytes, kind: u8) {
    |dg| >= 8 && dg[..4] == [0x57, 0x53, 0x55, 0x31] && dg[5] == kind
  }

  /** What a datagram does to the table: a well-formed bundle updates it, a goodbye silences it. */
  function AfterDatagram(r: Remote, dg: Bytes, nowMs: u32): (r': Remote)
    requires FourSlots(r)
    ensures FourSlots(r')
  {
    var h := ParseHeader(dg);
    if h.None? then r
    else if h.value.kind == PKT_INPUT_BUNDLE then
      var b := BundleOf(dg[HEADER_SIZE..]);
      if b.None? then r else UpdatedAll(r, b.value.1, nowMs)
    else if h.value.kind == PKT_BYE then r.(updatedAtMs := [0, 0, 0, 0])
    else r
  }

  /** After a goodbye, which is read off the type byte alone, no slot is injected at any time, until
      the next bundle. Datagrams that are neither bundle nor goodbye change nothing. */
  lemma GoodbyeSilencesAll(r: Remote, dg: Bytes, nowMs: u32, slot: u8, later: u32)
    requires FourSlots(r)
    ensures IsPacket(dg, 11) ==> !Fresh(AfterDatagram(r, dg, nowMs), slot, later)
    ensures !IsPacket(dg, 7) && !IsPacket(dg, 11) ==> AfterDatagram(r, dg, nowMs) == r
  {
    KindOnWire(dg);
  }

  /** Within one wrap of the clock an entry is fresh exactly for the second after its update, unless
      that fell on clock value 0. */
  lemma FreshWithinOneWrap(r: Remote, slot: u8, update: int, reading: int)
    requires FourSlots(r) && slot < 4 && r.updatedAtMs[slot] == Wrap32(update)
    requires 1000 - TWO32 <= reading - update < TWO32
    ensures Fresh(r, slot, Wrap32(reading)) <==> Wrap32(update) != 0 && 0 <= reading - update < 1000
  {
    ActiveWithinOneWrap(r.states[slot], update, reading);
  }

  class RemoteInput {
    const states: array<InputState>
    const updatedAtMs: array<u32>

    ghost predicate Valid()
      reads this
    {
      states.Length == 4 == updatedAtMs.Length
    }

    ghost function View(): (r: Remote)
      requires Valid()
      reads this, states, updatedAtMs
      ensures FourSlots(r)
    {
      Remote(states[..], updatedAtMs[..])
    }

    constructor ()
      ensures Valid() && fresh(states) && fresh(updatedAtMs)
      ensures View().updatedAtMs == [0, 0, 0, 0]
      ensures forall i :: 0 <= i < 4 ==> View().states[i] == NeutralState(i)
    {
      states := new InputState[4](i => if 0 <= i < 4 then NeutralState(i) else NeutralState(NO_SLOT));
      updatedAtMs := new u32[4](_ => 0);
    }

    method Update(s: InputState, nowMs: u32)
      requires Valid()
      modifies states, updatedAtMs
      ensures View() == Updated(old(View()), s, nowMs)
      ensures s.slot < 4 ==> states[s.slot] == s && updatedAtMs[s.slot] == nowMs
      ensures forall i :: 0 <= i < 4 && i != s.slot ==>
                states[i] == old(states[i]) && updatedAtMs[i] == old(updatedAtMs[i])
    {
      if s.slot >= MAX_PLAYERS {
        return;
      }
      states[s.slot] := s;
      updatedAtMs[s.slot] := nowMs;
    }

    /** `get`: the state, when the slot was updated within the last second. */
    method Get(slot: u8, nowMs: u32) returns (r: Option<InputState>)
      requires Valid()
      ensures r == if Fresh(View(), slot, nowMs) then Some(View().states[slot]) else None
      ensures r.Some? <==> slot < 4 && updatedAtMs[slot] != 0 && Sub32(nowMs, updatedAtMs[slot]) < 1000
    {
      if slot >= MAX_PLAYERS {
        return None;
      }
      r := None;
      if updatedAtMs[slot] != 0 && Sub32(nowMs, updatedAtMs[slot]) < INPUT_TIMEOUT_MS {
        r := Some(states[slot]);
      }
    }

    method DeactivateAll()
      requires Valid()
      modifies updatedAtMs
      ensures View() == old(View()).(updatedAtMs := [0, 0, 0, 0])
    {
      for i := 0 to 4
        invariant states[..] == old(states[..])
        invariant forall j :: 0 <= j < i ==> updatedAtMs[j] == 0
      {
        updatedAtMs[i] := 0;
      }
    }

    /** The INPUT_BUNDLE and BYE cases of `netThread`. */
    method OnDatagram(dg: Bytes, nowMs: u32)
      requires Valid()
      modifies states, updatedAtMs
      ensures View() == AfterDatagram(old(View()), dg, nowMs)
      ensures IsPacket(dg, 11) ==> View() == Remote(old(states[..]), [0, 0, 0, 0])
      ensures !IsPacket(dg, 7) && !IsPacket(dg, 11) ==> View() == old(View())
    {
      KindOnWire(dg);
      var h := ParseHeader(dg);
      if h.None? {
        return;
      }
      if h.value.kind == PKT_INPUT_BUNDLE {
        var b := ParseInputBundle(dg[HEADER_SIZE..]);
        if b.None? {
          return;
        }
        var bundled := b.value.1;
        for i := 0 to |bundled|
          invariant View() == UpdatedAll(old(View()), bundled[..i], nowMs)
        {
          assert bundled[..i + 1][..i] == bundled[..i];
          Update(bundled[i], nowMs);
        }
        assert bundled[..|bundled|] == bundled;
      } else if h.value.kind == PKT_BYE {
        DeactivateAll();
      }
    }
  }

  /** Master switch and per-player switches of the configuration menu. */
  class Switches {
    var master: bool
    const slots: array<bool>

    constructor ()
      ensures master && slots.Length == 4 && fresh(slots) && forall i :: 0 <= i < 4 ==> slots[i]
    {
      master := true;
      slots := new bool[4](_ => true);
    }

    function Enabled(slot: u8): bool
      requires slots.Length == 4
      reads this, slots
    {
      if !master then false else if slot >= MAX_PLAYERS then false else slots[slot]
    }
  }

  // ---------------------------------------------------------------- agreement with the hub

  /** A bundle datagram updates the table with exactly the states that were packed. */
  lemma DatagramCarries(r: Remote, seqNo: u16, timestampMs: u32, states: seq<InputState>, nowMs: u32)
    requires FourSlots(r) && |states| <= MAX_PLAYERS
    ensures AfterDatagram(r, BundleDatagram(seqNo, timestampMs, states), nowMs) == UpdatedAll(r, states, nowMs)
  {
    var dg := BundleDatagram(seqNo, timestampMs, states);
    BundleRoundTrip(timestampMs, states);
    HeaderRoundTrip(dg, Header(PROTO_VERSION, PKT_INPUT_BUNDLE, seqNo));
    assert dg[..8] == HeaderBytes(PKT_INPUT_BUNDLE, seqNo);
    assert dg[8..] == BundleBody(timestampMs, states);
  }

  /** One more slot of the hub is one more update, or none. */
  lemma UpdatedNext(r: Remote, t: Table, packedAtMs: u32, n: nat, nowMs: u32)
    requires FourSlots(r) && n < 4
    ensures var before := UpdatedAll(r, ActiveStates(t, packedAtMs, n), nowMs);
            UpdatedAll(r, ActiveStates(t, packedAtMs, n + 1), nowMs) ==
              if Active(t[n], packedAtMs) then Updated(before, t[n].wire, nowMs) else before
  {
    var rest := ActiveStates(t, packedAtMs, n);
    if Active(t[n], packedAtMs) {
      assert ActiveStates(t, packedAtMs, n + 1) == rest + [t[n].wire];
      assert (rest + [t[n].wire])[..|rest|] == rest;
    } else {
      assert ActiveStates(t, packedAtMs, n + 1) == rest;
    }
  }

  lemma UpdateTouches(before: Remote, s: InputState, nowMs: u32, slot: nat, after: Remote)
    requires FourSlots(before) && s.slot < 4 && slot < 4 && after == Updated(before, s, nowMs)
    ensures FourSlots(after)
    ensures after.states[slot] == if s.slot == slot then s else before.states[slot]
    ensures after.updatedAtMs[slot] == if s.slot == slot then nowMs else before.updatedAtMs[slot]
  {
  }

  /** After the first `n` slots of a hub have been sent over, the table shows the hub's active
      states there and is as before everywhere else. */
  lemma {:induction false} TableFollowsHub(r: Remote, t: Table, packedAtMs: u32, n: nat, nowMs: u32, slot: nat)
    requires FourSlots(r) && Authoritative(t) && n <= 4 && slot < 4
    ensures var r' := UpdatedAll(r, ActiveStates(t, packedAtMs, n), nowMs);
            if slot < n && Active(t[slot], packedAtMs)
            then r'.states[slot] == t[slot].wire && r'.updatedAtMs[slot] == nowMs
            else r'.states[slot] == r.states[slot] && r'.updatedAtMs[slot] == r.updatedAtMs[slot]
  {
    if n > 0 {
      TableFollowsHub(r, t, packedAtMs, n - 1, nowMs, slot);
      UpdatedNext(r, t, packedAtMs, n - 1, nowMs);
      if Active(t[n - 1], packedAtMs) {
        var before := UpdatedAll(r, ActiveStates(t, packedAtMs, n - 1), nowMs);
        var after := UpdatedAll(r, ActiveStates(t, packedAtMs, n), nowMs);
        UpdateTouches(before, t[n - 1].wire, nowMs, slot, after);
      }
    }
  }

  /** Hub-to-console agreement: once the console has processed a bundle, its table equals the hub's
      for every slot that was active when the bundle was packed, byte for byte and under the slot's
      own number, and is unchanged for every other slot. */
  lemma ConsoleAgreesWithHub(r: Remote, t: Table, seqNo: u16, packedAtMs: u32, nowMs: u32, slot: nat)
    requires FourSlots(r) && Authoritative(t) && slot < 4
    ensures var r' := AfterDatagram(r, BundleDatagram(seqNo, packedAtMs, ActiveStates(t, packedAtMs, 4)), nowMs);
            if Active(t[slot], packedAtMs)
            then r'.states[slot] == t[slot].wire && r'.states[slot].slot == slot && r'.updatedAtMs[slot] == nowMs
            else r'.states[slot] == r.states[slot] && r'.updatedAtMs[slot] == r.updatedAtMs[slot]
  {
    DatagramCarries(r, seqNo, packedAtMs, ActiveStates(t, packedAtMs, 4), nowMs);
    TableFollowsHub(r, t, packedAtMs, 4, nowMs, slot);
  }

  /** Recent input is injected: once a bundle has arrived, for the following second the console
      injects every slot that was active when the bundle was packed, with the hub's own state,
      unless the bundle arrived on clock value 0. */
  lemma BundledInputIsInjected(r: Remote, t: Table, seqNo: u16, packedAtMs: u32, arrival: int, reading: int, slot: nat)
    requires FourSlots(r) && Authoritative(t) && slot < 4 && Active(t[slot], packedAtMs)
    requires 0 <= reading - arrival < 1000 && Wrap32(arrival) != 0
    ensures var dg := BundleDatagram(seqNo, packedAtMs, ActiveStates(t, packedAtMs, 4));
            var r' := AfterDatagram(r, dg, Wrap32(arrival));
            Fresh(r', slot, Wrap32(reading)) && r'.states[slot] == t[slot].wire
  {
    var dg := BundleDatagram(seqNo, packedAtMs, ActiveStates(t, packedAtMs, 4));
    ConsoleAgreesWithHub(r, t, seqNo, packedAtMs, Wrap32(arrival), slot);
    FreshWithinOneWrap(AfterDatagram(r, dg, Wrap32(arrival)), slot, arrival, reading);
  }

  /** So an input set in the hub is what the game gets, if the next bundle is packed within a second
      and read within a second of its arrival. */
  lemma SetInputIsInjected(r: Remote, t: Table, slot: nat, state: InputState, update: int, seqNo: u16, packedAt: int,
                           arrival: int, reading: int, t': Table)
    requires FourSlots(r) && Authoritative(t) && slot < 4 && t' == WithSet(t, slot, state, Wrap32(update))
    requires 0 <= packedAt - update < 1000 && 0 <= reading - arrival < 1000
    requires Wrap32(update) != 0 && Wrap32(arrival) != 0
    ensures var dg := BundleDatagram(seqNo, Wrap32(packedAt), ActiveStates(t', Wrap32(packedAt), 4));
            var r' := AfterDatagram(r, dg, Wrap32(arrival));
            Fresh(r', slot, Wrap32(reading)) && r'.states[slot] == state.(slot := slot)
  {
    AuthorityIsKept(t, slot, state, Wrap32(update));
    ActiveWithinOneWrap(state.(slot := slot), update, packedAt);
    BundledInputIsInjected(r, t', seqNo, Wrap32(packedAt), arrival, reading, slot);
  }
}
