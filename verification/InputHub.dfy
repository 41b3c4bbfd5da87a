/** The host's merge point for up to four controllers, and the bundle it sends every tick. */
module InputHub {
  import opened Words
  import opened Wire

  datatype ControllerState = ControllerState(wire: InputState, updatedAtMs: u32)

  const UNSET := ControllerState(NeutralState(NO_SLOT), 0)

  type Table = t: seq<ControllerState> | |t| == 4 witness [UNSET, UNSET, UNSET, UNSET]

  const NO_INPUT: Table := [UNSET, UNSET, UNSET, UNSET]

  /** No button, stick at rest, nothing touched. */
  predicate ShowsNothing(s: InputState) {
    && s.flags == 0 && s.buttons == 0 && s.lx == 0 && s.ly == 0 && s.rx == 0 && s.ry == 0 && s.lt == 0 && s.rt == 0
    && s.touchX == 0xFFFF && s.touchY == 0xFFFF && s.gyroPitch == 0 && s.gyroYaw == 0 && s.gyroRoll == 0
  }

  /** The slot a state is stored under overrides the one it claims. */
  function WithSet(t: Table, slot: u8, state: InputState, nowMs: u32): Table {
    if slot >= MAX_PLAYERS then t else t[slot := ControllerState(state.(slot := slot), nowMs)]
  }

  function WithClear(t: Table, slot: u8): Table {
    if slot >= MAX_PLAYERS then t else t[slot := ControllerState(NeutralState(slot), 0)]
  }

  predicate Active(s: ControllerState, nowMs: u32) {
    s.updatedAtMs != 0 && Sub32(nowMs, s.updatedAtMs) < INPUT_TIMEOUT_MS
  }

  /** The active states among the first `n` slots, in slot order. */
  function ActiveStates(t: Table, nowMs: u32, n: nat): (r: seq<InputState>)
    requires n <= 4
    ensures |r| <= n
  {
    if n == 0 then []
    else ActiveStates(t, nowMs, n - 1) + if Active(t[n - 1], nowMs) then [t[n - 1].wire] else []
  }

  /** A slot that was ever set holds a state that names it. */
  predicate Authoritative(t: Table) {
    forall i :: 0 <= i < 4 && t[i].updatedAtMs != 0 ==> t[i].wire.slot == i
  }

  lemma AuthorityIsKept(t: Table, slot: u8, state: InputState, nowMs: u32)
    requires Authoritative(t)
    ensures Authoritative(WithSet(t, slot, state, nowMs)) && Authoritative(WithClear(t, slot))
  {
  }

  /** In true time a slot is active exactly when its last update, reduced modulo a whole wrap of
      the clock, was within the last second, and did not fall on clock value 0. */
  lemma ActiveInTrueTime(wire: InputState, update: int, reading: int)
    ensures Active(ControllerState(wire, Wrap32(update)), Wrap32(reading)) <==>
            Wrap32(update) != 0 && (reading - update) % TWO32 < 1000
  {
    SubOfWraps(reading, update);
  }

  /** So a reading at most a wrap late is exact, and a reading just before the update it meets
      finds the slot inactive. */
  lemma ActiveWithinOneWrap(wire: InputState, update: int, reading: int)
    requires INPUT_TIMEOUT_MS - TWO32 <= reading - update < TWO32
    ensures Active(ControllerState(wire, Wrap32(update)), Wrap32(reading)) <==>
            Wrap32(update) != 0 && 0 <= reading - update < 1000
  {
    ActiveInTrueTime(wire, update, reading);
    if reading < update {
      assert (reading - update) % TWO32 == reading - update + TWO32;
    }
  }

  /** Beyond that it is not: a slot left alone for a whole wrap of the clock is taken
      for a fresh one. */
  lemma StaleSlotComesBack(wire: InputState, update: int, more: nat)
    requires Wrap32(update) != 0 && more < INPUT_TIMEOUT_MS
    ensures Active(ControllerState(wire, Wrap32(update)), Wrap32(update + TWO32 + more))
  {
    ActiveInTrueTime(wire, update, update + TWO32 + more);
  }

  /** One more slot adds its state at the end or nothing. */
  lemma NextActive(t: Table, nowMs: u32, n: nat)
    requires n < 4
    ensures var rest, r := ActiveStates(t, nowMs, n), ActiveStates(t, nowMs, n + 1);
            && |rest| <= |r| <= |rest| + 1 && (|r| > |rest| <==> Active(t[n], nowMs))
            && (forall k :: 0 <= k < |rest| ==> r[k] == rest[k])
            && (|r| > |rest| ==> r[|rest|] == t[n].wire)
  {
  }

  lemma {:induction false} BundledAreActive(t: Table, nowMs: u32, n: nat)
    requires Authoritative(t) && n <= 4
    ensures forall k {:trigger ActiveStates(t, nowMs, n)[k]} :: 0 <= k < |ActiveStates(t, nowMs, n)| ==>
              var s := ActiveStates(t, nowMs, n)[k];
              s.slot < n && Active(t[s.slot], nowMs) && s == t[s.slot].wire
  {
    if n > 0 {
      BundledAreActive(t, nowMs, n - 1);
      NextActive(t, nowMs, n - 1);
      var rest, r := ActiveStates(t, nowMs, n - 1), ActiveStates(t, nowMs, n);
      forall k | 0 <= k < |r|
        ensures r[k].slot < n && Active(t[r[k].slot], nowMs) && r[k] == t[r[k].slot].wire
      {
        if k < |rest| {
          assert r[k] == rest[k];
        }
      }
    }
  }

  lemma {:induction false} BundledAscend(t: Table, nowMs: u32, n: nat)
    requires Authoritative(t) && n <= 4
    ensures var r := ActiveStates(t, nowMs, n); forall j, k :: 0 <= j < k < |r| ==> r[j].slot < r[k].slot
  {
    if n > 0 {
      BundledAscend(t, nowMs, n - 1);
      BundledAreActive(t, nowMs, n - 1);
      NextActive(t, nowMs, n - 1);
      var rest, r := ActiveStates(t, nowMs, n - 1), ActiveStates(t, nowMs, n);
      forall j, k | 0 <= j < k < |r|
        ensures r[j].slot < r[k].slot
      {
        assert r[j] == rest[j] && rest[j].slot < n - 1;
      }
    }
  }

  lemma {:induction false} ActiveAreBundled(t: Table, nowMs: u32, n: nat, i: nat)
    requires i < n <= 4 && Active(t[i], nowMs)
    ensures t[i].wire in ActiveStates(t, nowMs, n)
  {
    NextActive(t, nowMs, n - 1);
    var rest, r := ActiveStates(t, nowMs, n - 1), ActiveStates(t, nowMs, n);
    if i < n - 1 {
      ActiveAreBundled(t, nowMs, n - 1, i);
      var k :| 0 <= k < |rest| && rest[k] == t[i].wire;
      assert r[k] == t[i].wire;
    } else {
      assert r[|rest|] == t[i].wire;
    }
  }

  /** A bundle lists exactly the active slots, each once, in strictly ascending order. */
  lemma BundledSlotsAscend(t: Table, nowMs: u32, n: nat)
    requires Authoritative(t) && n <= 4
    ensures var r := ActiveStates(t, nowMs, n);
            && (forall k :: 0 <= k < |r| ==> r[k].slot < n && Active(t[r[k].slot], nowMs) && r[k] == t[r[k].slot].wire)
            && (forall j, k :: 0 <= j < k < |r| ==> r[j].slot < r[k].slot)
            && (forall i :: 0 <= i < n && Active(t[i], nowMs) ==> t[i].wire in r)
  {
    BundledAreActive(t, nowMs, n);
    BundledAscend(t, nowMs, n);
    forall i | 0 <= i < n && Active(t[i], nowMs)
      ensures t[i].wire in ActiveStates(t, nowMs, n)
    {
      ActiveAreBundled(t, nowMs, n, i);
    }
  }

  class Hub {
    const slots: array<ControllerState>

    ghost predicate Valid()
      reads this
    {
      slots.Length == 4
    }

    ghost function View(): Table
      requires Valid()
      reads this, slots
    {
      slots[..]
    }

    constructor ()
      ensures Valid() && View() == NO_INPUT && fresh(slots)
    {
      slots := new ControllerState[4](_ => UNSET);
    }

    method Set(slot: u8, state: InputState, nowMs: u32)
      requires Valid()
      modifies slots
      ensures View() == WithSet(old(View()), slot, state, nowMs)
      ensures slot < 4 ==> View()[slot] == ControllerState(state.(slot := slot), nowMs)
      ensures forall i :: 0 <= i < 4 && i != slot ==> View()[i] == old(View()[i])
    {
      if slot >= MAX_PLAYERS {
        return;
      }
      slots[slot] := slots[slot].(wire := state);
      slots[slot] := slots[slot].(wire := slots[slot].wire.(slot := slot));
      slots[slot] := slots[slot].(updatedAtMs := nowMs);
    }

    method Clear(slot: u8)
      requires Valid()
      modifies slots
      ensures View() == WithClear(old(View()), slot)
      ensures slot < 4 ==>
                View()[slot].updatedAtMs == 0 && View()[slot].wire.slot == slot && ShowsNothing(View()[slot].wire)
      ensures forall i :: 0 <= i < 4 && i != slot ==> View()[i] == old(View()[i])
    {
      if slot >= MAX_PLAYERS {
        return;
      }
      slots[slot] := ControllerState(NeutralState(slot), 0);
    }

    method IsActive(slot: u8, nowMs: u32) returns (r: bool)
      requires Valid()
      ensures r <==> slot < 4 && View()[slot].updatedAtMs != 0 && Sub32(nowMs, View()[slot].updatedAtMs) < 1000
    {
      if slot >= MAX_PLAYERS {
        return false;
      }
      var s := slots[slot];
      r := s.updatedAtMs != 0 && Sub32(nowMs, s.updatedAtMs) < INPUT_TIMEOUT_MS;
    }

    /** The loop over the slots, under the hub's lock. */
    method CollectActive(nowMs: u32) returns (active: seq<InputState>)
      requires Valid()
      ensures active == ActiveStates(View(), nowMs, 4)
    {
      active := [];
      for i := 0 to 4
        invariant active == ActiveStates(View(), nowMs, i)
      {
        var s := slots[i];
        if s.updatedAtMs != 0 && Sub32(nowMs, s.updatedAtMs) < INPUT_TIMEOUT_MS {
          active := active + [s.wire];
        }
      }
    }

    /** `packBundle`: the datagram of the active slots, or 0 when there is none or no room. */
    method PackBundle(buf: array<u8>, seqNo: u16, nowMs: u32) returns (n: nat)
      requires Valid()
      modifies buf
      ensures Valid() && View() == old(View())
      ensures var active := ActiveStates(View(), nowMs, 4);
              if active == [] || buf.Length < 13 + |active| * 26 then n == 0 && buf[..] == old(buf[..])
              else Appends(buf, 0, BundleDatagram(seqNo, nowMs, active)) && n == 13 + |active| * 26
    {
      var active := CollectActive(nowMs);
      if |active| == 0 {
        return 0;
      }
      var packed := PackInputBundle(buf, seqNo, nowMs, active);
      n := if packed < 0 then 0 else packed;
    }
  }
}
