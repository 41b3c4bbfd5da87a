/** Merging remote controllers into what the game reads: button words and their edges. Which
    bits a remote state holds is left open: `hold` words are inputs here. */
module Injection {
  import opened Words
  import opened Wire
  import opened ConsoleInput

  type Bit = b: nat | b < 32

  /** A 32-bit word of buttons, as the set of its bits: `a | b` is the union and `a & ~b` the
      difference. */
  type Word = set<Bit>

  /** The button words of a sample, of the GamePad or of a Pro Controller. */
  datatype Sample = Sample(hold: Word, trigger: Word, release: Word)

  /** A sample whose edges are the difference to the hold before it. */
  predicate EdgesFit(s: Sample, before: Word) {
    s.trigger == s.hold - before && s.release == before - s.hold
  }

  function LastHold(samples: seq<Sample>): Word {
    if samples == [] then {} else samples[|samples| - 1].hold
  }

  /** Each sample's edges are the difference to the hold of the sample before it. */
  predicate Continuous(samples: seq<Sample>) {
    samples != [] ==>
      var rest := samples[..|samples| - 1];
      Continuous(rest) && EdgesFit(samples[|samples| - 1], LastHold(rest))
  }

  function Presses(samples: seq<Sample>, bit: Bit): nat {
    if samples == [] then 0
    else Presses(samples[..|samples| - 1], bit) + if bit in samples[|samples| - 1].trigger then 1 else 0
  }

  function Releases(samples: seq<Sample>, bit: Bit): nat {
    if samples == [] then 0
    else Releases(samples[..|samples| - 1], bit) + if bit in samples[|samples| - 1].release then 1 else 0
  }

  /** Presses and releases of a button bit take turns, a press first; `down` is whether a press is
      still open at the end. */
  predicate TakeTurns(samples: seq<Sample>, bit: Bit, down: bool) {
    if samples == [] then !down
    else
      var rest, s := samples[..|samples| - 1], samples[|samples| - 1];
      if bit in s.trigger then bit !in s.release && down && TakeTurns(rest, bit, false)
      else if bit in s.release then !down && TakeTurns(rest, bit, true)
      else TakeTurns(rest, bit, down)
  }

  /** Edges that fit telescope: presses and releases of every bit alternate, and presses minus
      releases is whether the last sample holds it. */
  lemma {:induction false} FittingEdgesTelescope(samples: seq<Sample>, bit: Bit)
    requires Continuous(samples)
    ensures TakeTurns(samples, bit, bit in LastHold(samples))
    ensures Presses(samples, bit) == Releases(samples, bit) + if bit in LastHold(samples) then 1 else 0
  {
    if samples != [] {
      FittingEdgesTelescope(samples[..|samples| - 1], bit);
    }
  }

  lemma OneMoreSample(samples: seq<Sample>, s: Sample)
    ensures Continuous(samples + [s]) <==> Continuous(samples) && EdgesFit(s, LastHold(samples))
    ensures LastHold(samples + [s]) == s.hold
  {
    assert (samples + [s])[..|samples|] == samples;
  }

  /** Two words whose differences from a third agree both ways are equal. */
  lemma FitsOneHold(s: Sample, a: Word, b: Word)
    requires EdgesFit(s, a)
    ensures EdgesFit(s, b) <==> a == b
  {
    if EdgesFit(s, b) {
      forall i: Bit
        ensures i in a <==> i in b
      {
        assert i in s.hold - a <==> i in s.hold - b;
        assert i in a - s.hold <==> i in b - s.hold;
      }
    }
  }

  // ---------------------------------------------------------------- Pro Controllers

  function Edges(prev: Word, hold: Word): Sample {
    Sample(hold, hold - prev, prev - hold)
  }

  /** A call of `KPADRead` or `KPADReadEx`: its channel, whether there is room for a sample, whether
      the slot's switches are on, the hold word of the slot's state if that is fresh, and the sample
      the real function would bring. */
  datatype KpadRead = KpadRead(chan: int, room: bool, enabled: bool, hold: Option<Word>, own: Option<Sample>)

  predicate Injects(r: KpadRead) {
    0 <= r.chan <= 2 && r.room && r.enabled && r.hold.Some?
  }

  /** The sample injected by a call, if it does not fall through to the real function. */
  function Injected(prev: seq<Word>, r: KpadRead): Option<Sample>
    requires |prev| == 3
  {
    if Injects(r) then Some(Edges(prev[r.chan], r.hold.value)) else None
  }

  function AfterRead(prev: seq<Word>, r: KpadRead): (next: seq<Word>)
    requires |prev| == 3
    ensures |next| == 3
  {
    if Injects(r) then prev[r.chan := r.hold.value] else prev
  }

  /** The previous hold words after a run of calls on all channels. */
  function PrevAfter(calls: seq<KpadRead>): (prev: seq<Word>)
    ensures |prev| == 3
  {
    if calls == [] then [{}, {}, {}] else AfterRead(PrevAfter(calls[..|calls| - 1]), calls[|calls| - 1])
  }

  /** The samples injected on one channel. What the real function hands out in between is not
      among them. */
  function Samples(calls: seq<KpadRead>, chan: int): seq<Sample> {
    if calls == [] then []
    else
      var r := calls[|calls| - 1];
      var s := Injected(PrevAfter(calls[..|calls| - 1]), r);
      Samples(calls[..|calls| - 1], chan) + if r.chan == chan && s.Some? then [s.value] else []
  }

  /** Over any run of reads, on all channels and with any gaps in which injection was off, the
      samples injected on a channel fit together. */
  lemma {:induction false} InjectedEdgesFit(calls: seq<KpadRead>, chan: int)
    requires 0 <= chan < 3
    ensures Continuous(Samples(calls, chan)) && LastHold(Samples(calls, chan)) == PrevAfter(calls)[chan]
  {
    if calls != [] {
      var rest, r := calls[..|calls| - 1], calls[|calls| - 1];
      InjectedEdgesFit(rest, chan);
      if r.chan == chan && Injects(r) {
        OneMoreSample(Samples(rest, chan), Injected(PrevAfter(rest), r).value);
      } else {
        assert Samples(calls, chan) == Samples(rest, chan);
      }
    }
  }

  /** So for every bit their presses and releases alternate, and presses minus releases is whether
      the last injected sample holds it. */
  lemma EdgesTelescope(calls: seq<KpadRead>, chan: int, bit: Bit)
    requires 0 <= chan < 3
    ensures var s := Samples(calls, chan); var down := bit in PrevAfter(calls)[chan];
            && TakeTurns(s, bit, down)
            && Presses(s, bit) == Releases(s, bit) + (if down then 1 else 0)
            && (s == [] ==> PrevAfter(calls)[chan] == {})
            && (s != [] ==> s[|s| - 1].hold == PrevAfter(calls)[chan])
  {
    InjectedEdgesFit(calls, chan);
    FittingEdgesTelescope(Samples(calls, chan), bit);
  }

  /** The sample handed to the game: the injected one, or what the real function brings. */
  function HandedBy(prev: seq<Word>, r: KpadRead): Option<Sample>
    requires |prev| == 3
  {
    if Injects(r) then Injected(prev, r) else r.own
  }

  /** All samples the game is handed on a channel. */
  function HandedOn(calls: seq<KpadRead>, chan: int): seq<Sample> {
    if calls == [] then []
    else
      var rest, r := calls[..|calls| - 1], calls[|calls| - 1];
      var s := HandedBy(PrevAfter(rest), r);
      HandedOn(rest, chan) + if r.chan == chan && s.Some? then [s.value] else []
  }

  /** The call passes a real sample through. */
  predicate Passes(r: KpadRead) {
    !Injects(r) && r.own.Some?
  }

  /** The hold of the last real sample passed through. */
  function PassedHold(calls: seq<KpadRead>, chan: int): Word {
    if calls == [] then {}
    else
      var r := calls[|calls| - 1];
      if r.chan == chan && Passes(r) then r.own.value.hold else PassedHold(calls[..|calls| - 1], chan)
  }

  /** The real function, which is not called while injection is on, takes its edges against the
      last sample it brought. */
  predicate HardwareTrueOn(calls: seq<KpadRead>, chan: int) {
    calls != [] ==>
      var rest, r := calls[..|calls| - 1], calls[|calls| - 1];
      HardwareTrueOn(rest, chan) && (r.chan == chan && Passes(r) ==> EdgesFit(r.own.value, PassedHold(rest, chan)))
  }

  /** The last sample handed on the channel was an injected one. */
  predicate LastInjected(calls: seq<KpadRead>, chan: int) {
    calls != [] &&
    var r := calls[|calls| - 1];
    if r.chan == chan && (Injects(r) || Passes(r)) then Injects(r) else LastInjected(calls[..|calls| - 1], chan)
  }

  /** Whenever the channel changes from injected samples to real ones or back, the buttons last
      injected and those last passed through are the same. */
  predicate ChangesMatch(calls: seq<KpadRead>, chan: int) {
    calls != [] ==>
      var rest, r := calls[..|calls| - 1], calls[|calls| - 1];
      ChangesMatch(rest, chan) &&
      (r.chan == chan && (Injects(r) || Passes(r)) && Injects(r) != LastInjected(rest, chan) ==>
         LastHold(Samples(rest, chan)) == PassedHold(rest, chan))
  }

  lemma {:induction false} LastHandedOn(calls: seq<KpadRead>, chan: int)
    requires 0 <= chan < 3
    ensures LastHold(HandedOn(calls, chan)) ==
            if LastInjected(calls, chan) then PrevAfter(calls)[chan] else PassedHold(calls, chan)
  {
    if calls != [] {
      LastHandedOn(calls[..|calls| - 1], chan);
    }
  }

  /** Over any run of reads with hardware that keeps its own edges straight, all edges the game is
      handed on a channel fit the sample it was handed before exactly when injection is switched on
      and off only while the two sources last held the same buttons. */
  lemma {:induction false} EdgesFitIffChangesMatch(calls: seq<KpadRead>, chan: int)
    requires 0 <= chan < 3 && HardwareTrueOn(calls, chan)
    ensures Continuous(HandedOn(calls, chan)) <==> ChangesMatch(calls, chan)
  {
    if calls != [] {
      var rest, r := calls[..|calls| - 1], calls[|calls| - 1];
      EdgesFitIffChangesMatch(rest, chan);
      InjectedEdgesFit(rest, chan);
      LastHandedOn(rest, chan);
      var handed, s := HandedOn(rest, chan), HandedBy(PrevAfter(rest), r);
      if r.chan == chan && s.Some? {
        OneMoreSample(handed, s.value);
        FitsOneHold(s.value, if Injects(r) then PrevAfter(rest)[chan] else PassedHold(rest, chan), LastHold(handed));
      } else {
        assert HandedOn(calls, chan) == handed;
      }
    }
  }

  /** Button 0 is injected, released by hand in a gap of injection, and injected again: the game
      never sees the second press. */
  lemma GapSwallowsAPress()
    ensures var calls := [KpadRead(0, true, true, Some({0}), None),
                          KpadRead(0, true, false, None, Some(Sample({}, {}, {}))),
                          KpadRead(0, true, true, Some({0}), None)];
            && HardwareTrueOn(calls, 0)
            && HandedOn(calls, 0) == [Sample({0}, {0}, {}), Sample({}, {}, {}), Sample({0}, {}, {})]
            && !Continuous(HandedOn(calls, 0))
  {
    var a := KpadRead(0, true, true, Some({0}), None);
    var b := KpadRead(0, true, false, None, Some(Sample({}, {}, {})));
    assert [a, b, a][..2] == [a, b] && [a, b][..1] == [a] && [a][..0] == [];
    assert Edges({}, {0}) == Sample({0}, {0}, {}) && Edges({0}, {0}) == Sample({0}, {}, {});
    assert PrevAfter([a]) == [{0}, {}, {}] && PrevAfter([a, b]) == [{0}, {}, {}];
    assert HandedOn([a], 0) == [Sample({0}, {0}, {})];
    assert HandedOn([a, b], 0) == [Sample({0}, {0}, {}), Sample({}, {}, {})];
    assert PassedHold([a], 0) == {} && HardwareTrueOn([a, b], 0);
  }

  // ---------------------------------------------------------------- GamePad

  /** `VPADRead` after the real call: the sample handed to the game, and the stored hold. `own` is
      the real sample 0 if the real call brought one, `remote` the hold word to merge if injection
      is on. */
  function VpadOutcome(prev: Word, own: Option<Sample>, remote: Option<Word>): (Option<Sample>, Word) {
    match remote
    case None => (own, if own.Some? then own.value.hold else prev)
    case Some(bits) =>
      var hold := (if own.Some? then own.value.hold else {}) + bits;
      (Some(Edges(prev, hold)), hold)
  }

  datatype VpadRead = VpadRead(own: Option<Sample>, remote: Option<Word>)

  function VpadPrev(calls: seq<VpadRead>): Word {
    if calls == [] then {}
    else VpadOutcome(VpadPrev(calls[..|calls| - 1]), calls[|calls| - 1].own, calls[|calls| - 1].remote).1
  }

  /** What the game has been handed so far. */
  function Handed(calls: seq<VpadRead>): seq<Sample> {
    if calls == [] then []
    else
      var r := calls[|calls| - 1];
      var s := VpadOutcome(VpadPrev(calls[..|calls| - 1]), r.own, r.remote).0;
      Handed(calls[..|calls| - 1]) + if s.Some? then [s.value] else []
  }

  /** The edges of a merged sample are taken against the hold of the sample the game saw last, be
      it a merged one or a real one: also when injection has just been switched on. */
  lemma {:induction false} MergedEdgesFollowTheGame(calls: seq<VpadRead>)
    ensures VpadPrev(calls) == LastHold(Handed(calls))
    ensures forall own: Option<Sample>, bits: Word ::
              var s := VpadOutcome(VpadPrev(calls), own, Some(bits)).0;
              && s.Some? && s.value.trigger == s.value.hold - LastHold(Handed(calls))
              && s.value.release == LastHold(Handed(calls)) - s.value.hold
  {
    if calls != [] {
      MergedEdgesFollowTheGame(calls[..|calls| - 1]);
    }
  }

  // ---------------------------------------------------------------- switching off

  /** The hold of the last sample the hardware brought. */
  function HardwareHold(calls: seq<VpadRead>): Word {
    if calls == [] then {}
    else
      var r := calls[|calls| - 1];
      if r.own.Some? then r.own.value.hold else HardwareHold(calls[..|calls| - 1])
  }

  /** The real function takes its edges against its own last sample. */
  predicate HardwareTrue(calls: seq<VpadRead>) {
    calls != [] ==>
      var rest, r := calls[..|calls| - 1], calls[|calls| - 1];
      HardwareTrue(rest) && (r.own.Some? ==> EdgesFit(r.own.value, HardwareHold(rest)))
  }

  /** Nothing but hardware buttons was down in what the game saw last: the last merge added no
      button to the real sample's or, without one, had just the buttons the hardware last held. */
  predicate NothingExtra(calls: seq<VpadRead>) {
    calls != [] ==>
      var rest, r := calls[..|calls| - 1], calls[|calls| - 1];
      match r.remote
      case Some(bits) => if r.own.Some? then bits <= r.own.value.hold else bits == HardwareHold(rest)
      case None => r.own.Some? || NothingExtra(rest)
  }

  lemma {:induction false} NothingExtraMeans(calls: seq<VpadRead>)
    ensures NothingExtra(calls) <==> VpadPrev(calls) == HardwareHold(calls)
  {
    if calls != [] {
      NothingExtraMeans(calls[..|calls| - 1]);
    }
  }

  /** Whenever a real sample is passed through, nothing extra was down before it. */
  predicate SwitchesOffClean(calls: seq<VpadRead>) {
    calls != [] ==>
      var rest, r := calls[..|calls| - 1], calls[|calls| - 1];
      SwitchesOffClean(rest) && (r.own.Some? && r.remote.None? ==> NothingExtra(rest))
  }

  lemma PassedThroughFits(rest: seq<VpadRead>, s: Sample)
    requires EdgesFit(s, HardwareHold(rest))
    ensures EdgesFit(s, LastHold(Handed(rest))) <==> NothingExtra(rest)
  {
    MergedEdgesFollowTheGame(rest);
    NothingExtraMeans(rest);
    FitsOneHold(s, HardwareHold(rest), LastHold(Handed(rest)));
  }

  /** Over any run of reads with hardware that keeps its own edges straight, all edges the game is
      handed fit the sample it was handed before exactly when injection is only ever switched off
      with no remote button down beyond the hardware's. */
  lemma {:induction false} EdgesFitIffSwitchedOffClean(calls: seq<VpadRead>)
    requires HardwareTrue(calls)
    ensures Continuous(Handed(calls)) <==> SwitchesOffClean(calls)
  {
    if calls != [] {
      var rest, r := calls[..|calls| - 1], calls[|calls| - 1];
      EdgesFitIffSwitchedOffClean(rest);
      var handed := VpadOutcome(VpadPrev(rest), r.own, r.remote).0;
      if handed.Some? {
        OneMoreSample(Handed(rest), handed.value);
        if r.remote.None? {
          PassedThroughFits(rest, handed.value);
        } else {
          MergedEdgesFollowTheGame(rest);
        }
      } else {
        assert Handed(calls) == Handed(rest);
      }
    }
  }

  /** Button 0 is merged in and injection switched off: the game never sees it released. */
  lemma SwitchingOffSwallowsARelease()
    ensures var calls := [VpadRead(None, Some({0})), VpadRead(Some(Sample({}, {}, {})), None)];
            && HardwareTrue(calls)
            && Handed(calls) == [Sample({0}, {0}, {}), Sample({}, {}, {})]
            && !Continuous(Handed(calls))
  {
    var a, b := VpadRead(None, Some({0})), VpadRead(Some(Sample({}, {}, {})), None);
    assert [a, b][..1] == [a] && [a][..0] == [];
    assert Edges({}, {0}) == Sample({0}, {0}, {}) && {} + {0} == {0};
    assert Handed([a]) == [Sample({0}, {0}, {})];
  }

  /** A button that the game last saw down, but not on the hardware, is not released towards the
      game while injection stays off, until it has been pressed on the hardware. */
  lemma {:induction false} HeldButtonLosesItsRelease(calls: seq<VpadRead>, n: nat, bit: Bit)
    requires HardwareTrue(calls) && n <= |calls|
    requires bit in LastHold(Handed(calls[..n])) && bit !in HardwareHold(calls[..n])
    requires forall k :: n <= k < |calls| ==>
               calls[k].remote.None? && (calls[k].own.Some? ==> bit !in calls[k].own.value.hold)
    ensures Handed(calls[..n]) <= Handed(calls) && bit !in HardwareHold(calls)
    ensures forall k :: |Handed(calls[..n])| <= k < |Handed(calls)| ==>
              bit !in Handed(calls)[k].hold && bit !in Handed(calls)[k].release
    decreases |calls|
  {
    if n == |calls| {
      assert calls[..n] == calls;
    } else {
      var rest := calls[..|calls| - 1];
      assert rest[..n] == calls[..n];
      HeldButtonLosesItsRelease(rest, n, bit);
    }
  }

  // ---------------------------------------------------------------- the hooks

  const CHAN_0 := 0

  class Hooks {
    const remote: RemoteInput
    const switches: Switches
    const prevProHold: array<Word>
    var prevVpadHold: Word
    /** The button tables and stick thresholds of the two controller kinds. */
    const proBits: InputState -> Word
    const vpadBits: InputState -> Word

    ghost predicate Valid()
      reads this, remote, switches
    {
      prevProHold.Length == 3 && remote.Valid() && switches.slots.Length == 4
    }

    constructor (remote: RemoteInput, switches: Switches, proBits: InputState -> Word, vpadBits: InputState -> Word)
      requires remote.Valid() && switches.slots.Length == 4
      ensures Valid() && this.remote == remote && this.switches == switches
      ensures prevProHold[..] == [{}, {}, {}] && prevVpadHold == {} && fresh(prevProHold)
    {
      this.remote, this.switches, this.proBits, this.vpadBits := remote, switches, proBits, vpadBits;
      prevProHold := new Word[3](_ => {});
      prevVpadHold := {};
    }

    method FillProStatus(s: InputState, chan: nat) returns (status: Sample)
      requires Valid() && chan < 3
      modifies prevProHold
      ensures status == Edges(old(prevProHold[chan]), proBits(s))
      ensures prevProHold[..] == old(prevProHold[..])[chan := proBits(s)]
    {
      var hold := proBits(s);
      var prev := prevProHold[chan];
      prevProHold[chan] := hold;
      status := Sample(hold, hold - prev, prev - hold);
    }

    /** A player is switched on, by the master switch and by its own, and was updated within the last
        second. */
    ghost predicate Available(player: nat, nowMs: u32)
      requires Valid() && player < 4
      reads this, remote, remote.updatedAtMs, switches, switches.slots
    {
      && switches.master && switches.slots[player]
      && remote.updatedAtMs[player] != 0 && Sub32(nowMs, remote.updatedAtMs[player]) < 1000
    }

    /** What a call on a channel finds in the switches and in the table. */
    ghost function CallOn(chan: int, room: bool, nowMs: u32, own: Option<Sample>): KpadRead
      requires Valid()
      reads this, remote, remote.states, remote.updatedAtMs, switches, switches.slots
    {
      if chan < 0 || chan > 2 then KpadRead(chan, room, false, None, own)
      else
        var table := remote.View();
        KpadRead(chan, room, switches.Enabled(chan + 1),
                 if Fresh(table, chan + 1, nowMs) then Some(proBits(table.states[chan + 1])) else None, own)
    }

    /** `kpadInject`: `None` stands for the fall-through value. */
    method KpadInject(chan: int, room: bool, nowMs: u32) returns (r: Option<Sample>)
      requires Valid()
      modifies prevProHold
      ensures r == Injected(old(prevProHold[..]), old(CallOn(chan, room, nowMs, None)))
      ensures prevProHold[..] == AfterRead(old(prevProHold[..]), old(CallOn(chan, room, nowMs, None)))
      ensures r.Some? <==> 0 <= chan <= 2 && room && Available(chan + 1, nowMs)
      ensures r.Some? ==> r.value.hold == prevProHold[chan] == proBits(remote.states[chan + 1])
      ensures r.Some? ==> r.value.trigger == r.value.hold - old(prevProHold[chan])
                          && r.value.release == old(prevProHold[chan]) - r.value.hold
      ensures forall c :: 0 <= c < 3 && (c != chan || r.None?) ==> prevProHold[c] == old(prevProHold[c])
    {
      if chan < 0 || chan > 2 || !room {
        return None;
      }
      if !switches.Enabled(chan + 1) {
        return None;
      }
      var s := remote.Get(chan + 1, nowMs);
      if s.None? {
        return None;
      }
      var status := FillProStatus(s.value, chan);
      r := Some(status);
    }

    /** `my_KPADRead` and `my_KPADReadEx`; `own` is what the real function brings if it is called. */
    method ReadPro(chan: int, room: bool, own: Option<Sample>, nowMs: u32) returns (handed: Option<Sample>)
      requires Valid()
      modifies prevProHold
      ensures handed == HandedBy(old(prevProHold[..]), old(CallOn(chan, room, nowMs, own)))
      ensures prevProHold[..] == AfterRead(old(prevProHold[..]), old(CallOn(chan, room, nowMs, own)))
    {
      handed := KpadInject(chan, room, nowMs);
      if handed.None? {
        handed := own;
      }
    }

    /** The hold word merged into the GamePad's, if injection is on. */
    ghost function RemoteHold(nowMs: u32): Option<Word>
      requires Valid()
      reads this, remote, remote.states, remote.updatedAtMs, switches, switches.slots
    {
      if switches.Enabled(0) && Fresh(remote.View(), 0, nowMs) then Some(vpadBits(remote.View().states[0])) else None
    }

    /** `my_VPADRead` after the real call. */
    method VpadRead(chan: int, room: bool, own: Option<Sample>, nowMs: u32) returns (handed: Option<Sample>)
      requires Valid()
      modifies this`prevVpadHold
      ensures if chan != CHAN_0 || !room then handed == own && prevVpadHold == old(prevVpadHold)
              else (handed, prevVpadHold) == VpadOutcome(old(prevVpadHold), own, RemoteHold(nowMs))
      ensures chan == 0 && room && Available(0, nowMs) ==>
                && handed.Some? && handed.value.hold == prevVpadHold
                && handed.value.hold == (if own.Some? then own.value.hold else {}) + vpadBits(remote.states[0])
                && handed.value.trigger == handed.value.hold - old(prevVpadHold)
                && handed.value.release == old(prevVpadHold) - handed.value.hold
      ensures !(chan == 0 && room && Available(0, nowMs)) ==> handed == own
    {
      if chan != CHAN_0 || !room {
        return own;
      }
      var s: Option<InputState> := None;
      if switches.Enabled(0) {
        s := remote.Get(0, nowMs);
      }
      if s.None? {
        if own.Some? {
          prevVpadHold := own.value.hold;
        }
        return own;
      }
      var synthesized := own.None?;
      var hold := (if synthesized then {} else own.value.hold) + vpadBits(s.value);
      handed := Some(Sample(hold, hold - prevVpadHold, prevVpadHold - hold));
      prevVpadHold := hold;
    }
  }
}
