/** From the controller in a player's hands to what a game reads: the hooks on top of the way of the
    input. */
module GameInput {
  import opened Words
  import opened Wire
  import opened InputHub
  import opened ConsoleInput
  import opened InputPath
  import opened Injection

  /** A state that the host recorded for the player, within two timeouts and the longest delay of
      `now`. */
  predicate RecentOf(w: World, s: InputState, player: nat, delay: nat, now: nat) {
    s.slot == player && Backed(w.log, s, now - 2000 - delay, now)
  }

  /** On a console in any state the network can bring it to: what a hook would inject for a player
      is a state that the host recorded for that player, and recently. */
  lemma AvailableIsRecent(hooks: Hooks, player: nat, at: Setting, events: seq<Event>, now: nat)
    requires hooks.Valid() && AdmissibleRun(at, events) && hooks.remote.View() == Run(at, events).remote
    requires player < 4 && SameWrap(now, Run(at, events).seenAt[player])
    requires hooks.Available(player, Wrap32(now + at.console))
    ensures RecentOf(Run(at, events), hooks.remote.states[player], player, at.delay, now)
  {
    InjectedInputIsRecent(at, events, player, now, Run(at, events));
  }

  /** A read of channel `c` on such a console: the buttons that the game gets from the hook are those
      of a state that the host recorded for player `c + 1`, and of no other, within two timeouts and
      the longest delay. */
  method ReadChannel(hooks: Hooks, chan: int, room: bool, ghost at: Setting, ghost events: seq<Event>, ghost now: nat,
                     nowMs: u32)
    returns (injected: Option<Sample>)
    requires hooks.Valid() && AdmissibleRun(at, events) && hooks.remote.View() == Run(at, events).remote
    requires nowMs == Wrap32(now + at.console)
    requires forall i :: 0 <= i < 4 ==> SameWrap(now, Run(at, events).seenAt[i])
    modifies hooks.prevProHold
    ensures injected.Some? ==>
              && 0 <= chan <= 2
              && exists s: InputState ::
                   RecentOf(Run(at, events), s, chan + 1, at.delay, now) && injected.value.hold == hooks.proBits(s)
  {
    injected := hooks.KpadInject(chan, room, nowMs);
    if injected.Some? {
      AvailableIsRecent(hooks, chan + 1, at, events, now);
    }
  }
}
