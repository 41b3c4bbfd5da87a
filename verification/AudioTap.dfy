/** The audio tap as written: the ring is an array updated in place by the mix callback and by
    the reader, and the network thread drains it in full chunks. */
module AudioTap {
  import opened Words
  import opened AudioRing
  import opened AudioCalls
  import opened AudioDrain

  /** `AXDeviceFinalMixData`: one buffer per channel, any of which may be missing. */
  datatype MixData = MixData(data: Option<seq<Option<seq<i32>>>>, channels: u16, samples: u16)

  /** What the audio system promises: as many buffers as channels, as long as it says. */
  predicate WellFormed(mix: MixData) {
    mix.data.Some? ==>
      && |mix.data.value| >= mix.channels
      && forall c :: 0 <= c < mix.channels && mix.data.value[c].Some? ==> |mix.data.value[c].value| >= mix.samples
  }

  /** The block a callback stores: the first two channels, the first one twice when there is
      only one, and nothing when a buffer is missing. */
  function BlockOf(raw: Option<MixData>): (r: seq<Mixed>)
    requires raw.Some? ==> WellFormed(raw.value)
  {
    if raw.None? || raw.value.data.None? || raw.value.channels == 0 then []
    else
      var data := raw.value.data.value;
      var left, right := data[0], if raw.value.channels >= 2 then data[1] else data[0];
      if left.None? || right.None? then []
      else seq(raw.value.samples, i requires 0 <= i < raw.value.samples => Mixed(left.value[i], right.value[i]))
  }

  /** The buffers a callback needs are there: the first, and with two channels or more the second. */
  predicate Playable(mix: MixData)
    requires WellFormed(mix)
  {
    && mix.data.Some? && mix.channels > 0 && mix.data.value[0].Some?
    && (mix.channels >= 2 ==> mix.data.value[1].Some?)
  }

  /** A stored pair stands for sample `j` of the first buffer on the left, and on the right of the
      second one, or of the first if there is only one channel. */
  ghost predicate Plays(mix: MixData, j: nat, p: Pair)
    requires WellFormed(mix) && Playable(mix) && j < mix.samples
  {
    && Nearest(mix.data.value[0].value[j], p.left)
    && (mix.channels >= 2 ==> Nearest(mix.data.value[1].value[j], p.right))
    && (mix.channels == 1 ==> Nearest(mix.data.value[0].value[j], p.right))
  }

  /** How many of the samples find room. */
  function Fits(samples: nat, room: nat): (n: nat)
    ensures n <= samples && n <= room && (n == samples || n == room)
  {
    if samples < room then samples else room
  }

  /** `n` more pairs are the first `n` samples of the buffers. */
  ghost predicate MixAppended(mix: MixData, before: seq<Pair>, n: nat, after: seq<Pair>)
    requires WellFormed(mix) && Playable(mix) && n <= mix.samples
  {
    && |after| == |before| + n && after[..|before|] == before
    && forall k :: |before| <= k < |before| + n ==> Plays(mix, k - |before|, after[k])
  }

  lemma BlockIsAppended(mix: MixData, before: seq<Pair>, n: nat, after: seq<Pair>)
    requires WellFormed(mix) && Playable(mix) && n <= mix.samples
    requires after == before + ClampedAll(BlockOf(Some(mix)))[..n]
    ensures MixAppended(mix, before, n, after)
  {
    var block := BlockOf(Some(mix));
    assert after[..|before|] == before;
    forall k | |before| <= k < |before| + n
      ensures Plays(mix, k - |before|, after[k])
    {
      assert after[k] == Clamped(block[k - |before|]);
      ClampedRenders(block[k - |before|]);
    }
  }

  /** The first `n` pairs of an interleaved buffer. */
  function Interleaved(samples: seq<i16>, n: nat): (r: seq<Pair>)
    requires n * 2 <= |samples|
    ensures |r| == n && forall k {:trigger r[k]} :: 0 <= k < n ==> r[k] == Pair(samples[k * 2], samples[k * 2 + 1])
  {
    seq(n, k requires 0 <= k < n => Pair(samples[k * 2], samples[k * 2 + 1]))
  }

  lemma InterleavedNext(samples: seq<i16>, i: nat, p: Pair)
    requires i * 2 + 2 <= |samples|
    ensures Interleaved(samples[i * 2 := p.left][i * 2 + 1 := p.right], i + 1) == Interleaved(samples, i) + [p]
  {
  }

  /** The buffer holds `n` pairs of the stream, the left sample of each before its right one. */
  predicate HandedOut(samples: seq<i16>, n: nat, stream: seq<Pair>, from: nat)
    requires n * 2 <= |samples| && from + n <= |stream|
  {
    forall k :: from <= k < from + n ==>
      samples[2 * (k - from)] == stream[k].left && samples[2 * (k - from) + 1] == stream[k].right
  }

  lemma InterleavedIsHandedOut(samples: seq<i16>, n: nat, stream: seq<Pair>, from: nat)
    requires n * 2 <= |samples| && from + n <= |stream| && Interleaved(samples, n) == stream[from..from + n]
    ensures HandedOut(samples, n, stream, from)
  {
    forall k | from <= k < from + n
      ensures samples[2 * (k - from)] == stream[k].left && samples[2 * (k - from) + 1] == stream[k].right
    {
      assert Interleaved(samples, n)[k - from] == stream[from..from + n][k - from];
    }
  }

  class Tap {
    const ring: array<i16>
    var head: u32
    var tail: u32
    var enabled: bool
    /** Every pair stored so far, and how many of them have been read. */
    ghost var accepted: seq<Pair>
    ghost var taken: nat

    ghost predicate Valid()
      reads this, ring
    {
      ring.Length == 16384 && Holds(ring[..], head, tail, accepted, taken)
    }

    /** The ring's contents, by its indices alone: what was stored and not yet read. */
    ghost function Queue(): (r: seq<Pair>)
      requires Valid()
      reads this, ring
      ensures r == accepted[taken..] && |r| == |accepted| - taken == Sub32(head, tail)
    {
      IndicesCount(ring[..], head, tail, accepted, taken);
      Contents(ring[..], head, tail)
    }

    constructor ()
      ensures Valid() && Queue() == [] && !enabled && fresh(ring)
    {
      ring := new i16[16384](_ => 0);
      head, tail, enabled := 0, 0, false;
      accepted, taken := [], 0;
    }

    /** One iteration of the store loop. */
    method StorePair(i: nat, m: Mixed)
      requires Valid() && |accepted| + i < taken + RING_PAIRS
      modifies ring
      ensures At(ring[..], |accepted| + i) == Clamped(m)
      ensures forall k: nat :: taken <= k < |accepted| + i ==> At(ring[..], k) == old(At(ring[..], k))
    {
      ghost var at := |accepted| + i;
      SlotOfCounter(|accepted|, i);
      var idx := Slot(head, i) * 2;
      ring[idx] := ClampSample(m.left);
      ring[idx + 1] := ClampSample(m.right);
      forall k: nat | taken <= k < at
        ensures At(ring[..], k) == old(At(ring[..], k))
      {
        PlacesApart(k, at);
      }
    }

    /** The store loop, and the final store of the head. */
    method Store(block: seq<Mixed>, n: nat)
      requires Valid() && n <= |block| && |accepted| + n <= taken + RING_PAIRS
      modifies this`head, this`accepted, ring
      ensures Valid() && accepted == old(accepted) + ClampedAll(block)[..n]
    {
      for i := 0 to n
        modifies ring
        invariant Valid()
        invariant forall j {:trigger block[j]} :: 0 <= j < i ==> At(ring[..], |accepted| + j) == Clamped(block[j])
      {
        StorePair(i, block[i]);
      }
      Publish(ClampedAll(block)[..n], n);
    }

    method Publish(ghost more: seq<Pair>, n: nat)
      requires Valid() && n == |more| && |accepted| + n <= taken + RING_PAIRS
      requires forall j {:trigger more[j]} :: 0 <= j < n ==> At(ring[..], |accepted| + j) == more[j]
      modifies this`head, this`accepted
      ensures Valid() && accepted == old(accepted) + more
    {
      HoldsGrows(ring[..], head, tail, accepted, taken, more);
      head := Wrap32(head + n);
      accepted := accepted + more;
    }

    /** The end of `finalMixCallback`, with both buffers there. */
    method MixIn(mix: MixData)
      requires Valid() && WellFormed(mix) && Playable(mix)
      modifies this`head, this`accepted, ring
      ensures Valid()
      ensures accepted == old(accepted) + Fitting(ClampedAll(BlockOf(Some(mix))), RING_PAIRS - |old(Queue())|)
      ensures MixAppended(mix, old(accepted), Fits(mix.samples, 8192 - |old(Queue())|), accepted)
    {
      assert |Queue()| == Sub32(head, tail);
      var n := Taken(mix.samples, head, tail);
      Store(BlockOf(Some(mix)), n);
      BlockIsAppended(mix, old(accepted), n, accepted);
    }

    /** `finalMixCallback`: the block joins the queue as far as there is room, the newest samples
        are dropped. */
    method FinalMix(raw: Option<MixData>)
      requires Valid() && (raw.Some? ==> WellFormed(raw.value))
      modifies this`head, this`accepted, ring
      ensures Valid()
      ensures accepted == old(accepted) +
                Fitting(if enabled then ClampedAll(BlockOf(raw)) else [], RING_PAIRS - |old(Queue())|)
      ensures !(enabled && raw.Some? && Playable(raw.value)) ==> accepted == old(accepted)
      ensures enabled && raw.Some? && Playable(raw.value) ==>
                MixAppended(raw.value, old(accepted), Fits(raw.value.samples, 8192 - |old(Queue())|), accepted)
    {
      if !enabled || raw.None? {
        return;
      }
      var mix := raw.value;
      if mix.data.None? || mix.channels == 0 || mix.samples == 0 {
        return;
      }
      var left := mix.data.value[0];
      var right := if mix.channels >= 2 then mix.data.value[1] else mix.data.value[0];
      if left.None? || right.None? {
        return;
      }
      MixIn(mix);
    }

    /** One iteration of the copy loop. */
    method CopyPair(out: array<i16>, i: nat)
      requires Valid() && out != ring && out.Length >= (i + 1) * 2 && taken + i < |accepted|
      requires Interleaved(out[..], i) == accepted[taken..taken + i]
      modifies out
      ensures Interleaved(out[..], i + 1) == accepted[taken..taken + i + 1]
    {
      SlotOfCounter(taken, i);
      assert At(ring[..], taken + i) == accepted[taken + i];
      var idx := Slot(tail, i) * 2;
      ghost var was: seq<i16>, pair := out[..], accepted[taken + i];
      InterleavedNext(was, i, pair);
      out[i * 2] := ring[idx];
      out[i * 2 + 1] := ring[idx + 1];
      assert out[..] == was[i * 2 := pair.left][i * 2 + 1 := pair.right];
      assert accepted[taken..taken + i + 1] == accepted[taken..taken + i] + [pair];
    }

    /** The copy loop. */
    method CopyOut(out: array<i16>, n: nat)
      requires Valid() && out != ring && out.Length >= n * 2 && taken + n <= |accepted|
      modifies out
      ensures Interleaved(out[..], n) == accepted[taken..taken + n]
    {
      for i := 0 to n
        invariant Interleaved(out[..], i) == accepted[taken..taken + i]
      {
        CopyPair(out, i);
      }
    }

    /** `audioRead`: the oldest pairs leave the queue, interleaved into the caller's buffer. */
    method AudioRead(out: array<i16>, maxPairs: u32) returns (n: nat)
      requires Valid() && out != ring && out.Length >= maxPairs * 2
      modifies this`tail, this`taken, out
      ensures Valid()
      ensures n == (if |old(Queue())| < maxPairs then |old(Queue())| else maxPairs)
      ensures taken == old(taken) + n
      ensures Interleaved(out[..], n) == accepted[old(taken)..old(taken) + n]
      ensures HandedOut(out[..], n, accepted, old(taken))
    {
      assert |Queue()| == Sub32(head, tail);
      n := Given(maxPairs, head, tail);
      CopyOut(out, n);
      InterleavedIsHandedOut(out[..], n, accepted, taken);
      WrapSteps(taken, n);
      tail := Wrap32(tail + n);
      taken := taken + n;
    }
  }

  /** The chunks one pass of `drainAudio` sends from a queue that nothing is added to meanwhile, at
      most `passes` of them. */
  function Sent(queue: seq<Pair>, passes: nat): (r: seq<seq<Pair>>) {
    if passes == 0 || |queue| < CHUNK_PAIRS then []
    else [queue[..CHUNK_PAIRS]] + Sent(queue[CHUNK_PAIRS..], passes - 1)
  }

  /** And the queue it leaves: a read that comes up short empties the queue. */
  function Left(queue: seq<Pair>, passes: nat): seq<Pair> {
    if passes == 0 then queue
    else if |queue| < CHUNK_PAIRS then []
    else Left(queue[CHUNK_PAIRS..], passes - 1)
  }

  lemma {:induction false} FlatFirst(first: seq<Pair>, rest: seq<seq<Pair>>)
    ensures Flat([first] + rest) == first + Flat(rest)
  {
    var all := [first] + rest;
    if rest == [] {
      assert all[..0] == [] && Flat([]) == [];
    } else {
      var n := |rest| - 1;
      FlatFirst(first, rest[..n]);
      assert all[..|all| - 1] == [first] + rest[..n];
      assert first + Flat(rest[..n]) + rest[n] == first + (Flat(rest[..n]) + rest[n]);
    }
  }

  lemma FlatSent(queue: seq<Pair>, passes: nat)
    requires passes > 0 && |queue| >= CHUNK_PAIRS
    ensures Flat(Sent(queue, passes)) == queue[..CHUNK_PAIRS] + Flat(Sent(queue[CHUNK_PAIRS..], passes - 1))
  {
    FlatFirst(queue[..CHUNK_PAIRS], Sent(queue[CHUNK_PAIRS..], passes - 1));
  }

  lemma {:induction false} SentIsPrefix(queue: seq<Pair>, passes: nat)
    ensures Flat(Sent(queue, passes)) <= queue
    ensures forall c :: c in Sent(queue, passes) ==> |c| == CHUNK_PAIRS
  {
    if passes > 0 && |queue| >= CHUNK_PAIRS {
      SentIsPrefix(queue[CHUNK_PAIRS..], passes - 1);
      FlatSent(queue, passes);
    }
  }

  /** Cutting the same front off both sides of an equation. */
  lemma CutFront(first: seq<Pair>, rest: seq<Pair>, sent: seq<Pair>, left: seq<Pair>)
    ensures first + sent + left == first + rest <==> sent + left == rest
  {
    assert first + sent + left == first + (sent + left);
    assert (first + (sent + left))[|first|..] == sent + left && (first + rest)[|first|..] == rest;
  }

  /** No pass comes up short: each finds a full chunk, or nothing. */
  predicate NeverShort(length: nat, passes: nat) {
    passes == 0 || length == 0 || (length >= 256 && NeverShort(length - 256, passes - 1))
  }

  /** That is: enough full chunks for every pass, or none left over. */
  lemma {:induction false} NeverShortIff(length: nat, passes: nat)
    ensures NeverShort(length, passes) <==> length >= passes * 256 || length % 256 == 0
  {
    if passes > 0 && length >= 256 {
      NeverShortIff(length - 256, passes - 1);
    }
  }

  lemma {:induction false} LossIff(queue: seq<Pair>, passes: nat)
    ensures Flat(Sent(queue, passes)) + Left(queue, passes) == queue <==> NeverShort(|queue|, passes)
  {
    if passes > 0 && |queue| >= CHUNK_PAIRS {
      var first, rest := queue[..CHUNK_PAIRS], queue[CHUNK_PAIRS..];
      LossIff(rest, passes - 1);
      FlatSent(queue, passes);
      assert queue == first + rest;
      CutFront(first, rest, Flat(Sent(rest, passes - 1)), Left(rest, passes - 1));
    }
  }

  lemma {:induction false} ChunksSent(queue: seq<Pair>, passes: nat)
    ensures |Sent(queue, passes)| == if |queue| / 256 < passes then |queue| / 256 else passes
    ensures Left(queue, passes) == if |queue| / 256 < passes then [] else queue[passes * 256..]
  {
    if passes > 0 && |queue| >= CHUNK_PAIRS {
      ChunksSent(queue[CHUNK_PAIRS..], passes - 1);
    }
  }

  /** A pass with no callback between its reads. What is sent is a prefix of the queue in full
      chunks, as many as there are and `passes` allows. The pairs of a short read have left the
      queue and are lost: the pass keeps every pair exactly when it never comes up short, with
      `passes` full chunks queued or none left over. */
  lemma PassLosesNothingIff(queue: seq<Pair>, passes: nat)
    ensures |Sent(queue, passes)| == if |queue| / 256 < passes then |queue| / 256 else passes
    ensures Left(queue, passes) == if |queue| / 256 < passes then [] else queue[passes * 256..]
    ensures Flat(Sent(queue, passes)) <= queue
    ensures forall c :: c in Sent(queue, passes) ==> |c| == CHUNK_PAIRS
    ensures Flat(Sent(queue, passes)) + Left(queue, passes) == queue <==>
            |queue| >= passes * 256 || |queue| % 256 == 0
  {
    ChunksSent(queue, passes);
    SentIsPrefix(queue, passes);
    LossIff(queue, passes);
    NeverShortIff(|queue|, passes);
  }

  lemma SentNext(queue: seq<Pair>, passes: nat, chunks: seq<seq<Pair>>)
    requires passes > 0 && |queue| >= CHUNK_PAIRS
    ensures chunks + Sent(queue, passes) == chunks + [queue[..CHUNK_PAIRS]] + Sent(queue[CHUNK_PAIRS..], passes - 1)
  {
    var rest := Sent(queue[CHUNK_PAIRS..], passes - 1);
    assert chunks + ([queue[..CHUNK_PAIRS]] + rest) == chunks + [queue[..CHUNK_PAIRS]] + rest;
  }

  /** `drainAudio`, up to the packing of each chunk, undisturbed. AudioDrain has the loop under every
      schedule of the mix callback. */
  method DrainAudio(tap: Tap) returns (chunks: seq<seq<Pair>>)
    requires tap.Valid()
    modifies tap`tail, tap`taken
    ensures tap.Valid()
    ensures chunks == Sent(old(tap.Queue()), PASS_READS)
    ensures tap.Queue() == Left(old(tap.Queue()), PASS_READS)
  {
    var samples := new i16[512];
    chunks := [];
    for i := 0 to 8
      invariant tap.Valid()
      invariant chunks + Sent(tap.Queue(), 8 - i) == Sent(old(tap.Queue()), 8)
      invariant Left(tap.Queue(), 8 - i) == Left(old(tap.Queue()), 8)
    {
      ghost var queue := tap.Queue();
      var pairs := tap.AudioRead(samples, CHUNK_PAIRS);
      if pairs < CHUNK_PAIRS {
        break;
      }
      assert Interleaved(samples[..], CHUNK_PAIRS) == queue[..CHUNK_PAIRS];
      assert tap.Queue() == queue[CHUNK_PAIRS..];
      SentNext(queue, 8 - i, chunks);
      chunks := chunks + [Interleaved(samples[..], CHUNK_PAIRS)];
    }
  }
}
