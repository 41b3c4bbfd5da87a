/** The lock-free single-producer, single-consumer ring of stereo pairs between the audio
    callback and the network thread. Both sides are taken apart into their single memory
    accesses, and every interleaving of them is proved to behave as a first-in first-out queue. */
module AudioRing {
  import opened Words

  const RING_PAIRS := 8192

  datatype Pair = Pair(left: i16, right: i16)

  /** One sample of each of the two mixed channels, before clamping. */
  datatype Mixed = Mixed(left: i32, right: i32)

  type Cells = c: seq<i16> | |c| == 16384 witness seq(16384, _ => 0)

  function ClampSample(v: i32): i16 {
    if v > 32767 then 32767 else if v < -32768 then -32768 else v
  }

  function Gap(v: int, w: int): nat {
    if v < w then w - v else v - w
  }

  /** No 16-bit sample is closer to `v`. */
  ghost predicate Nearest(v: i32, w: i16) {
    forall x: i16 {:trigger Gap(v, x)} :: Gap(v, w) <= Gap(v, x)
  }

  /** Clamping picks the representable sample closest to the mixed one, and there is no other. */
  lemma ClampIsNearest(v: i32, w: i16)
    ensures Nearest(v, w) <==> w == ClampSample(v)
  {
    if Nearest(v, w) {
      assert Gap(v, w) <= Gap(v, ClampSample(v));
    }
  }

  /** A stored pair stands for a mixed one: left for left and right for right. */
  ghost predicate Renders(m: Mixed, p: Pair) {
    Nearest(m.left, p.left) && Nearest(m.right, p.right)
  }

  function Clamped(m: Mixed): Pair {
    Pair(ClampSample(m.left), ClampSample(m.right))
  }

  function ClampedAll(block: seq<Mixed>): (r: seq<Pair>)
    ensures |r| == |block| && forall i :: 0 <= i < |block| ==> r[i] == Clamped(block[i])
  {
    seq(|block|, i requires 0 <= i < |block| => Clamped(block[i]))
  }

  lemma ClampedRenders(m: Mixed)
    ensures Renders(m, Clamped(m))
  {
    ClampIsNearest(m.left, ClampSample(m.left));
    ClampIsNearest(m.right, ClampSample(m.right));
  }

  /** Position in the ring of the pair `i` places after a wrapping index. */
  function Slot(index: u32, i: nat): (r: nat)
    ensures r < RING_PAIRS
  {
    Wrap32(index + i) % 8192
  }

  /** The interleaved pair in one place of the ring. */
  function PairAt(cells: Cells, place: nat): Pair
    requires place < RING_PAIRS
  {
    Pair(cells[place * 2], cells[place * 2 + 1])
  }

  /** The pair number `k` of the whole stream, as the ring holds it. */
  function At(cells: Cells, k: nat): Pair {
    PairAt(cells, k % 8192)
  }

  /** What the ring holds between its two indices, oldest first. */
  function Contents(cells: Cells, head: u32, tail: u32): (r: seq<Pair>)
    ensures |r| == Sub32(head, tail)
  {
    seq(Sub32(head, tail), i requires 0 <= i => PairAt(cells, Slot(tail, i)))
  }

  lemma RemainderIsUnique(x: int, q: int, r: int)
    requires x == q * 8192 + r && 0 <= r < 8192
    ensures x % 8192 == r
  {
  }

  /** The ring size divides 2^32. */
  lemma RingDividesWord(x: int)
    ensures Wrap32(x) % 8192 == x % 8192
  {
    var q, w := x / 0x1_0000_0000, Wrap32(x);
    var a, r := w / 8192, w % 8192;
    assert x == q * 0x1_0000_0000 + w && w == a * 8192 + r;
    assert x == (q * 524288 + a) * 8192 + r;
    RemainderIsUnique(x, q * 524288 + a, r);
  }

  /** So the wrapping index finds the place of the unbounded counter. */
  lemma SlotOfCounter(k: nat, i: nat)
    ensures Slot(Wrap32(k), i) == (k + i) % 8192
  {
    WrapSteps(k, i);
    RingDividesWord(k + i);
  }

  /** Pairs less than a ring apart have different places. */
  lemma PlacesApart(a: nat, b: nat)
    requires a < b < a + RING_PAIRS
    ensures a % 8192 != b % 8192
  {
  }

  /** `finalMixCallback` between two of its memory accesses: the block it was given, the head
      it loaded, how many pairs it will store and how many it has stored. */
  datatype Producer =
    | Idle
    | Entered(block: seq<Mixed>, head: u32)
    | Writing(block: seq<Mixed>, head: u32, n: nat, i: nat, leftDone: bool)

  /** `audioRead` between two of its memory accesses. */
  datatype Consumer =
    | Resting
    | Called(maxPairs: u32, tail: u32)
    | Copying(tail: u32, n: nat, out: seq<Pair>, left: Option<i16>)

  /** The shared memory, both threads, and the history: samples offered by finished callbacks,
      the pairs accepted from them, how many were dropped, and the pairs read. */
  datatype System = System(
    cells: Cells, head: u32, tail: u32, producer: Producer, consumer: Consumer,
    offered: seq<Mixed>, accepted: seq<Pair>, dropped: nat, read: seq<Pair>)

  datatype Event = Mix(block: seq<Mixed>) | Produce | Read(maxPairs: u32) | Consume

  function Init(cells: Cells): System {
    System(cells, 0, 0, Idle, Resting, [], [], 0, [])
  }

  /** How many pairs the producer takes, given the indices it saw. */
  function Taken(samples: nat, head: u32, tail: u32): nat {
    var free := Sub32(8192, Sub32(head, tail));
    if samples > free then free else samples
  }

  /** How many pairs the consumer takes, given the indices it saw. */
  function Given(maxPairs: u32, head: u32, tail: u32): nat {
    var avail := Sub32(head, tail);
    if avail < maxPairs then avail else maxPairs
  }

  /** The callback stays inside the block it was given. */
  predicate InsideBlock(p: Producer) {
    p.Writing? ==> p.n <= |p.block|
  }

  /** One memory access of the producer: load the tail, store a left sample, store a right
      sample, or publish the head. */
  function ProducerStep(s: System): System
    requires InsideBlock(s.producer)
  {
    match s.producer
    case Idle => s
    case Entered(block, head) =>
      s.(producer := Writing(block, head, Taken(|block|, head, s.tail), 0, false))
    case Writing(block, head, n, i, leftDone) =>
      if i < n && !leftDone then
        s.(cells := s.cells[Slot(head, i) * 2 := ClampSample(block[i].left)],
           producer := Writing(block, head, n, i, true))
      else if i < n then
        s.(cells := s.cells[Slot(head, i) * 2 + 1 := ClampSample(block[i].right)],
           producer := Writing(block, head, n, i + 1, false))
      else
        s.(head := Wrap32(head + n), producer := Idle, offered := s.offered + block,
           accepted := s.accepted + ClampedAll(block)[..n], dropped := s.dropped + |block| - n)
  }

  /** One memory access of the consumer: load the head, load a left sample, load a right
      sample, or publish the tail. */
  function ConsumerStep(s: System): System {
    match s.consumer
    case Resting => s
    case Called(maxPairs, tail) =>
      s.(consumer := Copying(tail, Given(maxPairs, s.head, tail), [], None))
    case Copying(tail, n, out, None) =>
      if |out| < n then s.(consumer := Copying(tail, n, out, Some(s.cells[Slot(tail, |out|) * 2])))
      else s.(tail := Wrap32(tail + n), consumer := Resting, read := s.read + out)
    case Copying(tail, n, out, Some(left)) =>
      s.(consumer := Copying(tail, n, out + [Pair(left, s.cells[Slot(tail, |out|) * 2 + 1])], None))
  }

  /** A scheduler's choice. An event that its thread is not ready for changes nothing. */
  function Step(s: System, e: Event): System
    requires InsideBlock(s.producer)
  {
    match e
    case Mix(block) => if s.producer.Idle? && block != [] then s.(producer := Entered(block, s.head)) else s
    case Produce => ProducerStep(s)
    case Read(maxPairs) => if s.consumer.Resting? then s.(consumer := Called(maxPairs, s.tail)) else s
    case Consume => ConsumerStep(s)
  }

  /** The indices are the wrapped counts of accepted and taken pairs, at most one ring apart,
      and the ring holds what is between them. */
  predicate Holds(cells: Cells, head: u32, tail: u32, accepted: seq<Pair>, taken: nat) {
    && taken <= |accepted| <= taken + RING_PAIRS
    && head == Wrap32(|accepted|) && tail == Wrap32(taken)
    && forall k {:trigger At(cells, k)} :: taken <= k < |accepted| ==> At(cells, k) == accepted[k]
  }

  /** Queue part of the invariant. */
  predicate Queued(s: System) {
    && Holds(s.cells, s.head, s.tail, s.accepted, |s.read|)
    && s.read == s.accepted[..|s.read|]
  }

  /** What the producer has stored beyond the head, and that it fits below the tail. */
  predicate ProducerOk(s: System) {
    match s.producer
    case Idle => true
    case Entered(block, head) => head == s.head
    case Writing(block, head, n, i, leftDone) =>
      && head == s.head && i <= n <= |block| && |s.accepted| + n <= |s.read| + RING_PAIRS
      && (forall j {:trigger block[j]} :: 0 <= j < i ==> At(s.cells, |s.accepted| + j) == Clamped(block[j]))
      && (leftDone ==> i < n && At(s.cells, |s.accepted| + i).left == ClampSample(block[i].left))
  }

  /** What the consumer has copied, and that all it will copy was accepted. */
  predicate ConsumerOk(s: System) {
    match s.consumer
    case Resting => true
    case Called(_, tail) => tail == s.tail
    case Copying(tail, n, out, left) =>
      && tail == s.tail && |out| <= n && |s.read| + n <= |s.accepted|
      && (forall j {:trigger out[j]} :: 0 <= j < |out| ==> out[j] == s.accepted[|s.read| + j])
      && (left.Some? ==> |out| < n && left.value == s.accepted[|s.read| + |out|].left)
  }

  predicate Inv(s: System) {
    Queued(s) && ProducerOk(s) && ConsumerOk(s)
  }

  /** The unsigned difference of the indices is the number of pairs in the ring, and what the
      ring holds between them is what was accepted and not yet taken. */
  lemma IndicesCount(cells: Cells, head: u32, tail: u32, accepted: seq<Pair>, taken: nat)
    requires Holds(cells, head, tail, accepted, taken)
    ensures Sub32(head, tail) == |accepted| - taken
    ensures Contents(cells, head, tail) == accepted[taken..]
  {
    SubOfWraps(|accepted|, taken);
    forall i: nat | i < |accepted| - taken
      ensures PairAt(cells, Slot(tail, i)) == accepted[taken + i]
    {
      SlotOfCounter(taken, i);
      assert At(cells, taken + i) == accepted[taken + i];
    }
  }

  /** A sample the producer is about to store never lands on a pair still to be read. */
  lemma UnreadIsNeverWritten(s: System, k: nat)
    requires Inv(s) && s.producer.Writing? && s.producer.i < s.producer.n
    requires |s.read| <= k < |s.accepted|
    ensures Slot(s.producer.head, s.producer.i) != k % 8192
  {
    SlotOfCounter(|s.accepted|, s.producer.i);
    PlacesApart(k, |s.accepted| + s.producer.i);
  }

  /** A store changes one side of the next free pair and no pair before it. */
  lemma StoreEffect(s: System, cells: Cells)
    requires Inv(s) && s.producer.Writing? && s.producer.i < s.producer.n
    requires cells == ProducerStep(s).cells
    ensures var p := s.producer; var at := |s.accepted| + p.i;
            && (forall k: nat :: |s.read| <= k < at ==> At(cells, k) == At(s.cells, k))
            && At(cells, at) == (if p.leftDone then At(s.cells, at).(right := ClampSample(p.block[p.i].right))
                                 else At(s.cells, at).(left := ClampSample(p.block[p.i].left)))
  {
    var p := s.producer;
    var at := |s.accepted| + p.i;
    SlotOfCounter(|s.accepted|, p.i);
    forall k: nat | |s.read| <= k < at
      ensures At(cells, k) == At(s.cells, k)
    {
      PlacesApart(k, at);
    }
  }

  lemma StoreKeepsProducer(s: System, t: System)
    requires Inv(s) && s.producer.Writing? && s.producer.i < s.producer.n && t == ProducerStep(s)
    ensures ProducerOk(t)
  {
    StoreEffect(s, t.cells);
  }

  lemma StoreKeepsQueue(s: System, t: System)
    requires Inv(s) && s.producer.Writing? && s.producer.i < s.producer.n && t == ProducerStep(s)
    ensures Queued(t) && ConsumerOk(t)
  {
    StoreEffect(s, t.cells);
  }

  lemma StoreKeepsInv(s: System)
    requires Inv(s) && s.producer.Writing? && s.producer.i < s.producer.n
    ensures Inv(ProducerStep(s))
  {
    StoreKeepsProducer(s, ProducerStep(s));
    StoreKeepsQueue(s, ProducerStep(s));
  }

  /** Publishing the head adds what has been stored beyond it. */
  lemma HoldsGrows(cells: Cells, head: u32, tail: u32, accepted: seq<Pair>, taken: nat, more: seq<Pair>)
    requires Holds(cells, head, tail, accepted, taken) && |accepted| + |more| <= taken + RING_PAIRS
    requires forall j {:trigger more[j]} :: 0 <= j < |more| ==> At(cells, |accepted| + j) == more[j]
    ensures Holds(cells, Wrap32(head + |more|), tail, accepted + more, taken)
  {
    WrapSteps(|accepted|, |more|);
    forall k | |accepted| <= k < |accepted| + |more|
      ensures At(cells, k) == (accepted + more)[k]
    {
      var j := k - |accepted|;
      assert At(cells, |accepted| + j) == more[j];
    }
  }

  lemma PublishKeepsInv(s: System)
    requires Inv(s) && s.producer.Writing? && s.producer.i == s.producer.n
    ensures Inv(ProducerStep(s))
  {
    var p := s.producer;
    HoldsGrows(s.cells, s.head, s.tail, s.accepted, |s.read|, ClampedAll(p.block)[..p.n]);
  }

  lemma ProducerKeepsInv(s: System)
    requires Inv(s)
    ensures Inv(ProducerStep(s))
  {
    if s.producer.Entered? {
      IndicesCount(s.cells, s.head, s.tail, s.accepted, |s.read|);
    } else if s.producer.Writing? {
      if s.producer.i < s.producer.n {
        StoreKeepsInv(s);
      } else {
        PublishKeepsInv(s);
      }
    }
  }

  /** A load reads a pair that was accepted. */
  lemma LoadEffect(s: System)
    requires Queued(s) && ConsumerOk(s) && s.consumer.Copying? && |s.consumer.out| < s.consumer.n
    ensures PairAt(s.cells, Slot(s.tail, |s.consumer.out|)) == s.accepted[|s.read| + |s.consumer.out|]
  {
    var k := |s.read| + |s.consumer.out|;
    SlotOfCounter(|s.read|, |s.consumer.out|);
    assert At(s.cells, k) == s.accepted[k];
  }

  lemma LoadKeepsInv(s: System)
    requires Inv(s) && s.consumer.Copying? && |s.consumer.out| < s.consumer.n
    ensures Inv(ConsumerStep(s))
  {
    LoadEffect(s);
    var s' := ConsumerStep(s);
    assert s' == s.(consumer := s'.consumer);
    assert ConsumerOk(s') by {
      if s.consumer.left.Some? {
        assert s'.consumer.out == s.consumer.out + [s.accepted[|s.read| + |s.consumer.out|]];
      }
    }
  }

  lemma ReleaseKeepsInv(s: System)
    requires Inv(s) && s.consumer.Copying? && |s.consumer.out| == s.consumer.n
    ensures Inv(ConsumerStep(s))
  {
    var n := s.consumer.n;
    WrapSteps(|s.read|, n);
    assert s.read + s.consumer.out == s.accepted[..|s.read| + n];
  }

  lemma ConsumerKeepsInv(s: System)
    requires Inv(s)
    ensures Inv(ConsumerStep(s))
  {
    match s.consumer
    case Resting =>
    case Called(_, _) => IndicesCount(s.cells, s.head, s.tail, s.accepted, |s.read|);
    case Copying(_, n, out, _) =>
      if |out| < n { LoadKeepsInv(s); } else { ReleaseKeepsInv(s); }
  }

  lemma StepKeepsInv(s: System, e: Event)
    requires Inv(s)
    ensures Inv(Step(s, e))
  {
    if e.Produce? {
      ProducerKeepsInv(s);
    } else if e.Consume? {
      ConsumerKeepsInv(s);
    }
  }

  /** Every pair a callback offered was accepted or counted as dropped, and when none was
      dropped the accepted pairs are the offered ones, clamped. */
  predicate Accounted(s: System) {
    && |s.accepted| + s.dropped == |s.offered|
    && (s.dropped == 0 ==> s.accepted == ClampedAll(s.offered))
  }

  lemma StepKeepsAccount(s: System, e: Event)
    requires Inv(s) && Accounted(s)
    ensures Accounted(Step(s, e))
  {
    var p := s.producer;
    if e.Produce? && p.Writing? && p.i == p.n {
      if s.dropped == 0 && p.n == |p.block| {
        assert ClampedAll(s.offered + p.block) == ClampedAll(s.offered) + ClampedAll(p.block)[..p.n];
      }
    }
  }

  /** The state after any schedule of the two threads: every state of every interleaving. */
  function Run(cells: Cells, events: seq<Event>): (s: System)
    ensures Inv(s) && Accounted(s)
  {
    if events == [] then
      var s := Init(cells);
      assert ClampedAll([]) == [];
      s
    else
      var p := Run(cells, events[..|events| - 1]);
      StepKeepsInv(p, events[|events| - 1]);
      StepKeepsAccount(p, events[|events| - 1]);
      Step(p, events[|events| - 1])
  }

  /** The pairs accepted stand for the samples offered at the places `o`, in that order. */
  ghost predicate Selects(o: seq<nat>, offered: seq<Mixed>, accepted: seq<Pair>) {
    && |o| == |accepted|
    && (forall i, j :: 0 <= i < j < |o| ==> o[i] < o[j])
    && forall k {:trigger o[k]} :: 0 <= k < |o| ==> o[k] < |offered| && Renders(offered[o[k]], accepted[k])
  }

  /** A callback that ends has added the oldest part of its block, whatever the reader did meanwhile. */
  lemma PublishedAreTheOldest(s: System)
    requires Inv(s) && s.producer.Writing? && s.producer.i == s.producer.n
    ensures var t := ProducerStep(s); var p := s.producer;
            && t.offered == s.offered + p.block
            && |t.accepted| == |s.accepted| + p.n && t.accepted[..|s.accepted|] == s.accepted
            && forall j {:trigger p.block[j]} :: 0 <= j < p.n ==> Renders(p.block[j], t.accepted[|s.accepted| + j])
  {
    var p := s.producer;
    forall j {:trigger p.block[j]} | 0 <= j < p.n
      ensures Renders(p.block[j], ProducerStep(s).accepted[|s.accepted| + j])
    {
      ClampedRenders(p.block[j]);
    }
  }

  lemma SelectsMore(o: seq<nat>, offered: seq<Mixed>, accepted: seq<Pair>, block: seq<Mixed>, n: nat, more: seq<Pair>,
                    o': seq<nat>)
    requires Selects(o, offered, accepted) && n == |more| <= |block|
    requires forall j {:trigger block[j]} :: 0 <= j < n ==> Renders(block[j], more[j])
    requires o' == o + seq(n, j requires 0 <= j => |offered| + j)
    ensures Selects(o', offered + block, accepted + more)
  {
    forall k {:trigger o'[k]} | 0 <= k < |o'|
      ensures o'[k] < |offered + block| && Renders((offered + block)[o'[k]], (accepted + more)[k])
    {
      if k >= |o| {
        assert (offered + block)[o'[k]] == block[k - |o|];
      }
    }
  }

  lemma {:induction false} AcceptedInOrder(cells: Cells, events: seq<Event>)
    ensures exists o :: Selects(o, Run(cells, events).offered, Run(cells, events).accepted)
  {
    if events == [] {
      assert Selects([], Run(cells, events).offered, Run(cells, events).accepted);
    } else {
      AcceptedInOrder(cells, events[..|events| - 1]);
      var s, e := Run(cells, events[..|events| - 1]), events[|events| - 1];
      StepSelects(s, e);
      assert Run(cells, events) == Step(s, e);
    }
  }

  lemma StepSelects(s: System, e: Event)
    requires Inv(s) && exists o :: Selects(o, s.offered, s.accepted)
    ensures var t := Step(s, e); exists o :: Selects(o, t.offered, t.accepted)
  {
    var t, p := Step(s, e), s.producer;
    var o :| Selects(o, s.offered, s.accepted);
    if e.Produce? && p.Writing? && p.i == p.n {
      PublishedAreTheOldest(s);
      var more := t.accepted[|s.accepted|..];
      assert t.accepted == s.accepted + more;
      var o' := o + seq(p.n, j requires 0 <= j => |s.offered| + j);
      SelectsMore(o, s.offered, s.accepted, p.block, p.n, more, o');
    } else {
      assert Selects(o, t.offered, t.accepted);
    }
  }

  /** Under every interleaving, the pairs read followed by the pairs still in the ring stand for
      samples offered, in the order they were offered and none twice; they are as many as were not
      dropped, so all of them when none was; and the indices are never more than a ring apart. */
  lemma FifoUnderEveryInterleaving(cells: Cells, events: seq<Event>)
    ensures var s := Run(cells, events); var all := s.read + Contents(s.cells, s.head, s.tail);
            && all == s.accepted
            && Sub32(s.head, s.tail) <= RING_PAIRS
            && |all| + s.dropped == |s.offered|
            && (exists o :: Selects(o, s.offered, all))
            && (s.dropped == 0 ==> forall k {:trigger all[k]} :: 0 <= k < |all| ==> Renders(s.offered[k], all[k]))
  {
    var s := Run(cells, events);
    IndicesCount(s.cells, s.head, s.tail, s.accepted, |s.read|);
    AcceptedInOrder(cells, events);
    if s.dropped == 0 {
      forall k | 0 <= k < |s.accepted|
        ensures Renders(s.offered[k], s.accepted[k])
      {
        ClampedRenders(s.offered[k]);
      }
    }
  }

  /** A callback drops samples exactly when its block does not fit in the room it saw, and then
      it leaves a ring that was full at that moment: no sample is dropped while there is room. */
  lemma DropsOnlyWhenFull(s: System)
    requires Inv(s) && s.producer.Entered?
    ensures var n := ProducerStep(s).producer.n; var samples := |s.producer.block|;
            && (n < samples <==> |s.accepted| - |s.read| + samples > RING_PAIRS)
            && (n < samples ==> |s.accepted| - |s.read| + n == RING_PAIRS)
  {
    IndicesCount(s.cells, s.head, s.tail, s.accepted, |s.read|);
  }
}
