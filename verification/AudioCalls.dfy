/** A call of the mix callback or of the reader that the other thread does not interrupt: the
    single memory accesses of the interleaved ring add up to the calls as specified. */
module AudioCalls {
  import opened AudioRing

  /** The oldest part of a block that fits the room. */
  function Fitting(block: seq<Pair>, room: nat): seq<Pair> {
    block[..if |block| > room then room else |block|]
  }

  function ProducerSteps(s: System, k: nat): (t: System)
    requires Inv(s)
    ensures Inv(t)
    decreases k
  {
    if k == 0 then s
    else
      ProducerKeepsInv(s);
      ProducerSteps(ProducerStep(s), k - 1)
  }

  function ConsumerSteps(s: System, k: nat): (t: System)
    requires Inv(s)
    ensures Inv(t)
    decreases k
  {
    if k == 0 then s
    else
      ConsumerKeepsInv(s);
      ConsumerSteps(ConsumerStep(s), k - 1)
  }

  /** The first pairs of the block are stored, and nothing else the reader sees has changed. */
  predicate Appended(s: System, block: seq<Mixed>, n: nat, t: System)
    requires n <= |block|
  {
    t.producer.Idle? && t.accepted == s.accepted + ClampedAll(block)[..n] && t.read == s.read && t.tail == s.tail
  }

  /** Two accesses store one pair. */
  lemma StoreOne(s: System)
    requires Inv(s) && s.producer.Writing? && !s.producer.leftDone && s.producer.i < s.producer.n
    ensures Inv(ProducerStep(s))
    ensures var t := ProducerStep(ProducerStep(s));
            t == s.(cells := t.cells, producer := s.producer.(i := s.producer.i + 1))
  {
    ProducerKeepsInv(s);
  }

  lemma PublishAppends(s: System)
    requires Inv(s) && s.producer.Writing? && s.producer.i == s.producer.n
    ensures Appended(s, s.producer.block, s.producer.n, ProducerStep(s))
  {
  }

  lemma {:induction false} FinishCallback(s: System, k: nat)
    requires Inv(s) && s.producer.Writing? && !s.producer.leftDone && k == 2 * (s.producer.n - s.producer.i) + 1
    ensures Appended(s, s.producer.block, s.producer.n, ProducerSteps(s, k))
    decreases k
  {
    ProducerKeepsInv(s);
    var s1 := ProducerStep(s);
    if s.producer.i < s.producer.n {
      StoreOne(s);
      ProducerKeepsInv(s1);
      FinishCallback(ProducerStep(s1), k - 2);
    } else {
      PublishAppends(s);
    }
  }

  /** A callback that the reader does not interrupt appends to the queue what fits of its block. */
  lemma CallbackAlone(s: System, n: nat)
    requires Inv(s) && s.producer.Entered?
    requires n == |Fitting(ClampedAll(s.producer.block), RING_PAIRS - (|s.accepted| - |s.read|))|
    ensures Appended(s, s.producer.block, n, ProducerSteps(s, 2 * n + 2))
  {
    IndicesCount(s.cells, s.head, s.tail, s.accepted, |s.read|);
    ProducerKeepsInv(s);
    FinishCallback(ProducerStep(s), 2 * n + 1);
  }

  /** The next `n` pairs have been read, and nothing else has changed. */
  predicate TakenOff(s: System, n: nat, t: System) {
    && |s.read| + n <= |s.accepted| && t.read == s.accepted[..|s.read| + n]
    && t.consumer.Resting? && t.accepted == s.accepted && t.cells == s.cells
  }

  lemma {:induction false} FinishRead(s: System, k: nat)
    requires Inv(s) && s.consumer.Copying? && s.consumer.left.None? && k == 2 * (s.consumer.n - |s.consumer.out|) + 1
    ensures TakenOff(s, s.consumer.n, ConsumerSteps(s, k))
    decreases k
  {
    ConsumerKeepsInv(s);
    var s1 := ConsumerStep(s);
    if |s.consumer.out| < s.consumer.n {
      ConsumerKeepsInv(s1);
      FinishRead(ConsumerStep(s1), k - 2);
    } else {
      assert ConsumerSteps(s1, 0) == s1;
    }
  }

  /** A read that the producer does not interrupt takes the oldest pairs, as many as asked for or
      all there are. */
  lemma ReadAlone(s: System, n: nat)
    requires Inv(s) && s.consumer.Called?
    requires n == |Fitting(s.accepted[|s.read|..], s.consumer.maxPairs)|
    ensures TakenOff(s, n, ConsumerSteps(s, 2 * n + 2))
  {
    IndicesCount(s.cells, s.head, s.tail, s.accepted, |s.read|);
    ConsumerKeepsInv(s);
    FinishRead(ConsumerStep(s), 2 * n + 1);
  }
}
