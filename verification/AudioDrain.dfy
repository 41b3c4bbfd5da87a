/** The network thread draining the ring while the mix callback fills it: the loop of
    `drainAudio` on top of the interleaved ring, under every schedule of the two threads. */
module AudioDrain {
  import opened Words
  import opened AudioRing

  const CHUNK_PAIRS := 256
  const PASS_READS := 8

  /** The ring with both threads, the turn of the pass the network thread is in, what its reads
      brought, the chunks it sent and the pairs it threw away; `seen` is how many pairs its latest
      load of the head showed, `lostBefore` how many had been thrown away when the pass began. */
  datatype Net = Net(
    sys: System, turn: Option<nat>, results: seq<seq<Pair>>, chunks: seq<seq<Pair>>, lost: seq<Pair>,
    seen: nat, lostBefore: nat)

  datatype NetEvent = Callback(block: seq<Mixed>) | ProducerAccess | PassStart | NetAccess

  function Flat(chunks: seq<seq<Pair>>): seq<Pair> {
    if chunks == [] then [] else Flat(chunks[..|chunks| - 1]) + chunks[|chunks| - 1]
  }

  /** The tail is published and the read returns `out`: a full chunk is sent and the loop goes on, a
      short one is dropped and ends the pass. */
  function ReadReturns(w: Net, i: nat, out: seq<Pair>): Net {
    var r := w.(sys := ConsumerStep(w.sys), results := w.results + [out]);
    if |out| < CHUNK_PAIRS then r.(turn := None, lost := w.lost + out)
    else r.(turn := Some(i + 1), chunks := w.chunks + [out])
  }

  /** The next step of the network thread inside a pass. */
  function NetStep(w: Net): Net {
    match w.turn
    case None => w
    case Some(i) =>
      match w.sys.consumer
      case Resting =>
        if i < PASS_READS then w.(sys := w.sys.(consumer := Called(CHUNK_PAIRS, w.sys.tail))) else w.(turn := None)
      case Called(_, tail) => w.(sys := ConsumerStep(w.sys), seen := Sub32(w.sys.head, tail))
      case Copying(_, n, out, left) =>
        if left.None? && |out| >= n then ReadReturns(w, i, out) else w.(sys := ConsumerStep(w.sys))
  }

  function Next(w: Net, e: NetEvent): (r: Net)
    requires InsideBlock(w.sys.producer)
    ensures InsideBlock(r.sys.producer)
  {
    match e
    case Callback(block) => w.(sys := Step(w.sys, Mix(block)))
    case ProducerAccess => w.(sys := Step(w.sys, Produce))
    case PassStart => if w.turn.None? then w.(turn := Some(0), lostBefore := |w.lost|) else w
    case NetAccess => NetStep(w)
  }

  // ---------------------------------------------------------------- what the reads brought

  function FullReads(results: seq<seq<Pair>>): seq<seq<Pair>> {
    if results == [] then []
    else
      var r := results[|results| - 1];
      FullReads(results[..|results| - 1]) + if |r| == CHUNK_PAIRS then [r] else []
  }

  function ShortReads(results: seq<seq<Pair>>): seq<seq<Pair>> {
    if results == [] then []
    else
      var r := results[|results| - 1];
      ShortReads(results[..|results| - 1]) + if 0 < |r| < CHUNK_PAIRS then [r] else []
  }

  /** Every completed read was full and has been sent, or short and has been thrown away. */
  predicate Booked(w: Net) {
    && (forall k :: 0 <= k < |w.results| ==> |w.results[k]| <= CHUNK_PAIRS)
    && w.sys.read == Flat(w.results)
    && w.chunks == FullReads(w.results)
    && w.lost == Flat(ShortReads(w.results))
  }

  lemma BookedNext(results: seq<seq<Pair>>, r: seq<Pair>)
    requires |r| <= CHUNK_PAIRS
    ensures Flat(results + [r]) == Flat(results) + r
    ensures FullReads(results + [r]) == if |r| == CHUNK_PAIRS then FullReads(results) + [r] else FullReads(results)
    ensures Flat(ShortReads(results + [r])) ==
              if |r| < CHUNK_PAIRS then Flat(ShortReads(results)) + r else Flat(ShortReads(results))
  {
    assert (results + [r])[..|results|] == results;
    var short := ShortReads(results);
    if r == [] {
      assert ShortReads(results + [r]) == short && Flat(short) + r == Flat(short);
    } else if |r| < CHUNK_PAIRS {
      assert (short + [r])[..|short|] == short;
    } else {
      assert ShortReads(results + [r]) == short;
    }
  }

  /** Inside a pass nothing has been lost yet, and the read under way takes what the last load of the
      head showed, up to a chunk; after it, what it lost is what that load showed, if that was less
      than a chunk. */
  predicate PassOk(w: Net) {
    match w.turn
    case None =>
      && w.sys.consumer.Resting?
      && (w.results != [] ==> |w.lost| == w.lostBefore + if w.seen < CHUNK_PAIRS then w.seen else 0)
    case Some(i) =>
      && |w.lost| == w.lostBefore && i <= PASS_READS
      && match w.sys.consumer
         case Resting => i > 0 ==> w.seen >= CHUNK_PAIRS
         case Called(maxPairs, _) => maxPairs == CHUNK_PAIRS && i < PASS_READS
         case Copying(_, n, out, _) =>
           |out| <= n == (if w.seen < CHUNK_PAIRS then w.seen else CHUNK_PAIRS) && i < PASS_READS
  }

  predicate NetInv(w: Net) {
    Inv(w.sys) && Accounted(w.sys) && Booked(w) && PassOk(w)
  }

  // ---------------------------------------------------------------- every step keeps it

  lemma RingStepKeeps(w: Net, e: NetEvent)
    requires NetInv(w) && (e.Callback? || e.ProducerAccess?)
    ensures NetInv(Next(w, e))
  {
    var a := if e.Callback? then Mix(e.block) else Produce;
    StepKeepsInv(w.sys, a);
    StepKeepsAccount(w.sys, a);
    ProducerSparesReader(w.sys, a);
  }

  lemma ProducerSparesReader(s: System, e: Event)
    requires InsideBlock(s.producer) && (e.Mix? || e.Produce?)
    ensures var t := Step(s, e); t.consumer == s.consumer && t.read == s.read && t.tail == s.tail
  {
  }

  /** The accounts of the producer are not the reader's business. */
  lemma ReaderKeepsAccount(s: System)
    requires Accounted(s)
    ensures Accounted(ConsumerStep(s))
  {
  }

  lemma ReturnKeeps(w: Net, i: nat, out: seq<Pair>)
    requires NetInv(w) && w.turn == Some(i) && w.sys.consumer.Copying? && w.sys.consumer.left.None?
    requires out == w.sys.consumer.out && |out| == w.sys.consumer.n
    ensures NetInv(ReadReturns(w, i, out))
  {
    ConsumerKeepsInv(w.sys);
    BookedNext(w.results, out);
    assert ConsumerStep(w.sys).read == w.sys.read + out;
  }

  lemma CallKeeps(w: Net)
    requires NetInv(w) && w.turn.Some? && w.sys.consumer.Resting?
    ensures NetInv(NetStep(w))
  {
    if w.turn.value < PASS_READS {
      StepKeepsInv(w.sys, Read(CHUNK_PAIRS));
      assert NetStep(w).sys == Step(w.sys, Read(CHUNK_PAIRS));
    }
  }

  lemma LoadHeadKeeps(w: Net)
    requires NetInv(w) && w.turn.Some? && w.sys.consumer.Called?
    ensures NetInv(NetStep(w))
  {
    ConsumerKeepsInv(w.sys);
    ReaderKeepsAccount(w.sys);
  }

  lemma LoadSampleKeeps(w: Net)
    requires NetInv(w) && w.turn.Some? && w.sys.consumer.Copying?
    requires w.sys.consumer.left.Some? || |w.sys.consumer.out| < w.sys.consumer.n
    ensures NetInv(NetStep(w))
  {
    ConsumerKeepsInv(w.sys);
    ReaderKeepsAccount(w.sys);
  }

  lemma NetStepKeeps(w: Net)
    requires NetInv(w)
    ensures NetInv(NetStep(w))
  {
    if w.turn.Some? {
      match w.sys.consumer
      case Resting => CallKeeps(w);
      case Called(_, _) => LoadHeadKeeps(w);
      case Copying(_, n, out, left) =>
        if left.None? && |out| >= n { ReturnKeeps(w, w.turn.value, out); } else { LoadSampleKeeps(w); }
    }
  }

  lemma NextKeeps(w: Net, e: NetEvent)
    requires NetInv(w)
    ensures NetInv(Next(w, e))
  {
    match e
    case Callback(_) => RingStepKeeps(w, e);
    case ProducerAccess => RingStepKeeps(w, e);
    case PassStart =>
    case NetAccess => NetStepKeeps(w);
  }

  function Begin(cells: Cells): Net {
    Net(Init(cells), None, [], [], [], 0, 0)
  }

  /** The state after any schedule of callbacks, passes and single accesses of the two threads. */
  function RunNet(cells: Cells, events: seq<NetEvent>): (w: Net)
    ensures InsideBlock(w.sys.producer)
  {
    if events == [] then Begin(cells) else Next(RunNet(cells, events[..|events| - 1]), events[|events| - 1])
  }

  lemma {:induction false} RunKeepsInv(cells: Cells, events: seq<NetEvent>)
    ensures NetInv(RunNet(cells, events))
  {
    if events == [] {
      assert ClampedAll([]) == [];
    } else {
      RunKeepsInv(cells, events[..|events| - 1]);
      NextKeeps(RunNet(cells, events[..|events| - 1]), events[|events| - 1]);
    }
  }

  // ---------------------------------------------------------------- what this means

  lemma RingAndReads(w: Net)
    requires NetInv(w)
    ensures w.sys.read + Contents(w.sys.cells, w.sys.head, w.sys.tail) == w.sys.accepted
  {
    var s := w.sys;
    IndicesCount(s.cells, s.head, s.tail, s.accepted, |s.read|);
  }

  /** Under every schedule the pairs read so far are the completed reads joined, the chunks sent
      are the full ones among them, and the pairs lost are exactly the reads that came up short
      but not empty. */
  lemma OnlyShortReadsAreLost(cells: Cells, events: seq<NetEvent>, w: Net)
    requires w == RunNet(cells, events)
    ensures w.sys.read == Flat(w.results) && w.chunks == FullReads(w.results) && w.lost == Flat(ShortReads(w.results))
    ensures w.sys.read + Contents(w.sys.cells, w.sys.head, w.sys.tail) == w.sys.accepted
  {
    RunKeepsInv(cells, events);
    RingAndReads(w);
  }

  /** A pass that has ended lost nothing exactly when its last load of the head found the ring empty
      or at least a chunk in it; otherwise it lost all that load found. */
  lemma PassLosesWhatItSaw(cells: Cells, events: seq<NetEvent>, w: Net)
    requires w == RunNet(cells, events) && w.turn.None? && w.results != []
    ensures |w.lost| == w.lostBefore <==> w.seen == 0 || w.seen >= CHUNK_PAIRS
    ensures |w.lost| != w.lostBefore ==> |w.lost| == w.lostBefore + w.seen
  {
    RunKeepsInv(cells, events);
  }

  /** What a load of the head finds is what is in the ring at that moment. */
  lemma LoadSeesContents(w: Net)
    requires NetInv(w) && w.turn.Some? && w.sys.consumer.Called?
    ensures NetStep(w).seen == |w.sys.accepted| - |w.sys.read|
  {
    IndicesCount(w.sys.cells, w.sys.head, w.sys.tail, w.sys.accepted, |w.sys.read|);
  }

  lemma {:induction false} FullAndShort(results: seq<seq<Pair>>)
    requires forall k :: 0 <= k < |results| ==> |results[k]| <= CHUNK_PAIRS
    ensures |Flat(FullReads(results))| + |Flat(ShortReads(results))| == |Flat(results)|
    ensures Flat(ShortReads(results)) == [] ==> Flat(FullReads(results)) == Flat(results)
  {
    if results != [] {
      var rest, r := results[..|results| - 1], results[|results| - 1];
      assert rest + [r] == results;
      FullAndShort(rest);
      BookedNext(rest, r);
      var full := FullReads(rest);
      assert (full + [r])[..|full|] == full;
      if r == [] {
        assert Flat(rest) + r == Flat(rest);
      }
    }
  }

  /** The chunks sent are everything that was read exactly when no read was thrown away; and while
      the producer has dropped nothing either, the chunks sent followed by what is still in the ring
      are all the samples offered, clamped. */
  lemma ChunksAreTheStreamIff(cells: Cells, events: seq<NetEvent>, w: Net)
    requires w == RunNet(cells, events)
    ensures Flat(w.chunks) == w.sys.read <==> w.lost == []
    ensures w.lost == [] && w.sys.dropped == 0 ==>
              Flat(w.chunks) + Contents(w.sys.cells, w.sys.head, w.sys.tail) == ClampedAll(w.sys.offered)
  {
    RunKeepsInv(cells, events);
    OnlyShortReadsAreLost(cells, events, w);
    FullAndShort(w.results);
  }

  // ---------------------------------------------------------------- a run that loses a sample

  lemma NetContinues(cells: Cells, events: seq<NetEvent>, e: NetEvent)
    ensures RunNet(cells, events + [e]) == Next(RunNet(cells, events), e)
  {
    assert (events + [e])[..|events|] == events;
  }

  ghost predicate NetReachable(cells: Cells, w: Net) {
    exists events :: RunNet(cells, events) == w
  }

  lemma NetStepReaches(cells: Cells, w: Net, e: NetEvent, next: Net)
    requires NetReachable(cells, w) && next == Next(w, e)
    ensures NetReachable(cells, next)
  {
    var events :| RunNet(cells, events) == w;
    NetContinues(cells, events, e);
  }

  const SAMPLE := Mixed(7, -7)
  const PAIR := Pair(7, -7)

  function Stored(cells: Cells): Cells {
    cells[0 := 7][1 := -7]
  }

  /** The ring after one callback of one sample. */
  function Filled(cells: Cells): System {
    System(Stored(cells), 1, 0, Idle, Resting, [SAMPLE], [PAIR], 0, [])
  }

  lemma CallbackFills(cells: Cells, s: System, s': System)
    requires s == Init(cells).(producer := Writing([SAMPLE], 0, 1, 0, false))
    requires s' == Init(cells).(cells := Stored(cells), producer := Writing([SAMPLE], 0, 1, 1, false))
    ensures ProducerStep(Init(cells).(producer := Entered([SAMPLE], 0))) == s
    ensures ProducerStep(ProducerStep(s)) == s'
    ensures ProducerStep(s') == Filled(cells)
  {
    assert Slot(0, 0) == 0;
    assert ClampedAll([SAMPLE])[..1] == [PAIR];
  }

  lemma CallbackIsReachable(cells: Cells, w: Net)
    requires w == Begin(cells).(sys := Filled(cells))
    ensures NetReachable(cells, w)
  {
    var w0 := Begin(cells);
    assert RunNet(cells, []) == w0;
    var s1 := Init(cells).(producer := Entered([SAMPLE], 0));
    var s2 := Init(cells).(producer := Writing([SAMPLE], 0, 1, 0, false));
    var s4 := Init(cells).(cells := Stored(cells), producer := Writing([SAMPLE], 0, 1, 1, false));
    CallbackFills(cells, s2, s4);
    NetStepReaches(cells, w0, Callback([SAMPLE]), w0.(sys := s1));
    NetStepReaches(cells, w0.(sys := s1), ProducerAccess, w0.(sys := s2));
    TwoAccesses(cells, w0.(sys := s2), w0.(sys := s4));
    NetStepReaches(cells, w0.(sys := s4), ProducerAccess, w);
  }

  lemma TwoAccesses(cells: Cells, w: Net, w': Net)
    requires NetReachable(cells, w) && InsideBlock(w.sys.producer) && InsideBlock(ProducerStep(w.sys).producer)
    requires w' == w.(sys := ProducerStep(ProducerStep(w.sys)))
    ensures NetReachable(cells, w')
  {
    NetStepReaches(cells, w, ProducerAccess, w.(sys := ProducerStep(w.sys)));
    NetStepReaches(cells, w.(sys := ProducerStep(w.sys)), ProducerAccess, w');
  }

  /** The reader in the middle of taking the sample. */
  function Taking(cells: Cells, consumer: Consumer, seen: nat): Net {
    Begin(cells).(sys := Filled(cells).(consumer := consumer), turn := Some(0), seen := seen)
  }

  lemma PassTakesIt(cells: Cells)
    ensures NetStep(Taking(cells, Resting, 0)) == Taking(cells, Called(256, 0), 0)
    ensures NetStep(Taking(cells, Called(256, 0), 0)) == Taking(cells, Copying(0, 1, [], None), 1)
  {
  }

  lemma PassReadsIt(cells: Cells)
    ensures NetStep(Taking(cells, Copying(0, 1, [], None), 1)) == Taking(cells, Copying(0, 1, [], Some(7)), 1)
    ensures NetStep(Taking(cells, Copying(0, 1, [], Some(7)), 1)) == Taking(cells, Copying(0, 1, [PAIR], None), 1)
  {
    assert Slot(0, 0) == 0 && Stored(cells)[0] == 7 && Stored(cells)[1] == -7;
    assert [] + [PAIR] == [PAIR];
  }

  lemma TwoNetSteps(cells: Cells, w: Net, w': Net, w'': Net)
    requires NetReachable(cells, w) && w' == NetStep(w) && w'' == NetStep(w')
    requires InsideBlock(w.sys.producer) && InsideBlock(w'.sys.producer)
    ensures NetReachable(cells, w'')
  {
    NetStepReaches(cells, w, NetAccess, w');
    NetStepReaches(cells, w', NetAccess, w'');
  }

  lemma SampleIsTaken(cells: Cells)
    ensures NetReachable(cells, Taking(cells, Copying(0, 1, [PAIR], None), 1))
  {
    var w := Begin(cells).(sys := Filled(cells));
    CallbackIsReachable(cells, w);
    NetStepReaches(cells, w, PassStart, Taking(cells, Resting, 0));
    var w2 := Taking(cells, Copying(0, 1, [], None), 1);
    PassTakesIt(cells);
    PassReadsIt(cells);
    TwoNetSteps(cells, Taking(cells, Resting, 0), Taking(cells, Called(256, 0), 0), w2);
    TwoNetSteps(cells, w2, Taking(cells, Copying(0, 1, [], Some(7)), 1), Taking(cells, Copying(0, 1, [PAIR], None), 1));
  }

  /** One callback of one sample and one pass after it: the sample is thrown away. */
  lemma OnePassLosesIt(cells: Cells)
    ensures exists events :: var w := RunNet(cells, events);
              && w.turn.None? && w.sys.offered == [SAMPLE] && w.sys.dropped == 0
              && w.results == [[PAIR]] && w.chunks == [] && w.lost == [PAIR]
  {
    var w := Taking(cells, Copying(0, 1, [PAIR], None), 1);
    SampleIsTaken(cells);
    NetStepReaches(cells, w, NetAccess, ReadReturns(w, 0, [PAIR]));
  }
}
