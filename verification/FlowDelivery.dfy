/** What a flow recovers, in terms of its packets: the data a side sends and the order it arrives in. */
module FlowDelivery {
  import opened Bytes
  import opened Common
  import opened FlowKey
  import opened FlowHistory
  import opened StreamSpec
  import opened StreamSafety
  import opened StreamCoverage
  import opened StreamDelivery
  import opened StreamOrder
  import opened FlowStreams
  import F = Flow

  // ---- The data of one side ----

  /** The bytes of the stream that the packet carries: its sequence number counted from the first byte. */
  function DataSpan(p: Packet, base: u32): Span {
    var lo := SignedDiff(p.seqNo, base);
    Span(lo, lo + |p.payload|)
  }

  predicate CarriesData(p: Packet, client: Endpoint, forward: bool) {
    (p.srcIP == client.ip && p.srcPort == client.port) == forward && !p.syn && p.payload != []
  }

  /** The data packets of one side, in the order of arrival. */
  function DataSpans(h: seq<Packet>, client: Endpoint, forward: bool, base: u32): seq<Span> {
    if h == [] then [] else
      var n := |h| - 1;
      DataSpans(h[..n], client, forward, base) + if CarriesData(h[n], client, forward) then [DataSpan(h[n], base)] else []
  }

  // ---- What a started stream ignores ----

  predicate IsData(op: Op, base: u32) {
    op.Segment? && op.start != SeqAt(base, -1)
  }

  function DataOps(ops: seq<Op>, base: u32): seq<Op> {
    if ops == [] then [] else
      var n := |ops| - 1;
      DataOps(ops[..n], base) + if IsData(ops[n], base) then [ops[n]] else []
  }

  ghost predicate Untroubled(ops: seq<Op>, states: seq<Stream>) {
    |states| == |ops| + 1 && forall k :: 0 <= k < |ops| ==> !TurnsAway(states[k], ops[k])
  }

  lemma IgnoredByStarted(maxDepth: int, base: u32, strm: Bytes, ops: seq<Op>, states: seq<Stream>, op: Op, s': Stream)
    requires |strm| < HALF && IsRun(maxDepth, ops, states) && ops != [] && ops[0] == SetStart(base)
    requires (forall k :: 0 <= k < |ops| ==> Fits(base, strm, ops[k]) || OnSyn(base, ops[k]))
    requires Step(states[|ops|], op, s') && (op.SetStart? || OnSyn(base, op))
    ensures s' == states[|ops|]
  {
    StartedFirst(maxDepth, ops, states);
    if op.Segment? {
      var from, pos := PrefixSafety(maxDepth, base, strm, ops, states);
      SynDataIsDropped(states[|ops|], op, s', base, strm, from, pos[|ops|]);
    }
  }

  /** A run is the run of its data alone. */
  lemma {:induction false} Strip(maxDepth: int, base: u32, strm: Bytes, ops: seq<Op>, states: seq<Stream>) returns (kept: seq<Stream>)
    requires |strm| < HALF && IsRun(maxDepth, ops, states) && ops != [] && ops[0] == SetStart(base)
    requires forall k :: 0 <= k < |ops| ==> Fits(base, strm, ops[k]) || OnSyn(base, ops[k])
    ensures IsRun(maxDepth, [SetStart(base)] + DataOps(ops, base), kept) && kept[|kept| - 1] == states[|ops|]
    ensures Untroubled(ops, states) ==> Untroubled([SetStart(base)] + DataOps(ops, base), kept)
  {
    var n := |ops| - 1;
    if n == 0 {
      assert ops == [SetStart(base)] && ops[..0] == [] && [SetStart(base)] + [] == [SetStart(base)];
      kept := states;
    } else {
      var d, ss := ops[..n], states[..n + 1];
      kept := Strip(maxDepth, base, strm, d, ss);
      StripStep(maxDepth, base, strm, d, ss, ops[n], states[n + 1]);
      UntroubledBefore(ops, states);
      if IsData(ops[n], base) {
        var before := [SetStart(base)] + DataOps(d, base);
        HistoryExtends(maxDepth, before, kept, ops[n], states[n + 1]);
        UntroubledMore(before, kept, ops[n], states[n + 1]);
        OneMoreData(ops, base);
        kept := kept + [states[n + 1]];
      } else {
        NoMoreData(ops, base);
      }
    }
  }

  lemma UntroubledBefore(ops: seq<Op>, states: seq<Stream>)
    requires ops != [] && |states| == |ops| + 1
    ensures Untroubled(ops, states) ==> Untroubled(ops[..|ops| - 1], states[..|ops|]) && !TurnsAway(states[|ops| - 1], ops[|ops| - 1])
  {
  }

  lemma UntroubledMore(ops: seq<Op>, states: seq<Stream>, op: Op, s': Stream)
    requires |states| == |ops| + 1
    ensures Untroubled(ops, states) && !TurnsAway(states[|ops|], op) ==> Untroubled(ops + [op], states + [s'])
  {
  }

  lemma OneMoreData(ops: seq<Op>, base: u32)
    requires ops != [] && IsData(ops[|ops| - 1], base)
    ensures [SetStart(base)] + DataOps(ops, base) == [SetStart(base)] + DataOps(ops[..|ops| - 1], base) + [ops[|ops| - 1]]
  {
  }

  lemma NoMoreData(ops: seq<Op>, base: u32)
    requires ops != [] && !IsData(ops[|ops| - 1], base)
    ensures DataOps(ops, base) == DataOps(ops[..|ops| - 1], base)
  {
  }

  lemma StripStep(maxDepth: int, base: u32, strm: Bytes, d: seq<Op>, ss: seq<Stream>, op: Op, s': Stream)
    requires |strm| < HALF && IsRun(maxDepth, d, ss) && d != [] && d[0] == SetStart(base)
    requires forall k :: 0 <= k < |d| ==> Fits(base, strm, d[k]) || OnSyn(base, d[k])
    requires Step(ss[|d|], op, s')
    ensures !IsData(op, base) ==> s' == ss[|d|]
  {
    if !IsData(op, base) {
      IgnoredByStarted(maxDepth, base, strm, d, ss, op, s');
    }
  }

  // ---- The packets as arrivals ----

  lemma {:induction false} DataOpsJoin(a: seq<Op>, b: seq<Op>, base: u32)
    ensures DataOps(a + b, base) == DataOps(a, base) + DataOps(b, base)
  {
    if b == [] {
      assert a + b == a;
    } else {
      var n := |b| - 1;
      DataOpsJoin(a, b[..n], base);
      assert (a + b)[..|a + b| - 1] == a + b[..n];
    }
  }

  lemma DataSpanIs(p: Packet, half: Half)
    requires Belongs(p, half) && |half.bytes| < HALF && !p.syn && p.payload != []
    ensures Within(|half.bytes|, DataSpan(p, half.Base())) && PieceOp(half.Base(), half.bytes, DataSpan(p, half.Base())) == Segment(p.seqNo, p.payload)
    ensures IsData(Segment(p.seqNo, p.payload), half.Base())
  {
    var base := half.Base();
    var off: nat :| SliceAt(base, half.bytes, Chunk(p.seqNo, p.payload), off);
    DiffOfOffsets(base, off, 0);
    DiffOfOffsets(base, off, -1);
    assert SeqAt(base, 0) == base;
    DiffOfOffsets(base, -1, -1);
  }

  lemma OneData(op: Op, base: u32)
    ensures DataOps([op], base) == if IsData(op, base) then [op] else []
  {
    assert [op][..0] == [];
  }

  /** Of its own packets a reassembler gets the data. */
  lemma OwnData(p: Packet, starts: bool, half: Half)
    requires Belongs(p, half) && (starts ==> p.syn) && |half.bytes| < HALF
    ensures DataOps(OwnOps(p, starts), half.Base()) == if !p.syn && p.payload != [] then [Segment(p.seqNo, p.payload)] else []
  {
    var base := half.Base();
    var s, d := SetStart(Wrap(p.seqNo + 1)), Segment(p.seqNo, p.payload);
    OneData(s, base);
    OneData(d, base);
    DataOpsJoin([s], [d], base);
    DataOpsJoin([s], [], base);
    DataOpsJoin([], [d], base);
    assert [] + [d] == [d] && [s] + [] == [s];
    if p.syn {
      assert half.isn == SeqAt(base, -1);
    } else if p.payload != [] {
      DataSpanIs(p, half);
    }
  }

  lemma {:induction false} DataArrives(h: seq<Packet>, client: Endpoint, cs: Half, sc: Half, forward: bool)
    requires Conversation(h, client, cs, sc) && |HalfOf(forward, cs, sc).bytes| < HALF
    ensures var half := HalfOf(forward, cs, sc);
      Arrive(half.Base(), half.bytes, DataSpans(h, client, forward, half.Base()), [SetStart(half.Base())] + DataOps(OpsOf(h, client, forward), half.Base()))
  {
    if h != [] {
      var half, n := HalfOf(forward, cs, sc), |h| - 1;
      var base, p, s := half.Base(), h[n], StateAfter(h[..n]);
      DataArrives(h[..n], client, cs, sc, forward);
      DataOpsJoin(OpsOf(h[..n], client, forward), PacketOps(s, p, client, forward), base);
      PacketArrives(p, s, client, forward, half, DataSpans(h[..n], client, forward, base), DataOps(OpsOf(h[..n], client, forward), base),
        DataSpans(h, client, forward, base), DataOps(OpsOf(h, client, forward), base));
    }
  }

  lemma PacketArrives(p: Packet, s: ConnState, client: Endpoint, forward: bool, half: Half, d: seq<Span>, dops: seq<Op>, spans: seq<Span>, ops: seq<Op>)
    requires |half.bytes| < HALF && (FromClient(p, client) == forward ==> Belongs(p, half))
    requires Arrive(half.Base(), half.bytes, d, [SetStart(half.Base())] + dops)
    requires spans == d + if CarriesData(p, client, forward) then [DataSpan(p, half.Base())] else []
    requires ops == dops + DataOps(PacketOps(s, p, client, forward), half.Base())
    ensures Arrive(half.Base(), half.bytes, spans, [SetStart(half.Base())] + ops)
  {
    var base := half.Base();
    if FromClient(p, client) == forward {
      OwnData(p, Starts(s, p, client), half);
    }
    if CarriesData(p, client, forward) {
      DataSpanIs(p, half);
      assert [SetStart(base)] + ops == [SetStart(base)] + dops + [PieceOp(base, half.bytes, DataSpan(p, base))];
    } else {
      assert DataOps(PacketOps(s, p, client, forward), base) == [];
      assert spans == d && ops == dops;
    }
    OneMoreArrival(base, half.bytes, d, [SetStart(base)] + dops, spans, [SetStart(base)] + ops);
  }

  lemma OneMoreArrival(base: u32, strm: Bytes, d: seq<Span>, dops: seq<Op>, spans: seq<Span>, ops: seq<Op>)
    requires Arrive(base, strm, d, dops)
    requires (spans == d && ops == dops) || exists a :: Within(|strm|, a) && spans == d + [a] && ops == dops + [PieceOp(base, strm, a)]
    ensures Arrive(base, strm, spans, ops)
  {
  }

  // ---- What a flow recovers ----

  /** The run of a side's data, in the order its packets arrived. */
  lemma SideArrives(maxDepth: int, h: seq<Packet>, client: Endpoint, cs: Half, sc: Half, forward: bool, states: seq<Stream>)
    returns (ops: seq<Op>, kept: seq<Stream>)
    requires Opened(h, client) && Conversation(h, client, cs, sc) && |HalfOf(forward, cs, sc).bytes| < HALF
    requires IsRun(maxDepth, OpsOf(h, client, forward), states)
    ensures var half := HalfOf(forward, cs, sc); Arrive(half.Base(), half.bytes, DataSpans(h, client, forward, half.Base()), ops)
    ensures IsRun(maxDepth, ops, kept) && kept[|ops|] == states[|OpsOf(h, client, forward)|]
    ensures Untroubled(OpsOf(h, client, forward), states) ==> Untroubled(ops, kept)
  {
    var half := HalfOf(forward, cs, sc);
    ops := [SetStart(half.Base())] + DataOps(OpsOf(h, client, forward), half.Base());
    StartsFirst(h, client, cs, sc, forward);
    OpsFit(h, client, cs, sc, forward);
    DataArrives(h, client, cs, sc, forward);
    kept := Strip(maxDepth, half.Base(), half.bytes, OpsOf(h, client, forward), states);
  }

  /** The data of a side are seamless, do not wrap, and the queue turned none away: few enough, or by luck. */
  ghost predicate Deliverable(h: seq<Packet>, client: Endpoint, forward: bool, half: Half, untroubled: bool) {
    var spans := DataSpans(h, client, forward, half.Base());
    NoWrap(half.Base(), |half.bytes|) && Seamless(SpansOf(spans), |half.bytes|) && (|spans| <= 51 || untroubled)
  }

  lemma SideRecovers(maxDepth: int, h: seq<Packet>, client: Endpoint, cs: Half, sc: Half, forward: bool, states: seq<Stream>)
    requires Opened(h, client) && Conversation(h, client, cs, sc)
    requires IsRun(maxDepth, OpsOf(h, client, forward), states)
    requires Deliverable(h, client, forward, HalfOf(forward, cs, sc), Untroubled(OpsOf(h, client, forward), states))
    ensures var bytes := HalfOf(forward, cs, sc).bytes; states[|OpsOf(h, client, forward)|].data == bytes[..Kept(maxDepth, |bytes|)]
  {
    var half := HalfOf(forward, cs, sc);
    var ops, kept := SideArrives(maxDepth, h, client, cs, sc, forward, states);
    if !Untroubled(OpsOf(h, client, forward), states) {
      ShortDeliveriesFit(maxDepth, ops, kept);
    }
    SeamlessRecovers(maxDepth, half.Base(), half.bytes, DataSpans(h, client, forward, half.Base()), ops, kept);
  }

  /** Whatever the order, the repetitions and the interleaving of the two sides: a side whose data packets
      are seamless, without a wrap, and not turned away by the queue, is recovered up to the depth. */
  lemma FlowRecovers(f: F.Flow, cs: Half, sc: Half)
    requires f.Valid() && Opened(f.history, f.client) && Conversation(f.history, f.client, cs, sc)
    ensures Deliverable(f.history, f.client, true, cs, Untroubled(f.ClientStream.ops, f.ClientStream.states)) ==>
      f.ClientStream.Data == cs.bytes[..Kept(f.ClientStream.MaxDepth, |cs.bytes|)]
    ensures Deliverable(f.history, f.client, false, sc, Untroubled(f.ServerStream.ops, f.ServerStream.states)) ==>
      f.ServerStream.Data == sc.bytes[..Kept(f.ServerStream.MaxDepth, |sc.bytes|)]
  {
    assert f.ShowsSide(true, f.history) && f.ShowsSide(false, f.history);
    if Deliverable(f.history, f.client, true, cs, Untroubled(f.ClientStream.ops, f.ClientStream.states)) {
      SideRecovers(f.ClientStream.MaxDepth, f.history, f.client, cs, sc, true, f.ClientStream.states);
    }
    if Deliverable(f.history, f.client, false, sc, Untroubled(f.ServerStream.ops, f.ServerStream.states)) {
      SideRecovers(f.ServerStream.MaxDepth, f.history, f.client, cs, sc, false, f.ServerStream.states);
    }
  }

  /** For any initial sequence numbers: a side whose data packets never arrive ahead is recovered exactly as
      far as they extend each other. */
  lemma FlowRecoversInOrder(f: F.Flow, cs: Half, sc: Half)
    requires f.Valid() && Opened(f.history, f.client) && Conversation(f.history, f.client, cs, sc)
    ensures var spans := DataSpans(f.history, f.client, true, cs.Base()); |cs.bytes| < HALF && NeverAhead(spans) ==>
      0 <= Progress(spans) <= |cs.bytes| && f.ClientStream.Data == cs.bytes[..Kept(f.ClientStream.MaxDepth, Progress(spans))]
    ensures var spans := DataSpans(f.history, f.client, false, sc.Base()); |sc.bytes| < HALF && NeverAhead(spans) ==>
      0 <= Progress(spans) <= |sc.bytes| && f.ServerStream.Data == sc.bytes[..Kept(f.ServerStream.MaxDepth, Progress(spans))]
  {
    assert f.ShowsSide(true, f.history) && f.ShowsSide(false, f.history);
    if |cs.bytes| < HALF {
      var ops, kept := SideArrives(f.ClientStream.MaxDepth, f.history, f.client, cs, sc, true, f.ClientStream.states);
      if NeverAhead(DataSpans(f.history, f.client, true, cs.Base())) {
        InOrderRecovers(f.ClientStream.MaxDepth, cs.Base(), cs.bytes, DataSpans(f.history, f.client, true, cs.Base()), ops, kept);
      }
    }
    if |sc.bytes| < HALF {
      var ops, kept := SideArrives(f.ServerStream.MaxDepth, f.history, f.client, cs, sc, false, f.ServerStream.states);
      if NeverAhead(DataSpans(f.history, f.client, false, sc.Base())) {
        InOrderRecovers(f.ServerStream.MaxDepth, sc.Base(), sc.bytes, DataSpans(f.history, f.client, false, sc.Base()), ops, kept);
      }
    }
  }

  // ---- And what it loses ----

  /** A packet of one side that carries a piece of its bytes. */
  function DataPacket(from: Endpoint, half: Half, a: Span): Packet
    requires Within(|half.bytes|, a)
  {
    Packet(0, from.ip, from.port, half.bytes[a.lo..a.hi], SeqAt(half.Base(), a.lo), false, true, false, false)
  }

  function SynPacket(from: Endpoint, half: Half, ack: bool): Packet {
    Packet(0, from.ip, from.port, [], half.isn, true, ack, false, false)
  }

  /** A connection in which the client sends `arrivals` and the server nothing. */
  function Upload(client: Endpoint, server: Endpoint, cs: Half, sc: Half, arrivals: seq<Span>): seq<Packet>
    requires forall a :: a in arrivals ==> Within(|cs.bytes|, a)
  {
    if arrivals == [] then [SynPacket(client, cs, false), SynPacket(server, sc, true)] else
      var n := |arrivals| - 1;
      Upload(client, server, cs, sc, arrivals[..n]) + [DataPacket(client, cs, arrivals[n])]
  }

  lemma DataPacketIs(client: Endpoint, cs: Half, a: Span)
    requires Within(|cs.bytes|, a) && |cs.bytes| < HALF
    ensures var p := DataPacket(client, cs, a);
      FromClient(p, client) && CarriesData(p, client, true) && Belongs(p, cs) && DataSpan(p, cs.Base()) == a
  {
    var p := DataPacket(client, cs, a);
    assert SliceAt(cs.Base(), cs.bytes, Chunk(p.seqNo, p.payload), a.lo);
    DiffOfOffsets(cs.Base(), a.lo, 0);
    assert SeqAt(cs.Base(), 0) == cs.Base();
  }

  lemma {:induction false} UploadIs(client: Endpoint, server: Endpoint, cs: Half, sc: Half, arrivals: seq<Span>)
    requires (forall a :: a in arrivals ==> Within(|cs.bytes|, a)) && |cs.bytes| < HALF && client != server
    ensures var h := Upload(client, server, cs, sc, arrivals);
      |h| >= 2 && h[..2] == [SynPacket(client, cs, false), SynPacket(server, sc, true)]
      && Conversation(h, client, cs, sc) && DataSpans(h, client, true, cs.Base()) == arrivals
  {
    if arrivals == [] {
      NothingUploaded(client, server, cs, sc, Upload(client, server, cs, sc, arrivals));
    } else {
      var n := |arrivals| - 1;
      UploadIs(client, server, cs, sc, arrivals[..n]);
      DataPacketIs(client, cs, arrivals[n]);
      OneMoreUploaded(client, cs, sc, Upload(client, server, cs, sc, arrivals[..n]), DataPacket(client, cs, arrivals[n]), Upload(client, server, cs, sc, arrivals));
      assert arrivals == arrivals[..n] + [arrivals[n]];
    }
  }

  lemma NothingUploaded(client: Endpoint, server: Endpoint, cs: Half, sc: Half, h: seq<Packet>)
    requires h == [SynPacket(client, cs, false), SynPacket(server, sc, true)] && client != server
    ensures h[..2] == h && Conversation(h, client, cs, sc) && DataSpans(h, client, true, cs.Base()) == []
  {
    assert h[..1] == [h[0]] && h[..1][..0] == [];
    assert DataSpans(h[..1], client, true, cs.Base()) == [];
  }

  lemma OneMoreUploaded(client: Endpoint, cs: Half, sc: Half, d: seq<Packet>, p: Packet, h: seq<Packet>)
    requires h == d + [p] && |d| >= 2 && Conversation(d, client, cs, sc) && CarriesData(p, client, true) && Belongs(p, cs)
    ensures h[..2] == d[..2] && Conversation(h, client, cs, sc)
    ensures DataSpans(h, client, true, cs.Base()) == DataSpans(d, client, true, cs.Base()) + [DataSpan(p, cs.Base())]
  {
    assert h[..|d|] == d;
  }

  lemma UploadOpens(client: Endpoint, server: Endpoint, cs: Half, sc: Half, h: seq<Packet>)
    requires client != server && |h| >= 2 && h[..2] == [SynPacket(client, cs, false), SynPacket(server, sc, true)]
    ensures Opened(h, client)
  {
    assert h[0] == h[..2][0] && h[1] == h[..2][1];
    assert OpenedAt(h, client, 1);
  }

  /** If the slices a client sends, at most fifty-one without a wrap, are not seamless, there is a history that
      carries exactly these and of which no flow recovers the client's bytes. */
  lemma FlowLoses(client: Endpoint, server: Endpoint, cs: Half, sc: Half, spans: set<Span>) returns (h: seq<Packet>)
    requires client != server && NoWrap(cs.Base(), |cs.bytes|)
    requires (forall a :: a in spans ==> Within(|cs.bytes|, a)) && |spans| <= 51 && !Seamless(AllOf(spans), |cs.bytes|)
    ensures Opened(h, client) && Conversation(h, client, cs, sc)
    ensures forall a :: a in DataSpans(h, client, true, cs.Base()) <==> a in spans
    ensures forall f: F.Flow :: f.Valid() && f.history == h && f.client == client && f.ClientStream.MaxDepth == |cs.bytes| ==>
      f.ClientStream.Data != cs.bytes
  {
    var p: nat :| p < |cs.bytes| && CoverUpTo(AllOf(spans), p) && !StartsHere(AllOf(spans), p);
    var arrivals, ops := StuckOrder(cs.Base(), cs.bytes, spans, p);
    h := Upload(client, server, cs, sc, arrivals);
    UploadIs(client, server, cs, sc, arrivals);
    UploadOpens(client, server, cs, sc, h);
    forall f: F.Flow | f.Valid() && f.history == h && f.client == client && f.ClientStream.MaxDepth == |cs.bytes|
      ensures f.ClientStream.Data != cs.bytes
    {
      assert f.ShowsSide(true, h);
      var ops', kept := SideArrives(|cs.bytes|, h, client, cs, sc, true, f.ClientStream.states);
      SameArrivals(cs.Base(), cs.bytes, arrivals, ops, ops');
      assert Loses(cs.Base(), cs.bytes, ops, kept);
    }
  }

  lemma SameArrivals(base: u32, strm: Bytes, spans: seq<Span>, ops: seq<Op>, ops': seq<Op>)
    requires Arrive(base, strm, spans, ops) && Arrive(base, strm, spans, ops')
    ensures ops == ops'
  {
    forall k | 0 < k < |ops| ensures ops[k] == ops'[k] {
      assert ops[k - 1 + 1] == PieceOp(base, strm, spans[k - 1]) && ops'[k - 1 + 1] == PieceOp(base, strm, spans[k - 1]);
    }
  }
}
