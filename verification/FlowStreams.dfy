/** What a tracked TCP connection reassembles: each side's bytes, apart from the other's. */
module FlowStreams {
  import opened Bytes
  import opened FlowHistory
  import opened StreamSpec
  import opened StreamSafety
  import F = Flow

  /** One endpoint's half of the connection: its initial sequence number and what it sends. */
  datatype Half = Half(isn: u32, bytes: Bytes) {
    /** The sequence number of the first byte: the SYN takes one. */
    function Base(): u32 {
      Wrap(isn + 1)
    }
  }

  /** The packet belongs to this half: a SYN repeats its sequence number, whatever data it carries;
      the data of the others are a slice of its bytes. */
  ghost predicate Belongs(p: Packet, half: Half) {
    && (p.syn ==> p.seqNo == half.isn)
    && (!p.syn && p.payload != [] ==> IsSlice(half.Base(), half.bytes, Chunk(p.seqNo, p.payload)))
  }

  /** The packets of the connection, in whatever order, with whatever loss and repetition. */
  ghost predicate Conversation(h: seq<Packet>, client: Endpoint, cs: Half, sc: Half) {
    forall i :: 0 <= i < |h| ==> Belongs(h[i], if h[i].srcIP == client.ip && h[i].srcPort == client.port then cs else sc)
  }

  /** The packet leaves a new connection new: a SYN, perhaps repeated, or nothing that says more. */
  predicate KeepsNew(p: Packet) {
    !p.ack && (p.syn || (!p.fin && !p.rst))
  }

  /** The capture starts with the client's SYN; packet `n` is the server's first and its SYN-ACK, with
      nothing acknowledged before it, or a SYN of its own. */
  predicate OpenedAt(h: seq<Packet>, client: Endpoint, n: nat) {
    && 0 < n < |h|
    && (forall j :: 0 <= j < n ==> FromClient(h[j], client)) && h[0].syn && !h[0].ack
    && !FromClient(h[n], client) && h[n].syn
    && (h[n].ack ==> forall j :: 0 < j < n ==> KeepsNew(h[j]))
  }

  ghost predicate Opened(h: seq<Packet>, client: Endpoint) {
    exists n: nat :: OpenedAt(h, client, n)
  }

  function HalfOf(forward: bool, cs: Half, sc: Half): Half {
    if forward then cs else sc
  }

  ghost predicate FitsOrSyn(half: Half, op: Op) {
    Fits(half.Base(), half.bytes, op) || OnSyn(half.Base(), op)
  }

  lemma OwnOpsFit(p: Packet, starts: bool, half: Half)
    requires Belongs(p, half) && (starts ==> p.syn)
    ensures forall k :: 0 <= k < |OwnOps(p, starts)| ==> FitsOrSyn(half, OwnOps(p, starts)[k])
  {
    if starts {
      assert Wrap(half.Base() + 0) == half.Base();
      assert SeqAt(half.Base(), 0) == Wrap(p.seqNo + 1);
    }
  }

  lemma {:induction false} OpsFit(h: seq<Packet>, client: Endpoint, cs: Half, sc: Half, forward: bool)
    requires Conversation(h, client, cs, sc)
    ensures forall k :: 0 <= k < |OpsOf(h, client, forward)| ==> FitsOrSyn(HalfOf(forward, cs, sc), OpsOf(h, client, forward)[k])
  {
    if h != [] {
      var n := |h| - 1;
      OpsFit(h[..n], client, cs, sc, forward);
      if FromClient(h[n], client) == forward {
        OwnOpsFit(h[n], Starts(StateAfter(h[..n]), h[n], client), HalfOf(forward, cs, sc));
      }
    }
  }

  /** A stream that is told its start first is started ever after. */
  lemma {:induction false} StartedFirst(maxDepth: int, ops: seq<Op>, states: seq<Stream>)
    requires IsRun(maxDepth, ops, states) && ops != [] && ops[0].SetStart?
    ensures forall k :: 1 <= k < |states| ==> states[k].initialized
  {
    var n := |ops| - 1;
    if n > 0 {
      StartedFirst(maxDepth, ops[..n], states[..n + 1]);
      StepKeepsFlags(states[n], ops[n], states[n + 1]);
      assert forall k :: 1 <= k < n + 1 ==> states[..n + 1][k] == states[k];
    }
  }

  lemma {:induction false} ServerQuiet(h: seq<Packet>, client: Endpoint)
    requires forall j :: 0 <= j < |h| ==> FromClient(h[j], client)
    ensures OpsOf(h, client, false) == []
  {
    if h != [] {
      ServerQuiet(h[..|h| - 1], client);
    }
  }

  lemma {:induction false} StaysNew(h: seq<Packet>)
    requires h != [] && h[0].syn && !h[0].ack && forall j :: 0 < j < |h| ==> KeepsNew(h[j])
    ensures StateAfter(h) == StateNew
  {
    if |h| > 1 {
      StaysNew(h[..|h| - 1]);
    }
  }

  /** The first call stays the first. */
  lemma {:induction false} FirstStays(h: seq<Packet>, client: Endpoint, forward: bool, k: nat)
    requires 0 < k <= |h| && OpsOf(h[..k], client, forward) != []
    ensures OpsOf(h, client, forward) != [] && OpsOf(h, client, forward)[0] == OpsOf(h[..k], client, forward)[0]
  {
    if k == |h| {
      assert h[..k] == h;
    } else {
      var d := h[..|h| - 1];
      assert d[..k] == h[..k];
      FirstStays(d, client, forward, k);
    }
  }

  lemma StartsAt(h: seq<Packet>, client: Endpoint, forward: bool, k: nat)
    requires k < |h| && FromClient(h[k], client) == forward && Starts(StateAfter(h[..k]), h[k], client) && OpsOf(h[..k], client, forward) == []
    ensures OpsOf(h, client, forward) != [] && OpsOf(h, client, forward)[0] == SetStart(Wrap(h[k].seqNo + 1))
  {
    OpsSoFar(h, client, forward, k);
    OwnStart(StateAfter(h[..k]), h[k], client, forward);
    FirstStays(h, client, forward, k + 1);
  }

  lemma OpsSoFar(h: seq<Packet>, client: Endpoint, forward: bool, k: nat)
    requires k < |h|
    ensures OpsOf(h[..k + 1], client, forward) == OpsOf(h[..k], client, forward) + PacketOps(StateAfter(h[..k]), h[k], client, forward)
  {
    assert h[..k + 1][..k] == h[..k];
  }

  lemma OwnStart(s: ConnState, p: Packet, client: Endpoint, forward: bool)
    requires FromClient(p, client) == forward && Starts(s, p, client)
    ensures var ops := PacketOps(s, p, client, forward); ops != [] && ops[0] == SetStart(Wrap(p.seqNo + 1))
  {
  }

  /** The first call each reassembler gets sets its start. */
  lemma StartsFirst(h: seq<Packet>, client: Endpoint, cs: Half, sc: Half, forward: bool)
    requires Opened(h, client) && Conversation(h, client, cs, sc)
    ensures OpsOf(h, client, forward) != [] && OpsOf(h, client, forward)[0] == SetStart(HalfOf(forward, cs, sc).Base())
  {
    var n: nat :| OpenedAt(h, client, n);
    if forward {
      assert h[..0] == [];
      StartsAt(h, client, true, 0);
    } else {
      ServerQuiet(h[..n], client);
      if h[n].ack {
        StaysNew(h[..n]);
      }
      StartsAt(h, client, false, n);
    }
  }

  /** For any initial sequence numbers, wrap or no wrap, and any delivery: the client's reassembler
      holds a prefix of what the client sent, the server's a prefix of what the server sent, each as
      long as its contiguous bytes reach or the depth limit allows. */
  lemma StreamsSeparate(f: F.Flow, cs: Half, sc: Half) returns (sent: nat, answered: nat)
    requires f.Valid() && Opened(f.history, f.client) && Conversation(f.history, f.client, cs, sc)
    requires |cs.bytes| < HALF && |sc.bytes| < HALF
    ensures sent <= |cs.bytes| && answered <= |sc.bytes|
    ensures f.ClientStream.Data == cs.bytes[..Kept(f.ClientStream.MaxDepth, sent)]
    ensures f.ServerStream.Data == sc.bytes[..Kept(f.ServerStream.MaxDepth, answered)]
    ensures f.ClientStream.NextSeq == SeqAt(cs.Base(), sent) && f.ServerStream.NextSeq == SeqAt(sc.Base(), answered)
  {
    assert f.ShowsSide(true, f.history) && f.ShowsSide(false, f.history);
    sent := SideHolds(f.ClientStream.MaxDepth, f.history, f.client, cs, sc, true, f.ClientStream.states);
    answered := SideHolds(f.ServerStream.MaxDepth, f.history, f.client, cs, sc, false, f.ServerStream.states);
  }

  lemma SideHolds(maxDepth: int, h: seq<Packet>, client: Endpoint, cs: Half, sc: Half, forward: bool, states: seq<Stream>)
    returns (n: nat)
    requires Opened(h, client) && Conversation(h, client, cs, sc)
    requires |HalfOf(forward, cs, sc).bytes| < HALF && IsRun(maxDepth, OpsOf(h, client, forward), states)
    ensures n <= |HalfOf(forward, cs, sc).bytes|
    ensures var s := states[|OpsOf(h, client, forward)|];
      s.data == HalfOf(forward, cs, sc).bytes[..Kept(maxDepth, n)] && s.nextSeq == SeqAt(HalfOf(forward, cs, sc).Base(), n)
  {
    var half, ops := HalfOf(forward, cs, sc), OpsOf(h, client, forward);
    StartsFirst(h, client, cs, sc, forward);
    OpsFit(h, client, cs, sc, forward);
    StartedFirst(maxDepth, ops, states);
    assert SeqAt(half.Base(), 0) == half.Base();
    var from, pos := PrefixSafety(maxDepth, half.Base(), half.bytes, ops, states);
    n := pos[|ops|];
  }
}
