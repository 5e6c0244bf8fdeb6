/** TCP reassembly as a transition relation on values: what one call does to the stream.
    Sequence numbers are 32-bit words and wrap; `sort.Slice` may order equal keys freely, so
    an out-of-order segment leads to any state that some sorted order of the queue allows. */
module StreamSpec {
  import opened Bytes

  const WORD := 0x1_0000_0000
  const HALF := 0x8000_0000
  const QUEUE_LIMIT := 50

  type u32 = x: int | 0 <= x < 0x1_0000_0000

  datatype Chunk = Chunk(start: u32, data: Bytes)

  datatype Stream = Stream(maxDepth: int, chunks: seq<Chunk>, nextSeq: u32, initialized: bool, data: Bytes)

  function Wrap(x: int): u32 {
    x % WORD
  }

  /** The difference of two sequence numbers, read as a signed 32-bit word. */
  function SignedDiff(a: u32, b: u32): int {
    var d := Wrap(a - b);
    if d >= HALF then d - WORD else d
  }

  function NewStream(maxDepth: int): Stream {
    Stream(maxDepth, [], 0, false, [])
  }

  function Init(s: Stream, start: u32): Stream {
    if s.initialized then s else s.(nextSeq := start, initialized := true)
  }

  /** `data` with as much of `payload` as the depth limit leaves room for. */
  function AppendData(data: Bytes, maxDepth: int, payload: Bytes): Bytes {
    var remaining := maxDepth - |data|;
    if remaining <= 0 then data
    else if |payload| > remaining then data + payload[..remaining]
    else data + payload
  }

  /** The state after `payload` arrives in order. */
  function Consume(s: Stream, payload: Bytes): Stream {
    s.(data := AppendData(s.data, s.maxDepth, payload), nextSeq := Wrap(s.nextSeq + |payload|))
  }

  /** One queued chunk met by the draining pass; `s.chunks` collects the chunks kept so far. */
  function Absorb(s: Stream, c: Chunk): Stream {
    if c.start == s.nextSeq then Consume(s, c.data)
    else if c.start > s.nextSeq then s.(chunks := s.chunks + [c])
    else
      var overlap := s.nextSeq - c.start;
      if overlap < Wrap(|c.data|) then Consume(s, c.data[overlap..]) else s
  }

  /** One draining pass over `queue`. */
  function Drained(s: Stream, queue: seq<Chunk>): Stream {
    if queue == [] then s.(chunks := []) else
      var n := |queue| - 1;
      Absorb(Drained(s, queue[..n]), queue[n])
  }

  lemma DrainedNext(s: Stream, queue: seq<Chunk>, i: nat)
    requires i < |queue|
    ensures Drained(s, queue[..i + 1]) == Absorb(Drained(s, queue[..i]), queue[i])
  {
    assert queue[..i + 1][..i] == queue[..i];
  }

  ghost predicate SortedByStart(cs: seq<Chunk>) {
    forall i, j :: 0 <= i < j < |cs| ==> cs[i].start <= cs[j].start
  }

  ghost predicate IsSortOf(q: seq<Chunk>, cs: seq<Chunk>) {
    SortedByStart(q) && multiset(q) == multiset(cs)
  }

  /** The call returns before it looks at the sequence number. */
  predicate Ignored(s: Stream, payload: Bytes) {
    payload == [] || |s.data| >= s.maxDepth
  }

  ghost predicate AddSegment(s: Stream, start: u32, payload: Bytes, s': Stream) {
    if Ignored(s, payload) then s' == s else
      var t := Init(s, start);
      var diff := SignedDiff(start, t.nextSeq);
      if diff == 0 then s' == Drained(Consume(t, payload), t.chunks)
      else if diff < 0 || |t.chunks| > QUEUE_LIMIT then s' == t
      else exists q :: IsSortOf(q, t.chunks + [Chunk(start, payload)]) && s' == Drained(t, q)
  }

  // ---- Runs ----

  datatype Op = SetStart(start: u32) | Segment(start: u32, payload: Bytes)

  ghost predicate Step(s: Stream, op: Op, s': Stream) {
    match op
    case SetStart(start) => s' == Init(s, start)
    case Segment(start, payload) => AddSegment(s, start, payload, s')
  }

  /** `states` is a possible history of a new stream under the calls `ops`. */
  ghost predicate IsRun(maxDepth: int, ops: seq<Op>, states: seq<Stream>) {
    && |states| == |ops| + 1
    && if ops == [] then states[0] == NewStream(maxDepth) else
         var n := |ops| - 1;
         IsRun(maxDepth, ops[..n], states[..n + 1]) && Step(states[n], ops[n], states[n + 1])
  }

  lemma HistoryExtends(maxDepth: int, ops: seq<Op>, states: seq<Stream>, op: Op, s': Stream)
    requires IsRun(maxDepth, ops, states) && Step(states[|ops|], op, s')
    ensures IsRun(maxDepth, ops + [op], states + [s'])
  {
    assert (ops + [op])[..|ops|] == ops && (states + [s'])[..|ops| + 1] == states;
  }
}
