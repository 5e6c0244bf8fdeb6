/** The stream reassembler: one object per direction of a TCP connection. */
module Reassembly {
  import opened Bytes
  import opened StreamSpec

  function Insert(q: seq<Chunk>, c: Chunk): seq<Chunk> {
    if q == [] || c.start < q[0].start then [c] + q else [q[0]] + Insert(q[1..], c)
  }

  lemma {:induction false} InsertKeepsChunks(q: seq<Chunk>, c: Chunk)
    ensures multiset(Insert(q, c)) == multiset(q) + multiset{c}
  {
    if q == [] || c.start < q[0].start {
    } else {
      InsertKeepsChunks(q[1..], c);
      assert q == [q[0]] + q[1..];
    }
  }

  lemma {:induction false} InsertSorts(q: seq<Chunk>, c: Chunk)
    requires SortedByStart(q)
    ensures SortedByStart(Insert(q, c))
  {
    if q == [] || c.start < q[0].start {
    } else {
      var rest := Insert(q[1..], c);
      InsertSorts(q[1..], c);
      InsertKeepsChunks(q[1..], c);
      forall j | 0 <= j < |rest| ensures q[0].start <= rest[j].start {
        assert rest[j] in multiset(rest);
      }
    }
  }

  /** Stands for the library sort of the queue; callers use only that it sorts. */
  method SortByStart(cs: seq<Chunk>) returns (q: seq<Chunk>)
    ensures IsSortOf(q, cs)
  {
    q := [];
    for i := 0 to |cs|
      invariant IsSortOf(q, cs[..i])
    {
      assert cs[..i + 1] == cs[..i] + [cs[i]];
      InsertSorts(q, cs[i]);
      InsertKeepsChunks(q, cs[i]);
      q := Insert(q, cs[i]);
    }
    assert cs[..|cs|] == cs;
  }

  class StreamReassembler {
    const MaxDepth: int
    var chunks: seq<Chunk>
    var NextSeq: u32
    var Initialized: bool
    var Data: Bytes
    ghost var ops: seq<Op>        // the calls made so far
    ghost var states: seq<Stream>  // and the states they led through

    ghost function State(): Stream
      reads this
    {
      Stream(MaxDepth, chunks, NextSeq, Initialized, Data)
    }

    /** The object is at the end of a possible history. */
    ghost predicate Valid()
      reads this
    {
      IsRun(MaxDepth, ops, states) && states[|ops|] == State()
    }

    constructor (maxDepth: int)
      ensures Valid() && State() == NewStream(maxDepth) && ops == []
    {
      ops, states := [], [NewStream(maxDepth)];
      MaxDepth, chunks, NextSeq, Initialized, Data := maxDepth, [], 0, false, [];
    }

    method Init(start: u32)
      requires Valid()
      modifies this
      ensures Valid() && State() == StreamSpec.Init(old(State()), start) && ops == old(ops) + [SetStart(start)]
    {
      StartAt(start);
      Log(SetStart(start), old(State()));
    }

    method AddSegment(start: u32, payload: Bytes)
      requires Valid()
      modifies this
      ensures Valid() && StreamSpec.AddSegment(old(State()), start, payload, State()) && ops == old(ops) + [Segment(start, payload)]
    {
      Accept(start, payload);
      Log(Segment(start, payload), old(State()));
    }

    /** Extends the recorded history by one call. */
    ghost method Log(op: Op, before: Stream)
      requires IsRun(MaxDepth, ops, states) && states[|ops|] == before && Step(before, op, State())
      modifies this`ops, this`states
      ensures Valid() && ops == old(ops) + [op]
    {
      HistoryExtends(MaxDepth, ops, states, op, State());
      ops, states := ops + [op], states + [State()];
    }

    method StartAt(start: u32)
      modifies this`NextSeq, this`Initialized
      ensures State() == StreamSpec.Init(old(State()), start)
    {
      if !Initialized {
        NextSeq := start;
        Initialized := true;
      }
    }

    method Accept(start: u32, payload: Bytes)
      modifies this`chunks, this`NextSeq, this`Initialized, this`Data
      ensures StreamSpec.AddSegment(old(State()), start, payload, State())
    {
      if |payload| == 0 || |Data| >= MaxDepth {
        return;
      }
      if !Initialized {
        StartAt(start);
      }
      ghost var t := State();
      var diff := SignedDiff(start, NextSeq);
      if diff == 0 {
        AppendPayload(payload);
        NextSeq := Wrap(NextSeq + |payload|);
        DrainChunks();
        return;
      }
      if diff < 0 {
        return;
      }
      if |chunks| > 50 {
        return;
      }
      chunks := chunks + [Chunk(start, payload)];
      chunks := SortByStart(chunks);
      ghost var q := chunks;
      DrainChunks();
      assert IsSortOf(q, t.chunks + [Chunk(start, payload)]) && State() == Drained(t, q) by {
        DrainedIgnoresQueue(t, t.(chunks := q), q);
      }
    }

    method AppendPayload(payload: Bytes)
      modifies this`Data
      ensures Data == AppendData(old(Data), MaxDepth, payload)
    {
      var remaining := MaxDepth - |Data|;
      if remaining <= 0 {
        return;
      }
      if |payload| > remaining {
        Data := Data + payload[..remaining];
      } else {
        Data := Data + payload;
      }
    }

    /** The body of the draining loop. */
    method AbsorbChunk(c: Chunk, kept: seq<Chunk>) returns (keep: seq<Chunk>)
      modifies this`Data, this`NextSeq
      ensures State().(chunks := keep) == Absorb(old(State()).(chunks := kept), c)
    {
      keep := kept;
      if c.start == NextSeq {
        AppendPayload(c.data);
        NextSeq := Wrap(NextSeq + |c.data|);
      } else if c.start > NextSeq {
        keep := keep + [c];
      } else {
        var overlap := NextSeq - c.start;
        if overlap < Wrap(|c.data|) {
          var newData := c.data[overlap..];
          AppendPayload(newData);
          NextSeq := Wrap(NextSeq + |newData|);
        }
      }
    }

    method DrainChunks()
      modifies this`chunks, this`NextSeq, this`Data
      ensures State() == Drained(old(State()), old(chunks))
    {
      var keep: seq<Chunk> := [];
      ghost var s := State();
      for i := 0 to |chunks|
        invariant chunks == s.chunks
        invariant Drained(s, s.chunks[..i]) == State().(chunks := keep)
      {
        DrainedNext(s, s.chunks, i);
        keep := AbsorbChunk(chunks[i], keep);
      }
      assert s.chunks[..|s.chunks|] == s.chunks;
      chunks := keep;
    }
  }

  /** The pass starts its kept list afresh. */
  lemma {:induction false} DrainedIgnoresQueue(s: Stream, t: Stream, queue: seq<Chunk>)
    requires s == t.(chunks := s.chunks)
    ensures Drained(s, queue) == Drained(t, queue)
  {
    if queue != [] {
      DrainedIgnoresQueue(s, t, queue[..|queue| - 1]);
    }
  }
}
