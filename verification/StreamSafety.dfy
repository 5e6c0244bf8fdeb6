/** What reassembly guarantees over whole runs. The segments are slices of one byte stream
    whose byte 0 has sequence number `base`; they may be lost, repeated, reordered or overlap. */
module StreamSafety {
  import opened Bytes
  import opened StreamSpec

  function SeqAt(base: u32, off: int): u32 {
    Wrap(base + off)
  }

  /** Chunk `c` is the slice of the stream that starts at offset `off`. */
  ghost predicate SliceAt(base: u32, strm: Bytes, c: Chunk, off: nat) {
    off + |c.data| <= |strm| && c.start == SeqAt(base, off) && c.data == strm[off..off + |c.data|]
  }

  ghost predicate IsSlice(base: u32, strm: Bytes, c: Chunk) {
    exists off: nat :: SliceAt(base, strm, c, off)
  }

  /** How many of `n` bytes a buffer of depth `maxDepth` keeps. */
  function Kept(maxDepth: int, n: nat): nat {
    if n <= maxDepth then n else if maxDepth < 0 then 0 else maxDepth
  }

  /** The buffer holds the stream from `from`, as far as `NextSeq` has advanced or the depth allows. */
  ghost predicate InStep(s: Stream, base: u32, strm: Bytes, from: nat, pos: nat) {
    && from <= pos <= |strm|
    && s.nextSeq == SeqAt(base, pos)
    && s.data == strm[from..from + Kept(s.maxDepth, pos - from)]
  }

  ghost predicate Safe(s: Stream, base: u32, strm: Bytes, from: nat, pos: nat) {
    && (forall c :: c in s.chunks ==> IsSlice(base, strm, c))
    && (if s.initialized then InStep(s, base, strm, from, pos) else s.chunks == [] && s.data == [])
  }

  ghost predicate Fits(base: u32, strm: Bytes, op: Op) {
    match op
    case SetStart(start) => exists off: nat :: off <= |strm| && start == SeqAt(base, off)
    case Segment(start, payload) => IsSlice(base, strm, Chunk(start, payload))
  }

  /** A segment at the sequence number just before the stream: data on a SYN. */
  predicate OnSyn(base: u32, op: Op) {
    op.Segment? && op.start == SeqAt(base, -1)
  }

  /** What a started stream may be told: slices of the stream, and data on a SYN, which it drops. */
  ghost predicate Tolerates(s: Stream, base: u32, strm: Bytes, op: Op) {
    Fits(base, strm, op) || (s.initialized && OnSyn(base, op))
  }

  // ---- Arithmetic of sequence numbers ----

  /** Within half the number space a signed difference is the difference of the offsets. */
  lemma DiffOfOffsets(base: u32, a: int, b: int)
    requires -HALF <= a - b < HALF
    ensures SignedDiff(SeqAt(base, a), SeqAt(base, b)) == a - b
  {
    var x, y := base + a, base + b;
    assert x % WORD - y % WORD == a - b - WORD * (x / WORD - y / WORD);
    assert Wrap(x % WORD - y % WORD) == Wrap(a - b) by {
      ModShift(a - b, y / WORD - x / WORD);
    }
    if a - b < 0 {
      ModShift(a - b, 1);
    }
  }

  lemma ModShift(x: int, k: int)
    ensures Wrap(x + WORD * k) == Wrap(x)
  {
  }

  lemma SeqAtNoWrap(base: u32, off: nat)
    ensures base + off < WORD ==> SeqAt(base, off) == base + off
    ensures WORD <= base + off < 2 * WORD ==> SeqAt(base, off) == base + off - WORD
  {
  }

  lemma AdvanceSeq(base: u32, pos: nat, n: nat)
    ensures Wrap(SeqAt(base, pos) + n) == SeqAt(base, pos + n)
  {
    var x := base + pos;
    assert x % WORD + n == x + n + WORD * (-(x / WORD));
    ModShift(x + n, -(x / WORD));
  }

  /** The raw overlap of a queued chunk: the true one, or so large after a wrap that the chunk is skipped. */
  lemma RawOverlap(base: u32, off: nat, pos: nat)
    requires off < HALF && pos < HALF
    ensures SeqAt(base, off) == SeqAt(base, pos) ==> off == pos
    ensures SeqAt(base, off) < SeqAt(base, pos) ==>
      SeqAt(base, pos) - SeqAt(base, off) == if off <= pos then pos - off else pos - off + WORD
  {
    DiffOfOffsets(base, pos, off);
  }

  // ---- Prefix safety ----

  lemma ConsumeInStep(s: Stream, base: u32, strm: Bytes, from: nat, pos: nat, payload: Bytes)
    requires InStep(s, base, strm, from, pos)
    requires pos + |payload| <= |strm| && payload == strm[pos..pos + |payload|]
    ensures InStep(Consume(s, payload), base, strm, from, pos + |payload|)
  {
    AdvanceSeq(base, pos, |payload|);
    var remaining := s.maxDepth - |s.data|;
    if remaining > 0 {
      assert s.data == strm[from..pos];
      var n := if |payload| > remaining then remaining else |payload|;
      assert payload[..n] == strm[pos..pos + n];
      assert strm[from..pos] + strm[pos..pos + n] == strm[from..pos + n];
      assert payload[..|payload|] == payload;
    }
  }

  /** The draining loop either takes exactly the missing bytes of a queued slice or leaves the
      buffer alone. (After a wrap a slice behind may look ahead, and one ahead may look behind
      by more than its own length.) */
  lemma AbsorbTakesMissingBytes(s: Stream, base: u32, strm: Bytes, pos: nat, c: Chunk, off: nat)
    requires |strm| < HALF && pos <= |strm| && s.nextSeq == SeqAt(base, pos) && SliceAt(base, strm, c, off)
    ensures Absorb(s, c) == s || Absorb(s, c) == s.(chunks := s.chunks + [c])
         || (off <= pos < off + |c.data| && Absorb(s, c) == Consume(s, strm[pos..off + |c.data|]))
  {
    RawOverlap(base, off, pos);
    if off <= pos < off + |c.data| {
      assert c.data[pos - off..] == strm[pos..off + |c.data|];
    }
    if off == pos && c.data == [] {
      AdvanceSeq(base, pos, 0);
    }
  }

  lemma AbsorbInStep(s: Stream, base: u32, strm: Bytes, from: nat, pos: nat, c: Chunk, off: nat) returns (pos': nat)
    requires |strm| < HALF && InStep(s, base, strm, from, pos) && SliceAt(base, strm, c, off)
    ensures pos <= pos' && InStep(Absorb(s, c), base, strm, from, pos')
  {
    pos' := pos;
    AbsorbTakesMissingBytes(s, base, strm, pos, c, off);
    if Absorb(s, c).nextSeq != s.nextSeq || Absorb(s, c).data != s.data {
      ConsumeInStep(s, base, strm, from, pos, strm[pos..off + |c.data|]);
      pos' := off + |c.data|;
    }
  }

  lemma {:induction false} DrainInStep(s: Stream, base: u32, strm: Bytes, from: nat, pos: nat, queue: seq<Chunk>) returns (pos': nat)
    requires |strm| < HALF && InStep(s, base, strm, from, pos)
    requires forall c :: c in queue ==> IsSlice(base, strm, c)
    ensures pos <= pos' && InStep(Drained(s, queue), base, strm, from, pos')
    ensures forall c :: c in Drained(s, queue).chunks ==> c in queue
    ensures Drained(s, queue).initialized == s.initialized && Drained(s, queue).maxDepth == s.maxDepth
  {
    pos' := pos;
    if queue != [] {
      var n := |queue| - 1;
      pos' := DrainInStep(s, base, strm, from, pos, queue[..n]);
      assert queue[n] in queue;
      var off: nat :| SliceAt(base, strm, queue[n], off);
      pos' := AbsorbInStep(Drained(s, queue[..n]), base, strm, from, pos', queue[n], off);
    }
  }

  lemma SetStartIsSafe(s: Stream, start: u32, base: u32, strm: Bytes, from: nat, pos: nat) returns (from': nat, pos': nat)
    requires |strm| < HALF && Safe(s, base, strm, from, pos) && Fits(base, strm, SetStart(start))
    ensures Safe(Init(s, start), base, strm, from', pos')
    ensures s.initialized ==> from' == from && pos' == pos
    ensures start == base && !s.initialized ==> from' == 0
  {
    from', pos' := from, pos;
    if !s.initialized {
      var off: nat :| off <= |strm| && start == SeqAt(base, off);
      from', pos' := off, off;
      RawOverlap(base, off, 0);
    }
  }

  lemma SegmentIsSafe(s: Stream, start: u32, payload: Bytes, s': Stream, base: u32, strm: Bytes, from: nat, pos: nat, off: nat)
    returns (pos': nat)
    requires |strm| < HALF && s.initialized && Safe(s, base, strm, from, pos)
    requires AddSegment(s, start, payload, s') && SliceAt(base, strm, Chunk(start, payload), off)
    ensures Safe(s', base, strm, from, pos') && s'.initialized && s'.maxDepth == s.maxDepth && pos <= pos'
  {
    pos' := pos;
    DiffOfOffsets(base, off, pos);
    if Ignored(s, payload) || off < pos || (off > pos && |s.chunks| > QUEUE_LIMIT) {
      assert s' == s;
    } else if off == pos {
      ConsumeInStep(s, base, strm, from, pos, payload);
      pos' := DrainInStep(Consume(s, payload), base, strm, from, off + |payload|, s.chunks);
    } else {
      var q :| IsSortOf(q, s.chunks + [Chunk(start, payload)]) && s' == Drained(s, q);
      forall c | c in q ensures IsSlice(base, strm, c) {
        assert c in multiset(q);
      }
      pos' := DrainInStep(s, base, strm, from, pos, q);
    }
  }

  lemma StepIsSafe(s: Stream, op: Op, s': Stream, base: u32, strm: Bytes, from: nat, pos: nat) returns (from': nat, pos': nat)
    requires |strm| < HALF && Step(s, op, s') && Fits(base, strm, op) && Safe(s, base, strm, from, pos)
    ensures Safe(s', base, strm, from', pos') && s'.maxDepth == s.maxDepth
    ensures s.initialized ==> s'.initialized && from' == from && pos <= pos'
    ensures op == SetStart(base) && !s.initialized ==> s'.initialized && from' == 0
  {
    match op
    case SetStart(start) =>
      from', pos' := SetStartIsSafe(s, start, base, strm, from, pos);
    case Segment(start, payload) =>
      var off: nat :| SliceAt(base, strm, Chunk(start, payload), off);
      from', pos' := from, pos;
      if !Ignored(s, payload) {
        from', pos' := SetStartIsSafe(s, start, base, strm, from, pos);
        pos' := SegmentIsSafe(Init(s, start), start, payload, s', base, strm, from', pos', off);
      }
  }

  /** Data on a SYN look old to a stream that knows its start. */
  lemma SynDataIsDropped(s: Stream, op: Op, s': Stream, base: u32, strm: Bytes, from: nat, pos: nat)
    requires |strm| < HALF && Step(s, op, s') && OnSyn(base, op) && s.initialized && Safe(s, base, strm, from, pos)
    ensures s' == s
  {
    DiffOfOffsets(base, -1, pos);
  }

  /** For every initial sequence number, wrap or no wrap: in every history `Data` is a prefix of
      the stream from where it started, as long as `NextSeq` has advanced, cut at the depth limit. */
  lemma {:induction false} PrefixSafety(maxDepth: int, base: u32, strm: Bytes, ops: seq<Op>, states: seq<Stream>)
    returns (from: nat, pos: seq<nat>)
    requires |strm| < HALF && IsRun(maxDepth, ops, states)
    requires forall k :: 0 <= k < |ops| ==> Tolerates(states[k], base, strm, ops[k])
    ensures |pos| == |states|
    ensures forall k :: 0 <= k < |states| ==> Safe(states[k], base, strm, from, pos[k]) && states[k].maxDepth == maxDepth
    ensures forall k :: 0 <= k < |ops| && states[k].initialized ==> states[k + 1].initialized && pos[k] <= pos[k + 1]
    ensures ops != [] && ops[0] == SetStart(base) ==> states[1].initialized && from == 0
  {
    if ops == [] {
      from, pos := 0, [0];
    } else {
      var n := |ops| - 1;
      from, pos := PrefixSafety(maxDepth, base, strm, ops[..n], states[..n + 1]);
      var from', p := OneMoreIsSafe(states[n], ops[n], states[n + 1], base, strm, from, pos[n]);
      if !states[n].initialized {
        NotStarted(maxDepth, ops[..n], states[..n + 1]);
      }
      forall k | 0 <= k < n + 1 ensures Safe(states[k], base, strm, from', pos[k]) && states[k].maxDepth == maxDepth {
        assert states[..n + 1][k] == states[k];
        StartMayMove(states[k], base, strm, from, from', pos[k]);
      }
      from, pos := from', pos + [p];
    }
  }

  /** One call more, of those that a stream tolerates. */
  lemma OneMoreIsSafe(s: Stream, op: Op, s': Stream, base: u32, strm: Bytes, from: nat, pos: nat) returns (from': nat, pos': nat)
    requires |strm| < HALF && Step(s, op, s') && Tolerates(s, base, strm, op) && Safe(s, base, strm, from, pos)
    ensures Safe(s', base, strm, from', pos') && s'.maxDepth == s.maxDepth
    ensures s.initialized ==> s'.initialized && from' == from && pos <= pos'
    ensures op == SetStart(base) && !s.initialized ==> s'.initialized && from' == 0
  {
    from', pos' := from, pos;
    if Fits(base, strm, op) {
      from', pos' := StepIsSafe(s, op, s', base, strm, from, pos);
    } else {
      SynDataIsDropped(s, op, s', base, strm, from, pos);
    }
  }

  lemma StartMayMove(s: Stream, base: u32, strm: Bytes, from: nat, from': nat, pos: nat)
    requires Safe(s, base, strm, from, pos) && (s.initialized ==> from' == from)
    ensures Safe(s, base, strm, from', pos)
  {
  }

  lemma {:induction false} NotStarted(maxDepth: int, ops: seq<Op>, states: seq<Stream>)
    requires IsRun(maxDepth, ops, states) && !states[|ops|].initialized
    ensures forall k :: 0 <= k < |states| ==> !states[k].initialized
  {
    if ops != [] {
      var n := |ops| - 1;
      if states[n].initialized {
        StepKeepsFlags(states[n], ops[n], states[n + 1]);
      }
      NotStarted(maxDepth, ops[..n], states[..n + 1]);
    }
  }

  lemma StepKeepsFlags(s: Stream, op: Op, s': Stream)
    requires Step(s, op, s')
    ensures s'.maxDepth == s.maxDepth && (s.initialized ==> s'.initialized)
  {
    forall t, q ensures Drained(t, q).initialized == t.initialized && Drained(t, q).maxDepth == t.maxDepth {
      DrainKeepsFlags(t, q);
    }
  }

  lemma {:induction false} DrainKeepsFlags(s: Stream, q: seq<Chunk>)
    ensures Drained(s, q).initialized == s.initialized && Drained(s, q).maxDepth == s.maxDepth
  {
    if q != [] {
      DrainKeepsFlags(s, q[..|q| - 1]);
    }
  }
}
