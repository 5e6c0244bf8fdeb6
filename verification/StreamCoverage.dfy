/** As long as the sequence numbers do not wrap before the last byte, the reassembler loses nothing it accepted: `NextSeq` is the end of
    the contiguous coverage of the accepted segments, whatever the order of arrival. Only
    positions matter here; what the bytes are is the business of `StreamSafety`. */
module StreamCoverage {
  import opened Bytes
  import opened StreamSpec
  import opened StreamSafety

  /** The offsets `lo..hi` after the sequence number `base`. */
  datatype Span = Span(lo: int, hi: int)

  function ChunkSpan(base: u32, c: Chunk): Span {
    Span(c.start - base, c.start - base + |c.data|)
  }

  /** A non-empty slice of the `n` bytes after `base`. */
  ghost predicate Within(n: nat, a: Span) {
    0 <= a.lo < a.hi <= n
  }

  /** All `n` bytes after `base` have their own numbers without a wrap; only the number after the last may be 0. */
  ghost predicate NoWrap(base: u32, n: nat) {
    n < HALF && base + n <= WORD
  }

  function NumberAt(base: u32, pos: nat): int {
    if base + pos == WORD then 0 else base + pos
  }

  ghost predicate CoveredBy(acc: set<Span>, x: int) {
    exists a :: a in acc && a.lo <= x < a.hi
  }

  ghost predicate Queued(cs: seq<Chunk>, base: u32, a: Span) {
    exists c :: c in cs && ChunkSpan(base, c) == a
  }

  /** `NextSeq` stands at offset `pos`, every byte before it was in an accepted span, and it is
      itself the start or the end of an accepted span. */
  ghost predicate Reached(s: Stream, base: u32, n: nat, from: nat, pos: nat, acc: set<Span>) {
    && s.initialized && from <= pos <= n && s.nextSeq == NumberAt(base, pos)
    && (forall x :: from <= x < pos ==> CoveredBy(acc, x))
    && (pos == from || exists a :: a in acc && a.hi == pos)
  }

  /** Every accepted span has been consumed or waits in the queue; the queue is sorted and lies strictly ahead. */
  ghost predicate Covering(s: Stream, base: u32, n: nat, from: nat, pos: nat, acc: set<Span>) {
    && NoWrap(base, n) && Reached(s, base, n, from, pos, acc)
    && (forall a :: a in acc ==> Within(n, a) && (a.hi <= pos || Queued(s.chunks, base, a)))
    && (forall c :: c in s.chunks ==> ChunkSpan(base, c) in acc && c.start > s.nextSeq)
    && SortedByStart(s.chunks)
  }

  /** What `Covering` says about `NextSeq`: all bytes before it were accepted, and the byte at it was not. */
  lemma EndOfCoverage(s: Stream, base: u32, n: nat, from: nat, pos: nat, acc: set<Span>)
    requires Covering(s, base, n, from, pos, acc)
    ensures s.nextSeq == NumberAt(base, pos)
    ensures forall x :: from <= x < pos ==> CoveredBy(acc, x)
    ensures !CoveredBy(acc, pos)
  {
    forall a | a in acc && a.hi > pos ensures a.lo > pos {
      var c :| c in s.chunks && ChunkSpan(base, c) == a;
    }
  }

  // ---- The draining pass ----

  /** In the middle of a pass over the sorted queue `q`, after `done` chunks. */
  ghost predicate Draining(s: Stream, base: u32, n: nat, from: nat, pos: nat, acc: set<Span>, q: seq<Chunk>, done: nat)
    requires done <= |q|
  {
    && NoWrap(base, n) && Reached(s, base, n, from, pos, acc)
    && (forall k :: 0 <= k < done ==> q[k] in s.chunks || ChunkSpan(base, q[k]).hi <= pos)
    && (forall c :: c in s.chunks ==> c in q[..done] && c.start > s.nextSeq)
    && SortedByStart(s.chunks)
  }

  lemma KeptBeforeNext(kept: seq<Chunk>, q: seq<Chunk>, done: nat)
    requires done < |q| && SortedByStart(q) && SortedByStart(kept)
    requires forall c :: c in kept ==> c in q[..done]
    ensures SortedByStart(kept + [q[done]])
    ensures kept != [] ==> kept[0] in kept && kept[0].start <= q[done].start
    ensures forall c :: c in q[..done] ==> c in q[..done + 1]
  {
    forall i | 0 <= i < |kept| ensures kept[i].start <= q[done].start {
      assert kept[i] in kept;
      var k :| 0 <= k < done && q[k] == kept[i];
    }
  }

  lemma AbsorbKeepsDraining(s: Stream, base: u32, n: nat, from: nat, pos: nat, acc: set<Span>, q: seq<Chunk>, done: nat)
    returns (pos': nat)
    requires done < |q| && SortedByStart(q) && Draining(s, base, n, from, pos, acc, q, done)
    requires ChunkSpan(base, q[done]) in acc && Within(n, ChunkSpan(base, q[done]))
    ensures Draining(Absorb(s, q[done]), base, n, from, pos', acc, q, done + 1) && pos <= pos'
  {
    var a := ChunkSpan(base, q[done]);
    pos' := if a.lo <= pos < a.hi then a.hi else pos;
    KeptBeforeNext(s.chunks, q, done);
    forall x | pos <= x < pos' ensures CoveredBy(acc, x) {
    }
  }

  lemma {:induction false} DrainKeepsCovering(s: Stream, base: u32, n: nat, from: nat, pos: nat, acc: set<Span>, q: seq<Chunk>, done: nat)
    returns (pos': nat)
    requires done <= |q| && SortedByStart(q) && NoWrap(base, n) && Reached(s, base, n, from, pos, acc)
    requires forall c :: c in q ==> ChunkSpan(base, c) in acc && Within(n, ChunkSpan(base, c))
    ensures Draining(Drained(s, q[..done]), base, n, from, pos', acc, q, done) && pos <= pos'
    decreases done
  {
    pos' := pos;
    if done > 0 {
      pos' := DrainKeepsCovering(s, base, n, from, pos, acc, q, done - 1);
      assert q[done - 1] in q;
      DrainedNext(s, q, done - 1);
      pos' := AbsorbKeepsDraining(Drained(s, q[..done - 1]), base, n, from, pos', acc, q, done - 1);
    }
  }

  /** A pass over a sorted order of the queue, with every accepted span consumed or in that order. */
  lemma DrainRestoresCovering(s: Stream, base: u32, n: nat, from: nat, pos: nat, acc: set<Span>, q: seq<Chunk>, s': Stream)
    returns (pos': nat)
    requires NoWrap(base, n) && Reached(s, base, n, from, pos, acc) && SortedByStart(q) && s' == Drained(s, q)
    requires forall c :: c in q ==> ChunkSpan(base, c) in acc
    requires forall a :: a in acc ==> Within(n, a) && (a.hi <= pos || Queued(q, base, a))
    ensures Covering(s', base, n, from, pos', acc) && pos <= pos'
  {
    pos' := DrainKeepsCovering(s, base, n, from, pos, acc, q, |q|);
    assert q[..|q|] == q;
    forall a | a in acc && a.hi > pos' ensures Queued(s'.chunks, base, a) {
      var c :| c in q && ChunkSpan(base, c) == a;
      var k :| 0 <= k < |q| && q[k] == c;
    }
  }

  // ---- One call ----

  /** The guard under which an unfilled stream takes a segment; the first one starts it. */
  predicate Takes(s: Stream, start: u32, payload: Bytes) {
    && !Ignored(s, payload)
    && (!s.initialized || start == s.nextSeq || (SignedDiff(start, s.nextSeq) > 0 && |s.chunks| <= QUEUE_LIMIT))
  }

  /** The segment lies within the `n` bytes after `base`. */
  ghost predicate Inside(base: u32, n: nat, start: u32, payload: Bytes) {
    base <= start && start + |payload| <= base + n
  }

  /** The segment starts before `base`, within half the number space of all that follows. */
  ghost predicate Behind(base: u32, n: nat, start: u32) {
    start < base && base - start + n < HALF
  }

  ghost predicate InRange(base: u32, n: nat, op: Op) {
    op.Segment? ==> Inside(base, n, op.start, op.payload) || Behind(base, n, op.start)
  }

  /** The accepted spans after one more call. */
  ghost function Grow(base: u32, s: Stream, op: Op, acc: set<Span>): set<Span> {
    match op
    case SetStart(_) => acc
    case Segment(start, payload) =>
      if Takes(s, start, payload) then acc + {ChunkSpan(base, Chunk(start, payload))} else acc
  }

  lemma SignedDiffNoWrap(base: u32, n: nat, a: u32, pos: nat)
    requires NoWrap(base, n) && pos <= n && (base <= a <= base + n || Behind(base, n, a))
    ensures SignedDiff(a, NumberAt(base, pos)) == a - base - pos
    ensures a < base + n ==> (a == NumberAt(base, pos) <==> a == base + pos)
  {
  }

  lemma MoreAccepted(acc: set<Span>, acc': set<Span>)
    requires acc <= acc'
    ensures forall x :: CoveredBy(acc, x) ==> CoveredBy(acc', x)
  {
    forall x | CoveredBy(acc, x) ensures CoveredBy(acc', x) {
      var a :| a in acc && a.lo <= x < a.hi;
      assert a in acc';
    }
  }

  lemma SortHasSameChunks(q: seq<Chunk>, cs: seq<Chunk>, c: Chunk)
    requires IsSortOf(q, cs + [c])
    ensures forall d :: d in q <==> d in cs || d == c
  {
    forall d ensures d in q <==> d in cs || d == c {
      assert d in q <==> d in multiset(q);
      assert d in cs + [c] <==> d in multiset(cs + [c]);
    }
  }

  lemma ConsumeReaches(s: Stream, c: Chunk, base: u32, n: nat, from: nat, pos: nat, acc: set<Span>, acc': set<Span>)
    requires NoWrap(base, n) && Reached(s, base, n, from, pos, acc)
    requires c.start == s.nextSeq && Within(n, ChunkSpan(base, c)) && acc' == acc + {ChunkSpan(base, c)}
    ensures pos == ChunkSpan(base, c).lo && Reached(Consume(s, c.data), base, n, from, pos + |c.data|, acc')
  {
    MoreAccepted(acc, acc');
    var a := ChunkSpan(base, c);
    assert a in acc' && a.lo == pos;
    forall x | pos <= x < a.hi ensures CoveredBy(acc', x) {
    }
  }

  lemma TakeInOrder(s: Stream, c: Chunk, s': Stream, base: u32, n: nat, from: nat, pos: nat, acc: set<Span>, acc': set<Span>)
    returns (pos': nat)
    requires Covering(s, base, n, from, pos, acc) && s' == Drained(Consume(s, c.data), s.chunks)
    requires c.start == s.nextSeq && Within(n, ChunkSpan(base, c)) && acc' == acc + {ChunkSpan(base, c)}
    ensures Covering(s', base, n, from, pos', acc') && pos <= pos'
  {
    ConsumeReaches(s, c, base, n, from, pos, acc, acc');
    pos' := DrainRestoresCovering(Consume(s, c.data), base, n, from, pos + |c.data|, acc', s.chunks, s');
  }

  lemma TakeOutOfOrder(s: Stream, c: Chunk, q: seq<Chunk>, s': Stream, base: u32, n: nat, from: nat, pos: nat, acc: set<Span>, acc': set<Span>)
    returns (pos': nat)
    requires Covering(s, base, n, from, pos, acc) && IsSortOf(q, s.chunks + [c]) && s' == Drained(s, q)
    requires Within(n, ChunkSpan(base, c)) && acc' == acc + {ChunkSpan(base, c)}
    ensures Covering(s', base, n, from, pos', acc') && pos <= pos'
  {
    MoreAccepted(acc, acc');
    SortHasSameChunks(q, s.chunks, c);
    forall a | a in acc' ensures Within(n, a) && (a.hi <= pos || Queued(q, base, a)) {
      if a in acc && a.hi > pos {
        var d :| d in s.chunks && ChunkSpan(base, d) == a;
        assert d in q;
      } else if a !in acc {
        assert c in q;
      }
    }
    pos' := DrainRestoresCovering(s, base, n, from, pos, acc', q, s');
  }

  /** One call keeps the invariant, and accepts exactly the segments its guards let through. */
  lemma StepKeepsCovering(s: Stream, op: Op, s': Stream, base: u32, n: nat, from: nat, pos: nat, acc: set<Span>) returns (pos': nat)
    requires Covering(s, base, n, from, pos, acc) && Step(s, op, s') && InRange(base, n, op)
    ensures Covering(s', base, n, from, pos', Grow(base, s, op, acc)) && pos <= pos'
    ensures op.Segment? && !Takes(s, op.start, op.payload) ==> s' == s
  {
    pos' := pos;
    if op.Segment? {
      var c := Chunk(op.start, op.payload);
      SignedDiffNoWrap(base, n, c.start, pos);
      if Takes(s, op.start, op.payload) {
        assert Inside(base, n, op.start, op.payload);
        if op.start == s.nextSeq {
          pos' := TakeInOrder(s, c, s', base, n, from, pos, acc, Grow(base, s, op, acc));
        } else {
          var q :| IsSortOf(q, s.chunks + [c]) && s' == Drained(s, q);
          pos' := TakeOutOfOrder(s, c, q, s', base, n, from, pos, acc, Grow(base, s, op, acc));
        }
      }
    }
  }

  // ---- Coverage over whole runs ----

  /** The spans of the segments that the guards let through in a history. */
  ghost function AcceptedSpans(base: u32, ops: seq<Op>, states: seq<Stream>): set<Span>
    requires |states| == |ops| + 1
  {
    if ops == [] then {} else
      var k := |ops| - 1;
      Grow(base, states[k], ops[k], AcceptedSpans(base, ops[..k], states[..k + 1]))
  }

  /** The first call starts the stream at `base`: it is told so, or takes the first segment it sees. */
  ghost predicate StartsAt(maxDepth: int, base: u32, n: nat, op: Op) {
    op == SetStart(base) || (op.Segment? && op.start == base && 0 < |op.payload| <= n && maxDepth > 0)
  }

  lemma FirstCallCovers(maxDepth: int, base: u32, n: nat, op: Op, s': Stream) returns (pos: nat)
    requires NoWrap(base, n) && StartsAt(maxDepth, base, n, op) && Step(NewStream(maxDepth), op, s')
    ensures Covering(s', base, n, 0, pos, Grow(base, NewStream(maxDepth), op, {}))
  {
    pos := 0;
    if op.Segment? {
      var s, c := NewStream(maxDepth), Chunk(op.start, op.payload);
      pos := TakeInOrder(Init(s, base), c, s', base, n, 0, 0, {}, {} + {ChunkSpan(base, c)});
    }
  }

  /** In every history that starts at `base` and does not wrap, `NextSeq` is the end of the
      contiguous coverage of the accepted segments (see `EndOfCoverage`), whether the start is known
      or the flow is picked up in the middle; segments behind `base` are dropped. */
  lemma {:induction false} RunKeepsCovering(maxDepth: int, base: u32, n: nat, ops: seq<Op>, states: seq<Stream>) returns (pos: nat)
    requires NoWrap(base, n) && IsRun(maxDepth, ops, states)
    requires ops != [] && StartsAt(maxDepth, base, n, ops[0])
    requires forall k :: 0 <= k < |ops| ==> InRange(base, n, ops[k])
    ensures Covering(states[|ops|], base, n, 0, pos, AcceptedSpans(base, ops, states))
  {
    var k := |ops| - 1;
    if k == 0 {
      assert ops[..0] == [];
      pos := FirstCallCovers(maxDepth, base, n, ops[0], states[1]);
    } else {
      pos := RunKeepsCovering(maxDepth, base, n, ops[..k], states[..k + 1]);
      pos := StepKeepsCovering(states[k], ops[k], states[k + 1], base, n, 0, pos, AcceptedSpans(base, ops[..k], states[..k + 1]));
    }
  }
}
