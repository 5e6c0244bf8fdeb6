/** A stream cut into consecutive segments, delivered in any order and with repetitions: unless
    the bounded queue turns one away, the reassembler recovers the stream up to its depth. */
module StreamDelivery {
  import opened Bytes
  import opened StreamSpec
  import opened StreamSafety
  import opened StreamCoverage

  /** `cuts` are the borders of consecutive non-empty segments covering `n` bytes. */
  ghost predicate IsCutting(cuts: seq<nat>, n: nat) {
    && |cuts| >= 1 && cuts[0] == 0 && cuts[|cuts| - 1] == n
    && forall i, j :: 0 <= i < j < |cuts| ==> cuts[i] < cuts[j]
  }

  ghost predicate IsPiece(cuts: seq<nat>, a: Span) {
    exists i :: 0 <= i < |cuts| - 1 && a == Span(cuts[i], cuts[i + 1])
  }

  /** The call that delivers piece `a` of a stream opened at `base`. */
  function PieceOp(base: u32, strm: Bytes, a: Span): Op {
    if 0 <= a.lo <= a.hi <= |strm| then Segment(SeqAt(base, a.lo), strm[a.lo..a.hi]) else SetStart(base)
  }

  /** The calls open the stream at `base`; then the slices `spans` of it arrive, in this order. They may overlap. */
  ghost predicate Arrive(base: u32, strm: Bytes, spans: seq<Span>, ops: seq<Op>) {
    && |ops| == |spans| + 1 && ops[0] == SetStart(base)
    && forall k :: 0 <= k < |spans| ==> Within(|strm|, spans[k]) && ops[k + 1] == PieceOp(base, strm, spans[k])
  }

  /** The arrivals are pieces only, and each at least once. */
  ghost predicate IsDelivery(base: u32, strm: Bytes, cuts: seq<nat>, pieces: seq<Span>, ops: seq<Op>) {
    && Arrive(base, strm, pieces, ops)
    && (forall k :: 0 <= k < |pieces| ==> IsPiece(cuts, pieces[k]))
    && (forall a :: IsPiece(cuts, a) ==> a in pieces)
  }

  lemma ArrivalIsSent(base: u32, strm: Bytes, a: Span)
    requires Within(|strm|, a)
    ensures var op := PieceOp(base, strm, a); op.Segment? && op.payload != [] && Sent(base, strm, op)
  {
    assert SliceAt(base, strm, Chunk(SeqAt(base, a.lo), strm[a.lo..a.hi]), a.lo);
  }

  lemma ArrivalsAreSent(base: u32, strm: Bytes, spans: seq<Span>, ops: seq<Op>)
    requires Arrive(base, strm, spans, ops)
    ensures forall k :: 0 <= k < |ops| ==> Sent(base, strm, ops[k])
  {
    forall k | 0 < k < |ops| ensures Sent(base, strm, ops[k]) {
      ArrivalIsSent(base, strm, spans[k - 1]);
      assert ops[k - 1 + 1] == PieceOp(base, strm, spans[k - 1]);
    }
  }

  lemma ArrivalWithoutWrap(base: u32, strm: Bytes, a: Span)
    requires NoWrap(base, |strm|) && Within(|strm|, a)
    ensures var op := PieceOp(base, strm, a);
      op.start == base + a.lo && Inside(base, |strm|, op.start, op.payload) && ChunkSpan(base, Chunk(op.start, op.payload)) == a
  {
    SeqAtNoWrap(base, a.lo);
  }

  /** The call is turned away because too many chunks wait. */
  predicate TurnsAway(s: Stream, op: Op) {
    op.Segment? && !Ignored(s, op.payload) && SignedDiff(op.start, s.nextSeq) > 0 && |s.chunks| > 50
  }

  // ---- What becomes of an arrival ----

  /** An arrival is taken only if it does not start behind `NextSeq`; if not taken it starts behind, was
      turned away, or met a full buffer. */
  lemma HearOne(s: Stream, a: Span, s': Stream, base: u32, strm: Bytes, pos: nat, acc: set<Span>) returns (pos': nat)
    requires Covering(s, base, |strm|, 0, pos, acc) && Within(|strm|, a) && Step(s, PieceOp(base, strm, a), s')
    ensures var op := PieceOp(base, strm, a); var acc' := Grow(base, s, op, acc);
      && Covering(s', base, |strm|, 0, pos', acc') && pos <= pos'
      && (acc' == acc || (acc' == acc + {a} && a.lo >= pos))
      && (a in acc' || a.lo < pos || |s.data| >= s.maxDepth || TurnsAway(s, op))
  {
    var op := PieceOp(base, strm, a);
    ArrivalIsSent(base, strm, a);
    ArrivalWithoutWrap(base, strm, a);
    SignedDiffNoWrap(base, |strm|, op.start, pos);
    pos' := StepKeepsCovering(s, op, s', base, |strm|, 0, pos, acc);
  }

  /** Every arrival was accepted or started behind, unless the buffer is full. */
  ghost predicate Heard(maxDepth: int, pos: nat, acc: set<Span>, spans: seq<Span>) {
    && (forall a :: a in acc ==> a in spans)
    && (pos < maxDepth ==> forall a :: a in spans ==> a in acc || a.lo < pos)
  }

  lemma {:induction false} HearAll(maxDepth: int, base: u32, strm: Bytes, spans: seq<Span>, ops: seq<Op>, states: seq<Stream>) returns (pos: nat)
    requires NoWrap(base, |strm|) && Arrive(base, strm, spans, ops) && IsRun(maxDepth, ops, states)
    requires forall k :: 0 <= k < |ops| ==> !TurnsAway(states[k], ops[k])
    ensures Covering(states[|ops|], base, |strm|, 0, pos, AcceptedSpans(base, ops, states))
    ensures Heard(maxDepth, pos, AcceptedSpans(base, ops, states), spans)
  {
    if spans == [] {
      pos := 0;
    } else {
      var k := |spans|;
      var d, a := spans[..k - 1], spans[k - 1];
      assert spans == d + [a];
      assert ops[k - 1 + 1] == PieceOp(base, strm, a);
      pos := HearAll(maxDepth, base, strm, d, ops[..k], states[..k + 1]);
      BufferUpTo(maxDepth, base, strm, d, ops[..k], states[..k + 1], pos);
      var acc := AcceptedSpans(base, ops[..k], states[..k + 1]);
      var pos' := HearOne(states[k], a, states[k + 1], base, strm, pos, acc);
      pos := pos';
    }
  }

  /** In a history that opens at `base`, the buffer is the stream up to where `NextSeq` stands, cut at the depth. */
  lemma BufferUpTo(maxDepth: int, base: u32, strm: Bytes, spans: seq<Span>, ops: seq<Op>, states: seq<Stream>, pos: nat)
    requires NoWrap(base, |strm|) && Arrive(base, strm, spans, ops) && IsRun(maxDepth, ops, states)
    requires pos <= |strm| && states[|ops|].initialized && states[|ops|].nextSeq == NumberAt(base, pos)
    ensures states[|ops|].maxDepth == maxDepth && states[|ops|].data == strm[..Kept(maxDepth, pos)]
  {
    ArrivalsAreSent(base, strm, spans, ops);
    SentIsInStep(maxDepth, base, strm, ops, states, pos);
  }

  // ---- When any order will do ----

  /** The spans that end by `p` cover all bytes before `p`. */
  ghost predicate CoverUpTo(spans: iset<Span>, p: int) {
    forall x :: 0 <= x < p ==> CoveredBefore(spans, x, p)
  }

  ghost predicate CoveredBefore(spans: iset<Span>, x: int, p: int) {
    exists a :: a in spans && a.lo <= x < a.hi <= p
  }

  ghost predicate StartsHere(spans: iset<Span>, p: int) {
    exists a :: a in spans && a.lo == p
  }

  /** Wherever spans that end by a byte cover all before it, another starts at that byte. */
  ghost predicate Seamless(spans: iset<Span>, n: nat) {
    forall p :: 0 <= p < n && CoverUpTo(spans, p) ==> StartsHere(spans, p)
  }

  function SpansOf(spans: seq<Span>): iset<Span> {
    iset a | a in spans
  }

  /** Where `NextSeq` stands, the accepted spans that end there cover all before it. */
  lemma CoveredBehind(acc: set<Span>, spans: seq<Span>, pos: nat)
    requires (forall a :: a in acc ==> a in spans) && (forall x :: 0 <= x < pos ==> CoveredBy(acc, x)) && !CoveredBy(acc, pos)
    ensures CoverUpTo(SpansOf(spans), pos)
  {
    forall x | 0 <= x < pos ensures CoveredBefore(SpansOf(spans), x, pos) {
      assert CoveredBy(acc, x);
      var a :| a in acc && a.lo <= x < a.hi;
      assert a in SpansOf(spans);
    }
  }

  lemma NothingIsMissing(acc: set<Span>, spans: seq<Span>, maxDepth: int, n: nat, pos: nat)
    requires Heard(maxDepth, pos, acc, spans) && Seamless(SpansOf(spans), n) && pos <= n
    requires (forall x :: 0 <= x < pos ==> CoveredBy(acc, x)) && !CoveredBy(acc, pos)
    requires forall a :: a in spans ==> Within(n, a)
    ensures pos == n || pos >= maxDepth
  {
    if pos < n && pos < maxDepth {
      CoveredBehind(acc, spans, pos);
    }
  }

  /** Slices that are seamless recover the stream up to the depth in any order, overlapping and repeated
      as they may be, if the queue turns none away. */
  lemma SeamlessRecovers(maxDepth: int, base: u32, strm: Bytes, spans: seq<Span>, ops: seq<Op>, states: seq<Stream>)
    requires NoWrap(base, |strm|) && Arrive(base, strm, spans, ops) && IsRun(maxDepth, ops, states)
    requires forall k :: 0 <= k < |ops| ==> !TurnsAway(states[k], ops[k])
    requires Seamless(SpansOf(spans), |strm|)
    ensures states[|ops|].data == strm[..Kept(maxDepth, |strm|)]
  {
    var pos := HearAll(maxDepth, base, strm, spans, ops, states);
    EndOfCoverage(states[|ops|], base, |strm|, 0, pos, AcceptedSpans(base, ops, states));
    NothingIsMissing(AcceptedSpans(base, ops, states), spans, maxDepth, |strm|, pos);
    BufferUpTo(maxDepth, base, strm, spans, ops, states, pos);
  }

  /** After a piece that is not the last comes another. */
  lemma NextPiece(cuts: seq<nat>, n: nat, a: Span) returns (b: Span)
    requires IsCutting(cuts, n) && IsPiece(cuts, a) && a.hi < n
    ensures IsPiece(cuts, b) && b.lo == a.hi
  {
    var i :| 0 <= i < |cuts| - 1 && a == Span(cuts[i], cuts[i + 1]);
    b := Span(cuts[i + 1], cuts[i + 2]);
  }

  lemma FirstPiece(cuts: seq<nat>, n: nat) returns (b: Span)
    requires IsCutting(cuts, n) && n > 0
    ensures IsPiece(cuts, b) && b.lo == 0
  {
    b := Span(cuts[0], cuts[1]);
  }

  /** The consecutive pieces of a stream are seamless. */
  lemma CuttingIsSeamless(cuts: seq<nat>, n: nat, pieces: seq<Span>)
    requires IsCutting(cuts, n) && (forall a :: a in pieces <==> IsPiece(cuts, a))
    ensures Seamless(SpansOf(pieces), n)
  {
    forall p | 0 <= p < n && CoverUpTo(SpansOf(pieces), p) ensures StartsHere(SpansOf(pieces), p) {
      var b;
      if p == 0 {
        b := FirstPiece(cuts, n);
      } else {
        assert CoveredBefore(SpansOf(pieces), p - 1, p);
        var a :| a in SpansOf(pieces) && a.lo <= p - 1 < a.hi <= p;
        b := NextPiece(cuts, n, a);
      }
      assert b in pieces;
    }
  }

  /** Delivery in any order, with any repetitions, recovers the stream cut at the depth limit. */
  lemma AnyOrderRecovers(maxDepth: int, base: u32, strm: Bytes, cuts: seq<nat>, pieces: seq<Span>, ops: seq<Op>, states: seq<Stream>)
    requires NoWrap(base, |strm|) && IsCutting(cuts, |strm|)
    requires IsDelivery(base, strm, cuts, pieces, ops) && IsRun(maxDepth, ops, states)
    requires forall k :: 0 <= k < |ops| ==> !TurnsAway(states[k], ops[k])
    ensures states[|ops|].data == strm[..Kept(maxDepth, |strm|)]
  {
    CuttingIsSeamless(cuts, |strm|, pieces);
    SeamlessRecovers(maxDepth, base, strm, pieces, ops, states);
  }

  /** The queue never holds more chunks than segments were offered, so a delivery of at most
      fifty-one segments is never turned away. */
  lemma ShortDeliveriesFit(maxDepth: int, ops: seq<Op>, states: seq<Stream>)
    requires IsRun(maxDepth, ops, states) && |ops| <= 1 + 51 && ops != [] && ops[0].SetStart?
    ensures forall k :: 0 <= k < |ops| ==> !TurnsAway(states[k], ops[k])
  {
    forall k | 0 <= k < |ops| ensures !TurnsAway(states[k], ops[k]) {
      QueueIsBounded(maxDepth, ops, states, k);
    }
  }

  lemma {:induction false} QueueIsBounded(maxDepth: int, ops: seq<Op>, states: seq<Stream>, k: nat)
    requires IsRun(maxDepth, ops, states) && ops != [] && ops[0].SetStart? && k <= |ops|
    ensures |states[k].chunks| <= if k == 0 then 0 else k - 1
    decreases |ops|
  {
    var n := |ops| - 1;
    if k <= n {
      if n > 0 {
        QueueIsBounded(maxDepth, ops[..n], states[..n + 1], k);
      }
    } else if n > 0 {
      QueueIsBounded(maxDepth, ops[..n], states[..n + 1], n);
      StepGrowsByOne(states[n], ops[n], states[n + 1]);
    }
  }

  lemma StepGrowsByOne(s: Stream, op: Op, s': Stream)
    requires Step(s, op, s')
    ensures |s'.chunks| <= |s.chunks| + 1
  {
    forall t, q ensures |Drained(t, q).chunks| <= |q| {
      DrainShrinks(t, q);
    }
    forall q: seq<Chunk>, cs: seq<Chunk> | multiset(q) == multiset(cs) ensures |q| == |cs| {
      assert |multiset(q)| == |multiset(cs)|;
    }
  }

  lemma {:induction false} DrainShrinks(s: Stream, q: seq<Chunk>)
    ensures |Drained(s, q).chunks| <= |q|
  {
    if q != [] {
      DrainShrinks(s, q[..|q| - 1]);
    }
  }

  // ---- Exactly what is recovered ----

  /** The stream is opened at `base`, or a slice of it arrives: any slice, however cut. */
  ghost predicate Sent(base: u32, strm: Bytes, op: Op) {
    op == SetStart(base) || (op.Segment? && op.payload != [] && IsSlice(base, strm, Chunk(op.start, op.payload)))
  }

  lemma SentIsInRange(base: u32, strm: Bytes, op: Op)
    requires NoWrap(base, |strm|) && Sent(base, strm, op)
    ensures Fits(base, strm, op) && InRange(base, |strm|, op)
  {
    SeqAtNoWrap(base, 0);
    if op.Segment? {
      var off: nat :| SliceAt(base, strm, Chunk(op.start, op.payload), off);
      SeqAtNoWrap(base, off);
    }
  }

  lemma NumberIsSeq(base: u32, n: nat, pos: nat, at: nat)
    requires NoWrap(base, n) && pos <= n && at <= n && NumberAt(base, pos) == SeqAt(base, at)
    ensures pos == at
  {
    SeqAtNoWrap(base, pos);
    RawOverlap(base, at, pos);
  }

  ghost predicate AllCovered(acc: set<Span>, n: nat) {
    forall x :: 0 <= x < n ==> CoveredBy(acc, x)
  }

  lemma SentIsCovered(maxDepth: int, base: u32, strm: Bytes, ops: seq<Op>, states: seq<Stream>) returns (pos: nat)
    requires NoWrap(base, |strm|) && IsRun(maxDepth, ops, states) && ops != [] && ops[0] == SetStart(base)
    requires forall k :: 0 <= k < |ops| ==> Sent(base, strm, ops[k])
    ensures pos <= |strm| && Covering(states[|ops|], base, |strm|, 0, pos, AcceptedSpans(base, ops, states))
  {
    forall k | 0 <= k < |ops| ensures InRange(base, |strm|, ops[k]) {
      SentIsInRange(base, strm, ops[k]);
    }
    pos := RunKeepsCovering(maxDepth, base, |strm|, ops, states);
  }

  lemma SentIsInStep(maxDepth: int, base: u32, strm: Bytes, ops: seq<Op>, states: seq<Stream>, pos: nat)
    requires NoWrap(base, |strm|) && IsRun(maxDepth, ops, states) && ops != [] && ops[0] == SetStart(base)
    requires forall k :: 0 <= k < |ops| ==> Sent(base, strm, ops[k])
    requires pos <= |strm| && states[|ops|].initialized && states[|ops|].nextSeq == NumberAt(base, pos)
    ensures states[|ops|].maxDepth == maxDepth && states[|ops|].data == strm[..Kept(maxDepth, pos)]
  {
    forall k | 0 <= k < |ops| ensures Fits(base, strm, ops[k]) {
      SentIsInRange(base, strm, ops[k]);
    }
    var from, at := PrefixSafety(maxDepth, base, strm, ops, states);
    NumberIsSeq(base, |strm|, pos, at[|ops|]);
  }

  /** Without a wrap, and whatever the queue turned away: the buffer is complete exactly when every
      byte the depth has room for was in a segment that was accepted. */
  lemma RecoversIffCovered(maxDepth: int, base: u32, strm: Bytes, ops: seq<Op>, states: seq<Stream>)
    requires NoWrap(base, |strm|) && IsRun(maxDepth, ops, states)
    requires ops != [] && ops[0] == SetStart(base) && forall k :: 0 <= k < |ops| ==> Sent(base, strm, ops[k])
    ensures states[|ops|].data == strm[..Kept(maxDepth, |strm|)] <==> AllCovered(AcceptedSpans(base, ops, states), Kept(maxDepth, |strm|))
  {
    var pos := SentIsCovered(maxDepth, base, strm, ops, states);
    EndOfCoverage(states[|ops|], base, |strm|, 0, pos, AcceptedSpans(base, ops, states));
    SentIsInStep(maxDepth, base, strm, ops, states, pos);
  }

  // ---- Exactly when out-of-order delivery is safe ----

  /** Every delivery that is not turned away recovers the stream. */
  ghost predicate AlwaysRecovers(base: u32, strm: Bytes) {
    forall maxDepth: int, cuts: seq<nat>, pieces: seq<Span>, ops: seq<Op>, states: seq<Stream> ::
      IsCutting(cuts, |strm|) && IsDelivery(base, strm, cuts, pieces, ops) && IsRun(maxDepth, ops, states)
      && (forall k :: 0 <= k < |ops| ==> !TurnsAway(states[k], ops[k]))
      ==> states[|ops|].data == strm[..Kept(maxDepth, |strm|)]
  }

  /** Cut where the numbers wrap and deliver the second half first: its number 0 looks old to
      the draining pass, which drops it for good. */
  lemma WrapLosesSegment(base: u32, strm: Bytes)
    returns (cuts: seq<nat>, pieces: seq<Span>, ops: seq<Op>, states: seq<Stream>)
    requires |strm| < HALF && base + |strm| > WORD
    ensures IsCutting(cuts, |strm|) && IsDelivery(base, strm, cuts, pieces, ops) && IsRun(|strm|, ops, states)
    ensures forall k :: 0 <= k < |ops| ==> !TurnsAway(states[k], ops[k])
    ensures states[|ops|].data != strm
  {
    var w := WORD - base;
    var head, tail := strm[..w], strm[w..];
    cuts, pieces := [0, w, |strm|], [Span(w, |strm|), Span(0, w)];
    ops := [SetStart(base), Segment(0, tail), Segment(base, head)];
    var s0 := NewStream(|strm|);
    var s1 := Init(s0, base);
    var s2 := Consume(s1, head);
    states := [s0, s1, s1, s2];
    WrapDelivery(base, strm, w);
    WrapDropsTail(s1, tail);
    ThreeSteps(|strm|, ops[0], ops[1], ops[2], s0, s1, s1, s2);
  }

  lemma WrapDelivery(base: u32, strm: Bytes, w: nat)
    requires |strm| < HALF && base + |strm| > WORD && w == WORD - base
    ensures IsCutting([0, w, |strm|], |strm|)
    ensures IsDelivery(base, strm, [0, w, |strm|], [Span(w, |strm|), Span(0, w)],
      [SetStart(base), Segment(0, strm[w..]), Segment(base, strm[..w])])
  {
    var cuts, a, b := [0, w, |strm|], Span(0, w), Span(w, |strm|);
    SeqAtNoWrap(base, 0);
    SeqAtNoWrap(base, w);
    assert PieceOp(base, strm, b) == Segment(0, strm[w..]) && PieceOp(base, strm, a) == Segment(base, strm[..w]);
    assert a == Span(cuts[0], cuts[1]) && b == Span(cuts[1], cuts[2]);
  }

  lemma WrapDropsTail(s: Stream, tail: Bytes)
    requires s.initialized && s.chunks == [] && s.data == [] && 0 < |tail| <= s.maxDepth && |tail| < HALF < s.nextSeq
    ensures AddSegment(s, 0, tail, s)
  {
    var c := Chunk(0, tail);
    assert s.chunks + [c] == [c];
    OneIsSorted(c);
    TailIsOld(s, c);
    SegmentWaits(s, 0, tail, [c], s);
  }

  /** A segment ahead is queued and the queue drained, in some sorted order. */
  lemma SegmentWaits(s: Stream, start: u32, payload: Bytes, q: seq<Chunk>, s': Stream)
    requires s.initialized && !Ignored(s, payload) && SignedDiff(start, s.nextSeq) > 0 && |s.chunks| <= 50
    requires IsSortOf(q, s.chunks + [Chunk(start, payload)]) && s' == Drained(s, q)
    ensures AddSegment(s, start, payload, s')
  {
  }

  /** To the draining pass a chunk numbered 0 looks older than it is. */
  lemma TailIsOld(s: Stream, c: Chunk)
    requires s.chunks == [] && c.start == 0 && |c.data| < HALF < s.nextSeq
    ensures Drained(s, [c]) == s && SignedDiff(0, s.nextSeq) > 0
  {
    DrainOne(s, c);
  }

  lemma DrainOne(s: Stream, c: Chunk)
    ensures Drained(s, [c]) == Absorb(s.(chunks := []), c)
  {
    assert [c][..0] == [];
  }

  lemma OneIsSorted(c: Chunk)
    ensures IsSortOf([c], [c])
  {
  }

  lemma ThreeSteps(maxDepth: int, a: Op, b: Op, c: Op, s0: Stream, s1: Stream, s2: Stream, s3: Stream)
    requires s0 == NewStream(maxDepth) && Step(s0, a, s1) && Step(s1, b, s2) && Step(s2, c, s3)
    ensures IsRun(maxDepth, [a, b, c], [s0, s1, s2, s3])
  {
    HistoryExtends(maxDepth, [], [s0], a, s1);
    assert [] + [a] == [a] && [s0] + [s1] == [s0, s1];
    HistoryExtends(maxDepth, [a], [s0, s1], b, s2);
    assert [a] + [b] == [a, b] && [s0, s1] + [s2] == [s0, s1, s2];
    HistoryExtends(maxDepth, [a, b], [s0, s1, s2], c, s3);
    assert [a, b] + [c] == [a, b, c] && [s0, s1, s2] + [s3] == [s0, s1, s2, s3];
  }

  /** Out-of-order delivery is safe exactly when the numbers do not wrap inside the stream. */
  lemma RecoversIffNoWrap(base: u32, strm: Bytes)
    requires |strm| < HALF
    ensures AlwaysRecovers(base, strm) <==> base + |strm| <= WORD
  {
    if base + |strm| <= WORD {
      forall maxDepth: int, cuts: seq<nat>, pieces: seq<Span>, ops: seq<Op>, states: seq<Stream>
        | IsCutting(cuts, |strm|) && IsDelivery(base, strm, cuts, pieces, ops) && IsRun(maxDepth, ops, states)
          && (forall k :: 0 <= k < |ops| ==> !TurnsAway(states[k], ops[k]))
        ensures states[|ops|].data == strm[..Kept(maxDepth, |strm|)]
      {
        AnyOrderRecovers(maxDepth, base, strm, cuts, pieces, ops, states);
      }
    } else {
      var cuts, pieces, ops, states := WrapLosesSegment(base, strm);
      assert strm[..Kept(|strm|, |strm|)] == strm;
    }
  }
}
