/** What the order of arrival does to a stream: which sets of slices every order recovers, and what
    arrival in order yields, wrap or no wrap. */
module StreamOrder {
  import opened Bytes
  import opened StreamSpec
  import opened StreamSafety
  import opened StreamCoverage
  import opened StreamDelivery
  import R = Reassembly

  // ---- Runs exist ----

  lemma {:induction false} SortExists(cs: seq<Chunk>) returns (q: seq<Chunk>)
    ensures IsSortOf(q, cs)
  {
    if cs == [] {
      q := [];
    } else {
      var n := |cs| - 1;
      q := SortExists(cs[..n]);
      assert cs == cs[..n] + [cs[n]];
      R.InsertSorts(q, cs[n]);
      R.InsertKeepsChunks(q, cs[n]);
      q := R.Insert(q, cs[n]);
    }
  }

  lemma StepExists(s: Stream, op: Op) returns (s': Stream)
    ensures Step(s, op, s')
  {
    match op
    case SetStart(start) => s' := Init(s, start);
    case Segment(start, payload) =>
      var t := Init(s, start);
      var diff := SignedDiff(start, t.nextSeq);
      if Ignored(s, payload) {
        s' := s;
      } else if diff == 0 {
        s' := Drained(Consume(t, payload), t.chunks);
      } else if diff < 0 || |t.chunks| > QUEUE_LIMIT {
        s' := t;
      } else {
        var q := SortExists(t.chunks + [Chunk(start, payload)]);
        s' := Drained(t, q);
      }
  }

  lemma {:induction false} RunExists(maxDepth: int, ops: seq<Op>) returns (states: seq<Stream>)
    ensures IsRun(maxDepth, ops, states)
  {
    if ops == [] {
      states := [NewStream(maxDepth)];
    } else {
      var n := |ops| - 1;
      states := RunExists(maxDepth, ops[..n]);
      var s' := StepExists(states[n], ops[n]);
      assert ops == ops[..n] + [ops[n]];
      HistoryExtends(maxDepth, ops[..n], states, ops[n], s');
      states := states + [s'];
    }
  }

  // ---- Where the stream gets stuck ----

  /** `NextSeq` has reached `p` and stays there. */
  ghost predicate UpTo(acc: set<Span>, p: nat) {
    (forall x :: 0 <= x < p ==> CoveredBy(acc, x)) && !CoveredBy(acc, p)
  }

  /** Where no slice starts, none that arrives is taken across. */
  lemma StuckStep(acc: set<Span>, acc': set<Span>, a: Span, p: nat)
    requires UpTo(acc, p) && a.lo != p && (acc' == acc || (acc' == acc + {a} && a.lo >= p))
    ensures UpTo(acc', p)
  {
    MoreAccepted(acc, acc');
  }

  /** Once the coverage ends at `p`, where no slice starts, it ends there for good. */
  lemma {:induction false} StaysStuck(maxDepth: int, base: u32, strm: Bytes, spans: seq<Span>, ops: seq<Op>, states: seq<Stream>, p: nat, k: nat)
    requires NoWrap(base, |strm|) && Arrive(base, strm, spans, ops) && IsRun(maxDepth, ops, states)
    requires k <= |spans| && UpTo(AcceptedSpans(base, ops[..k + 1], states[..k + 2]), p)
    requires forall j :: k <= j < |spans| ==> spans[j].lo != p
    ensures UpTo(AcceptedSpans(base, ops, states), p)
    decreases |spans|
  {
    var n := |spans|;
    if k == n {
      assert ops[..k + 1] == ops && states[..k + 2] == states;
    } else {
      var d, a := spans[..n - 1], spans[n - 1];
      assert ops[..n][..k + 1] == ops[..k + 1] && states[..n + 1][..k + 2] == states[..k + 2];
      assert ops[n - 1 + 1] == PieceOp(base, strm, a);
      StaysStuck(maxDepth, base, strm, d, ops[..n], states[..n + 1], p, k);
      var acc := AcceptedSpans(base, ops[..n], states[..n + 1]);
      ArrivalsAreSent(base, strm, d, ops[..n]);
      var pos := SentIsCovered(maxDepth, base, strm, ops[..n], states[..n + 1]);
      EndOfCoverage(states[n], base, |strm|, 0, pos, acc);
      var pos' := HearOne(states[n], a, states[n + 1], base, strm, pos, acc);
      StuckStep(acc, AcceptedSpans(base, ops, states), a, p);
    }
  }

  lemma {:induction false} RunPrefix(maxDepth: int, ops: seq<Op>, states: seq<Stream>, k: nat)
    requires IsRun(maxDepth, ops, states) && k <= |ops|
    ensures IsRun(maxDepth, ops[..k], states[..k + 1])
    decreases |ops|
  {
    if k == |ops| {
      assert ops[..k] == ops && states[..k + 1] == states;
    } else {
      var n := |ops| - 1;
      RunPrefix(maxDepth, ops[..n], states[..n + 1], k);
      assert ops[..n][..k] == ops[..k] && states[..n + 1][..k + 1] == states[..k + 1];
    }
  }

  // ---- An order that gets stuck at a byte where no slice starts ----

  /** Slices that start behind the opening all wait in the queue. */
  lemma AllWait(base: u32, strm: Bytes, spans: seq<Span>, ops: seq<Op>, states: seq<Stream>)
    requires NoWrap(base, |strm|) && Arrive(base, strm, spans, ops) && IsRun(|strm|, ops, states)
    requires |spans| <= 50 && strm != [] && forall a :: a in spans ==> a.lo > 0
    ensures Covering(states[|ops|], base, |strm|, 0, 0, AcceptedSpans(base, ops, states))
    ensures AcceptedSpans(base, ops, states) == (set a | a in spans)
    ensures states[|ops|].data == [] && states[|ops|].maxDepth == |strm|
  {
    ShortDeliveriesFit(|strm|, ops, states);
    var acc := AcceptedSpans(base, ops, states);
    var pos := HearAll(|strm|, base, strm, spans, ops, states);
    EndOfCoverage(states[|ops|], base, |strm|, 0, pos, acc);
    assert !CoveredBy(acc, 0);
    assert pos == 0;
    BufferUpTo(|strm|, base, strm, spans, ops, states, 0);
  }

  /** Then one that starts there is taken, and what waits behind it with it. */
  lemma OneOpens(base: u32, strm: Bytes, first: seq<Span>, z: Span, ops: seq<Op>, states: seq<Stream>)
    requires NoWrap(base, |strm|) && Arrive(base, strm, first + [z], ops) && IsRun(|strm|, ops, states)
    requires |first| <= 50 && strm != [] && z.lo == 0 && forall a :: a in first ==> a.lo > 0
    ensures AcceptedSpans(base, ops, states) == (set a | a in first) + {z}
  {
    var n := |first|;
    assert (first + [z])[n] == z && ops[n + 1] == PieceOp(base, strm, z);
    assert forall k :: 0 <= k < n ==> (first + [z])[k] == first[k];
    AllWait(base, strm, first, ops[..n + 1], states[..n + 2]);
    ShortDeliveriesFit(|strm|, ops, states);
    var acc := AcceptedSpans(base, ops[..n + 1], states[..n + 2]);
    var pos := HearOne(states[n + 1], z, states[n + 2], base, strm, 0, acc);
  }

  /** What is needed of such an order for byte `p`. */
  ghost predicate Traps(spans: iset<Span>, p: nat, first: seq<Span>, z: Span) {
    && (forall a :: a in first ==> a in spans && a.hi <= p && a.lo > 0)
    && z in spans && z.lo == 0 && z.hi <= p
    && (forall a :: a in spans && a.hi <= p ==> a in first || (a.lo == 0 && a.hi <= z.hi))
  }

  lemma TrapReaches(spans: iset<Span>, p: nat, first: seq<Span>, z: Span)
    requires Traps(spans, p, first, z) && CoverUpTo(spans, p)
    ensures UpTo((set a | a in first) + {z}, p)
  {
    var acc := (set a | a in first) + {z};
    forall x | 0 <= x < p ensures CoveredBy(acc, x) {
      assert CoveredBefore(spans, x, p);
      var a :| a in spans && a.lo <= x < a.hi <= p;
      if a in first {
        assert a in acc;
      } else {
        assert z in acc;
      }
    }
  }

  lemma {:induction false} Longest(zs: set<Span>) returns (z: Span)
    requires zs != {}
    ensures z in zs && forall a :: a in zs ==> a.hi <= z.hi
    decreases |zs|
  {
    z :| z in zs;
    var rest := zs - {z};
    if rest != {} {
      var y := Longest(rest);
      z := if y.hi > z.hi then y else z;
    }
    assert forall a :: a in zs ==> a in rest || a in zs - rest;
  }

  lemma {:induction false} ListOf(spans: set<Span>) returns (l: seq<Span>)
    ensures |l| == |spans| && forall a :: a in l <==> a in spans
    decreases |spans|
  {
    if spans == {} {
      l := [];
    } else {
      var a :| a in spans;
      l := ListOf(spans - {a});
      l := l + [a];
    }
  }

  function AllOf(spans: set<Span>): iset<Span> {
    iset a | a in spans
  }

  lemma FindTrap(spans: set<Span>, n: nat, p: nat) returns (first: seq<Span>, z: Span, rest: seq<Span>)
    requires (forall a :: a in spans ==> Within(n, a)) && p > 0 && CoverUpTo(AllOf(spans), p)
    ensures Traps(AllOf(spans), p, first, z)
    ensures |first + [z] + rest| == |spans| && forall a :: a in first + [z] + rest <==> a in spans
  {
    assert CoveredBefore(AllOf(spans), 0, p);
    var fs := set a | a in spans && a.hi <= p && a.lo > 0;
    var zs := set a | a in spans && a.hi <= p && a.lo == 0;
    var y :| y in AllOf(spans) && y.lo <= 0 < y.hi <= p;
    assert y in zs;
    z := Longest(zs);
    first := ListOf(fs);
    var others := spans - fs - {z};
    rest := ListOf(others);
    assert spans == fs + {z} + others;
    assert |spans| == |fs + {z}| + |others| && |fs + {z}| == |fs| + 1;
  }

  function OpsFor(base: u32, strm: Bytes, arrivals: seq<Span>): seq<Op> {
    [SetStart(base)] + seq(|arrivals|, i requires 0 <= i < |arrivals| => PieceOp(base, strm, arrivals[i]))
  }

  lemma OpsArrive(base: u32, strm: Bytes, arrivals: seq<Span>)
    requires forall a :: a in arrivals ==> Within(|strm|, a)
    ensures Arrive(base, strm, arrivals, OpsFor(base, strm, arrivals))
  {
  }

  /** An order of arrival in which the slices before `p` come first, and no slice gets across `p`. */
  lemma TrapHolds(base: u32, strm: Bytes, spans: iset<Span>, p: nat, first: seq<Span>, z: Span, rest: seq<Span>, ops: seq<Op>, states: seq<Stream>)
    requires NoWrap(base, |strm|) && Arrive(base, strm, first + [z] + rest, ops) && IsRun(|strm|, ops, states)
    requires Traps(spans, p, first, z) && CoverUpTo(spans, p) && |first| <= 50
    requires forall a :: a in rest ==> a.lo != p
    ensures UpTo(AcceptedSpans(base, ops, states), p)
  {
    var arrivals, k := first + [z] + rest, |first| + 1;
    assert arrivals[..k] == first + [z];
    RunPrefix(|strm|, ops, states, k + 1);
    assert arrivals[k - 1] == z && Within(|strm|, arrivals[k - 1]);
    assert Arrive(base, strm, first + [z], ops[..k + 1]) by {
      assert forall j :: 0 <= j < k ==> (first + [z])[j] == arrivals[j];
    }
    OneOpens(base, strm, first, z, ops[..k + 1], states[..k + 2]);
    TrapReaches(spans, p, first, z);
    forall j | k <= j < |arrivals| ensures arrivals[j].lo != p {
      assert arrivals[j] == rest[j - k];
    }
    StaysStuck(|strm|, base, strm, arrivals, ops, states, p, k);
  }

  lemma NothingOpens(base: u32, strm: Bytes, arrivals: seq<Span>, ops: seq<Op>, states: seq<Stream>)
    requires NoWrap(base, |strm|) && Arrive(base, strm, arrivals, ops) && IsRun(|strm|, ops, states)
    requires forall a :: a in arrivals ==> a.lo != 0
    ensures UpTo(AcceptedSpans(base, ops, states), 0)
  {
    assert ops[..1][..0] == [] && AcceptedSpans(base, ops[..1], states[..2]) == {};
    StaysStuck(|strm|, base, strm, arrivals, ops, states, 0, 0);
  }

  /** The run loses data, whatever the library sort did. */
  ghost predicate Loses(base: u32, strm: Bytes, ops: seq<Op>, states: seq<Stream>) {
    IsRun(|strm|, ops, states) ==> states[|ops|].data != strm
  }

  lemma StuckOrder(base: u32, strm: Bytes, spans: set<Span>, p: nat) returns (arrivals: seq<Span>, ops: seq<Op>)
    requires NoWrap(base, |strm|) && (forall a :: a in spans ==> Within(|strm|, a)) && |spans| <= 51
    requires p < |strm| && CoverUpTo(AllOf(spans), p) && !StartsHere(AllOf(spans), p)
    ensures Arrive(base, strm, arrivals, ops) && |arrivals| == |spans| && forall a :: a in arrivals <==> a in spans
    ensures forall states :: Loses(base, strm, ops, states)
  {
    var first, z, rest;
    if p == 0 {
      arrivals := ListOf(spans);
    } else {
      first, z, rest := FindTrap(spans, |strm|, p);
      arrivals := first + [z] + rest;
    }
    OpsArrive(base, strm, arrivals);
    ops := OpsFor(base, strm, arrivals);
    forall states ensures Loses(base, strm, ops, states) {
      if IsRun(|strm|, ops, states) {
        if p == 0 {
          NothingOpens(base, strm, arrivals, ops, states);
        } else {
          TrapHolds(base, strm, AllOf(spans), p, first, z, rest, ops, states);
        }
        StuckLosesBytes(base, strm, arrivals, ops, states, p);
      }
    }
  }

  // ---- Exactly which slices any order recovers ----

  /** Every order of arrival of these slices, with any repetitions, in which none is turned away. */
  ghost predicate EveryOrderRecovers(base: u32, strm: Bytes, spans: set<Span>) {
    forall maxDepth: int, arrivals: seq<Span>, ops: seq<Op>, states: seq<Stream> ::
      IsOrder(base, strm, spans, maxDepth, arrivals, ops, states) ==> states[|ops|].data == strm[..Kept(maxDepth, |strm|)]
  }

  ghost predicate IsOrder(base: u32, strm: Bytes, spans: set<Span>, maxDepth: int, arrivals: seq<Span>, ops: seq<Op>, states: seq<Stream>) {
    && Arrive(base, strm, arrivals, ops) && (forall a :: a in arrivals <==> a in spans)
    && IsRun(maxDepth, ops, states) && forall k :: 0 <= k < |ops| ==> !TurnsAway(states[k], ops[k])
  }

  lemma StuckLosesBytes(base: u32, strm: Bytes, arrivals: seq<Span>, ops: seq<Op>, states: seq<Stream>, p: nat)
    requires NoWrap(base, |strm|) && Arrive(base, strm, arrivals, ops) && IsRun(|strm|, ops, states)
    requires p < |strm| && UpTo(AcceptedSpans(base, ops, states), p)
    ensures states[|ops|].data != strm
  {
    ArrivalsAreSent(base, strm, arrivals, ops);
    RecoversIffCovered(|strm|, base, strm, ops, states);
    AllIsKept(strm);
  }

  lemma AllIsKept(strm: Bytes)
    ensures strm[..Kept(|strm|, |strm|)] == strm
  {
  }

  /** Without a wrap: any order recovers the stream exactly if, wherever slices that end by a byte cover
      all before it, another slice starts at that byte. A slice that starts earlier and reaches across
      does not help, because what starts behind `NextSeq` is dropped whole. */
  lemma RecoversIffSeamless(base: u32, strm: Bytes, spans: set<Span>)
    requires NoWrap(base, |strm|) && (forall a :: a in spans ==> Within(|strm|, a)) && |spans| <= 51
    ensures EveryOrderRecovers(base, strm, spans) <==> Seamless(AllOf(spans), |strm|)
  {
    if Seamless(AllOf(spans), |strm|) {
      forall maxDepth: int, arrivals: seq<Span>, ops: seq<Op>, states: seq<Stream> | IsOrder(base, strm, spans, maxDepth, arrivals, ops, states)
        ensures states[|ops|].data == strm[..Kept(maxDepth, |strm|)]
      {
        assert SpansOf(arrivals) == AllOf(spans);
        SeamlessRecovers(maxDepth, base, strm, arrivals, ops, states);
      }
    } else {
      var p: nat :| p < |strm| && CoverUpTo(AllOf(spans), p) && !StartsHere(AllOf(spans), p);
      var arrivals, ops := StuckOrder(base, strm, spans, p);
      var states := RunExists(|strm|, ops);
      ShortDeliveriesFit(|strm|, ops, states);
      assert Loses(base, strm, ops, states);
      AllIsKept(strm);
      assert IsOrder(base, strm, spans, |strm|, arrivals, ops, states);
    }
  }

  // ---- Arrival in order ----

  /** How far slices get that arrive in order: one that starts at the end so far extends it, one that
      starts behind is dropped. */
  function Progress(arrivals: seq<Span>): int {
    if arrivals == [] then 0 else
      var p, a := Progress(arrivals[..|arrivals| - 1]), arrivals[|arrivals| - 1];
      if a.lo == p then a.hi else p
  }

  /** No slice arrives before all that comes before it. */
  predicate NeverAhead(arrivals: seq<Span>) {
    arrivals == [] ||
    var n := |arrivals| - 1;
    NeverAhead(arrivals[..n]) && arrivals[n].lo <= Progress(arrivals[..n])
  }

  /** Nothing waits, and the buffer is full or `NextSeq` is as far as that. */
  ghost predicate Settled(s: Stream, maxDepth: int, base: u32, strm: Bytes, pos: nat, progress: int) {
    && s.initialized && s.chunks == [] && s.maxDepth == maxDepth
    && InStep(s, base, strm, 0, pos) && (pos == progress || maxDepth <= pos <= progress)
  }

  lemma SettledStep(s: Stream, a: Span, s': Stream, maxDepth: int, base: u32, strm: Bytes, pos: nat, progress: int) returns (pos': nat)
    requires |strm| < HALF && Within(|strm|, a) && Settled(s, maxDepth, base, strm, pos, progress)
    requires progress <= |strm| && a.lo <= progress && Step(s, PieceOp(base, strm, a), s')
    ensures Settled(s', maxDepth, base, strm, pos', if a.lo == progress then a.hi else progress)
  {
    pos' := pos;
    if pos < maxDepth {
      DiffOfOffsets(base, a.lo, pos);
      if a.lo == pos {
        ConsumeInStep(s, base, strm, 0, pos, strm[a.lo..a.hi]);
        pos' := a.hi;
      }
    }
  }

  lemma {:induction false} StaysSettled(maxDepth: int, base: u32, strm: Bytes, arrivals: seq<Span>, ops: seq<Op>, states: seq<Stream>) returns (pos: nat)
    requires |strm| < HALF && Arrive(base, strm, arrivals, ops) && IsRun(maxDepth, ops, states) && NeverAhead(arrivals)
    ensures 0 <= Progress(arrivals) <= |strm| && Settled(states[|ops|], maxDepth, base, strm, pos, Progress(arrivals))
  {
    if arrivals == [] {
      pos := 0;
      assert ops[..0] == [];
    } else {
      var n := |arrivals|;
      var d, a := arrivals[..n - 1], arrivals[n - 1];
      assert ops[n - 1 + 1] == PieceOp(base, strm, a);
      pos := StaysSettled(maxDepth, base, strm, d, ops[..n], states[..n + 1]);
      pos := SettledStep(states[n], a, states[n + 1], maxDepth, base, strm, pos, Progress(d));
    }
  }

  /** For every initial sequence number, wrap or no wrap: slices that arrive in order, however often, leave
      exactly the stream as far as they progress, cut at the depth. */
  lemma InOrderRecovers(maxDepth: int, base: u32, strm: Bytes, arrivals: seq<Span>, ops: seq<Op>, states: seq<Stream>)
    requires |strm| < HALF && Arrive(base, strm, arrivals, ops) && IsRun(maxDepth, ops, states) && NeverAhead(arrivals)
    ensures 0 <= Progress(arrivals) <= |strm| && states[|ops|].data == strm[..Kept(maxDepth, Progress(arrivals))]
  {
    var pos := StaysSettled(maxDepth, base, strm, arrivals, ops, states);
  }
}
