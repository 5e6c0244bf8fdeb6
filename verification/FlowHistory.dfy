/** A flow as a function of the packets it has seen: its connection state, its timing, what each
    direction counted and what each reassembler was told. */
module FlowHistory {
  import opened Bytes
  import opened Common
  import opened FlowKey
  import opened FlowSpec
  import opened FlowStats
  import opened StreamSpec

  datatype Packet = Packet(now: Time, srcIP: IP16, srcPort: u16, payload: Bytes, seqNo: u32,
    syn: bool, ack: bool, fin: bool, rst: bool)

  /** The endpoint that sent the first packet. */
  datatype Endpoint = Endpoint(ip: IP16, port: u16)

  predicate FromClient(p: Packet, client: Endpoint) {
    client.ip == p.srcIP && client.port == p.srcPort
  }

  // ---- Connection state ----

  datatype ConnState = StateNew | StateEstablished | StateClosing | StateClosed

  function NextState(s: ConnState, p: Packet): ConnState {
    if p.syn && !p.ack then StateNew
    else if p.ack && s == StateNew then StateEstablished
    else if p.fin || p.rst then StateClosing
    else s
  }

  function StateAfter(h: seq<Packet>): ConnState {
    if h == [] then StateNew else NextState(StateAfter(h[..|h| - 1]), h[|h| - 1])
  }

  /** No packet ever closes a flow: only idleness makes the pruner drop one. */
  lemma {:induction false} NeverClosed(h: seq<Packet>)
    ensures StateAfter(h) != StateClosed
  {
    if h != [] {
      NeverClosed(h[..|h| - 1]);
    }
  }

  /** The packet says something about a connection that is open or new. */
  predicate Speaks(p: Packet) {
    p.ack || p.fin || p.rst
  }

  /** Packet `k` is the acknowledgement that establishes a connection new since packet `i`. */
  predicate Establishes(h: seq<Packet>, i: int, k: int)
    requires -1 <= i < k < |h|
  {
    h[k].ack && forall l :: i < l < k ==> !Speaks(h[l])
  }

  /** Since the last SYN that is no SYN-ACK, or the start: the connection is new until something is said,
      closing once a FIN or RST is met that does not establish it, and else established. */
  lemma {:induction false} StateMeaning(h: seq<Packet>, i: int)
    requires -1 <= i < |h| && (i >= 0 ==> h[i].syn && !h[i].ack) && forall k :: i < k < |h| ==> !h[k].syn || h[k].ack
    ensures StateAfter(h) == StateNew <==> forall k :: i < k < |h| ==> !Speaks(h[k])
    ensures StateAfter(h) == StateClosing <==> exists k :: i < k < |h| && (h[k].fin || h[k].rst) && !Establishes(h, i, k)
    ensures StateAfter(h) != StateClosed
    decreases |h|
  {
    var n := |h| - 1;
    if i < n {
      var d, p := h[..n], h[n];
      StateMeaning(d, i);
      assert Establishes(h, i, n) <==> p.ack && StateAfter(d) == StateNew;
      if StateAfter(d) == StateClosing {
        var k :| i < k < |d| && (d[k].fin || d[k].rst) && !Establishes(d, i, k);
        assert !Establishes(h, i, k);
      }
      if k :| i < k < |h| && (h[k].fin || h[k].rst) && !Establishes(h, i, k) {
        assert k < n ==> !Establishes(d, i, k);
      }
    }
  }

  // ---- Timing ----

  function SampleOf(p: Packet): Sample {
    Sample(p.now, |p.payload|)
  }

  ghost function Samples(h: seq<Packet>): seq<Sample> {
    seq(|h|, i requires 0 <= i < |h| => SampleOf(h[i]))
  }

  ghost function SideOf(p: Packet, client: Endpoint, forward: bool): seq<Sample> {
    if FromClient(p, client) == forward then [SampleOf(p)] else []
  }

  /** The packets of one direction. */
  ghost function SideSamples(h: seq<Packet>, client: Endpoint, forward: bool): seq<Sample> {
    if h == [] then [] else
      var n := |h| - 1;
      SideSamples(h[..n], client, forward) + SideOf(h[n], client, forward)
  }

  datatype Timing = Timing(iats: seq<int>, active: seq<int>, idle: seq<int>, start: Time, end: Time, last: Option<Time>)

  const NO_TIMING := Timing([], [], [], 0, 0, None)

  ghost function TimingOf(d: seq<Sample>): Timing {
    if d == [] then NO_TIMING else TimingFrom(Gaps(d), Split(d), Last(d).at)
  }

  ghost function TimingFrom(gaps: seq<int>, rs: seq<Run>, last: Time): Timing
    requires rs != []
  {
    Timing(Capped(gaps), Capped(ActiveTimes(FrontRuns(rs))), Capped(IdleTimes(rs)), LastRun(rs).start, LastRun(rs).end, Some(last))
  }

  /** The timing after a packet at time `now`. */
  function Timed(t: Timing, now: Time): Timing {
    if t.last == None then t.(start := now, end := now, last := Some(now)) else
      var iat := Micros(now - t.last.value);
      if iat > IDLE_US
      then Timing(AppendCapped(t.iats, iat), AppendCapped(t.active, Micros(t.end - t.start)), AppendCapped(t.idle, iat), now, now, Some(now))
      else Timing(AppendCapped(t.iats, iat), t.active, t.idle, t.start, now, Some(now))
  }

  /** A gap over one second, by its parts. */
  lemma TimedNewRun(gaps: seq<int>, act: seq<int>, idle: seq<int>, start: Time, end: Time, g: int, now: Time, act': seq<int>, idle': seq<int>)
    requires g == Micros(now - end) > IDLE_US && act' == act + [Micros(end - start)] && idle' == idle + [g]
    ensures Timing(Capped(gaps + [g]), Capped(act'), Capped(idle'), now, now, Some(now)) ==
      Timed(Timing(Capped(gaps), Capped(act), Capped(idle), start, end, Some(end)), now)
  {
    CappedAppend(gaps, g);
    CappedAppend(act, Micros(end - start));
    CappedAppend(idle, g);
  }

  lemma TimingOfNewRun(gaps: seq<int>, rs: seq<Run>, r: Run, qs: seq<Run>)
    requires rs != [] && qs == rs + [r] && r.end == r.start && Micros(r.start - LastRun(rs).end) > IDLE_US
    ensures TimingFrom(gaps + [Micros(r.start - LastRun(rs).end)], qs, r.start) ==
      Timed(TimingFrom(gaps, rs, LastRun(rs).end), r.start)
  {
    var q := LastRun(rs);
    assert FrontRuns(qs) == rs;
    TimedNewRun(gaps, ActiveTimes(FrontRuns(rs)), IdleTimes(rs), q.start, q.end, Micros(r.start - q.end), r.start,
      ActiveTimes(FrontRuns(qs)), IdleTimes(qs));
  }

  lemma TimingOfExtendedRun(gaps: seq<int>, rs: seq<Run>, p: Sample, qs: seq<Run>)
    requires rs != [] && qs == FrontRuns(rs) + [Extended(LastRun(rs), p)] && Micros(p.at - LastRun(rs).end) <= IDLE_US
    ensures TimingFrom(gaps + [Micros(p.at - LastRun(rs).end)], qs, p.at) == Timed(TimingFrom(gaps, rs, LastRun(rs).end), p.at)
  {
    assert FrontRuns(qs) == FrontRuns(rs);
    CappedAppend(gaps, Micros(p.at - LastRun(rs).end));
  }

  lemma RunsTimingStep(gaps: seq<int>, rs: seq<Run>, p: Sample, n: nat, gaps': seq<int>, qs: seq<Run>)
    requires rs != [] && gaps' == gaps + [Micros(p.at - LastRun(rs).end)]
    requires qs == if Micros(p.at - LastRun(rs).end) > IDLE_US
      then rs + [Run(n, n + 1, p.size, p.at, p.at)] else FrontRuns(rs) + [Extended(LastRun(rs), p)]
    ensures TimingFrom(gaps', qs, p.at) == Timed(TimingFrom(gaps, rs, LastRun(rs).end), p.at)
  {
    if Micros(p.at - LastRun(rs).end) > IDLE_US {
      TimingOfNewRun(gaps, rs, Run(n, n + 1, p.size, p.at, p.at), qs);
    } else {
      TimingOfExtendedRun(gaps, rs, p, qs);
    }
  }

  lemma TimingStep(d: seq<Sample>, p: Sample, e: seq<Sample>)
    requires e == d + [p]
    ensures TimingOf(e) == Timed(TimingOf(d), p.at)
  {
    if d != [] {
      SplitStep(d, p, e);
      LastRunIsOpen(d);
      RunsTimingStep(Gaps(d), Split(d), p, |d|, Gaps(e), Split(e));
    }
  }

  // ---- Reassembly ----

  /** What the reassembler of one direction is told about a packet met in connection state `s`. */
  function PacketOps(s: ConnState, p: Packet, client: Endpoint, forward: bool): seq<Op> {
    if FromClient(p, client) == forward then OwnOps(p, Starts(s, p, client)) else []
  }

  /** ... when the packet belongs to this direction. */
  function OwnOps(p: Packet, starts: bool): seq<Op> {
    (if starts then [SetStart(Wrap(p.seqNo + 1))] else []) + (if p.payload != [] then [Segment(p.seqNo, p.payload)] else [])
  }

  /** The packet opens the stream of its direction: a SYN, or the SYN-ACK of a server awaited. */
  predicate Starts(s: ConnState, p: Packet, client: Endpoint) {
    (p.syn && !p.ack) || (p.ack && s == StateNew && !FromClient(p, client) && p.syn)
  }

  function OpsOf(h: seq<Packet>, client: Endpoint, forward: bool): seq<Op> {
    if h == [] then [] else
      var n := |h| - 1;
      OpsOf(h[..n], client, forward) + PacketOps(StateAfter(h[..n]), h[n], client, forward)
  }

  // ---- The whole flow ----

  datatype FlowFigures = FlowFigures(state: ConnState, packets: nat, bytes: nat, timing: Timing)

  ghost function FlowFiguresOf(h: seq<Packet>): FlowFigures {
    FlowFigures(StateAfter(h), |h|, SizeOf(Samples(h), 0, |h|), TimingOf(Samples(h)))
  }

  function Advance(f: FlowFigures, p: Packet): FlowFigures {
    FlowFigures(NextState(f.state, p), f.packets + 1, f.bytes + |p.payload|, Timed(f.timing, p.now))
  }

  /** The figures kept packet by packet. */
  function FlowAfter(h: seq<Packet>): FlowFigures {
    if h == [] then FlowFigures(StateNew, 0, 0, NO_TIMING) else Advance(FlowAfter(h[..|h| - 1]), h[|h| - 1])
  }

  lemma {:induction false} StateOfFlow(h: seq<Packet>)
    ensures FlowAfter(h).state == StateAfter(h)
  {
    if h != [] {
      StateOfFlow(h[..|h| - 1]);
    }
  }

  lemma {:induction false} TotalsAreOffline(h: seq<Packet>)
    ensures FlowAfter(h).packets == |h| && FlowAfter(h).bytes == SizeOf(Samples(h), 0, |h|)
  {
    if h != [] {
      var d, p := h[..|h| - 1], h[|h| - 1];
      TotalsAreOffline(d);
      assert Samples(h) == Samples(d) + [SampleOf(p)];
      SizeOfPrefix(Samples(d), SampleOf(p), 0, |d|);
    }
  }

  lemma FlowStep(d: seq<Packet>, p: Packet, h: seq<Packet>)
    requires h == d + [p]
    ensures FlowAfter(h).timing == Timed(FlowAfter(d).timing, p.now) && Samples(h) == Samples(d) + [SampleOf(p)]
  {
    assert h[..|h| - 1] == d;
  }

  lemma TimingJoins(t: Timing, t': Timing, d: seq<Sample>, p: Sample, e: seq<Sample>)
    requires t == TimingOf(d) && t' == Timed(t, p.at) && e == d + [p]
    ensures t' == TimingOf(e)
  {
    TimingStep(d, p, e);
  }

  lemma TimingNext(d: seq<Packet>, p: Packet, h: seq<Packet>)
    requires h == d + [p] && FlowAfter(d).timing == TimingOf(Samples(d))
    ensures FlowAfter(h).timing == TimingOf(Samples(h))
  {
    FlowStep(d, p, h);
    TimingJoins(FlowAfter(d).timing, FlowAfter(h).timing, Samples(d), SampleOf(p), Samples(h));
  }

  lemma {:induction false} TimingIsOffline(h: seq<Packet>)
    ensures FlowAfter(h).timing == TimingOf(Samples(h))
  {
    if h == [] {
    } else {
      var d, p := h[..|h| - 1], h[|h| - 1];
      assert h == d + [p];
      TimingIsOffline(d);
      TimingNext(d, p, h);
    }
  }

  /** They are the offline definitions, on every history. */
  lemma FlowIsOffline(h: seq<Packet>)
    ensures FlowAfter(h) == FlowFiguresOf(h)
  {
    StateOfFlow(h);
    TotalsAreOffline(h);
    TimingIsOffline(h);
  }

  /** A packet changes the history of its own direction only. */
  lemma SideStep(h: seq<Packet>, p: Packet, e: seq<Packet>, client: Endpoint, forward: bool)
    requires e == h + [p]
    ensures FromClient(p, client) == forward ==>
      SideSamples(e, client, forward) == SideSamples(h, client, forward) + [SampleOf(p)]
    ensures FromClient(p, client) == forward ==>
      OpsOf(e, client, forward) == OpsOf(h, client, forward) + OwnOps(p, Starts(StateAfter(h), p, client))
    ensures FromClient(p, client) != forward ==>
      SideSamples(e, client, forward) == SideSamples(h, client, forward) && OpsOf(e, client, forward) == OpsOf(h, client, forward)
  {
    assert e[..|e| - 1] == h;
  }

  // ---- What is conserved ----

  lemma {:induction false} PeriodCounts(rs: seq<Run>)
    ensures |ActiveTimes(rs)| == |rs| && |IdleTimes(rs)| == if rs == [] then 0 else |rs| - 1
  {
    if rs != [] {
      PeriodCounts(FrontRuns(rs));
    }
  }

  lemma {:induction false} GapCount(d: seq<Sample>)
    ensures |Gaps(d)| == if d == [] then 0 else |d| - 1
  {
    if |d| > 1 {
      GapCount(Front(d));
    }
  }

  lemma TimingOfRuns(d: seq<Sample>, rs: seq<Run>)
    requires d != [] && IsSplit(d, rs)
    ensures rs != [] && TimingOf(d) == TimingFrom(Gaps(d), rs, Last(d).at)
  {
    SplitIsSplit(d);
    SplitIsUnique(d, rs, Split(d));
  }

  lemma Uncapped<T>(xs: seq<T>)
    requires |xs| <= LIST_CAP
    ensures Capped(xs) == xs
  {
  }

  lemma ActiveUnderCap(rs: seq<Run>)
    requires rs != [] && |rs| <= 1001
    ensures Capped(ActiveTimes(FrontRuns(rs))) == ActiveTimes(FrontRuns(rs)) && Capped(IdleTimes(rs)) == IdleTimes(rs)
  {
    PeriodCounts(FrontRuns(rs));
    PeriodCounts(rs);
    Uncapped(ActiveTimes(FrontRuns(rs)));
    Uncapped(IdleTimes(rs));
  }

  lemma PeriodsUnderCap(rs: seq<Run>, active: seq<int>, idle: seq<int>)
    requires rs != [] && |rs| <= 1001 && active == Capped(ActiveTimes(FrontRuns(rs))) && idle == Capped(IdleTimes(rs))
    ensures active == ActiveTimes(FrontRuns(rs)) && idle == IdleTimes(rs)
  {
    ActiveUnderCap(rs);
  }

  lemma LastPeriod(rs: seq<Run>, active: seq<int>, open: int)
    requires rs != [] && active == ActiveTimes(FrontRuns(rs)) && open == Micros(LastRun(rs).end - LastRun(rs).start)
    ensures active + [open] == ActiveTimes(rs)
  {
  }

  lemma FieldsOfRuns(d: seq<Sample>, rs: seq<Run>, t: Timing)
    requires d != [] && IsSplit(d, rs) && t == TimingOf(d)
    ensures rs != [] && t.active == Capped(ActiveTimes(FrontRuns(rs))) && t.idle == Capped(IdleTimes(rs))
    ensures t.start == LastRun(rs).start && t.end == LastRun(rs).end
  {
    TimingOfRuns(d, rs);
  }

  lemma PeriodsFromFields(rs: seq<Run>, t: Timing, open: int)
    requires rs != [] && |rs| <= 1001 && open == Micros(t.end - t.start)
    requires t.active == Capped(ActiveTimes(FrontRuns(rs))) && t.idle == Capped(IdleTimes(rs))
    requires t.start == LastRun(rs).start && t.end == LastRun(rs).end
    ensures t.active + [open] == ActiveTimes(rs) && t.idle == IdleTimes(rs)
  {
    PeriodsUnderCap(rs, t.active, t.idle);
    LastPeriod(rs, t.active, open);
  }

  /** While the lists are under their caps, the periods on record and the open one are those of the runs. */
  lemma PeriodsOfTiming(d: seq<Sample>, rs: seq<Run>, t: Timing, open: int)
    requires d != [] && IsSplit(d, rs) && |rs| <= 1001 && t == TimingOf(d) && open == Micros(t.end - t.start)
    ensures t.active + [open] == ActiveTimes(rs) && t.idle == IdleTimes(rs)
  {
    FieldsOfRuns(d, rs, t);
    PeriodsFromFields(rs, t, open);
  }

  /** The lists are the lengths of the maximal runs and of the gaps between them, under the caps. */
  ghost predicate ArePeriods(h: seq<Packet>, active: seq<int>, idle: seq<int>) {
    forall rs :: IsSplit(Samples(h), rs) && |rs| <= 1001 ==> active == ActiveTimes(rs) && idle == IdleTimes(rs)
  }

  /** The features' lists: the periods on record and the open one, as if it closed now. */
  lemma PeriodsExtracted(h: seq<Packet>, t: Timing, active: seq<int>)
    requires t == TimingOf(Samples(h)) && active == t.active + if t.last.Some? then [Micros(t.end - t.start)] else []
    ensures ArePeriods(h, active, t.idle)
  {
    forall rs | IsSplit(Samples(h), rs) && |rs| <= 1001 ensures active == ActiveTimes(rs) && t.idle == IdleTimes(rs) {
      if Samples(h) != [] {
        PeriodsOfTiming(Samples(h), rs, t, Micros(t.end - t.start));
      }
    }
  }

  lemma GapsUnderCap(d: seq<Sample>, t: Timing)
    requires d != [] && |d| <= 1001 && t == TimingOf(d)
    ensures t.iats == Gaps(d)
  {
    GapCount(d);
  }

  /** The sizes of a direction, summed. */
  ghost function SideBytes(h: seq<Packet>, client: Endpoint, forward: bool): nat {
    SizeOf(SideSamples(h, client, forward), 0, |SideSamples(h, client, forward)|)
  }

  lemma SizeOfOneMore(d: seq<Sample>, p: Sample, e: seq<Sample>)
    requires e == d + [p]
    ensures SizeOf(e, 0, |e|) == SizeOf(d, 0, |d|) + p.size
  {
    SizeOfPrefix(d, p, 0, |d|);
  }

  /** Every packet and every byte counts in exactly one direction. */
  lemma {:induction false} SidesPartition(h: seq<Packet>, client: Endpoint)
    ensures |h| == |SideSamples(h, client, true)| + |SideSamples(h, client, false)|
    ensures SizeOf(Samples(h), 0, |h|) == SideBytes(h, client, true) + SideBytes(h, client, false)
  {
    if h != [] {
      var d, p := h[..|h| - 1], h[|h| - 1];
      assert h == d + [p];
      SidesPartition(d, client);
      FlowStep(d, p, h);
      SizeOfOneMore(Samples(d), SampleOf(p), Samples(h));
      SideStep(d, p, h, client, true);
      SideStep(d, p, h, client, false);
      var own := FromClient(p, client);
      SizeOfOneMore(SideSamples(d, client, own), SampleOf(p), SideSamples(h, client, own));
    }
  }
}
