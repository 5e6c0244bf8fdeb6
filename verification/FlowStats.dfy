/** The statistics one direction of a flow keeps while packets arrive. The object carries its
    history, and `Valid` equates its fields with their offline definitions on that history. */
module FlowStats {
  import opened Common
  import opened FlowSpec

  // ---- The fields as functions of the history ----

  datatype Counters = Counters(packets: nat, bytes: nat, lengths: seq<nat>, iats: seq<int>, last: Option<Time>)

  ghost function Sizes(h: seq<Sample>): seq<nat> {
    seq(|h|, i requires 0 <= i < |h| => h[i].size)
  }

  ghost function CountersOf(h: seq<Sample>): Counters {
    Counters(|h|, SizeOf(h, 0, |h|), Capped(Sizes(h)), Capped(Gaps(h)), if h == [] then None else Some(Last(h).at))
  }

  /** The packets that carry data. */
  ghost function WithData(h: seq<Sample>): seq<Sample> {
    if h == [] then [] else
      if Last(h).size > 0 then WithData(Front(h)) + [Last(h)] else WithData(Front(h))
  }

  /** They are as many as there are, and carry all the bytes. */
  lemma {:induction false} WithDataIsAll(h: seq<Sample>)
    ensures |WithData(h)| == |set i: nat | i < |h| && h[i].size > 0|
    ensures SizeOf(WithData(h), 0, |WithData(h)|) == SizeOf(h, 0, |h|)
  {
    var all := set i: nat | i < |h| && h[i].size > 0;
    if h == [] {
      assert all == {};
    } else {
      var n := |h| - 1;
      var d, p := h[..n], h[n];
      var before := set i: nat | i < |d| && d[i].size > 0;
      WithDataIsAll(d);
      assert h == d + [p];
      SizeOfPrefix(d, p, 0, n);
      SizeOfPrefix(WithData(d), p, 0, |WithData(d)|);
      assert all == before + if p.size > 0 then {n} else {};
    }
  }

  /** The completed bulks, summed up, and the run in progress. */
  datatype BulkTrack = BulkTrack(totals: Bulk, packets: int, bytes: nat, start: Time, end: Time)

  ghost function TrackOf(rs: seq<Run>): BulkTrack {
    if rs == [] then BulkTrack(NO_BULK, 0, 0, 0, 0) else
      var r := LastRun(rs);
      BulkTrack(Totals(FrontRuns(rs)), r.hi - r.lo, r.bytes, r.start, r.end)
  }

  // ---- How they change when packet `p` makes the history `e` ----

  function Counted(c: Counters, p: Sample): Counters {
    Counters(c.packets + 1, c.bytes + p.size,
      AppendCapped(c.lengths, p.size),
      if c.last.Some? then AppendCapped(c.iats, Micros(p.at - c.last.value)) else c.iats,
      Some(p.at))
  }

  lemma CountersStep(h: seq<Sample>, p: Sample, e: seq<Sample>)
    requires e == h + [p]
    ensures CountersOf(e) == Counted(CountersOf(h), p)
  {
    SizeOfPrefix(h, p, 0, |h|);
    assert Sizes(e) == Sizes(h) + [p.size] && Front(e) == h;
    CappedAppend(Sizes(h), p.size);
    if h != [] {
      CappedAppend(Gaps(h), Micros(p.at - Last(h).at));
    }
  }

  /** One data-bearing packet: it extends the run in progress, or closes it and starts another. */
  function Tracked(t: BulkTrack, p: Sample): BulkTrack {
    if t.packets <= 0 then BulkTrack(t.totals, t.packets + 1, t.bytes + p.size, p.at, p.at)
    else if Micros(p.at - t.end) <= IDLE_US then BulkTrack(t.totals, t.packets + 1, t.bytes + p.size, t.start, p.at)
    else BulkTrack(
      if t.packets >= BULK_MIN
      then Bulk(t.totals.bytes + t.bytes, t.totals.packets + t.packets, t.totals.durationUs + Micros(t.end - t.start), t.totals.count + 1)
      else t.totals, 1, p.size, p.at, p.at)
  }

  lemma RunStarts(rs: seq<Run>, p: Sample, n: nat, qs: seq<Run>)
    requires qs == rs + [Run(n, n + 1, p.size, p.at, p.at)]
    requires rs != [] ==> LastRun(rs).lo < LastRun(rs).hi && Micros(p.at - LastRun(rs).end) > IDLE_US
    ensures TrackOf(qs) == Tracked(TrackOf(rs), p)
  {
    assert FrontRuns(qs) == rs;
  }

  lemma TrackStep(d: seq<Sample>, p: Sample, e: seq<Sample>)
    requires e == d + [p]
    ensures TrackOf(Split(e)) == Tracked(TrackOf(Split(d)), p)
  {
    SplitStep(d, p, e);
    if d == [] {
      RunStarts([], p, 0, Split(e));
    } else {
      LastRunIsOpen(d);
      if Idle(Last(d), p) {
        RunStarts(Split(d), p, |d|, Split(e));
      }
    }
  }

  datatype Figures = Figures(counters: Counters, track: BulkTrack)

  ghost function FiguresOf(h: seq<Sample>): Figures {
    Figures(CountersOf(h), TrackOf(Split(WithData(h))))
  }

  function Advanced(f: Figures, p: Sample): Figures {
    Figures(Counted(f.counters, p), if p.size > 0 then Tracked(f.track, p) else f.track)
  }

  /** The figures kept packet by packet. */
  function FiguresAfter(h: seq<Sample>): Figures {
    if h == [] then Figures(Counters(0, 0, [], [], None), BulkTrack(NO_BULK, 0, 0, 0, 0))
    else Advanced(FiguresAfter(Front(h)), Last(h))
  }

  lemma {:induction false} CountersAreOffline(h: seq<Sample>)
    ensures FiguresAfter(h).counters == CountersOf(h)
  {
    if h != [] {
      var d, p := Front(h), Last(h);
      CountersAreOffline(d);
      CountersStep(d, p, h);
    }
  }

  lemma {:induction false} BulksAreOffline(h: seq<Sample>)
    ensures FiguresAfter(h).track == TrackOf(Split(WithData(h)))
  {
    if h != [] {
      var d, p := Front(h), Last(h);
      BulksAreOffline(d);
      if p.size > 0 {
        TrackStep(WithData(d), p, WithData(h));
      }
    }
  }

  /** They are the offline definitions, on every history. */
  lemma FiguresAreOffline(h: seq<Sample>)
    ensures FiguresAfter(h) == FiguresOf(h)
  {
    CountersAreOffline(h);
    BulksAreOffline(h);
  }

  /** The figures of one direction: the `Fwd...` or the `Bwd...` fields of a flow. */
  class DirectionStats {
    var PacketCount: nat
    var ByteCount: nat
    var PacketLengths: seq<nat>
    var IATs: seq<int>
    var LastTime: Option<Time>  // None is the zero time
    var BulkTotals: Bulk        // the completed bulks
    var BulkRunPackets: nat     // the run in progress
    var BulkRunBytes: nat
    var BulkRunStart: Time
    var BulkRunEnd: Time
    ghost var history: seq<Sample>

    ghost function CountersNow(): Counters
      reads this`PacketCount, this`ByteCount, this`PacketLengths, this`IATs, this`LastTime
    {
      Counters(PacketCount, ByteCount, PacketLengths, IATs, LastTime)
    }

    ghost function TrackNow(): BulkTrack
      reads this`BulkTotals, this`BulkRunPackets, this`BulkRunBytes, this`BulkRunStart, this`BulkRunEnd
    {
      BulkTrack(BulkTotals, BulkRunPackets, BulkRunBytes, BulkRunStart, BulkRunEnd)
    }

    ghost function FiguresNow(): Figures
      reads this
    {
      Figures(CountersNow(), TrackNow())
    }

    ghost predicate Valid()
      reads this
    {
      FiguresNow() == FiguresAfter(history)
    }

    constructor ()
      ensures Valid() && history == []
    {
      PacketCount, ByteCount, PacketLengths, IATs, LastTime := 0, 0, [], [], None;
      BulkTotals, BulkRunPackets, BulkRunBytes, BulkRunStart, BulkRunEnd := NO_BULK, 0, 0, 0, 0;
      history := [];
    }

    /** One packet in this direction. */
    method Record(now: Time, pktLen: nat)
      requires Valid()
      modifies this
      ensures Valid() && history == old(history) + [Sample(now, pktLen)]
    {
      ghost var e := history + [Sample(now, pktLen)];
      assert Front(e) == history;
      Update(now, pktLen);
      history := e;
    }

    method Update(now: Time, pktLen: nat)
      modifies this`PacketCount, this`ByteCount, this`PacketLengths, this`IATs, this`LastTime,
        this`BulkTotals, this`BulkRunPackets, this`BulkRunBytes, this`BulkRunStart, this`BulkRunEnd
      ensures FiguresNow() == Advanced(old(FiguresNow()), Sample(now, pktLen))
    {
      Count(now, pktLen);
      if pktLen > 0 {
        TrackBulk(now, pktLen);
      }
    }

    method Count(now: Time, pktLen: nat)
      modifies this`PacketCount, this`ByteCount, this`PacketLengths, this`IATs, this`LastTime
      ensures CountersNow() == Counted(old(CountersNow()), Sample(now, pktLen))
    {
      PacketCount := PacketCount + 1;
      ByteCount := ByteCount + pktLen;
      if |PacketLengths| < 1000 {
        PacketLengths := PacketLengths + [pktLen];
      }
      if LastTime.Some? {
        var iat := Micros(now - LastTime.value);
        if |IATs| < 1000 {
          IATs := IATs + [iat];
        }
      }
      LastTime := Some(now);
    }

    /** A run of four or more data-bearing packets without a gap over one second is a bulk. */
    method TrackBulk(now: Time, pktLen: nat)
      modifies this`BulkTotals, this`BulkRunPackets, this`BulkRunBytes, this`BulkRunStart, this`BulkRunEnd
      ensures TrackNow() == Tracked(old(TrackNow()), Sample(now, pktLen))
    {
      if BulkRunPackets > 0 {
        var gap := Micros(now - BulkRunEnd);
        if gap > IDLE_US {
          if BulkRunPackets >= 4 {
            BulkTotals := Bulk(BulkTotals.bytes + BulkRunBytes, BulkTotals.packets + BulkRunPackets,
              BulkTotals.durationUs + Micros(BulkRunEnd - BulkRunStart), BulkTotals.count + 1);
          }
          BulkRunPackets := 0;
          BulkRunBytes := 0;
          BulkRunStart := now;
        }
      } else {
        BulkRunStart := now;
      }
      BulkRunPackets := BulkRunPackets + 1;
      BulkRunBytes := BulkRunBytes + pktLen;
      BulkRunEnd := now;
    }

    /** The bulk features: the run in progress counts if it already qualifies. They are the totals
        over the maximal runs of data-bearing packets, however those are found. */
    method ExtractBulk() returns (b: Bulk)
      requires Valid()
      ensures forall rs :: IsSplit(WithData(history), rs) ==> b == Totals(rs)
    {
      b := BulkTotals;
      if BulkRunPackets >= 4 {
        b := Bulk(b.bytes + BulkRunBytes, b.packets + BulkRunPackets, b.durationUs + Micros(BulkRunEnd - BulkRunStart), b.count + 1);
      }
      BulksAreOffline(history);
      SplitIsSplit(WithData(history));
      forall rs | IsSplit(WithData(history), rs) ensures rs == Split(WithData(history)) {
        SplitIsUnique(WithData(history), rs, Split(WithData(history)));
      }
    }
  }
}
