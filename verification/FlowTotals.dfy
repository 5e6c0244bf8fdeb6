/** What the figures of a tracked flow add up to. */
module FlowTotals {
  import opened FlowSpec
  import opened FlowStats
  import opened FlowHistory
  import F = Flow

  /** Packets and bytes split exactly into forward and backward. */
  lemma TotalsSplit(f: F.Flow)
    requires f.Valid()
    ensures f.PacketCount == f.Fwd.PacketCount + f.Bwd.PacketCount
    ensures f.ByteCount == f.Fwd.ByteCount + f.Bwd.ByteCount
  {
    assert f.ShowsSide(true, f.history) && f.ShowsSide(false, f.history);
    TotalsAreOffline(f.history);
    SidesPartition(f.history, f.client);
    CountersAreOffline(f.Fwd.history);
    CountersAreOffline(f.Bwd.history);
  }

  lemma FlowTiming(f: F.Flow)
    requires f.Valid()
    ensures f.TimingNow() == TimingOf(Samples(f.history))
  {
    TimingIsOffline(f.history);
  }

  lemma ArrivalsSpan(d: seq<Sample>, t: Timing)
    requires d != [] && |d| <= 1001 && Nondecreasing(d) && t == TimingOf(d)
    ensures var span := Micros(Last(d).at - d[0].at);
      Sum(t.iats) <= span <= Sum(t.iats) + |d| - 1 && (OnTheMicrosecond(d) ==> Sum(t.iats) == span)
  {
    GapsUnderCap(d, t);
    GapsSumToSpan(d);
  }

  /** From the first packet to the last. */
  function Span(h: seq<Packet>): int
    requires h != []
  {
    Micros(h[|h| - 1].now - h[0].now)
  }

  lemma SpanOfSamples(h: seq<Packet>)
    requires h != []
    ensures Samples(h) != [] && |Samples(h)| == |h| && Span(h) == Micros(Last(Samples(h)).at - Samples(h)[0].at)
  {
    SameMicros(Samples(h)[0].at, Last(Samples(h)).at, h[0].now, h[|h| - 1].now);
  }

  lemma ArrivalsSpanHistory(h: seq<Packet>, t: Timing)
    requires h != [] && |h| <= 1001 && Nondecreasing(Samples(h)) && t == TimingOf(Samples(h))
    ensures Sum(t.iats) <= Span(h) <= Sum(t.iats) + |h| - 1 && (OnTheMicrosecond(Samples(h)) ==> Sum(t.iats) == Span(h))
  {
    SpanOfSamples(h);
    ArrivalsSpan(Samples(h), t);
  }

  /** With a steady clock and the list under its cap, the inter-arrival times add up to the time from
      the first packet to the last, but for the truncation to microseconds. */
  lemma ArrivalsSpanFlow(f: F.Flow)
    requires f.Valid() && f.history != [] && |f.history| <= 1001 && Nondecreasing(Samples(f.history))
    ensures Sum(f.AllIATs) <= Span(f.history) <= Sum(f.AllIATs) + |f.history| - 1
    ensures OnTheMicrosecond(Samples(f.history)) ==> Sum(f.AllIATs) == Span(f.history)
  {
    FlowTiming(f);
    ArrivalsSpanHistory(f.history, f.TimingNow());
  }

  lemma RunsSpan(d: seq<Sample>, rs: seq<Run>)
    requires d != [] && Nondecreasing(d) && IsSplit(d, rs)
    ensures var total, span := Sum(ActiveTimes(rs)) + Sum(IdleTimes(rs)), Micros(Last(d).at - d[0].at);
      total <= span <= total + 2 * |rs| - 2 && (OnTheMicrosecond(d) ==> total == span)
  {
    SplitSpansHistory(d, rs);
    PeriodsSumToSpan(rs);
    if OnTheMicrosecond(d) {
      SplitIsWhole(d, rs);
    }
  }

  lemma PeriodsSpan(d: seq<Sample>, rs: seq<Run>, t: Timing)
    requires d != [] && Nondecreasing(d) && IsSplit(d, rs) && |rs| <= 1001 && t == TimingOf(d)
    ensures var total, span := Sum(t.active) + Micros(t.end - t.start) + Sum(t.idle), Micros(Last(d).at - d[0].at);
      total <= span <= total + 2 * |rs| - 2 && (OnTheMicrosecond(d) ==> total == span)
  {
    PeriodsOfTiming(d, rs, t, Micros(t.end - t.start));
    SumAppend(t.active, Micros(t.end - t.start));
    RunsSpan(d, rs);
  }

  lemma PeriodsSpanHistory(h: seq<Packet>, rs: seq<Run>, t: Timing, total: int)
    requires h != [] && Nondecreasing(Samples(h)) && IsSplit(Samples(h), rs) && |rs| <= 1001
    requires t == TimingOf(Samples(h)) && total == Sum(t.active) + Micros(t.end - t.start) + Sum(t.idle)
    ensures total <= Span(h) <= total + 2 * |rs| - 2 && (OnTheMicrosecond(Samples(h)) ==> total == Span(h))
  {
    SpanOfSamples(h);
    PeriodsSpan(Samples(h), rs, t);
  }

  /** So do the completed active periods, the open one and the idle periods. */
  lemma PeriodsSpanFlow(f: F.Flow, rs: seq<Run>)
    requires f.Valid() && f.history != [] && Nondecreasing(Samples(f.history))
    requires IsSplit(Samples(f.history), rs) && |rs| <= 1001
    ensures var total := Sum(f.ActivePeriods) + Micros(f.ActiveEnd - f.ActiveStart) + Sum(f.IdlePeriods);
      && total <= Span(f.history) <= total + 2 * |rs| - 2
      && (OnTheMicrosecond(Samples(f.history)) ==> total == Span(f.history))
  {
    var t := f.TimingNow();
    FlowTiming(f);
    PeriodsSpanHistory(f.history, rs, t, Sum(t.active) + Micros(t.end - t.start) + Sum(t.idle));
    SameMicros(t.start, t.end, f.ActiveStart, f.ActiveEnd);
  }
}
