/** Offline definitions of the flow statistics: runs of packets split at long gaps, their bulk
    totals, and the times between them. Times are nanoseconds; the tracker's own figures are
    whole microseconds, rounded toward zero. */
module FlowSpec {
  const IDLE_US := 1_000_000  // one second
  const BULK_MIN := 4
  const LIST_CAP := 1000

  type Time = int

  /** A packet as the statistics see it. */
  datatype Sample = Sample(at: Time, size: nat)

  /** The whole microseconds in `ns` nanoseconds. */
  function WholeMicros(ns: nat): nat {
    assert 1000 * (ns / 1000) <= ns < 1000 * (ns / 1000) + 1000;
    var us: nat :| 1000 * us <= ns < 1000 * us + 1000;
    us
  }

  /** A duration in microseconds, truncated toward zero. */
  function Micros(ns: int): int {
    if ns >= 0 then WholeMicros(ns) else
      var us: int := WholeMicros(-ns);
      -us
  }

  lemma SameMicros(a: Time, b: Time, c: Time, d: Time)
    requires a == c && b == d
    ensures Micros(b - a) == Micros(d - c)
  {
  }

  /** The gap is long enough to end a run. */
  predicate Idle(a: Sample, b: Sample) {
    Micros(b.at - a.at) > 1_000_000
  }

  function Last(d: seq<Sample>): Sample
    requires d != []
  {
    d[|d| - 1]
  }

  function Front(d: seq<Sample>): seq<Sample>
    requires d != []
  {
    d[..|d| - 1]
  }

  function Capped<T>(xs: seq<T>): seq<T> {
    if |xs| <= 1000 then xs else xs[..1000]
  }

  function AppendCapped<T>(xs: seq<T>, x: T): seq<T> {
    if |xs| < LIST_CAP then xs + [x] else xs
  }

  lemma CappedAppend<T>(xs: seq<T>, x: T)
    ensures Capped(xs + [x]) == AppendCapped(Capped(xs), x)
  {
  }

  // ---- Runs ----

  /** The packets `lo..hi` of a history, with their total size and the times of the first and the last. */
  datatype Run = Run(lo: nat, hi: nat, bytes: nat, start: Time, end: Time)

  /** The run with one more packet at its end. */
  function Extended(r: Run, p: Sample): Run {
    Run(r.lo, r.hi + 1, r.bytes + p.size, r.start, p.at)
  }

  function LastRun(rs: seq<Run>): Run
    requires rs != []
  {
    rs[|rs| - 1]
  }

  function FrontRuns(rs: seq<Run>): seq<Run>
    requires rs != []
  {
    rs[..|rs| - 1]
  }

  function SizeOf(d: seq<Sample>, lo: nat, hi: nat): nat
    requires lo <= hi <= |d|
  {
    if lo == hi then 0 else SizeOf(d, lo, hi - 1) + d[hi - 1].size
  }

  /** A stretch without long gaps, between long gaps or the ends of the history. */
  ghost predicate IsMaximalRun(d: seq<Sample>, r: Run) {
    && r.lo < r.hi <= |d|
    && r.bytes == SizeOf(d, r.lo, r.hi) && r.start == d[r.lo].at && r.end == d[r.hi - 1].at
    && (forall i, j :: r.lo <= i && j == i + 1 && j < r.hi ==> !Idle(d[i], d[j]))
    && (r.lo > 0 ==> Idle(d[r.lo - 1], d[r.lo]))
    && (r.hi < |d| ==> Idle(d[r.hi - 1], d[r.hi]))
  }

  /** `rs` cuts the history into its maximal runs, in order. */
  ghost predicate IsSplit(d: seq<Sample>, rs: seq<Run>) {
    && (rs == [] <==> d == [])
    && (rs != [] ==> rs[0].lo == 0 && LastRun(rs).hi == |d|)
    && (forall k :: 0 <= k < |rs| ==> IsMaximalRun(d, rs[k]))
    && (forall k, m :: 0 <= k && m == k + 1 && m < |rs| ==> rs[k].hi == rs[m].lo)
  }

  /** There is only one way to cut. */
  lemma SplitIsUnique(d: seq<Sample>, rs: seq<Run>, qs: seq<Run>)
    requires IsSplit(d, rs) && IsSplit(d, qs)
    ensures rs == qs
  {
    if d != [] {
      SameRuns(d, rs, qs, |rs| - 1);
      SameRuns(d, qs, rs, |qs| - 1);
    }
  }

  lemma {:induction false} SameRuns(d: seq<Sample>, rs: seq<Run>, qs: seq<Run>, k: nat)
    requires IsSplit(d, rs) && IsSplit(d, qs) && k < |rs|
    ensures k < |qs| && forall i :: 0 <= i <= k ==> rs[i] == qs[i]
  {
    if k > 0 {
      SameRuns(d, rs, qs, k - 1);
      assert rs[k - 1].hi == rs[k].lo;
    }
    SameEnd(d, rs[k], qs[k]);
  }

  lemma SameEnd(d: seq<Sample>, r: Run, q: Run)
    requires IsMaximalRun(d, r) && IsMaximalRun(d, q) && r.lo == q.lo
    ensures r == q
  {
    EndsNoLater(d, r, q);
    EndsNoLater(d, q, r);
  }

  lemma EndsNoLater(d: seq<Sample>, r: Run, q: Run)
    requires IsMaximalRun(d, r) && IsMaximalRun(d, q) && r.lo == q.lo
    ensures q.hi <= r.hi
  {
    if r.hi < |d| {
      var i, j := r.hi - 1, r.hi;
      assert Idle(d[i], d[j]);
    }
  }

  /** The runs of a history, built up packet by packet. */
  function Split(d: seq<Sample>): (rs: seq<Run>)
    ensures rs == [] <==> d == []
  {
    if d == [] then [] else
      var before, n, p := Split(Front(d)), |d|, Last(d);
      if n == 1 || Idle(Last(Front(d)), p) then before + [Run(n - 1, n, p.size, p.at, p.at)]
      else FrontRuns(before) + [Extended(LastRun(before), p)]
  }

  lemma {:induction false} SizeOfPrefix(d: seq<Sample>, p: Sample, lo: nat, hi: nat)
    requires lo <= hi <= |d|
    ensures SizeOf(d + [p], lo, hi) == SizeOf(d, lo, hi)
  {
    if lo < hi {
      SizeOfPrefix(d, p, lo, hi - 1);
    }
  }

  /** The online construction yields the maximal runs. */
  lemma {:induction false} SplitIsSplit(d: seq<Sample>)
    ensures IsSplit(d, Split(d))
  {
    if d != [] {
      SplitIsSplit(Front(d));
      assert d == Front(d) + [Last(d)];
      if |d| == 1 || Idle(Last(Front(d)), Last(d)) {
        SplitStarts(Front(d), Split(Front(d)), Last(d), d, Split(d));
      } else {
        SplitGrows(Front(d), Split(Front(d)), Last(d), d, Split(d));
      }
    }
  }

  lemma ClosedRunStays(d: seq<Sample>, p: Sample, r: Run)
    requires IsMaximalRun(d, r) && (r.hi == |d| ==> Idle(Last(d), p))
    ensures IsMaximalRun(d + [p], r)
  {
    SizeOfPrefix(d, p, r.lo, r.hi);
  }

  lemma OpenRunGrows(d: seq<Sample>, p: Sample, r: Run)
    requires IsMaximalRun(d, r) && r.hi == |d| && !Idle(Last(d), p)
    ensures IsMaximalRun(d + [p], Extended(r, p))
  {
    SizeOfPrefix(d, p, r.lo, r.hi);
  }

  lemma NewRun(d: seq<Sample>, p: Sample)
    requires d != [] ==> Idle(Last(d), p)
    ensures IsMaximalRun(d + [p], Run(|d|, |d| + 1, p.size, p.at, p.at))
  {
    assert SizeOf(d + [p], |d|, |d|) == 0;
  }

  lemma SplitStarts(d: seq<Sample>, rs: seq<Run>, p: Sample, e: seq<Sample>, qs: seq<Run>)
    requires IsSplit(d, rs) && (d != [] ==> Idle(Last(d), p))
    requires e == d + [p] && qs == rs + [Run(|d|, |d| + 1, p.size, p.at, p.at)]
    ensures IsSplit(e, qs)
  {
    NewRun(d, p);
    forall k | 0 <= k < |rs| ensures IsMaximalRun(e, qs[k]) {
      ClosedRunStays(d, p, rs[k]);
    }
  }

  lemma SplitGrows(d: seq<Sample>, rs: seq<Run>, p: Sample, e: seq<Sample>, qs: seq<Run>)
    requires IsSplit(d, rs) && d != [] && !Idle(Last(d), p)
    requires e == d + [p] && qs == FrontRuns(rs) + [Extended(LastRun(rs), p)]
    ensures IsSplit(e, qs)
  {
    OpenRunGrows(d, p, LastRun(rs));
    forall k | 0 <= k < |rs| - 1 ensures IsMaximalRun(e, qs[k]) {
      assert rs[k].hi == rs[k + 1].lo;
      ClosedRunStays(d, p, rs[k]);
    }
  }

  lemma SplitStep(d: seq<Sample>, p: Sample, e: seq<Sample>)
    requires e == d + [p]
    ensures d == [] ==> Split(e) == [Run(0, 1, p.size, p.at, p.at)]
    ensures d != [] && Idle(Last(d), p) ==> Split(e) == Split(d) + [Run(|d|, |d| + 1, p.size, p.at, p.at)]
    ensures d != [] && !Idle(Last(d), p) ==> Split(e) == FrontRuns(Split(d)) + [Extended(LastRun(Split(d)), p)]
  {
    assert Front(e) == d;
  }

  lemma LastRunIsOpen(d: seq<Sample>)
    requires d != []
    ensures LastRun(Split(d)).end == Last(d).at && LastRun(Split(d)).lo < LastRun(Split(d)).hi == |d|
  {
    SplitIsSplit(d);
  }

  // ---- Bulk totals ----

  datatype Bulk = Bulk(bytes: nat, packets: nat, durationUs: int, count: nat)

  const NO_BULK := Bulk(0, 0, 0, 0)

  /** A run of at least four packets is a bulk. */
  function AddRun(b: Bulk, r: Run): Bulk {
    if r.hi - r.lo >= 4
    then Bulk(b.bytes + r.bytes, b.packets + (r.hi - r.lo), b.durationUs + Micros(r.end - r.start), b.count + 1)
    else b
  }

  function Totals(rs: seq<Run>): Bulk {
    if rs == [] then NO_BULK else AddRun(Totals(FrontRuns(rs)), LastRun(rs))
  }

  // ---- Times ----

  /** Inter-arrival times. */
  function Gaps(d: seq<Sample>): seq<int> {
    if |d| <= 1 then [] else Gaps(Front(d)) + [Micros(Last(d).at - Last(Front(d)).at)]
  }

  /** Lengths of the runs. */
  function ActiveTimes(rs: seq<Run>): seq<int> {
    if rs == [] then [] else ActiveTimes(FrontRuns(rs)) + [Micros(LastRun(rs).end - LastRun(rs).start)]
  }

  /** The gaps between them. */
  function IdleTimes(rs: seq<Run>): seq<int> {
    if |rs| <= 1 then [] else IdleTimes(FrontRuns(rs)) + [Micros(LastRun(rs).start - LastRun(FrontRuns(rs)).end)]
  }

  function Sum(xs: seq<int>): int {
    if xs == [] then 0 else Sum(xs[..|xs| - 1]) + xs[|xs| - 1]
  }

  lemma SumAppend(xs: seq<int>, x: int)
    ensures Sum(xs + [x]) == Sum(xs) + x
  {
    assert (xs + [x])[..|xs|] == xs;
  }

  ghost predicate Nondecreasing(d: seq<Sample>) {
    forall i, j :: 0 <= i < j < |d| ==> d[i].at <= d[j].at
  }

  ghost predicate OnTheMicrosecond(d: seq<Sample>) {
    forall i :: 0 <= i < |d| ==> d[i].at % 1000 == 0
  }

  /** Truncation loses less than a microsecond per term, and nothing on whole microseconds. */
  lemma MicrosOfSum(a: int, b: int)
    requires a >= 0 && b >= 0
    ensures Micros(a) + Micros(b) <= Micros(a + b) <= Micros(a) + Micros(b) + 1
    ensures a % 1000 == 0 ==> Micros(a + b) == Micros(a) + Micros(b)
  {
  }

  lemma ThreePieces(x: int, y: int, z: int)
    requires x >= 0 && y >= 0 && z >= 0
    ensures Micros(x) + Micros(y) + Micros(z) <= Micros(x + y + z) <= Micros(x) + Micros(y) + Micros(z) + 2
    ensures x % 1000 == 0 && y % 1000 == 0 ==> Micros(x + y + z) == Micros(x) + Micros(y) + Micros(z)
  {
    MicrosOfSum(y, z);
    MicrosOfSum(x, y + z);
  }

  lemma WholeDifference(a: int, b: int)
    requires a % 1000 == 0 && b % 1000 == 0
    ensures (b - a) % 1000 == 0
  {
  }

  lemma WholePieces(a: int, b: int, c: int, d: int)
    requires a <= b <= c <= d && a % 1000 == 0 && b % 1000 == 0 && c % 1000 == 0
    ensures Micros(d - a) == Micros(b - a) + Micros(c - b) + Micros(d - c)
  {
    WholeDifference(a, b);
    WholeDifference(b, c);
    ThreePieces(b - a, c - b, d - c);
  }

  /** The inter-arrival times add up to the time from the first packet to the last: exactly, if
      the clock ticks whole microseconds, and otherwise but for less than one microsecond per packet. */
  lemma {:induction false} GapsSumToSpan(d: seq<Sample>)
    requires d != [] && Nondecreasing(d)
    ensures Sum(Gaps(d)) <= Micros(Last(d).at - d[0].at) <= Sum(Gaps(d)) + |d| - 1
    ensures OnTheMicrosecond(d) ==> Sum(Gaps(d)) == Micros(Last(d).at - d[0].at)
  {
    if |d| > 1 {
      var a, b := Last(Front(d)).at, Last(d).at;
      GapsSumToSpan(Front(d));
      SumAppend(Gaps(Front(d)), Micros(b - a));
      MicrosOfSum(a - d[0].at, b - a);
      if OnTheMicrosecond(d) {
        WholeDifference(d[0].at, a);
      }
    }
  }

  /** Runs in the order of time. */
  ghost predicate InOrder(rs: seq<Run>) {
    && (forall k :: 0 <= k < |rs| ==> rs[k].start <= rs[k].end)
    && (forall k, m :: 0 <= k && m == k + 1 && m < |rs| ==> rs[k].end <= rs[m].start)
  }

  ghost predicate WholeRuns(rs: seq<Run>) {
    forall k :: 0 <= k < |rs| ==> rs[k].start % 1000 == 0 && rs[k].end % 1000 == 0
  }

  function Periods(rs: seq<Run>): int {
    Sum(ActiveTimes(rs)) + Sum(IdleTimes(rs))
  }

  lemma PeriodsAppend(rs: seq<Run>)
    requires |rs| > 1
    ensures var r, q := LastRun(rs), LastRun(FrontRuns(rs)); Periods(rs) == Periods(FrontRuns(rs)) + Micros(r.end - r.start) + Micros(r.start - q.end)
  {
    SumAppend(ActiveTimes(FrontRuns(rs)), Micros(LastRun(rs).end - LastRun(rs).start));
    SumAppend(IdleTimes(FrontRuns(rs)), Micros(LastRun(rs).start - LastRun(FrontRuns(rs)).end));
  }

  lemma OnePeriod(rs: seq<Run>)
    requires |rs| == 1
    ensures Periods(rs) == Micros(LastRun(rs).end - rs[0].start)
  {
    SumAppend([], Micros(rs[0].end - rs[0].start));
    assert ActiveTimes(rs) == [] + [Micros(rs[0].end - rs[0].start)];
  }

  lemma {:induction false} PeriodsWithinSpan(rs: seq<Run>)
    requires rs != [] && InOrder(rs)
    ensures rs[0].start <= LastRun(rs).end
    ensures Periods(rs) <= Micros(LastRun(rs).end - rs[0].start) <= Periods(rs) + 2 * |rs| - 2
  {
    if |rs| == 1 {
      OnePeriod(rs);
    } else {
      var r, q := LastRun(rs), LastRun(FrontRuns(rs));
      PeriodsWithinSpan(FrontRuns(rs));
      PeriodsAppend(rs);
      assert q.end <= r.start;
      ThreePieces(q.end - rs[0].start, r.start - q.end, r.end - r.start);
    }
  }

  lemma {:induction false} WholePeriodsMakeSpan(rs: seq<Run>)
    requires rs != [] && InOrder(rs) && WholeRuns(rs)
    ensures Periods(rs) == Micros(LastRun(rs).end - rs[0].start)
  {
    if |rs| == 1 {
      OnePeriod(rs);
    } else {
      var r, q := LastRun(rs), LastRun(FrontRuns(rs));
      PeriodsWithinSpan(FrontRuns(rs));
      WholePeriodsMakeSpan(FrontRuns(rs));
      PeriodsAppend(rs);
      assert q.end <= r.start;
      WholePieces(rs[0].start, q.end, r.start, r.end);
    }
  }

  /** So do the active and the idle periods: `n` runs make `2n - 1` periods. */
  lemma PeriodsSumToSpan(rs: seq<Run>)
    requires rs != [] && InOrder(rs)
    ensures rs[0].start <= LastRun(rs).end
    ensures Periods(rs) <= Micros(LastRun(rs).end - rs[0].start) <= Periods(rs) + 2 * |rs| - 2
    ensures WholeRuns(rs) ==> Periods(rs) == Micros(LastRun(rs).end - rs[0].start)
  {
    PeriodsWithinSpan(rs);
    if WholeRuns(rs) {
      WholePeriodsMakeSpan(rs);
    }
  }

  /** On the runs of a history with a steady clock the span is that of the history. */
  lemma SplitSpansHistory(d: seq<Sample>, rs: seq<Run>)
    requires d != [] && Nondecreasing(d) && IsSplit(d, rs)
    ensures InOrder(rs) && rs[0].start == d[0].at && LastRun(rs).end == Last(d).at
  {
    forall k | 0 <= k < |rs| ensures rs[k].start <= rs[k].end {
      assert IsMaximalRun(d, rs[k]);
    }
    forall k, m | 0 <= k && m == k + 1 && m < |rs| ensures rs[k].end <= rs[m].start {
      assert IsMaximalRun(d, rs[k]) && IsMaximalRun(d, rs[m]) && rs[k].hi == rs[m].lo;
    }
  }

  lemma SplitIsWhole(d: seq<Sample>, rs: seq<Run>)
    requires OnTheMicrosecond(d) && IsSplit(d, rs)
    ensures WholeRuns(rs)
  {
    forall k | 0 <= k < |rs| ensures rs[k].start % 1000 == 0 && rs[k].end % 1000 == 0 {
      assert IsMaximalRun(d, rs[k]);
    }
  }
}
