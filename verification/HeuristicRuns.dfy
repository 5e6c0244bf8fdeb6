/** What the heuristics guarantee over whole runs. */
module HeuristicRuns {
  import opened Windows
  import opened HeuristicSpec
  import S = AppState

  // ---- The counts, by cardinality ----

  ghost function Live(es: seq<Entry>, c: Cell, now: Time, w: Time): set<nat> {
    set i: nat | i < |es| && Marks(es[i], c) && now - es[i].at <= w
  }

  lemma LiveStep(d: seq<Entry>, e: Entry, es: seq<Entry>, c: Cell, now: Time, w: Time)
    requires es == d + [e]
    ensures Live(es, c, now, w) == Live(d, c, now, w) + if Marks(e, c) && now - e.at <= w then {|d|} else {}
    ensures forall i :: i in Live(d, c, now, w) ==> i < |d| && es[i] == d[i]
  {
    forall i | i in Live(d, c, now, w) ensures i in Live(es, c, now, w) {
      assert es[i] == d[i];
    }
  }

  /** A list counts the packets on record that belong in it and are young enough. */
  lemma {:induction false} PacketsCounted(es: seq<Entry>, c: Cell, now: Time, w: Time)
    ensures |Recent(Sightings(es, c), now, w)| == |Live(es, c, now, w)|
  {
    if es == [] {
      assert Live(es, c, now, w) == {};
    } else {
      var d, e := es[..|es| - 1], es[|es| - 1];
      PacketsCounted(d, c, now, w);
      LiveStep(d, e, es, c, now, w);
      SightingsStep(d, e, es, c);
    }
  }

  ghost function ItemsOf(es: seq<Entry>, live: set<nat>, k: Kind): set<Item>
    requires forall i :: i in live ==> i < |es|
  {
    set i | i in live :: ItemOf(k, es[i].p)
  }

  /** A map counts the different items of those packets. */
  lemma {:induction false} ItemsCounted(es: seq<Entry>, c: Cell, now: Time, w: Time)
    ensures RecentItems(Sightings(es, c), now, w) == ItemsOf(es, Live(es, c, now, w), c.kind)
  {
    if es == [] {
      assert Live(es, c, now, w) == {};
    } else {
      var d, e := es[..|es| - 1], es[|es| - 1];
      ItemsCounted(d, c, now, w);
      LiveStep(d, e, es, c, now, w);
      SightingsStep(d, e, es, c);
      RecentAppend(Sightings(d, c), Sighting(ItemOf(c.kind, e.p), e.at), now, w);
    }
  }

  lemma RecentAppend(s: seq<Sighting<Item>>, x: Sighting<Item>, now: Time, w: Time)
    ensures RecentItems(s + [x], now, w) == RecentItems(s, now, w) + if now - x.at <= w then {x.item} else {}
  {
    assert x in s + [x];
    forall y | y in s ensures y in s + [x] {
    }
  }

  // ---- Everything the detectors do is raise alerts ----

  ghost function RaiseAll(b: Book, x: Input, ts: seq<Trigger>): Book {
    if ts == [] then b else Raise(RaiseAll(b, x, ts[..|ts| - 1]), x, ts[|ts| - 1])
  }

  lemma One(b: Book, x: Input, cond: bool, t: Trigger) returns (ts: seq<Trigger>)
    ensures RaiseIf(b, x, cond, t) == RaiseAll(b, x, ts)
    ensures forall u :: u in ts ==> u == t
  {
    ts := if cond then [t] else [];
    assert [t][..0] == [];
  }

  lemma {:induction false} Both(b: Book, x: Input, ts: seq<Trigger>, us: seq<Trigger>)
    ensures RaiseAll(b, x, ts + us) == RaiseAll(RaiseAll(b, x, ts), x, us)
  {
    if us == [] {
      assert ts + us == ts;
    } else {
      Both(b, x, ts, us[..|us| - 1]);
      assert (ts + us)[..|ts + us| - 1] == ts + us[..|us| - 1];
    }
  }

  ghost predicate Raised(b: Book, x: Input, b': Book) {
    exists ts :: b' == RaiseAll(b, x, ts)
  }

  lemma RaisedIf(b: Book, x: Input, cond: bool, t: Trigger)
    ensures Raised(b, x, RaiseIf(b, x, cond, t))
  {
    var ts := One(b, x, cond, t);
  }

  lemma RaisedTwice(b: Book, x: Input, b1: Book, b2: Book)
    requires Raised(b, x, b1) && Raised(b1, x, b2)
    ensures Raised(b, x, b2)
  {
    var ts :| b1 == RaiseAll(b, x, ts);
    var us :| b2 == RaiseAll(b1, x, us);
    Both(b, x, ts, us);
  }

  lemma RaisedNone(b: Book, x: Input)
    ensures Raised(b, x, b)
  {
    assert b == RaiseAll(b, x, []);
  }

  lemma RaisedOnce(b: Book, x: Input)
    ensures forall b1, cond, t :: Raised(b, x, b1) ==> Raised(b, x, RaiseIf(b1, x, cond, t))
  {
    forall b1, cond, t | Raised(b, x, b1) ensures Raised(b, x, RaiseIf(b1, x, cond, t)) {
      RaisedIf(b1, x, cond, t);
      RaisedTwice(b, x, b1, RaiseIf(b1, x, cond, t));
    }
  }

  lemma HostRaises(b: Book, x: Input, n: Tally)
    ensures Raised(b, x, HostSteps(b, x, n))
  {
    RaisedNone(b, x);
    RaisedOnce(b, x);
    assert Raised(b, x, ArpStep(b, x, n));
    assert Raised(b, x, LocalSteps(b, x, n));
    assert Raised(b, x, SynStep(LocalSteps(b, x, n), x, n));
  }

  lemma UdpRaises(b: Book, x: Input, n: Tally)
    ensures Raised(b, x, UdpSteps(b, x, n))
  {
    RaisedNone(b, x);
    RaisedOnce(b, x);
    var b1 := UdpStep(b, x, n);
    var b2 := DhcpStep(b1, x, n);
    assert Raised(b, x, b1);
    assert Raised(b, x, DiscoverStep(b1, x, n));
    assert Raised(b, x, b2);
    assert Raised(b, x, DnsReplyStep(b2, x, n));
    assert Raised(b, x, DnsSteps(b2, x, n));
  }

  lemma TrafficRaises(b: Book, x: Input, n: Tally)
    ensures Raised(b, x, TrafficSteps(b, x, n))
  {
    UdpRaises(b, x, n);
    RaisedOnce(b, x);
  }

  lemma DetectRaises(b: Book, x: Input, n: Tally)
    ensures Raised(b, x, Detect(b, x, n))
  {
    HostRaises(b, x, n);
    TrafficRaises(HostSteps(b, x, n), x, n);
    RaisedTwice(b, x, HostSteps(b, x, n), PacketSteps(b, x, n));
    RaisedOnce(b, x);
  }

  // ---- Invariants of every run ----

  /** Two alerts of one rule and source are at least 30 seconds apart. */
  ghost predicate Spaced(alerts: seq<Alert>, now: Time) {
    && (forall i :: 0 <= i < |alerts| ==> alerts[i].at <= now)
    && (forall i, j :: 0 <= i < j < |alerts| && alerts[i].trigger.rule == alerts[j].trigger.rule && alerts[i].src == alerts[j].src ==>
         alerts[j].at - alerts[i].at >= 30.0)
  }

  /** The alerts that `x` adds to `b`. */
  ghost predicate Adds(b: Book, x: Input, b': Book) {
    && b.alerts <= b'.alerts
    && (forall i :: |b.alerts| <= i < |b'.alerts| ==> b'.alerts[i].at == x.now && b'.alerts[i].src == x.p.src && b'.alerts[i].mac == x.p.mac)
    && (x.cfg.mode == IDS ==> forall i :: |b.alerts| <= i < |b'.alerts| ==> b'.alerts[i].outcome == Detected)
  }

  ghost predicate ConfirmedIP(alerts: seq<Alert>, ip: string) {
    exists i :: 0 <= i < |alerts| && alerts[i].outcome == BlockConfirmed && alerts[i].src == ip
  }

  ghost predicate ConfirmedMAC(alerts: seq<Alert>, mac: string) {
    exists i :: 0 <= i < |alerts| && alerts[i].outcome == BlockConfirmed && alerts[i].mac == mac
  }

  /** What was blocked from elsewhere. */
  datatype Origins = Origins(ips: set<string>, macs: set<string>)

  ghost predicate OnceBlocked(alerts: seq<Alert>, o: Origins, mac: string) {
    mac in o.macs || ConfirmedMAC(alerts, mac)
  }

  /** A packet on record came from `ip` and a device that was once blocked. */
  ghost predicate RoamedTo(es: seq<Entry>, alerts: seq<Alert>, o: Origins, ip: string) {
    exists i :: 0 <= i < |es| && es[i].p.src == ip && OnceBlocked(alerts, o, es[i].p.mac)
  }

  /** Nothing is blocked but what the firewall confirmed, what was blocked from elsewhere, and the
      addresses that such a device moved to. */
  ghost predicate Backed(b: Book, o: Origins) {
    && (forall mac :: mac in b.blockedMACs ==> mac != "" && OnceBlocked(b.alerts, o, mac))
    && (forall ip :: ip in b.blockedIPs ==> ip in o.ips || ConfirmedIP(b.alerts, ip) || RoamedTo(b.entries, b.alerts, o, ip))
  }

  /** No block ends after `limit`. */
  ghost predicate Bounded(b: Book, limit: Time) {
    && (forall ip :: ip in b.blockedIPs ==> b.blockedIPs[ip].expiresAt <= limit)
    && (forall mac :: mac in b.blockedMACs ==> b.blockedMACs[mac].expiresAt <= limit)
  }

  /** What a packet does to the blocks: it ends none, and renews or adds only its own. */
  ghost predicate Blocks(b: Book, x: Input, b': Book, limit: Time) {
    && (forall ip :: ip in b.blockedIPs ==> ip in b'.blockedIPs && (b'.blockedIPs[ip] == b.blockedIPs[ip] || b'.blockedIPs[ip] == BlockOf(x)))
    && (Bounded(b, limit) && BlockOf(x).expiresAt <= limit ==> Bounded(b', limit))
    && (x.cfg.mode == IDS ==> b'.blockedIPs == b.blockedIPs && b'.blockedMACs == b.blockedMACs)
  }

  lemma {:induction false} RaisesAdd(b: Book, x: Input, ts: seq<Trigger>)
    ensures Adds(b, x, RaiseAll(b, x, ts)) && RaiseAll(b, x, ts).entries == b.entries
  {
    if ts != [] {
      RaisesAdd(b, x, ts[..|ts| - 1]);
    }
  }

  lemma {:induction false} RaisesAreSpaced(b: Book, x: Input, ts: seq<Trigger>)
    requires Spaced(b.alerts, x.now)
    ensures Spaced(RaiseAll(b, x, ts).alerts, x.now)
  {
    if ts != [] {
      RaisesAreSpaced(b, x, ts[..|ts| - 1]);
    }
  }

  lemma StillConfirmed(alerts: seq<Alert>, more: seq<Alert>, ip: string, mac: string)
    requires alerts <= more
    ensures ConfirmedIP(alerts, ip) ==> ConfirmedIP(more, ip)
    ensures ConfirmedMAC(alerts, mac) ==> ConfirmedMAC(more, mac)
  {
    if ConfirmedIP(alerts, ip) {
      var i :| 0 <= i < |alerts| && alerts[i].outcome == BlockConfirmed && alerts[i].src == ip;
      assert more[i] == alerts[i];
    }
    if ConfirmedMAC(alerts, mac) {
      var i :| 0 <= i < |alerts| && alerts[i].outcome == BlockConfirmed && alerts[i].mac == mac;
      assert more[i] == alerts[i];
    }
  }

  /** What is on record only grows, and so does what it backs. */
  lemma StillBacked(b: Book, o: Origins, es: seq<Entry>, alerts: seq<Alert>, o': Origins)
    requires Backed(b, o) && b.alerts <= alerts && o.ips <= o'.ips && o.macs <= o'.macs
    requires |b.entries| <= |es| && forall i :: 0 <= i < |b.entries| ==> es[i].p == b.entries[i].p
    ensures Backed(b.(entries := es, alerts := alerts), o')
  {
    forall mac ensures OnceBlocked(b.alerts, o, mac) ==> OnceBlocked(alerts, o', mac) {
      StillConfirmed(b.alerts, alerts, "", mac);
    }
    forall ip | ip in b.blockedIPs ensures ip in o'.ips || ConfirmedIP(alerts, ip) || RoamedTo(es, alerts, o', ip) {
      StillConfirmed(b.alerts, alerts, ip, "");
      if ip !in o.ips && !ConfirmedIP(b.alerts, ip) {
        var i :| 0 <= i < |b.entries| && b.entries[i].p.src == ip && OnceBlocked(b.alerts, o, b.entries[i].p.mac);
        assert es[i].p == b.entries[i].p;
      }
    }
  }

  lemma RaiseIsBacked(b: Book, x: Input, t: Trigger, o: Origins)
    requires Backed(b, o)
    ensures Backed(Raise(b, x, t), o)
  {
    var r := Raise(b, x, t);
    if r != b {
      StillBacked(b, o, r.entries, r.alerts, o);
      assert r.alerts[|b.alerts|] == AlertOf(x, t);
    }
  }

  lemma {:induction false} RaisesBlock(b: Book, x: Input, ts: seq<Trigger>, o: Origins, limit: Time)
    ensures Backed(b, o) ==> Backed(RaiseAll(b, x, ts), o)
    ensures Blocks(b, x, RaiseAll(b, x, ts), limit)
  {
    if ts != [] {
      RaisesBlock(b, x, ts[..|ts| - 1], o, limit);
      if Backed(b, o) {
        RaiseIsBacked(RaiseAll(b, x, ts[..|ts| - 1]), x, ts[|ts| - 1], o);
      }
    }
  }

  /** What one packet keeps. */
  ghost predicate Steps(b: Book, x: Input, b': Book, o: Origins, limit: Time) {
    && Adds(b, x, b') && (Spaced(b.alerts, x.now) ==> Spaced(b'.alerts, x.now))
    && (Backed(b, o) ==> Backed(b', o))
    && Blocks(b, x, b', limit)
  }

  lemma RaisedSteps(b: Book, x: Input, b': Book, o: Origins, limit: Time)
    requires Raised(b, x, b')
    ensures Steps(b, x, b', o, limit) && b'.entries == b.entries
  {
    var ts :| b' == RaiseAll(b, x, ts);
    RaisesBlock(b, x, ts, o, limit);
    RaisesAdd(b, x, ts);
    if Spaced(b.alerts, x.now) {
      RaisesAreSpaced(b, x, ts);
    }
  }

  lemma StepsTwice(b: Book, x: Input, b1: Book, b2: Book, o: Origins, limit: Time)
    requires Steps(b, x, b1, o, limit) && Steps(b1, x, b2, o, limit)
    ensures Steps(b, x, b2, o, limit)
  {
  }

  /** Putting a packet on record keeps everything. */
  lemma RecordSteps(b: Book, x: Input, es: seq<Entry>, o: Origins, limit: Time)
    requires |b.entries| <= |es| && forall i :: 0 <= i < |b.entries| ==> es[i].p == b.entries[i].p
    ensures Steps(b, x, b.(entries := es), o, limit)
  {
    if Backed(b, o) {
      StillBacked(b, o, es, b.alerts, o);
    }
  }

  lemma NotedSteps(b: Book, x: Input, o: Origins, limit: Time)
    ensures Steps(b, x, Noted(b, x), o, limit) && Noted(b, x).entries == b.entries + [Entry(x.now, x.p, false)]
  {
    var es := b.entries + [Entry(x.now, x.p, false)];
    RecordSteps(b, x, es, o, limit);
    RaisedNone(b.(entries := es), x);
    RaisedOnce(b.(entries := es), x);
    RaisedSteps(b.(entries := es), x, Noted(b, x), o, limit);
    StepsTwice(b, x, b.(entries := es), Noted(b, x), o, limit);
  }

  lemma RoamedSteps(b: Book, x: Input, o: Origins, limit: Time)
    requires b.entries != [] && b.entries[|b.entries| - 1].p == x.p && Blocked(b, x)
    ensures Steps(b, x, Roamed(b, x), o, limit)
  {
    if Backed(b, o) && x.p.mac in b.blockedMACs {
      assert RoamedTo(b.entries, b.alerts, o, x.p.src);
    }
  }

  lemma CountedSteps(b: Book, x: Input, before: seq<Entry>, o: Origins, limit: Time)
    requires b.entries == before + [Entry(x.now, x.p, false)]
    ensures Steps(b, x, Counted(b, x, before), o, limit)
  {
    var es := before + [Entry(x.now, x.p, true)];
    RecordSteps(b, x, es, o, limit);
    DetectRaises(b.(entries := es), x, TallyOf(es, x.p, x.now));
    RaisedSteps(b.(entries := es), x, Counted(b, x, before), o, limit);
    StepsTwice(b, x, b.(entries := es), Counted(b, x, before), o, limit);
  }

  lemma AnalyzedSteps(b: Book, x: Input, o: Origins, limit: Time)
    ensures Steps(b, x, Analyzed(b, x), o, limit)
  {
    if x.p.src != "" {
      var m := Noted(b, x);
      NotedSteps(b, x, o, limit);
      if Blocked(m, x) {
        RoamedSteps(m, x, o, limit);
        StepsTwice(b, x, m, Roamed(m, x), o, limit);
      } else if !x.p.loopback {
        CountedSteps(m, x, b.entries, o, limit);
        StepsTwice(b, x, m, Counted(m, x, b.entries), o, limit);
      }
    }
  }

  // ---- Runs ----

  lemma OfflineStep(d: seq<Event>, e: Event, h: seq<Event>)
    requires h == d + [e]
    ensures Offline(h) == After(Offline(d), e)
  {
    assert h[..|h| - 1] == d;
  }

  /** The clock of the packets never runs backwards, and has not passed `now`. */
  ghost predicate Steady(h: seq<Event>, now: Time) {
    h == [] || match h[|h| - 1]
      case Arrive(x) => x.now <= now && Steady(h[..|h| - 1], x.now)
      case _ => Steady(h[..|h| - 1], now)
  }

  /** With a clock that never runs backwards, no source is reported under one rule twice within 30 seconds. */
  lemma {:induction false} AlertsAreSpaced(h: seq<Event>, now: Time)
    requires Steady(h, now)
    ensures Spaced(Offline(h).alerts, now)
  {
    if h != [] {
      var d, e := h[..|h| - 1], h[|h| - 1];
      match e {
        case Arrive(x) =>
          AlertsAreSpaced(d, x.now);
          AnalyzedSteps(Offline(d), x, Origins({}, {}), 0.0);
        case _ =>
          AlertsAreSpaced(d, now);
      }
    }
  }

  /** An IDS blocks nothing of its own accord. */
  lemma {:induction false} DetectionModeNeverBlocks(h: seq<Event>)
    requires forall i :: 0 <= i < |h| ==> !h[i].Manual? && (h[i].Arrive? ==> h[i].x.cfg.mode == IDS)
    ensures Offline(h).blockedIPs == map[] && Offline(h).blockedMACs == map[]
  {
    if h != [] {
      var d, e := h[..|h| - 1], h[|h| - 1];
      DetectionModeNeverBlocks(d);
      if e.Arrive? {
        AnalyzedSteps(Offline(d), e.x, Origins({}, {}), 0.0);
      }
    }
  }

  function OriginsOf(h: seq<Event>): Origins {
    if h == [] then Origins({}, {}) else
      var o := OriginsOf(h[..|h| - 1]);
      match h[|h| - 1]
      case Manual(_, ip, mac, _) => Origins(o.ips + {ip}, o.macs + {mac})
      case _ => o
  }

  lemma EventKeepsBacked(b: Book, e: Event, o: Origins, o': Origins)
    requires Backed(b, o) && o' == if e.Manual? then Origins(o.ips + {e.ip}, o.macs + {e.mac}) else o
    ensures Backed(After(b, e), o')
  {
    match e
    case Arrive(x) => AnalyzedSteps(b, x, o, 0.0);
    case Manual(now, ip, mac, ttl) => StillBacked(b, o, b.entries, b.alerts, o');
    case Release(ip) =>
    case AutoRelease(now) =>
    case Drop(ip, mac) =>
  }

  /** Every blocked device had a confirmed block or was blocked from elsewhere; every blocked address
      too, unless such a device moved to it. */
  lemma {:induction false} BlocksAreBacked(h: seq<Event>)
    ensures Backed(Offline(h), OriginsOf(h))
  {
    if h != [] {
      var d, e := h[..|h| - 1], h[|h| - 1];
      BlocksAreBacked(d);
      EventKeepsBacked(Offline(d), e, OriginsOf(d), OriginsOf(h));
    }
  }

  /** From alert `n` on, `src` is reported for MAC flooding only. */
  ghost predicate Silent(alerts: seq<Alert>, n: nat, src: string) {
    forall i :: n <= i < |alerts| && alerts[i].src == src ==> alerts[i].trigger.rule == MacFlooding
  }

  lemma BlockedIsSilent(b: Book, x: Input, src: string)
    requires x.cfg.mode == IPS && src in b.blockedIPs
    ensures Silent(Analyzed(b, x).alerts, |b.alerts|, src) && b.alerts <= Analyzed(b, x).alerts && src in Analyzed(b, x).blockedIPs
  {
    AnalyzedSteps(b, x, Origins({}, {}), 0.0);
    NotedSteps(b, x, Origins({}, {}), 0.0);
  }

  /** An event that neither leaves prevention mode nor takes the block on `src` back. */
  ghost predicate Spares(b: Book, e: Event, src: string) {
    match e
    case Arrive(x) => x.cfg.mode == IPS
    case Manual(_, _, _, _) => true
    case Release(ip) => ip != src
    case AutoRelease(now) => src !in ExpiredIPs(b, now)
    case Drop(ip, _) => ip != src
  }

  /** The events `g` after `h` all spare `src`. */
  ghost predicate StaysBlocked(h: seq<Event>, g: seq<Event>, src: string) {
    g == [] || (StaysBlocked(h, g[..|g| - 1], src) && Spares(Offline(h + g[..|g| - 1]), g[|g| - 1], src))
  }

  lemma SilentEvent(b: Book, e: Event, src: string)
    requires src in b.blockedIPs && Spares(b, e, src)
    ensures Silent(After(b, e).alerts, |b.alerts|, src) && b.alerts <= After(b, e).alerts && src in After(b, e).blockedIPs
  {
    if e.Arrive? {
      BlockedIsSilent(b, e.x, src);
    }
  }

  lemma SilentStart(h: seq<Event>, g: seq<Event>, src: string)
    requires g == [] && src in Offline(h).blockedIPs
    ensures Offline(h).alerts <= Offline(h + g).alerts && src in Offline(h + g).blockedIPs
    ensures Silent(Offline(h + g).alerts, |Offline(h).alerts|, src)
  {
    assert h + g == h;
  }

  lemma SilentNext(alerts: seq<Alert>, b: Book, e: Event, b': Book, src: string)
    requires b' == After(b, e) && src in b.blockedIPs && Spares(b, e, src)
    requires alerts <= b.alerts && Silent(b.alerts, |alerts|, src)
    ensures alerts <= b'.alerts && src in b'.blockedIPs && Silent(b'.alerts, |alerts|, src)
  {
    SilentEvent(b, e, src);
  }

  lemma LastOfBoth(h: seq<Event>, g: seq<Event>)
    requires g != []
    ensures h + g == h + g[..|g| - 1] + [g[|g| - 1]]
  {
  }

  lemma OneEventMore(h: seq<Event>, g: seq<Event>)
    requires g != []
    ensures Offline(h + g) == After(Offline(h + g[..|g| - 1]), g[|g| - 1])
  {
    LastOfBoth(h, g);
    OfflineStep(h + g[..|g| - 1], g[|g| - 1], h + g);
  }

  /** Under prevention a blocked source is not analysed until its block is taken back or found
      expired: whatever packets come in between, the only alerts it can raise are for MAC flooding,
      which is checked before the block list. */
  lemma {:induction false} BlockedStaysSilent(h: seq<Event>, g: seq<Event>, src: string)
    requires src in Offline(h).blockedIPs && StaysBlocked(h, g, src)
    ensures Offline(h).alerts <= Offline(h + g).alerts && src in Offline(h + g).blockedIPs
    ensures Silent(Offline(h + g).alerts, |Offline(h).alerts|, src)
  {
    if g == [] {
      SilentStart(h, g, src);
    } else {
      BlockedStaysSilent(h, g[..|g| - 1], src);
      OneEventMore(h, g);
      SilentNext(Offline(h).alerts, Offline(h + g[..|g| - 1]), g[|g| - 1], Offline(h + g), src);
    }
  }

  // ---- How long a block lasts ----

  /** One clock, which never runs backwards, and one time to live for all blocks. */
  ghost predicate Regular(h: seq<Event>, now: Time, ttl: int) {
    h == [] ||
    var d := h[..|h| - 1];
    match h[|h| - 1]
    case Arrive(x) => x.now <= now && x.cfg.blockTTL == ttl && Regular(d, x.now, ttl)
    case Manual(at, _, _, t) => at <= now && t == ttl && Regular(d, at, ttl)
    case Release(_) => Regular(d, now, ttl)
    case AutoRelease(at) => at <= now && Regular(d, at, ttl)
    case Drop(_, _) => Regular(d, now, ttl)
  }

  function TimeOf(e: Event, now: Time): Time {
    match e
    case Arrive(x) => x.now
    case Manual(at, _, _, _) => at
    case Release(_) => now
    case AutoRelease(at) => at
    case Drop(_, _) => now
  }

  lemma EventKeepsBound(b: Book, e: Event, at: Time, ttl: int)
    requires Bounded(b, at + ttl as real) && at == TimeOf(e, at)
    requires (e.Arrive? ==> e.x.cfg.blockTTL == ttl) && (e.Manual? ==> e.ttl == ttl)
    ensures Bounded(After(b, e), at + ttl as real)
  {
    if e.Arrive? {
      AnalyzedSteps(b, e.x, Origins({}, {}), at + ttl as real);
    }
  }

  lemma {:induction false} NoBlockOutlivesItsTime(h: seq<Event>, now: Time, ttl: int)
    requires Regular(h, now, ttl)
    ensures Bounded(Offline(h), now + ttl as real)
  {
    if h != [] {
      var d, e := h[..|h| - 1], h[|h| - 1];
      var at := TimeOf(e, now);
      NoBlockOutlivesItsTime(d, at, ttl);
      EventKeepsBound(Offline(d), e, at, ttl);
    }
  }

  /** The event deletes the block on `src`, whatever its time. */
  predicate TakesBack(e: Event, src: string) {
    (e.Release? || e.Drop?) && e.ip == src
  }

  /** Prevention mode throughout, nobody takes the block on `src` back, and no round that ends
      expired blocks comes at `end` or later. */
  ghost predicate Undisturbed(g: seq<Event>, src: string, end: Time) {
    forall i :: 0 <= i < |g| ==>
      (g[i].Arrive? ==> g[i].x.cfg.mode == IPS) && !TakesBack(g[i], src) && (g[i].AutoRelease? ==> g[i].now < end)
  }

  lemma RenewedNotShortened(b: Book, e: Event, src: string, end: Time, at: Time, ttl: int)
    requires src in b.blockedIPs && 0.0 < end <= b.blockedIPs[src].expiresAt && Bounded(b, at + ttl as real) && at == TimeOf(e, at)
    requires (e.Arrive? ==> e.x.cfg.mode == IPS && e.x.cfg.blockTTL == ttl) && (e.Manual? ==> e.ttl == ttl)
    requires !TakesBack(e, src) && (e.AutoRelease? ==> e.now < end)
    ensures Spares(b, e, src)
    ensures src in After(b, e).blockedIPs && end <= After(b, e).blockedIPs[src].expiresAt
  {
    if e.Arrive? {
      AnalyzedSteps(b, e.x, Origins({}, {}), at + ttl as real);
    }
  }

  lemma UndisturbedNext(h: seq<Event>, e: Event, h': seq<Event>, src: string, end: Time, at: Time, ttl: int)
    requires h' == h + [e] && Regular(h, at, ttl) && at == TimeOf(e, at)
    requires src in Offline(h).blockedIPs && 0.0 < end <= Offline(h).blockedIPs[src].expiresAt
    requires (e.Arrive? ==> e.x.cfg.mode == IPS && e.x.cfg.blockTTL == ttl) && (e.Manual? ==> e.ttl == ttl)
    requires !TakesBack(e, src) && (e.AutoRelease? ==> e.now < end)
    ensures Spares(Offline(h), e, src)
    ensures src in Offline(h').blockedIPs && end <= Offline(h').blockedIPs[src].expiresAt
  {
    NoBlockOutlivesItsTime(h, at, ttl);
    RenewedNotShortened(Offline(h), e, src, end, at, ttl);
    OfflineStep(h, e, h');
  }

  lemma {:induction false} UndisturbedStays(h: seq<Event>, g: seq<Event>, src: string, end: Time, now: Time, ttl: int)
    requires Regular(h + g, now, ttl) && Undisturbed(g, src, end)
    requires src in Offline(h).blockedIPs && 0.0 < end <= Offline(h).blockedIPs[src].expiresAt
    ensures StaysBlocked(h, g, src)
    ensures src in Offline(h + g).blockedIPs && end <= Offline(h + g).blockedIPs[src].expiresAt
  {
    if g == [] {
      assert h + g == h;
    } else {
      var d, e := g[..|g| - 1], g[|g| - 1];
      LastOfBoth(h, g);
      UndisturbedStays(h, d, src, end, TimeOf(e, now), ttl);
      UndisturbedNext(h + d, e, h + g, src, end, TimeOf(e, now), ttl);
    }
  }

  /** With one time to live, a block silences its source for all of that time: whatever else is
      blocked, renewed, released or found expired meanwhile, the source raises no alert but for MAC
      flooding until the first round that ends expired blocks at or after the end of the block. */
  lemma {:induction false} BlockLastsItsTime(h: seq<Event>, g: seq<Event>, src: string, now: Time, ttl: int)
    requires Regular(h + g, now, ttl) && src in Offline(h).blockedIPs && 0.0 < Offline(h).blockedIPs[src].expiresAt
    requires Undisturbed(g, src, Offline(h).blockedIPs[src].expiresAt)
    ensures src in Offline(h + g).blockedIPs && Offline(h).blockedIPs[src].expiresAt <= Offline(h + g).blockedIPs[src].expiresAt
    ensures Offline(h).alerts <= Offline(h + g).alerts && Silent(Offline(h + g).alerts, |Offline(h).alerts|, src)
  {
    UndisturbedStays(h, g, src, Offline(h).blockedIPs[src].expiresAt, now, ttl);
    BlockedStaysSilent(h, g, src);
  }

  /** ... and that round ends it. */
  lemma ExpiryEndsBlocks(h: seq<Event>, now: Time)
    ensures forall ip :: ip in Offline(h + [AutoRelease(now)]).blockedIPs <==>
      ip in Offline(h).blockedIPs && !HasExpired(Offline(h).blockedIPs[ip], now)
  {
    OfflineStep(h, AutoRelease(now), h + [AutoRelease(now)]);
  }

  /** A round in one piece is the deletion, one by one, of what it found. */
  ghost function DropAll(b: Book, found: map<string, Block>, order: seq<string>): Book
    requires forall ip :: ip in order ==> ip in found
  {
    if order == [] then b else
      var n := |order| - 1;
      Dropped(DropAll(b, found, order[..n]), order[n], found[order[n]].mac)
  }

  ghost function Names(order: seq<string>): set<string> {
    set ip | ip in order
  }

  ghost function Devices(found: map<string, Block>, order: seq<string>): set<string>
    requires forall ip :: ip in order ==> ip in found
  {
    set ip | ip in order && found[ip].mac != "" :: found[ip].mac
  }

  lemma TakeBoth(m: map<string, Block>, a: set<string>, b: set<string>)
    ensures m - (a + b) == m - a - b
  {
  }

  lemma {:induction false} DropAllIs(b: Book, found: map<string, Block>, order: seq<string>)
    requires forall ip :: ip in order ==> ip in found
    ensures DropAll(b, found, order) ==
      b.(blockedIPs := b.blockedIPs - Names(order), blockedMACs := b.blockedMACs - Devices(found, order))
  {
    if order == [] {
      assert b.blockedIPs - Names(order) == b.blockedIPs && b.blockedMACs - Devices(found, order) == b.blockedMACs;
    } else {
      var d, x := order[..|order| - 1], order[|order| - 1];
      DropAllIs(b, found, d);
      TakeBoth(b.blockedIPs, Names(d), {x});
      TakeBoth(b.blockedMACs, Devices(found, d), MacOf(found[x]));
      TakeMac(b.blockedMACs - Devices(found, d), found[x]);
    }
  }

  lemma TakeMac(m: map<string, Block>, block: Block)
    ensures m - MacOf(block) == if block.mac != "" then m - {block.mac} else m
  {
  }

  /** In whatever order the map yields them, and without anything in between, they are the round. */
  lemma RoundIsDrops(b: Book, now: Time, order: seq<string>)
    requires forall ip :: ip in order <==> ip in ExpiredIPs(b, now)
    ensures DropAll(b, b.blockedIPs, order) == AutoReleased(b, now)
  {
    DropAllIs(b, b.blockedIPs, order);
    assert Names(order) == ExpiredIPs(b, now) && Devices(b.blockedIPs, order) == ExpiredMACs(b, now);
  }

  /** A block renewed between is lost: the round deletes whatever it finds under the address. */
  lemma RenewedBlockIsDropped(b: Book, now: Time, ip: string, mac: string, ttl: int, found: string)
    requires ttl > 0
    ensures var r := After(b, Manual(now, ip, mac, ttl));
      ip in r.blockedIPs && r.blockedIPs[ip].expiresAt > now && ip !in After(r, Drop(ip, found)).blockedIPs
  {
  }

  /** Cleaning is unobservable: whatever rounds of the cleaner came between their packets, two
      states that analysed the same packets hold the same alerts and block the same devices. */
  lemma CleanupIsUnobservable(s: S.AppState, t: S.AppState)
    requires s.Valid() && t.Valid() && s.history == t.history
    ensures s.alerts == t.alerts && s.Alerts == t.Alerts
    ensures s.BlockedIPs == t.BlockedIPs && s.BlockedMACs == t.BlockedMACs
  {
    assert s.Keeps(S.AlertList) && t.Keeps(S.AlertList);
    assert s.Book() == t.Book();
  }

  /** The list on show holds the last thousand of all alerts there have been. */
  lemma ShownAlerts(s: S.AppState)
    requires s.Valid()
    ensures |s.Alerts| == if |Offline(s.history).alerts| <= 1000 then |Offline(s.history).alerts| else 1000
    ensures s.Alerts == Offline(s.history).alerts[|Offline(s.history).alerts| - |s.Alerts|..]
  {
    assert s.Keeps(S.AlertList);
    assert s.Book() == Offline(s.history);
  }
}
