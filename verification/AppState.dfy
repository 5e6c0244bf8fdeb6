/** The state of the rate heuristics: the windows, the throttle table and the block lists, as the
    packet analysis and the background cleaner update them. */
module AppState {
  import opened Bytes
  import opened Common
  import opened Windows
  import opened HeuristicSpec

  datatype AlertPart = ThrottleTable | AlertList

  class AppState {
    var Timestamps: map<Cell, seq<Time>>      // the seven maps of timestamp lists
    var LastSeen: map<Cell, map<Item, Time>>  // the five maps of last sightings
    var LastAlertTimes: map<ThrottleKey, Time>
    var BlockedIPs: map<string, Block>
    var BlockedMACs: map<string, Block>
    var Alerts: seq<Alert>
    ghost var history: seq<Event>
    ghost var entries: seq<Entry>  // all packets on record
    ghost var alerts: seq<Alert>   // all alerts there have been
    ghost var clock: Time          // no packet may be older
    ghost var log: Log             // what counts in each window
    ghost var lag: set<Kind>       // the windows that do not have the last entry yet
    ghost var tally: Tally         // what the windows hold with it

    static function Stamps(m: map<Cell, seq<Time>>, c: Cell): seq<Time> {
      if c in m then m[c] else []
    }

    static function Items(m: map<Cell, map<Item, Time>>, c: Cell): map<Item, Time> {
      if c in m then m[c] else map[]
    }

    /** Window `c` in terms of values: it holds its sightings `s` as far as they still matter. */
    static ghost predicate CellFits(c: Cell, ts: seq<Time>, m: map<Item, Time>, s: seq<Sighting<Item>>, clock: Time) {
      && InOrder(s, clock)
      && if IsStamp(c.kind) then StampFits(ts, s, 3.0, clock) else SeenFits(m, s, Window(c.kind), clock)
    }

    ghost predicate Fits(c: Cell)
      reads this`log, this`clock, this`Timestamps, this`LastSeen
    {
      c in log && CellFits(c, Stamps(Timestamps, c), Items(LastSeen, c), log[c], clock)
    }

    ghost predicate Tables()
      reads this`log, this`clock, this`Timestamps, this`LastSeen
    {
      forall c :: Fits(c)
    }

    ghost predicate Keeps(part: AlertPart)
      reads this`alerts, this`clock, this`LastAlertTimes, this`Alerts
    {
      match part
      case ThrottleTable => SeenFits(LastAlertTimes, AlertSightings(alerts), 30.0, clock) && NoneAfter(AlertSightings(alerts), clock)
      case AlertList => Alerts == LastThousand(alerts)
    }

    /** The throttle table and the list of alerts are what all alerts so far make them. */
    ghost predicate Alerting()
      reads this`alerts, this`clock, this`LastAlertTimes, this`Alerts
    {
      forall part :: Keeps(part)
    }

    /** The list of alerts keeps the last thousand. */
    static function LastThousand(alerts: seq<Alert>): seq<Alert> {
      if |alerts| <= 1000 then alerts else alerts[|alerts| - 1000..]
    }

    ghost function Book(): Book
      reads this`entries, this`alerts, this`BlockedIPs, this`BlockedMACs
    {
      HeuristicSpec.Book(entries, alerts, BlockedIPs, BlockedMACs)
    }

    /** Everything but that all windows are up to date. */
    ghost predicate Sound()
      reads this
    {
      Tables() && Agrees(log, entries, lag) && Alerting() && EntriesInOrder(entries, clock)
    }

    ghost predicate Valid()
      reads this
    {
      Sound() && lag == {} && Book() == Offline(history)
    }

    constructor (start: Time)
      ensures Valid() && history == [] && clock == start
    {
      Timestamps, LastSeen := map[], map[];
      LastAlertTimes, BlockedIPs, BlockedMACs, Alerts := map[], map[], map[], [];
      history, entries, alerts, clock, log, lag, tally := [], [], [], start, NO_LOG, {}, k => 0;
    }

    /** Notes one more packet in a list of timestamps. */
    method Stamp(c: Cell, now: Time) returns (ts: seq<Time>)
      requires Tables() && IsStamp(c.kind) && clock == now
      modifies this`log, this`Timestamps
      ensures Tables() && c in old(log)
      ensures log == old(log)[c := old(log)[c] + [Sighting(Name(""), now)]]
      ensures ts == Times(Recent(log[c], now, 3.0))
    {
      assert Fits(c);
      ts := AddTimestamp(Stamps(Timestamps, c), now, log[c], Name(""), clock);
      Timestamps := Timestamps[c := ts];
      log := log[c := log[c] + [Sighting(Name(""), now)]];
      forall d ensures Fits(d) {
        if d != c {
          assert old(Fits(d));
        }
      }
    }

    /** Notes an item in a map of last sightings and forgets what is older than the window. */
    method See(c: Cell, item: Item, now: Time) returns (m: map<Item, Time>)
      requires Tables() && !IsStamp(c.kind) && clock == now
      modifies this`log, this`LastSeen
      ensures Tables() && c in old(log)
      ensures log == old(log)[c := old(log)[c] + [Sighting(item, now)]]
      ensures m.Keys == RecentItems(log[c], now, Window(c.kind))
    {
      assert Fits(c);
      m := NoteItem(Items(LastSeen, c), item, now, Window(c.kind), log[c], clock);
      LastSeen := LastSeen[c := m];
      log := log[c := log[c] + [Sighting(item, now)]];
      forall d ensures Fits(d) {
        if d != c {
          assert old(Fits(d));
        }
      }
    }

    // ---- Windows in the course of one packet ----

    /** The packet of `x` is the last entry; the windows in `lag` are still to take it in. */
    ghost predicate Taking(x: Input)
      reads this`entries, this`lag, this`clock, this`tally
    {
      clock == x.now && forall k :: Waiting(k, x)
    }

    ghost predicate Waiting(k: Kind, x: Input)
      reads this`entries, this`lag, this`tally
    {
      && entries != [] && entries[|entries| - 1].at == x.now && entries[|entries| - 1].p == x.p
      && (k in lag ==> Marks(entries[|entries| - 1], CellOf(k, x.p)))
      && tally(k) == Count(entries, k, x.p, x.now)
    }

    /** Kinds the packet does not count in have nothing to take in. */
    lemma NotDue(k: Kind, x: Input)
      requires Taking(x) && !Counts(k, x.p)
      ensures k !in lag
    {
      assert Waiting(k, x);
    }

    ghost predicate Busy(x: Input)
      reads this`log, this`clock, this`Timestamps, this`LastSeen, this`entries, this`lag, this`tally
    {
      Tables() && Agrees(log, entries, lag) && Taking(x)
    }

    /** How many packets the packet's window of kind `k` holds, this one included. */
    method CountPackets(k: Kind, x: Input) returns (n: nat)
      requires Busy(x) && IsStamp(k) && k in lag
      modifies this`log, this`Timestamps, this`lag
      ensures Busy(x) && lag == old(lag) - {k} && n == tally(k)
    {
      var cell := CellOf(k, x.p);
      assert Waiting(k, x);
      var ts := Stamp(cell, x.now);
      CatchUp(old(log), entries, lag, k, log, cell);
      lag := lag - {k};
      assert Linked(log, entries, lag, cell);
      n := |ts|;
      forall j ensures Waiting(j, x) {
        assert old(Waiting(j, x));
      }
    }

    /** How many different items it holds. */
    method CountItems(k: Kind, x: Input) returns (n: nat)
      requires Busy(x) && !IsStamp(k) && k in lag
      modifies this`log, this`LastSeen, this`lag
      ensures Busy(x) && lag == old(lag) - {k} && n == tally(k)
    {
      var cell := CellOf(k, x.p);
      assert Waiting(k, x);
      var m := See(cell, ItemOf(k, x.p), x.now);
      CatchUp(old(log), entries, lag, k, log, cell);
      lag := lag - {k};
      assert Linked(log, entries, lag, cell);
      n := |m.Keys|;
      forall j ensures Waiting(j, x) {
        assert old(Waiting(j, x));
      }
    }

    // ---- Alerts ----

    /** Asks the firewall for a block unless the mode or the severity says otherwise. */
    method Respond(x: Input, t: Trigger) returns (outcome: Outcome)
      modifies this`BlockedIPs, this`BlockedMACs
      ensures outcome == OutcomeOf(x, t)
      ensures BlockedIPs == if outcome == BlockConfirmed then old(BlockedIPs)[x.p.src := BlockOf(x)] else old(BlockedIPs)
      ensures BlockedMACs == if outcome == BlockConfirmed && x.p.mac != "" then old(BlockedMACs)[x.p.mac := BlockOf(x)] else old(BlockedMACs)
    {
      outcome := Detected;
      if x.cfg.mode != IDS && (t.severity == High || t.severity == Critical || t.confidence == High || t.confidence == Critical) {
        var verdict := x.firewall(t.rule);
        if verdict == Confirmed {
          outcome := BlockConfirmed;
          var ipBlock := Block(x.p.mac, x.now + x.cfg.blockTTL as real);
          BlockedIPs := BlockedIPs[x.p.src := ipBlock];
          if x.p.mac != "" {
            BlockedMACs := BlockedMACs[x.p.mac := ipBlock];
          }
        } else if verdict == Requested {
          outcome := BlockRequested;
        } else {
          outcome := BlockFailed;
        }
      }
    }

    method AddAlert(a: Alert)
      requires Alerts == LastThousand(alerts)
      modifies this`Alerts, this`alerts
      ensures alerts == old(alerts) + [a] && Alerts == LastThousand(alerts)
    {
      alerts := alerts + [a];
      Alerts := Alerts + [a];
      if |Alerts| > 1000 {
        Alerts := Alerts[1..];
      }
    }

    /** Whether an alert of the same rule and source is less than 30 seconds old. */
    method IsThrottled(rule: Rule, src: string, now: Time) returns (yes: bool)
      requires Alerting() && clock <= now
      ensures yes == Throttled(alerts, rule, src, now)
    {
      var key := ThrottleKey(src, rule);
      assert Keeps(ThrottleTable);
      yes := key in LastAlertTimes && now - LastAlertTimes[key] < 30.0;
      ThrottleIff(LastAlertTimes, alerts, clock, rule, src, now);
    }

    method Record(x: Input, t: Trigger)
      requires Alerting() && clock == x.now
      modifies this`alerts, this`LastAlertTimes, this`Alerts, this`BlockedIPs, this`BlockedMACs
      ensures Alerting() && Book() == WithAlert(old(Book()), x, t)
    {
      var key := ThrottleKey(x.p.src, t.rule);
      assert Keeps(ThrottleTable) && Keeps(AlertList);
      ghost var s, s' := AlertSightings(alerts), AlertSightings(alerts + [AlertOf(x, t)]);
      assert s' == s + [Sighting(key, x.now)];
      SeenAgain(LastAlertTimes, s, 30.0, clock, key, x.now, s');
      LastAlertTimes := LastAlertTimes[key := x.now];
      var outcome := Respond(x, t);
      AddAlert(Alert(x.now, x.p.src, Dst(x.p), x.p.mac, t, outcome));
    }

    /** Raises an alert unless it is throttled. */
    method TriggerAlert(x: Input, t: Trigger)
      requires Alerting() && clock == x.now
      modifies this`alerts, this`LastAlertTimes, this`Alerts, this`BlockedIPs, this`BlockedMACs
      ensures Alerting() && Book() == Raise(old(Book()), x, t)
    {
      var throttled := IsThrottled(t.rule, x.p.src, x.now);
      if throttled {
        return;
      }
      Record(x, t);
    }

    method TriggerIf(x: Input, cond: bool, t: Trigger)
      requires Alerting() && clock == x.now
      modifies this`alerts, this`LastAlertTimes, this`Alerts, this`BlockedIPs, this`BlockedMACs
      ensures Alerting() && Book() == RaiseIf(old(Book()), x, cond, t)
    {
      if cond {
        TriggerAlert(x, t);
      }
    }

    // ---- Detectors ----

    method ArpAlerts(x: Input, macCount: nat, arpRate: nat)
      requires Alerting() && clock == x.now && IsArp(x.p) && macCount == tally(Macs) && arpRate == Rate(tally, Arp)
      modifies this`alerts, this`LastAlertTimes, this`Alerts, this`BlockedIPs, this`BlockedMACs
      ensures Alerting() && Book() == ArpStep(old(Book()), x, tally)
    {
      TriggerIf(x, x.p.arpOp == 2 && macCount > 2, Strong(ArpSpoofing, Medium, macCount));
      TriggerIf(x, arpRate > 50, Strong(ArpFlood, Medium, arpRate));
      TriggerIf(x, x.p.arpOp == 2 && arpRate > 15, Strong(GratuitousArp, High, arpRate));
    }

    method CountArp(x: Input) returns (macs: nat, rate: nat)
      requires Busy(x) && Arp in lag && Macs in lag
      modifies this`log, this`Timestamps, this`LastSeen, this`lag
      ensures Busy(x) && lag == old(lag) - {Arp, Macs}
      ensures macs == tally(Macs) && rate == Rate(tally, Arp)
    {
      macs := CountItems(Macs, x);
      rate := CountPackets(Arp, x);
      rate := rate / 3;
    }

    method AnalyzeArp(x: Input)
      requires Busy(x) && Alerting() && (IsArp(x.p) ==> Arp in lag && Macs in lag)
      modifies this`log, this`Timestamps, this`LastSeen, this`lag,
        this`alerts, this`LastAlertTimes, this`Alerts, this`BlockedIPs, this`BlockedMACs
      ensures Busy(x) && Alerting() && lag == old(lag) - {Arp, Macs}
      ensures Book() == ArpStep(old(Book()), x, tally)
    {
      if x.p.protocol == ARP && x.p.mac != "" && x.p.src != "0.0.0.0" {
        var macCount, arpRate := CountArp(x);
        ArpAlerts(x, macCount, arpRate);
      } else {
        NotDue(Arp, x);
        NotDue(Macs, x);
      }
    }

    /** An internal host that reaches for remote access ports of many internal hosts. */
    method AnalyzeLateral(x: Input)
      requires Busy(x) && Alerting() && (IsLateral(x.p) ==> Lateral in lag)
      modifies this`log, this`Timestamps, this`LastSeen, this`lag,
        this`alerts, this`LastAlertTimes, this`Alerts, this`BlockedIPs, this`BlockedMACs
      ensures Busy(x) && Alerting() && lag == old(lag) - {Lateral}
      ensures Book() == LateralStep(old(Book()), x, tally)
    {
      if !IsLateral(x.p) {
        NotDue(Lateral, x);
      }
      if x.p.srcInternal && x.p.dstInternal {
        if x.p.dstPort == 22 || x.p.dstPort == 445 || x.p.dstPort == 3389 {
          if x.p.dstOctet.Some? {
            var hosts := CountItems(Lateral, x);
            TriggerIf(x, hosts > 10, Strong(LateralMovement, Critical, hosts));
          }
        }
      }
    }


    method CountSyn(x: Input) returns (ports: nat, syns: nat, ssh: nat)
      requires Busy(x) && IsSyn(x.p)
      requires Syn in lag && (x.p.dstPort != 0 ==> Ports in lag) && (x.p.dstPort == 22 ==> Ssh in lag)
      modifies this`log, this`Timestamps, this`LastSeen, this`lag
      ensures Busy(x) && lag == old(lag) - {Ports, Syn, Ssh}
      ensures ports == PortsTried(x.p, tally) && syns == tally(Syn) && (x.p.dstPort == 22 ==> ssh == Rate(tally, Ssh))
    {
      ports, ssh := 0, 0;
      if x.p.dstPort != 0 {
        ports := CountItems(Ports, x);
      } else {
        NotDue(Ports, x);
      }
      syns := CountPackets(Syn, x);
      if x.p.dstPort == 22 {
        ssh := CountPackets(Ssh, x);
        ssh := ssh / 3;
      } else {
        NotDue(Ssh, x);
      }
    }

    method SynAlerts(x: Input, ports: nat, syns: nat, ssh: nat)
      requires Alerting() && clock == x.now && IsSyn(x.p)
      requires ports == PortsTried(x.p, tally) && syns == tally(Syn) && (x.p.dstPort == 22 ==> ssh == Rate(tally, Ssh))
      modifies this`alerts, this`LastAlertTimes, this`Alerts, this`BlockedIPs, this`BlockedMACs
      ensures Alerting() && Book() == SynStep(old(Book()), x, tally)
    {
      TriggerIf(x, syns >= x.cfg.synThresh && ports <= 5, Trigger(SynFlood, High, High, PerSecond(syns)));
      TriggerIf(x, x.p.dstPort == 22 && ssh > x.cfg.sshThresh, Strong(SshBruteForce, Critical, ssh));
    }

    method AnalyzeTcp(x: Input) returns (uniquePortsRate: nat)
      requires Busy(x) && Alerting()
      requires IsSyn(x.p) ==> Syn in lag && (x.p.dstPort != 0 ==> Ports in lag) && (x.p.dstPort == 22 ==> Ssh in lag)
      modifies this`log, this`Timestamps, this`LastSeen, this`lag,
        this`alerts, this`LastAlertTimes, this`Alerts, this`BlockedIPs, this`BlockedMACs
      ensures Busy(x) && Alerting() && uniquePortsRate == PortsTried(x.p, tally)
      ensures lag == old(lag) - {Ports, Syn, Ssh}
      ensures Book() == SynStep(old(Book()), x, tally)
    {
      uniquePortsRate := 0;
      if x.p.protocol == TCP && x.p.syn && !x.p.ack && !x.p.rst {
        var syns, ssh;
        uniquePortsRate, syns, ssh := CountSyn(x);
        SynAlerts(x, uniquePortsRate, syns, ssh);
      } else {
        NotDue(Ports, x);
        NotDue(Syn, x);
        NotDue(Ssh, x);
      }
    }

    method AnalyzeUdpFlood(x: Input)
      requires Busy(x) && Alerting() && Udp in lag
      modifies this`log, this`Timestamps, this`LastSeen, this`lag,
        this`alerts, this`LastAlertTimes, this`Alerts, this`BlockedIPs, this`BlockedMACs
      ensures Busy(x) && Alerting() && lag == old(lag) - {Udp}
      ensures Book() == UdpStep(old(Book()), x, tally)
    {
      var n := CountPackets(Udp, x);
      var effectiveThreshold := x.cfg.udpThresh;
      if |x.p.payload| > 1000 {
        effectiveThreshold := Half(x.cfg.udpThresh);
      }
      if x.p.dstPort == 443 || x.p.srcPort == 443 || x.p.dstPort == 80 || x.p.srcPort == 80 {
        effectiveThreshold := x.cfg.udpThresh * 50;
      }
      TriggerIf(x, n / 3 > effectiveThreshold, Strong(UdpFlood, Medium, n / 3));
    }

    method AnalyzeDhcpDiscover(x: Input)
      requires Busy(x) && Alerting() && (IsDhcpDiscover(x.p) ==> DhcpMacs in lag) && IsDhcp(x.p)
      modifies this`log, this`Timestamps, this`LastSeen, this`lag,
        this`alerts, this`LastAlertTimes, this`Alerts, this`BlockedIPs, this`BlockedMACs
      ensures Busy(x) && Alerting() && lag == old(lag) - {DhcpMacs}
      ensures Book() == DiscoverStep(old(Book()), x, tally)
    {
      if !IsDhcpDiscover(x.p) {
        NotDue(DhcpMacs, x);
      }
      if |x.p.payload| > 240 {
        if x.p.payload[0] == 1 {
          var recentDHCPMACs := CountItems(DhcpMacs, x);
          TriggerIf(x, recentDHCPMACs > 50, Strong(DhcpStarvation, Critical, recentDHCPMACs));
        }
      }
    }

    method AnalyzeDhcp(x: Input)
      requires Busy(x) && Alerting() && x.p.protocol == UDP && (IsDhcpDiscover(x.p) ==> DhcpMacs in lag)
      modifies this`log, this`Timestamps, this`LastSeen, this`lag,
        this`alerts, this`LastAlertTimes, this`Alerts, this`BlockedIPs, this`BlockedMACs
      ensures Busy(x) && Alerting() && lag == old(lag) - {DhcpMacs}
      ensures Book() == DhcpStep(old(Book()), x, tally)
    {
      if x.p.dstPort == 67 || x.p.dstPort == 68 || x.p.srcPort == 67 || x.p.srcPort == 68 {
        AnalyzeDhcpDiscover(x);
        TriggerIf(x, x.p.dhcpOffer && x.cfg.dhcpIP != "" && x.p.src != x.cfg.dhcpIP, Strong(RogueDhcp, Critical, 1));
      } else {
        NotDue(DhcpMacs, x);
      }
    }

    method AnalyzeDnsReplies(x: Input)
      requires Busy(x) && Alerting() && (Counts(DnsReplies, x.p) ==> DnsReplies in lag) && x.p.protocol == UDP
      modifies this`log, this`Timestamps, this`LastSeen, this`lag,
        this`alerts, this`LastAlertTimes, this`Alerts, this`BlockedIPs, this`BlockedMACs
      ensures Busy(x) && Alerting() && lag == old(lag) - {DnsReplies}
      ensures Book() == DnsReplyStep(old(Book()), x, tally)
    {
      if x.p.srcPort == 53 && |x.p.payload| > 500 {
        var n := CountPackets(DnsReplies, x);
        TriggerIf(x, n / 3 > 20, Trigger(DnsAmplification, High, Medium, (n / 3) as real));
      } else {
        NotDue(DnsReplies, x);
      }
    }

    /** The walk over the labels of a query. */
    method FindLongLabel(payload: Bytes) returns (found: bool)
      requires |payload| > 12
      ensures found == ((payload[4] != 0 || payload[5] != 0) && LongLabel(payload, 12))
    {
      found := false;
      if payload[4] != 0 || payload[5] != 0 {
        var offset := 12;
        while offset < |payload|
          invariant LongLabel(payload, 12) == LongLabel(payload, offset)
          decreases |payload| - offset
        {
          var length := payload[offset] as int;
          if length == 0 {
            break;
          }
          if offset + length < |payload| && length > 63 {
            return true;
          }
          offset := offset + length + 1;
        }
      }
    }

    method AnalyzeDns(x: Input)
      requires Alerting() && clock == x.now && x.p.protocol == UDP
      modifies this`alerts, this`LastAlertTimes, this`Alerts, this`BlockedIPs, this`BlockedMACs
      ensures Alerting() && Book() == DnsStep(old(Book()), x)
    {
      if x.p.srcPort == 53 || x.p.dstPort == 53 {
        if |x.p.payload| > 12 {
          if x.p.payload[2] < 0x80 {
            var tunnel := FindLongLabel(x.p.payload);
            TriggerIf(x, tunnel, Strong(DnsTunneling, High, 1));
          } else {
            TriggerIf(x, x.p.srcInternal && x.p.src != x.cfg.gatewayIP && x.cfg.gatewayIP != "", Strong(DnsSpoofing, Critical, 1));
            TriggerIf(x, |x.p.payload| > 4096, Trigger(DnsTunneling, High, Medium, 1.0));
          }
        }
      }
    }

    method CountIcmp(x: Input) returns (rate: nat, hosts: nat)
      requires Busy(x) && Icmp in lag && (IsPing(x.p) ==> Sweep in lag)
      modifies this`log, this`Timestamps, this`LastSeen, this`lag
      ensures Busy(x) && lag == old(lag) - {Icmp, Sweep}
      ensures rate == Rate(tally, Icmp) && (IsPing(x.p) ==> hosts == tally(Sweep))
    {
      rate := CountPackets(Icmp, x);
      rate := rate / 3;
      hosts := 0;
      if IsPing(x.p) {
        hosts := CountItems(Sweep, x);
      } else {
        NotDue(Sweep, x);
      }
    }

    method IcmpAlerts(x: Input, rate: nat, hosts: nat)
      requires Alerting() && clock == x.now && x.p.protocol == ICMP
      requires rate == Rate(tally, Icmp) && (IsPing(x.p) ==> hosts == tally(Sweep))
      modifies this`alerts, this`LastAlertTimes, this`Alerts, this`BlockedIPs, this`BlockedMACs
      ensures Alerting() && Book() == IcmpStep(old(Book()), x, tally)
    {
      TriggerIf(x, rate > x.cfg.icmpThresh, Strong(IcmpFlood, Medium, rate));
      TriggerIf(x, |x.p.payload| > 65535, Strong(PingOfDeath, Critical, 1));
      TriggerIf(x, IsPing(x.p) && hosts > 10, Strong(IcmpSweep, Medium, hosts));
    }

    method AnalyzeIcmp(x: Input)
      requires Busy(x) && Alerting()
      requires x.p.protocol == ICMP ==> Icmp in lag && (IsPing(x.p) ==> Sweep in lag)
      modifies this`log, this`Timestamps, this`LastSeen, this`lag,
        this`alerts, this`LastAlertTimes, this`Alerts, this`BlockedIPs, this`BlockedMACs
      ensures Busy(x) && Alerting()
      ensures lag == old(lag) - {Icmp, Sweep}
      ensures Book() == IcmpStep(old(Book()), x, tally)
    {
      if x.p.protocol == ICMP {
        var rate, hosts := CountIcmp(x);
        IcmpAlerts(x, rate, hosts);
      } else {
        NotDue(Icmp, x);
        NotDue(Sweep, x);
      }
    }

    method AnalyzeDnsTraffic(x: Input)
      requires Busy(x) && Alerting() && (Counts(DnsReplies, x.p) ==> DnsReplies in lag) && x.p.protocol == UDP
      modifies this`log, this`Timestamps, this`LastSeen, this`lag,
        this`alerts, this`LastAlertTimes, this`Alerts, this`BlockedIPs, this`BlockedMACs
      ensures Busy(x) && Alerting() && lag == old(lag) - {DnsReplies}
      ensures Book() == DnsSteps(old(Book()), x, tally)
    {
      AnalyzeDnsReplies(x);
      AnalyzeDns(x);
    }

    method AnalyzeUdp(x: Input)
      requires Busy(x) && Alerting() && (x.p.protocol == UDP ==> Udp in lag)
      requires (IsDhcpDiscover(x.p) ==> DhcpMacs in lag) && (Counts(DnsReplies, x.p) ==> DnsReplies in lag)
      modifies this`log, this`Timestamps, this`LastSeen, this`lag,
        this`alerts, this`LastAlertTimes, this`Alerts, this`BlockedIPs, this`BlockedMACs
      ensures Busy(x) && Alerting() && lag == old(lag) - {Udp, DhcpMacs, DnsReplies}
      ensures Book() == UdpSteps(old(Book()), x, tally)
    {
      if x.p.protocol == UDP {
        AnalyzeUdpFlood(x);
        AnalyzeDhcp(x);
        AnalyzeDnsTraffic(x);
      } else {
        NotDue(Udp, x);
        NotDue(DhcpMacs, x);
        NotDue(DnsReplies, x);
      }
    }

    method AnalyzeLocal(x: Input)
      requires Busy(x) && Alerting() && (IsArp(x.p) ==> Arp in lag && Macs in lag) && (IsLateral(x.p) ==> Lateral in lag)
      modifies this`log, this`Timestamps, this`LastSeen, this`lag,
        this`alerts, this`LastAlertTimes, this`Alerts, this`BlockedIPs, this`BlockedMACs
      ensures Busy(x) && Alerting() && lag == old(lag) - {Arp, Macs, Lateral}
      ensures Book() == LocalSteps(old(Book()), x, tally)
    {
      AnalyzeArp(x);
      AnalyzeLateral(x);
    }

    method AnalyzePorts(x: Input) returns (uniquePortsRate: nat)
      requires Busy(x) && Alerting()
      requires IsSyn(x.p) ==> Syn in lag && (x.p.dstPort != 0 ==> Ports in lag) && (x.p.dstPort == 22 ==> Ssh in lag)
      modifies this`log, this`Timestamps, this`LastSeen, this`lag,
        this`alerts, this`LastAlertTimes, this`Alerts, this`BlockedIPs, this`BlockedMACs
      ensures Busy(x) && Alerting() && uniquePortsRate == PortsTried(x.p, tally)
      ensures lag == old(lag) - {Ports, Syn, Ssh}
      ensures Book() == TcpSteps(old(Book()), x, tally)
    {
      uniquePortsRate := AnalyzeTcp(x);
      TriggerIf(x, uniquePortsRate > x.cfg.portScanThresh, Strong(PortScan, High, uniquePortsRate));
    }

    method AnalyzeTraffic(x: Input)
      requires Busy(x) && Alerting() && (x.p.protocol == UDP ==> Udp in lag)
      requires (IsDhcpDiscover(x.p) ==> DhcpMacs in lag) && (Counts(DnsReplies, x.p) ==> DnsReplies in lag)
      requires x.p.protocol == ICMP ==> Icmp in lag && (IsPing(x.p) ==> Sweep in lag)
      modifies this`log, this`Timestamps, this`LastSeen, this`lag,
        this`alerts, this`LastAlertTimes, this`Alerts, this`BlockedIPs, this`BlockedMACs
      ensures Busy(x) && Alerting() && lag == old(lag) - {Udp, DhcpMacs, DnsReplies, Icmp, Sweep}
      ensures Book() == TrafficSteps(old(Book()), x, tally)
    {
      AnalyzeUdp(x);
      AnalyzeIcmp(x);
    }

    method AnalyzeHost(x: Input) returns (uniquePortsRate: nat)
      requires Busy(x) && Alerting() && (IsArp(x.p) ==> Arp in lag && Macs in lag) && (IsLateral(x.p) ==> Lateral in lag)
      requires IsSyn(x.p) ==> Syn in lag && (x.p.dstPort != 0 ==> Ports in lag) && (x.p.dstPort == 22 ==> Ssh in lag)
      modifies this`log, this`Timestamps, this`LastSeen, this`lag,
        this`alerts, this`LastAlertTimes, this`Alerts, this`BlockedIPs, this`BlockedMACs
      ensures Busy(x) && Alerting() && uniquePortsRate == PortsTried(x.p, tally)
      ensures lag == old(lag) - {Arp, Macs, Lateral, Ports, Syn, Ssh}
      ensures Book() == HostSteps(old(Book()), x, tally)
    {
      AnalyzeLocal(x);
      uniquePortsRate := AnalyzePorts(x);
    }

    method AnalyzeAll(x: Input) returns (uniquePortsRate: nat)
      requires Busy(x) && Alerting() && AreDue(x.p, lag)
      modifies this`log, this`Timestamps, this`LastSeen, this`lag,
        this`alerts, this`LastAlertTimes, this`Alerts, this`BlockedIPs, this`BlockedMACs
      ensures Busy(x) && Alerting() && uniquePortsRate == PortsTried(x.p, tally)
      ensures lag == old(lag) - {Arp, Macs, Lateral, Ports, Syn, Ssh} - {Udp, DhcpMacs, DnsReplies, Icmp, Sweep}
      ensures Book() == PacketSteps(old(Book()), x, tally)
    {
      uniquePortsRate := AnalyzeHost(x);
      AnalyzeTraffic(x);
    }

    method DosAlert(x: Input, packetRate: nat, recentScan: bool, uniquePortsRate: nat)
      requires Alerting() && clock == x.now && packetRate == Rate(tally, Packets) && uniquePortsRate == PortsTried(x.p, tally)
      modifies this`alerts, this`LastAlertTimes, this`Alerts, this`BlockedIPs, this`BlockedMACs
      ensures Alerting() && Book() == DosStep(old(Book()), x, tally, recentScan)
    {
      var isPortScan := recentScan;
      if uniquePortsRate > 5 {
        isPortScan := true;
      }
      TriggerIf(x, packetRate > x.cfg.susRate && !isPortScan, Strong(DosAttack, Critical, packetRate));
    }

    /** All detectors on a packet that counts. */
    method RunDetectors(x: Input)
      requires Busy(x) && Alerting() && Packets in lag && AreDue(x.p, lag - {Packets})
      modifies this`log, this`Timestamps, this`LastSeen, this`lag,
        this`alerts, this`LastAlertTimes, this`Alerts, this`BlockedIPs, this`BlockedMACs
      ensures Busy(x) && Alerting()
      ensures lag == old(lag) - {Packets} - {Arp, Macs, Lateral, Ports, Syn, Ssh} - {Udp, DhcpMacs, DnsReplies, Icmp, Sweep}
      ensures Book() == Detect(old(Book()), x, tally)
    {
      var n := CountPackets(Packets, x);
      var recentScan := IsThrottled(PortScan, x.p.src, x.now);
      var uniquePortsRate := AnalyzeAll(x);
      DosAlert(x, n / 3, recentScan, uniquePortsRate);
    }

    // ---- One packet ----

    /** Time passes. */
    ghost method Tick(now: Time)
      requires Sound() && clock <= now
      modifies this`clock
      ensures Sound() && clock == now
    {
      clock := now;
      forall c ensures Fits(c) {
        assert old(Fits(c));
      }
      forall part ensures Keeps(part) {
        assert old(Keeps(part));
      }
    }

    /** Puts the packet of `x` on record, for the windows in `due` to take in. */
    ghost method Put(x: Input, es: seq<Entry>, due: set<Kind>)
      requires Tables() && Agrees(log, es, due) && clock == x.now
      requires es != [] && es[|es| - 1].at == x.now && es[|es| - 1].p == x.p
      requires forall k :: k in due ==> Marks(es[|es| - 1], CellOf(k, x.p))
      modifies this`entries, this`lag, this`tally
      ensures Busy(x) && entries == es && lag == due && tally == TallyOf(es, x.p, x.now)
    {
      entries, lag, tally := es, due, TallyOf(es, x.p, x.now);
      forall k ensures Waiting(k, x) {
      }
    }

    /** MAC flooding is checked on every packet. */
    method Note(x: Input)
      requires Sound() && lag == {} && clock == x.now
      modifies this`log, this`LastSeen, this`Timestamps, this`entries, this`lag, this`tally,
        this`alerts, this`LastAlertTimes, this`Alerts, this`BlockedIPs, this`BlockedMACs
      ensures Sound() && lag == {} && Book() == Noted(old(Book()), x)
    {
      ghost var e := Entry(x.now, x.p, false);
      ghost var due := if x.p.mac != "" then {AllMacs} else {};
      EntryAdded(log, entries, e, entries + [e], due);
      Put(x, entries + [e], due);
      if x.p.mac != "" {
        var recentMACs := CountItems(AllMacs, x);
        TriggerIf(x, recentMACs > 100, Strong(MacFlooding, Critical, recentMACs));
      }
    }

    /** The packet is neither blocked nor loopback. */
    method AnalyzeCounted(x: Input, ghost before: seq<Entry>)
      requires Sound() && lag == {} && clock == x.now && entries == before + [Entry(x.now, x.p, false)]
      modifies this`log, this`LastSeen, this`Timestamps, this`entries, this`lag, this`tally,
        this`alerts, this`LastAlertTimes, this`Alerts, this`BlockedIPs, this`BlockedMACs
      ensures Sound() && lag == {} && Book() == Counted(old(Book()), x, before)
    {
      ghost var e := Entry(x.now, x.p, false);
      ghost var es := before + [e.(counted := true)];
      EntryCounts(log, before, e, entries, es, DueKinds(x.p));
      StillInOrder(entries, es, clock);
      DueOnes(x.p, DueKinds(x.p));
      Put(x, es, DueKinds(x.p));
      RunDetectors(x);
    }

    /** Whether the packet is skipped as coming from a blocked device. */
    method IsBlocked(x: Input) returns (skip: bool)
      modifies this`BlockedIPs
      ensures skip == Blocked(old(Book()), x)
      ensures Book() == if skip then Roamed(old(Book()), x) else old(Book())
    {
      skip := false;
      if x.cfg.mode == IPS {
        var ipBlocked := x.p.src in BlockedIPs;
        var macBlocked := x.p.mac in BlockedMACs;
        if macBlocked && !ipBlocked && x.p.mac != "" {
          var macBlock := BlockedMACs[x.p.mac];
          BlockedIPs := BlockedIPs[x.p.src := Block(x.p.mac, macBlock.expiresAt)];
          skip := true;
        } else if ipBlocked || macBlocked {
          skip := true;
        }
      }
    }

    method Analyze(x: Input)
      requires Sound() && lag == {} && clock == x.now
      modifies this`log, this`LastSeen, this`Timestamps, this`entries, this`lag, this`tally,
        this`alerts, this`LastAlertTimes, this`Alerts, this`BlockedIPs, this`BlockedMACs
      ensures Sound() && lag == {} && Book() == Analyzed(old(Book()), x)
    {
      if x.p.src == "" {
        return;
      }
      ghost var before := entries;
      Note(x);
      var skip := IsBlocked(x);
      if skip || x.p.loopback {
        return;
      }
      AnalyzeCounted(x, before);
    }

    ghost method Log(e: Event, before: Book)
      requires Sound() && lag == {} && before == Offline(history) && Book() == After(before, e)
      modifies this`history
      ensures Valid() && history == old(history) + [e]
    {
      history := history + [e];
      assert history[..|history| - 1] == old(history);
    }

    /** One packet. The clock may not run backwards. */
    method AnalyzePacket(x: Input)
      requires Valid() && clock <= x.now
      modifies this
      ensures Valid() && history == old(history) + [Arrive(x)] && clock == x.now
    {
      Tick(x.now);
      Analyze(x);
      Log(Arrive(x), old(Book()));
    }

    // ---- Blocks from elsewhere ----

    /** A block by an operator or another detector. */
    method BlockManually(now: Time, ip: string, mac: string, ttl: int)
      requires Valid()
      modifies this`BlockedIPs, this`BlockedMACs, this`history
      ensures Valid() && history == old(history) + [Manual(now, ip, mac, ttl)]
      ensures BlockedIPs == old(BlockedIPs)[ip := Block(mac, now + ttl as real)]
      ensures BlockedMACs == if mac == "" then old(BlockedMACs) else old(BlockedMACs)[mac := Block(mac, now + ttl as real)]
    {
      var ipBlock := Block(mac, now + ttl as real);
      BlockedIPs := BlockedIPs[ip := ipBlock];
      if mac != "" {
        BlockedMACs := BlockedMACs[mac := ipBlock];
      }
      Log(Manual(now, ip, mac, ttl), old(Book()));
    }

    /** An operator takes a block back. */
    method Unblock(ip: string)
      requires Valid()
      modifies this`BlockedIPs, this`BlockedMACs, this`history
      ensures Valid() && history == old(history) + [Release(ip)]
      ensures BlockedIPs == old(BlockedIPs) - {ip}
      ensures BlockedMACs == if ip in old(BlockedIPs) && old(BlockedIPs)[ip].mac != "" then old(BlockedMACs) - {old(BlockedIPs)[ip].mac} else old(BlockedMACs)
    {
      if ip in BlockedIPs {
        var mac := BlockedIPs[ip].mac;
        BlockedIPs := BlockedIPs - {ip};
        if mac != "" {
          BlockedMACs := BlockedMACs - {mac};
        }
      }
      Log(Release(ip), old(Book()));
    }

    method FindExpired(now: Time) returns (expiredIPs: set<string>, expiredMACs: set<string>)
      ensures expiredIPs == ExpiredIPs(Book(), now) && expiredMACs == ExpiredMACs(Book(), now)
    {
      expiredIPs, expiredMACs := {}, {};
      var ips := BlockedIPs.Keys;
      while ips != {}
        invariant ips <= BlockedIPs.Keys
        invariant expiredIPs == set ip | ip in BlockedIPs && ip !in ips && HasExpired(BlockedIPs[ip], now)
        invariant expiredMACs == set ip | ip in expiredIPs && BlockedIPs[ip].mac != "" :: BlockedIPs[ip].mac
        decreases |ips|
      {
        var ip :| ip in ips;
        var block := BlockedIPs[ip];
        if block.expiresAt > 0.0 && block.expiresAt <= now {
          expiredIPs := expiredIPs + {ip};
          if block.mac != "" {
            expiredMACs := expiredMACs + {block.mac};
          }
        }
        ips := ips - {ip};
      }
    }

    /** One round that ends the expired blocks. */
    method AutoUnblock(now: Time)
      requires Valid()
      modifies this`BlockedIPs, this`BlockedMACs, this`history
      ensures Valid() && history == old(history) + [AutoRelease(now)]
      ensures BlockedIPs == map ip | ip in old(BlockedIPs) && !(0.0 < old(BlockedIPs)[ip].expiresAt <= now) :: old(BlockedIPs)[ip]
    {
      var expiredIPs, expiredMACs := FindExpired(now);
      BlockedIPs := BlockedIPs - expiredIPs;
      BlockedMACs := BlockedMACs - expiredMACs;
      Log(AutoRelease(now), old(Book()));
    }

    /** The deletion alone, for an address and a device found earlier. */
    method DropBlock(ip: string, mac: string)
      requires Valid()
      modifies this`BlockedIPs, this`BlockedMACs, this`history
      ensures Valid() && history == old(history) + [Drop(ip, mac)]
      ensures BlockedIPs == old(BlockedIPs) - {ip} && BlockedMACs == if mac == "" then old(BlockedMACs) else old(BlockedMACs) - {mac}
    {
      BlockedIPs := BlockedIPs - {ip};
      if mac != "" {
        BlockedMACs := BlockedMACs - {mac};
      }
      Log(Drop(ip, mac), old(Book()));
    }

    // ---- The background cleaner ----

    /** A list whose last timestamp is over 300 seconds old. */
    static predicate LongAgo(ts: seq<Time>, now: Time) {
      ts == [] || now - ts[|ts| - 1] > 300.0
    }

    /** What the cleaner leaves of the lists, if those in `open` are still to come, and of the maps. */
    static function KeptStamps(m: map<Cell, seq<Time>>, now: Time, open: set<Cell>): map<Cell, seq<Time>> {
      map c | c in m && (c in open || !LongAgo(m[c], now)) :: m[c]
    }

    static function KeptItems(m: map<Cell, map<Item, Time>>, now: Time, open: set<Cell>): map<Cell, map<Item, Time>> {
      map c | c in m && (c in open || Young(m[c], now, 300.0) != map[]) :: if c in open then m[c] else Young(m[c], now, 300.0)
    }

    method ForgetStamps(c: Cell, now: Time)
      requires Tables() && now - 240.0 <= clock && c in Timestamps
      modifies this`Timestamps
      ensures Tables() && Timestamps == if LongAgo(old(Timestamps)[c], now) then old(Timestamps) - {c} else old(Timestamps)
    {
      var ts := Timestamps[c];
      assert Fits(c);
      if |ts| == 0 || now - ts[|ts| - 1] > 300.0 {
        Timestamps := Timestamps - {c};
      }
      forall d ensures Fits(d) {
        if d != c {
          assert old(Fits(d));
        }
      }
    }

    method ForgetItems(c: Cell, now: Time)
      requires Tables() && now - 240.0 <= clock && c in LastSeen
      modifies this`LastSeen
      ensures Tables()
      ensures LastSeen == if Young(old(LastSeen)[c], now, 300.0) == map[] then old(LastSeen) - {c} else old(LastSeen)[c := Young(old(LastSeen)[c], now, 300.0)]
    {
      assert Fits(c);
      var m := Expire(LastSeen[c], now, 300.0);
      if !IsStamp(c.kind) {
        SeenForgotten(LastSeen[c], log[c], Window(c.kind), now, 300.0, clock);
      }
      if m == map[] {
        LastSeen := LastSeen - {c};
      } else {
        LastSeen := LastSeen[c := m];
      }
      forall d ensures Fits(d) {
        if d != c {
          assert old(Fits(d));
        }
      }
    }

    method CleanStamps(now: Time)
      requires Tables() && now - 240.0 <= clock
      modifies this`Timestamps
      ensures Tables() && Timestamps == KeptStamps(old(Timestamps), now, {})
    {
      var cs := Timestamps.Keys;
      while cs != {}
        invariant Tables() && cs <= old(Timestamps).Keys && Timestamps == KeptStamps(old(Timestamps), now, cs)
        decreases |cs|
      {
        var c :| c in cs;
        ForgetStamps(c, now);
        cs := cs - {c};
      }
    }

    /** One map more has been gone through. */
    static lemma KeptItemsStep(m: map<Cell, map<Item, Time>>, now: Time, open: set<Cell>, c: Cell, r: map<Cell, map<Item, Time>>)
      requires c in open && open <= m.Keys
      requires var k := KeptItems(m, now, open); var y := Young(m[c], now, 300.0); r == if y == map[] then k - {c} else k[c := y]
      ensures r == KeptItems(m, now, open - {c})
    {
    }

    method CleanItems(now: Time)
      requires Tables() && now - 240.0 <= clock
      modifies this`LastSeen
      ensures Tables() && LastSeen == KeptItems(old(LastSeen), now, {})
    {
      var cs := LastSeen.Keys;
      while cs != {}
        invariant Tables() && cs <= old(LastSeen).Keys && LastSeen == KeptItems(old(LastSeen), now, cs)
        decreases |cs|
      {
        var c :| c in cs;
        ForgetItems(c, now);
        KeptItemsStep(old(LastSeen), now, cs, c, LastSeen);
        cs := cs - {c};
      }
    }

    method CleanAlerts(now: Time)
      requires Alerting() && now - 240.0 <= clock
      modifies this`LastAlertTimes
      ensures Alerting() && LastAlertTimes == Young(old(LastAlertTimes), now, 300.0)
    {
      assert Keeps(ThrottleTable);
      SeenForgotten(LastAlertTimes, AlertSightings(alerts), 30.0, now, 300.0, clock);
      LastAlertTimes := Expire(LastAlertTimes, now, 300.0);
      forall part ensures Keeps(part) {
        assert old(Keeps(part));
      }
    }

    method CleanAll(now: Time)
      requires Sound() && now - 240.0 <= clock
      modifies this`Timestamps, this`LastSeen, this`LastAlertTimes
      ensures Sound() && LastAlertTimes == Young(old(LastAlertTimes), now, 300.0)
      ensures Timestamps == KeptStamps(old(Timestamps), now, {}) && LastSeen == KeptItems(old(LastSeen), now, {})
    {
      CleanStamps(now);
      CleanItems(now);
      CleanAlerts(now);
    }

    /** One round of the cleaner: it forgets what is over 300 seconds old. The history and with it
        every alert, past and future, stay as they are. */
    method Cleanup(now: Time)
      requires Valid()
      modifies this`Timestamps, this`LastSeen, this`LastAlertTimes, this`clock
      ensures Valid() && clock == if now - 240.0 > old(clock) then now - 240.0 else old(clock)
      ensures Timestamps == KeptStamps(old(Timestamps), now, {}) && LastSeen == KeptItems(old(LastSeen), now, {})
      ensures LastAlertTimes == Young(old(LastAlertTimes), now, 300.0)
    {
      if now - 240.0 > clock {
        Tick(now - 240.0);
      }
      CleanAll(now);
    }
  }
}
