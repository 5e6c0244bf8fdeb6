/** The detectors report exactly what `Detectors` spells out: which alert is raised by which packet. */
module DetectorRuns {
  import opened Bytes
  import opened Common
  import opened Windows
  import opened HeuristicSpec
  import opened HeuristicRuns
  import opened Detectors

  // ---- The counts ----

  lemma CountIsLive(es: seq<Entry>, k: Kind, p: Packet, now: Time, s: set<nat>)
    requires IsStamp(k) && s == Live(es, CellOf(k, p), now, 3.0)
    ensures Count(es, k, p, now) == |s|
  {
    PacketsCounted(es, CellOf(k, p), now, 3.0);
  }

  lemma CountIsItems(es: seq<Entry>, k: Kind, p: Packet, now: Time, w: Time, items: set<Item>)
    requires !IsStamp(k) && w == Window(k) && items == ItemsOf(es, Live(es, CellOf(k, p), now, w), k)
    ensures Count(es, k, p, now) == |items|
  {
    ItemsCounted(es, CellOf(k, p), now, w);
  }

  function Named(s: set<string>): set<Item> {
    set y | y in s :: Name(y)
  }

  lemma {:induction false} NamedSize(s: set<string>)
    ensures |Named(s)| == |s|
    decreases |s|
  {
    if s != {} {
      var y :| y in s;
      NamedSize(s - {y});
      assert Named(s) == Named(s - {y}) + {Name(y)};
    }
  }

  function Numbered(s: set<nat>): set<Item> {
    set y | y in s :: Port(y)
  }

  lemma {:induction false} NumberedSize(s: set<nat>)
    ensures |Numbered(s)| == |s|
    decreases |s|
  {
    if s != {} {
      var y :| y in s;
      NumberedSize(s - {y});
      assert Numbered(s) == Numbered(s - {y}) + {Port(y)};
    }
  }

  lemma PacketCounts(es: seq<Entry>, x: Input)
    ensures Count(es, Packets, x.p, x.now) == |From(es, x, 3.0)|
    ensures ArpPacket(x.p) ==> Count(es, Arp, x.p, x.now) == |Arps(es, x)|
    ensures OpensConnection(x.p) ==> Count(es, Syn, x.p, x.now) == |Syns(es, x)|
    ensures OpensConnection(x.p) ==> Count(es, Ssh, x.p, x.now) == |Logins(es, x)|
  {
    CountIsLive(es, Packets, x.p, x.now, From(es, x, 3.0));
    CountIsLive(es, Arp, x.p, x.now, Arps(es, x));
    CountIsLive(es, Syn, x.p, x.now, Syns(es, x));
    CountIsLive(es, Ssh, x.p, x.now, Logins(es, x));
  }

  lemma TrafficCounts(es: seq<Entry>, x: Input)
    ensures Count(es, Udp, x.p, x.now) == |Datagrams(es, x)| && Count(es, Icmp, x.p, x.now) == |Pings(es, x)|
    ensures Count(es, DnsReplies, x.p, x.now) == |LargeReplies(es, x)|
  {
    CountIsLive(es, Udp, x.p, x.now, Datagrams(es, x));
    CountIsLive(es, Icmp, x.p, x.now, Pings(es, x));
    CountIsLive(es, DnsReplies, x.p, x.now, LargeReplies(es, x));
  }

  lemma SenderCount(es: seq<Entry>, x: Input)
    ensures Count(es, AllMacs, x.p, x.now) == |AllSenders(es, x)|
  {
    NamedSize(AllSenders(es, x));
    CountIsItems(es, AllMacs, x.p, x.now, 1.0, Named(AllSenders(es, x)));
  }

  lemma ClaimantCount(es: seq<Entry>, x: Input)
    ensures Count(es, Macs, x.p, x.now) == |Claimants(es, x)|
  {
    NamedSize(Claimants(es, x));
    CountIsItems(es, Macs, x.p, x.now, 60.0, Named(Claimants(es, x)));
  }

  lemma PortsCount(es: seq<Entry>, x: Input)
    ensures Count(es, Ports, x.p, x.now) == |OpenedPorts(es, x)|
  {
    NumberedSize(OpenedPorts(es, x));
    CountIsItems(es, Ports, x.p, x.now, 3.0, Numbered(OpenedPorts(es, x)));
  }

  lemma NeighbourCount(es: seq<Entry>, x: Input)
    ensures Count(es, Lateral, x.p, x.now) == |Neighbours(es, x)|
  {
    NumberedSize(Neighbours(es, x));
    CountIsItems(es, Lateral, x.p, x.now, 60.0, Numbered(Neighbours(es, x)));
  }

  lemma PingedCount(es: seq<Entry>, x: Input)
    ensures Count(es, Sweep, x.p, x.now) == |PingedHosts(es, x)|
  {
    NamedSize(PingedHosts(es, x));
    CountIsItems(es, Sweep, x.p, x.now, 10.0, Named(PingedHosts(es, x)));
  }

  lemma RequesterCount(es: seq<Entry>, x: Input)
    ensures Count(es, DhcpMacs, x.p, x.now) == |Requesters(es, x)|
  {
    NamedSize(Requesters(es, x));
    CountIsItems(es, DhcpMacs, x.p, x.now, 10.0, Named(Requesters(es, x)));
  }

  // ---- The detectors, rule by rule ----

  /** The book after rule `r` has had its say. */
  ghost function RaiseRule(b: Book, x: Input, es: seq<Entry>, scanned: bool, r: Rule): Book {
    match Says(r, es, x, scanned)
    case Some(t) => Raise(b, x, t)
    case None => b
  }

  ghost function RaiseRules(b: Book, x: Input, es: seq<Entry>, scanned: bool, rules: seq<Rule>): Book {
    if rules == [] then b else
      RaiseRule(RaiseRules(b, x, es, scanned, rules[..|rules| - 1]), x, es, scanned, rules[|rules| - 1])
  }

  lemma NextRule(b: Book, x: Input, es: seq<Entry>, scanned: bool, rules: seq<Rule>, r: Rule, all: seq<Rule>)
    requires all == rules + [r]
    ensures RaiseRules(b, x, es, scanned, all) == RaiseRule(RaiseRules(b, x, es, scanned, rules), x, es, scanned, r)
  {
    assert all[..|all| - 1] == rules;
  }

  lemma MacIsRule(b: Book, x: Input, es: seq<Entry>, scanned: bool)
    ensures MacStep(b, x, TallyOf(es, x.p, x.now)) == RaiseRule(b, x, es, scanned, MacFlooding)
  {
    SenderCount(es, x);
  }

  lemma ArpIsRules(b: Book, x: Input, es: seq<Entry>, scanned: bool)
    ensures var b1 := RaiseRule(b, x, es, scanned, ArpSpoofing);
      var b2 := RaiseRule(b1, x, es, scanned, ArpFlood);
      ArpStep(b, x, TallyOf(es, x.p, x.now)) == RaiseRule(b2, x, es, scanned, GratuitousArp)
  {
    PacketCounts(es, x);
    ClaimantCount(es, x);
  }

  lemma LateralIsRule(b: Book, x: Input, es: seq<Entry>, scanned: bool)
    ensures LateralStep(b, x, TallyOf(es, x.p, x.now)) == RaiseRule(b, x, es, scanned, LateralMovement)
  {
    NeighbourCount(es, x);
  }

  lemma PortCountIs(es: seq<Entry>, x: Input)
    ensures PortsTried(x.p, TallyOf(es, x.p, x.now)) == PortCount(es, x)
  {
    PortsCount(es, x);
  }

  /** A rule that speaks under a condition. */
  lemma RuleIsRaiseIf(b: Book, x: Input, es: seq<Entry>, scanned: bool, r: Rule, cond: bool, t: Trigger)
    requires Says(r, es, x, scanned) == if cond then Some(t) else None
    ensures RaiseRule(b, x, es, scanned, r) == RaiseIf(b, x, cond, t)
  {
  }

  lemma SynFloodSays(x: Input, es: seq<Entry>, scanned: bool, syns: nat, ports: nat)
    requires OpensConnection(x.p) && syns == |Syns(es, x)| && ports == PortCount(es, x)
    ensures Says(SynFlood, es, x, scanned) ==
      if syns >= x.cfg.synThresh && ports <= 5 then Some(Trigger(SynFlood, High, High, PerSecond(syns))) else None
  {
  }

  lemma SshSays(x: Input, es: seq<Entry>, scanned: bool, logins: nat)
    requires OpensConnection(x.p) && logins == |Logins(es, x)|
    ensures Says(SshBruteForce, es, x, scanned) ==
      if x.p.dstPort == 22 && logins / 3 > x.cfg.sshThresh then Some(Strong(SshBruteForce, Critical, logins / 3)) else None
  {
  }

  lemma NoSynSays(x: Input, es: seq<Entry>, scanned: bool)
    requires !OpensConnection(x.p)
    ensures Says(SynFlood, es, x, scanned).None? && Says(SshBruteForce, es, x, scanned).None?
  {
  }

  lemma SynIsRules(b: Book, x: Input, es: seq<Entry>, scanned: bool)
    ensures var b1 := RaiseRule(b, x, es, scanned, SynFlood);
      SynStep(b, x, TallyOf(es, x.p, x.now)) == RaiseRule(b1, x, es, scanned, SshBruteForce)
  {
    var n, b1 := TallyOf(es, x.p, x.now), RaiseRule(b, x, es, scanned, SynFlood);
    if OpensConnection(x.p) {
      PacketCounts(es, x);
      PortCountIs(es, x);
      SynFloodSays(x, es, scanned, n(Syn), PortsTried(x.p, n));
      SshSays(x, es, scanned, n(Ssh));
      RuleIsRaiseIf(b, x, es, scanned, SynFlood, n(Syn) >= x.cfg.synThresh && PortsTried(x.p, n) <= 5, Trigger(SynFlood, High, High, PerSecond(n(Syn))));
      RuleIsRaiseIf(b1, x, es, scanned, SshBruteForce, x.p.dstPort == 22 && Rate(n, Ssh) > x.cfg.sshThresh, Strong(SshBruteForce, Critical, Rate(n, Ssh)));
    } else {
      NoSynSays(x, es, scanned);
    }
  }

  lemma ScanIsRule(b: Book, x: Input, es: seq<Entry>, scanned: bool)
    ensures ScanStep(b, x, TallyOf(es, x.p, x.now)) == RaiseRule(b, x, es, scanned, PortScan)
  {
    PortCountIs(es, x);
  }

  lemma UdpIsRule(b: Book, x: Input, es: seq<Entry>, scanned: bool)
    requires x.p.protocol == UDP
    ensures UdpStep(b, x, TallyOf(es, x.p, x.now)) == RaiseRule(b, x, es, scanned, UdpFlood)
  {
    TrafficCounts(es, x);
  }

  lemma DhcpIsRules(b: Book, x: Input, es: seq<Entry>, scanned: bool)
    ensures var b1 := RaiseRule(b, x, es, scanned, DhcpStarvation);
      DhcpStep(b, x, TallyOf(es, x.p, x.now)) == RaiseRule(b1, x, es, scanned, RogueDhcp)
  {
    RequesterCount(es, x);
  }

  lemma {:induction false} LongLabelIff(payload: Bytes, from: nat)
    ensures LongLabel(payload, from) <==> HasLongLabel(payload, from)
    decreases |payload| - from
  {
    if from < |payload| && payload[from] != 0 {
      var next := from + payload[from] + 1;
      LongLabelIff(payload, next);
      if from + payload[from] < |payload| && payload[from] > 63 {
        assert WalkToLongLabel(payload, [from], from);
      } else if labels :| WalkToLongLabel(payload, labels, next) {
        assert WalkToLongLabel(payload, [from] + labels, from);
      } else if labels :| WalkToLongLabel(payload, labels, from) {
        assert |labels| > 1;
        assert WalkToLongLabel(payload, labels[1..], next);
      }
    }
  }

  lemma DnsIsRules(b: Book, x: Input, es: seq<Entry>, scanned: bool)
    ensures var b1 := RaiseRule(b, x, es, scanned, DnsSpoofing);
      DnsStep(b, x) == RaiseRule(b1, x, es, scanned, DnsTunneling)
  {
    LongLabelIff(x.p.payload, 12);
  }

  lemma DnsReplyIsRule(b: Book, x: Input, es: seq<Entry>, scanned: bool)
    ensures DnsReplyStep(b, x, TallyOf(es, x.p, x.now)) == RaiseRule(b, x, es, scanned, DnsAmplification)
  {
    TrafficCounts(es, x);
  }

  lemma IcmpSays(x: Input, es: seq<Entry>, scanned: bool, pings: nat, hosts: nat)
    requires x.p.protocol == ICMP && pings == |Pings(es, x)| && hosts == |PingedHosts(es, x)|
    ensures Says(IcmpFlood, es, x, scanned) == if pings / 3 > x.cfg.icmpThresh then Some(Strong(IcmpFlood, Medium, pings / 3)) else None
    ensures Says(PingOfDeath, es, x, scanned) == if |x.p.payload| > 65535 then Some(Strong(PingOfDeath, Critical, 1)) else None
    ensures Says(IcmpSweep, es, x, scanned) == if IsPing(x.p) && hosts > 10 then Some(Strong(IcmpSweep, Medium, hosts)) else None
  {
  }

  lemma NoIcmpSays(x: Input, es: seq<Entry>, scanned: bool)
    requires x.p.protocol != ICMP
    ensures Says(IcmpFlood, es, x, scanned).None? && Says(PingOfDeath, es, x, scanned).None? && Says(IcmpSweep, es, x, scanned).None?
  {
  }

  lemma IcmpIsRules(b: Book, x: Input, es: seq<Entry>, scanned: bool)
    ensures var b1 := RaiseRule(b, x, es, scanned, IcmpFlood);
      var b2 := RaiseRule(b1, x, es, scanned, PingOfDeath);
      IcmpStep(b, x, TallyOf(es, x.p, x.now)) == RaiseRule(b2, x, es, scanned, IcmpSweep)
  {
    var n, b1 := TallyOf(es, x.p, x.now), RaiseRule(b, x, es, scanned, IcmpFlood);
    var b2 := RaiseRule(b1, x, es, scanned, PingOfDeath);
    if x.p.protocol == ICMP {
      TrafficCounts(es, x);
      PingedCount(es, x);
      IcmpSays(x, es, scanned, n(Icmp), n(Sweep));
      RuleIsRaiseIf(b, x, es, scanned, IcmpFlood, Rate(n, Icmp) > x.cfg.icmpThresh, Strong(IcmpFlood, Medium, Rate(n, Icmp)));
      RuleIsRaiseIf(b1, x, es, scanned, PingOfDeath, |x.p.payload| > 65535, Strong(PingOfDeath, Critical, 1));
      RuleIsRaiseIf(b2, x, es, scanned, IcmpSweep, IsPing(x.p) && n(Sweep) > 10, Strong(IcmpSweep, Medium, n(Sweep)));
    } else {
      NoIcmpSays(x, es, scanned);
    }
  }

  lemma DosIsRule(b: Book, x: Input, es: seq<Entry>, scanned: bool)
    ensures DosStep(b, x, TallyOf(es, x.p, x.now), scanned) == RaiseRule(b, x, es, scanned, DosAttack)
  {
    PacketCounts(es, x);
    PortCountIs(es, x);
  }

  // ---- All rules, in order ----

  lemma TwoRules(b: Book, x: Input, es: seq<Entry>, scanned: bool, r: Rule, s: Rule)
    ensures RaiseRules(b, x, es, scanned, [r]) == RaiseRule(b, x, es, scanned, r)
    ensures RaiseRules(b, x, es, scanned, [r, s]) == RaiseRule(RaiseRule(b, x, es, scanned, r), x, es, scanned, s)
  {
    NextRule(b, x, es, scanned, [], r, [r]);
    NextRule(b, x, es, scanned, [r], s, [r, s]);
  }

  lemma {:induction false} RulesJoin(b: Book, x: Input, es: seq<Entry>, scanned: bool, r: seq<Rule>, s: seq<Rule>)
    ensures RaiseRules(b, x, es, scanned, r + s) == RaiseRules(RaiseRules(b, x, es, scanned, r), x, es, scanned, s)
  {
    if s == [] {
      assert r + s == r;
    } else {
      var n := |s| - 1;
      RulesJoin(b, x, es, scanned, r, s[..n]);
      assert r + s == r + s[..n] + [s[n]] && s == s[..n] + [s[n]];
      NextRule(b, x, es, scanned, r + s[..n], s[n], r + s);
    }
  }

  const LOCAL_RULES := [ArpSpoofing, ArpFlood] + [GratuitousArp, LateralMovement]
  const TCP_RULES := [SynFlood, SshBruteForce] + [PortScan]
  const UDP_RULES := [UdpFlood] + [DhcpStarvation, RogueDhcp] + [DnsAmplification] + [DnsSpoofing, DnsTunneling]
  const ICMP_RULES := [IcmpFlood, PingOfDeath] + [IcmpSweep]
  const ALL_RULES := LOCAL_RULES + TCP_RULES + (UDP_RULES + ICMP_RULES) + [DosAttack]

  lemma LocalIsRules(b: Book, x: Input, es: seq<Entry>, scanned: bool)
    ensures LocalSteps(b, x, TallyOf(es, x.p, x.now)) == RaiseRules(b, x, es, scanned, LOCAL_RULES)
  {
    var b2 := RaiseRules(b, x, es, scanned, [ArpSpoofing, ArpFlood]);
    ArpIsRules(b, x, es, scanned);
    LateralIsRule(ArpStep(b, x, TallyOf(es, x.p, x.now)), x, es, scanned);
    TwoRules(b, x, es, scanned, ArpSpoofing, ArpFlood);
    TwoRules(b2, x, es, scanned, GratuitousArp, LateralMovement);
    RulesJoin(b, x, es, scanned, [ArpSpoofing, ArpFlood], [GratuitousArp, LateralMovement]);
  }

  lemma TcpIsRules(b: Book, x: Input, es: seq<Entry>, scanned: bool)
    ensures TcpSteps(b, x, TallyOf(es, x.p, x.now)) == RaiseRules(b, x, es, scanned, TCP_RULES)
  {
    var b2 := RaiseRules(b, x, es, scanned, [SynFlood, SshBruteForce]);
    SynIsRules(b, x, es, scanned);
    ScanIsRule(b2, x, es, scanned);
    TwoRules(b, x, es, scanned, SynFlood, SshBruteForce);
    TwoRules(b2, x, es, scanned, PortScan, PortScan);
    RulesJoin(b, x, es, scanned, [SynFlood, SshBruteForce], [PortScan]);
  }

  lemma NoUdpSays(x: Input, es: seq<Entry>, scanned: bool)
    requires x.p.protocol != UDP
    ensures Says(UdpFlood, es, x, scanned).None? && Says(DhcpStarvation, es, x, scanned).None? && Says(RogueDhcp, es, x, scanned).None?
    ensures Says(DnsAmplification, es, x, scanned).None? && Says(DnsSpoofing, es, x, scanned).None? && Says(DnsTunneling, es, x, scanned).None?
  {
  }

  lemma UdpInTurn(b: Book, x: Input, es: seq<Entry>, scanned: bool) returns (b1: Book, b2: Book, b3: Book)
    ensures b1 == RaiseRules(b, x, es, scanned, [UdpFlood]) == RaiseRule(b, x, es, scanned, UdpFlood)
    ensures b2 == RaiseRules(b1, x, es, scanned, [DhcpStarvation, RogueDhcp])
      == RaiseRule(RaiseRule(b1, x, es, scanned, DhcpStarvation), x, es, scanned, RogueDhcp)
    ensures b3 == RaiseRules(b2, x, es, scanned, [DnsAmplification]) == RaiseRule(b2, x, es, scanned, DnsAmplification)
    ensures RaiseRules(b, x, es, scanned, UDP_RULES) == RaiseRules(b3, x, es, scanned, [DnsSpoofing, DnsTunneling])
      == RaiseRule(RaiseRule(b3, x, es, scanned, DnsSpoofing), x, es, scanned, DnsTunneling)
  {
    b1 := RaiseRules(b, x, es, scanned, [UdpFlood]);
    b2 := RaiseRules(b1, x, es, scanned, [DhcpStarvation, RogueDhcp]);
    b3 := RaiseRules(b2, x, es, scanned, [DnsAmplification]);
    TwoRules(b, x, es, scanned, UdpFlood, UdpFlood);
    TwoRules(b1, x, es, scanned, DhcpStarvation, RogueDhcp);
    TwoRules(b2, x, es, scanned, DnsAmplification, DnsAmplification);
    TwoRules(b3, x, es, scanned, DnsSpoofing, DnsTunneling);
    RulesJoin(b, x, es, scanned, [UdpFlood], [DhcpStarvation, RogueDhcp]);
    RulesJoin(b, x, es, scanned, [UdpFlood] + [DhcpStarvation, RogueDhcp], [DnsAmplification]);
    RulesJoin(b, x, es, scanned, [UdpFlood] + [DhcpStarvation, RogueDhcp] + [DnsAmplification], [DnsSpoofing, DnsTunneling]);
  }

  lemma UdpIsRules(b: Book, x: Input, es: seq<Entry>, scanned: bool)
    ensures UdpSteps(b, x, TallyOf(es, x.p, x.now)) == RaiseRules(b, x, es, scanned, UDP_RULES)
  {
    var b1, b2, b3 := UdpInTurn(b, x, es, scanned);
    if x.p.protocol == UDP {
      UdpIsRule(b, x, es, scanned);
      DhcpIsRules(b1, x, es, scanned);
      DnsReplyIsRule(b2, x, es, scanned);
      DnsIsRules(b3, x, es, scanned);
    } else {
      NoUdpSays(x, es, scanned);
    }
  }

  lemma IcmpIsAllRules(b: Book, x: Input, es: seq<Entry>, scanned: bool)
    ensures IcmpStep(b, x, TallyOf(es, x.p, x.now)) == RaiseRules(b, x, es, scanned, ICMP_RULES)
  {
    var b2 := RaiseRules(b, x, es, scanned, [IcmpFlood, PingOfDeath]);
    IcmpIsRules(b, x, es, scanned);
    TwoRules(b, x, es, scanned, IcmpFlood, PingOfDeath);
    TwoRules(b2, x, es, scanned, IcmpSweep, IcmpSweep);
    RulesJoin(b, x, es, scanned, [IcmpFlood, PingOfDeath], [IcmpSweep]);
  }

  lemma PacketIsRules(b: Book, x: Input, es: seq<Entry>, scanned: bool)
    ensures PacketSteps(b, x, TallyOf(es, x.p, x.now)) == RaiseRules(b, x, es, scanned, LOCAL_RULES + TCP_RULES + (UDP_RULES + ICMP_RULES))
  {
    var n := TallyOf(es, x.p, x.now);
    var b1 := LocalSteps(b, x, n);
    var b2 := TcpSteps(b1, x, n);
    LocalIsRules(b, x, es, scanned);
    TcpIsRules(b1, x, es, scanned);
    UdpIsRules(b2, x, es, scanned);
    IcmpIsAllRules(UdpSteps(b2, x, n), x, es, scanned);
    RulesJoin(b, x, es, scanned, LOCAL_RULES, TCP_RULES);
    RulesJoin(b2, x, es, scanned, UDP_RULES, ICMP_RULES);
    RulesJoin(b, x, es, scanned, LOCAL_RULES + TCP_RULES, UDP_RULES + ICMP_RULES);
  }

  lemma DetectIsRules(b: Book, x: Input, es: seq<Entry>, scanned: bool)
    requires scanned == Throttled(b.alerts, PortScan, x.p.src, x.now)
    ensures Detect(b, x, TallyOf(es, x.p, x.now)) == RaiseRules(b, x, es, scanned, ALL_RULES)
  {
    PacketIsRules(b, x, es, scanned);
    DosIsRule(PacketSteps(b, x, TallyOf(es, x.p, x.now)), x, es, scanned);
    NextRule(b, x, es, scanned, LOCAL_RULES + TCP_RULES + (UDP_RULES + ICMP_RULES), DosAttack, ALL_RULES);
  }

  // ---- What a list of rules adds ----

  /** The alerts that `b'` has more than `b` are what the rules `rules` say, each rule at most once, and none is
      left out that was not reported of the source in the last 30 seconds. */
  ghost predicate AddsReports(b: Book, x: Input, es: seq<Entry>, scanned: bool, rules: seq<Rule>, b': Book) {
    && b.alerts <= b'.alerts
    && (forall i :: |b.alerts| <= i < |b'.alerts| ==> IsReport(b, x, es, scanned, rules, b'.alerts[i]))
    && (forall i, j :: |b.alerts| <= i < j < |b'.alerts| ==> b'.alerts[i].trigger.rule != b'.alerts[j].trigger.rule)
    && (forall r :: r in rules && Says(r, es, x, scanned).Some? && !Throttled(b.alerts, r, x.p.src, x.now) ==> IsReported(b, b', r))
  }

  ghost predicate IsReport(b: Book, x: Input, es: seq<Entry>, scanned: bool, rules: seq<Rule>, a: Alert) {
    && a.trigger.rule in rules && Says(a.trigger.rule, es, x, scanned) == Some(a.trigger)
    && a == AlertOf(x, a.trigger) && !Throttled(b.alerts, a.trigger.rule, x.p.src, x.now)
  }

  ghost predicate IsReported(b: Book, b': Book, r: Rule) {
    exists i :: |b.alerts| <= i < |b'.alerts| && b'.alerts[i].trigger.rule == r
  }

  /** A rule that has added nothing is throttled by what was there. */
  lemma ThrottledStays(b: Book, x: Input, b': Book, r: Rule)
    requires b.alerts <= b'.alerts && !IsReported(b, b', r)
    ensures Throttled(b'.alerts, r, x.p.src, x.now) <==> Throttled(b.alerts, r, x.p.src, x.now)
  {
    if Throttled(b.alerts, r, x.p.src, x.now) {
      var i :| 0 <= i < |b.alerts| && b.alerts[i].trigger.rule == r && b.alerts[i].src == x.p.src && x.now - b.alerts[i].at < 30.0;
      assert b'.alerts[i] == b.alerts[i];
    }
    if Throttled(b'.alerts, r, x.p.src, x.now) {
      var i :| 0 <= i < |b'.alerts| && b'.alerts[i].trigger.rule == r && b'.alerts[i].src == x.p.src && x.now - b'.alerts[i].at < 30.0;
      assert i < |b.alerts|;
      assert b'.alerts[i] == b.alerts[i];
    }
  }

  lemma SaysOwnRule(r: Rule, es: seq<Entry>, x: Input, scanned: bool)
    ensures Says(r, es, x, scanned).Some? ==> Says(r, es, x, scanned).value.rule == r
  {
  }

  /** One rule more, that has not spoken yet. */
  lemma OneMoreReport(b: Book, x: Input, es: seq<Entry>, scanned: bool, rules: seq<Rule>, m: Book, r: Rule, all: seq<Rule>)
    requires AddsReports(b, x, es, scanned, rules, m) && all == rules + [r] && r !in rules
    ensures AddsReports(b, x, es, scanned, all, RaiseRule(m, x, es, scanned, r))
  {
    var b' := RaiseRule(m, x, es, scanned, r);
    assert !IsReported(b, m, r);
    ThrottledStays(b, x, m, r);
    SaysOwnRule(r, es, x, scanned);
    forall q | IsReported(b, m, q) ensures IsReported(b, b', q) {
      var i :| |b.alerts| <= i < |m.alerts| && m.alerts[i].trigger.rule == q;
      assert b'.alerts[i] == m.alerts[i];
    }
    if b' != m {
      assert b'.alerts[|m.alerts|].trigger.rule == r;
    }
  }

  lemma {:induction false} RulesAddReports(b: Book, x: Input, es: seq<Entry>, scanned: bool, rules: seq<Rule>)
    requires Distinct(rules)
    ensures AddsReports(b, x, es, scanned, rules, RaiseRules(b, x, es, scanned, rules))
  {
    if rules != [] {
      var n := |rules| - 1;
      RulesAddReports(b, x, es, scanned, rules[..n]);
      OneMoreReport(b, x, es, scanned, rules[..n], RaiseRules(b, x, es, scanned, rules[..n]), rules[n], rules);
    }
  }

  // ---- What a list of rules blocks ----

  ghost predicate Confirms(b: Book, b': Book) {
    exists i :: |b.alerts| <= i < |b'.alerts| && b'.alerts[i].outcome == BlockConfirmed
  }

  /** The source and its device are blocked exactly if the firewall confirmed it for one of the new alerts. */
  ghost predicate BlocksFollow(b: Book, x: Input, b': Book) {
    && b.alerts <= b'.alerts
    && b'.blockedIPs == (if Confirms(b, b') then b.blockedIPs[x.p.src := NewBlock(x)] else b.blockedIPs)
    && b'.blockedMACs == (if Confirms(b, b') && x.p.mac != "" then b.blockedMACs[x.p.mac := NewBlock(x)] else b.blockedMACs)
  }

  lemma OneMoreBlock(b: Book, x: Input, m: Book, t: Trigger)
    requires BlocksFollow(b, x, m)
    ensures BlocksFollow(b, x, Raise(m, x, t))
  {
    var b' := Raise(m, x, t);
    if b' != m {
      var n := |m.alerts|;
      assert b'.alerts[n] == AlertOf(x, t);
      if Confirms(b, m) {
        var i :| |b.alerts| <= i < |m.alerts| && m.alerts[i].outcome == BlockConfirmed;
        assert b'.alerts[i] == m.alerts[i];
      }
      if Confirms(b, b') && OutcomeOf(x, t) != BlockConfirmed {
        var i :| |b.alerts| <= i < |b'.alerts| && b'.alerts[i].outcome == BlockConfirmed;
        assert b'.alerts[i] == m.alerts[i];
      }
    }
  }

  lemma {:induction false} RulesBlock(b: Book, x: Input, es: seq<Entry>, scanned: bool, rules: seq<Rule>)
    ensures BlocksFollow(b, x, RaiseRules(b, x, es, scanned, rules))
  {
    if rules != [] {
      var n := |rules| - 1;
      RulesBlock(b, x, es, scanned, rules[..n]);
      if Says(rules[n], es, x, scanned).Some? {
        OneMoreBlock(b, x, RaiseRules(b, x, es, scanned, rules[..n]), Says(rules[n], es, x, scanned).value);
      }
    }
  }

  // ---- One packet ----

  lemma ThrottledIsRecently(alerts: seq<Alert>)
    ensures forall r, src, now :: Throttled(alerts, r, src, now) <==> Recently(alerts, r, src, now)
  {
  }

  /** Whether the last packet was skipped does not matter to MAC flooding, nor what is said of port scans. */
  lemma MacSaysTheSame(es: seq<Entry>, e: Entry, x: Input, counted: bool, scanned: bool, scanned': bool)
    ensures Says(MacFlooding, es + [e], x, scanned) == Says(MacFlooding, es + [e.(counted := counted)], x, scanned')
  {
    var a, b := es + [e], es + [e.(counted := counted)];
    forall mac ensures mac in AllSenders(a, x) <==> mac in AllSenders(b, x) {
      if mac in AllSenders(a, x) {
        var i: nat :| i < |a| && a[i].p.mac != "" && x.now - a[i].at <= 1.0 && a[i].p.mac == mac;
        assert b[i].p == a[i].p && b[i].at == a[i].at;
      }
      if mac in AllSenders(b, x) {
        var i: nat :| i < |b| && b[i].p.mac != "" && x.now - b[i].at <= 1.0 && b[i].p.mac == mac;
        assert b[i].p == a[i].p && b[i].at == a[i].at;
      }
    }
    assert AllSenders(a, x) == AllSenders(b, x);
  }

  const MAC_RULE := [MacFlooding]

  /** The record with the packet, and the book after MAC flooding has been checked on it. */
  lemma NotedIsRule(b: Book, x: Input, counted: bool, scanned: bool)
    ensures var es := b.entries + [Entry(x.now, x.p, counted)];
      Noted(b, x).(entries := es) == RaiseRules(b.(entries := es), x, es, scanned, MAC_RULE)
  {
    var e := Entry(x.now, x.p, false);
    var es1, es := b.entries + [e], b.entries + [Entry(x.now, x.p, counted)];
    MacIsRule(b.(entries := es1), x, es1, scanned);
    MacSaysTheSame(b.entries, e, x, counted, scanned, scanned);
    TwoRules(b.(entries := es), x, es, scanned, MacFlooding, MacFlooding);
  }

  lemma MacOnly(b: Book, x: Input, es: seq<Entry>, scanned: bool, m: Book)
    requires AddsReports(b, x, es, scanned, MAC_RULE, m)
    ensures Throttled(m.alerts, PortScan, x.p.src, x.now) <==> Throttled(b.alerts, PortScan, x.p.src, x.now)
  {
    assert !IsReported(b, m, PortScan);
    ThrottledStays(b, x, m, PortScan);
  }

  function Place(r: Rule): nat {
    match r
    case MacFlooding => 0
    case ArpSpoofing => 1
    case ArpFlood => 2
    case GratuitousArp => 3
    case LateralMovement => 4
    case SynFlood => 5
    case SshBruteForce => 6
    case PortScan => 7
    case UdpFlood => 8
    case DhcpStarvation => 9
    case RogueDhcp => 10
    case DnsAmplification => 11
    case DnsSpoofing => 12
    case DnsTunneling => 13
    case IcmpFlood => 14
    case PingOfDeath => 15
    case IcmpSweep => 16
    case DosAttack => 17
  }

  lemma RulesInOrder(all: seq<Rule>)
    requires all == MAC_RULE + ALL_RULES
    ensures |all| == 18 && forall i :: 0 <= i < |all| ==> Place(all[i]) == i
  {
  }

  lemma SamePlace(r: Rule, s: Rule)
    requires Place(r) == Place(s)
    ensures r == s
  {
  }

  lemma RulesAreDistinct()
    ensures Distinct(MAC_RULE) && Distinct(MAC_RULE + ALL_RULES)
    ensures forall r :: r in MAC_RULE + ALL_RULES
  {
    var all := MAC_RULE + ALL_RULES;
    RulesInOrder(all);
    forall r ensures r in all {
      SamePlace(r, all[Place(r)]);
    }
  }

  /** The rules that are examined, and the book after they have spoken. */
  ghost predicate Examined(b: Book, x: Input, es: seq<Entry>, rules: seq<Rule>, b': Book) {
    var scanned := Throttled(b.alerts, PortScan, x.p.src, x.now);
    AddsReports(b, x, es, scanned, rules, b') && BlocksFollow(b, x, b')
  }

  lemma RulesExamined(b: Book, b0: Book, x: Input, es: seq<Entry>, scanned: bool, rules: seq<Rule>, b': Book)
    requires b0 == b.(entries := es) && scanned == Throttled(b.alerts, PortScan, x.p.src, x.now) && Distinct(rules)
    requires b'.(entries := es) == RaiseRules(b0, x, es, scanned, rules)
    ensures Examined(b, x, es, rules, b')
  {
    RulesAddReports(b0, x, es, scanned, rules);
    RulesBlock(b0, x, es, scanned, rules);
  }

  lemma NotedExamined(b: Book, x: Input, counted: bool)
    ensures Examined(b, x, b.entries + [Entry(x.now, x.p, counted)], MAC_RULE, Noted(b, x))
  {
    var es, scanned := b.entries + [Entry(x.now, x.p, counted)], Throttled(b.alerts, PortScan, x.p.src, x.now);
    NotedIsRule(b, x, counted, scanned);
    RulesAreDistinct();
    RulesExamined(b, b.(entries := es), x, es, scanned, MAC_RULE, Noted(b, x));
  }

  lemma {:induction false} RulesKeepEntries(b: Book, x: Input, es: seq<Entry>, scanned: bool, rules: seq<Rule>)
    ensures RaiseRules(b, x, es, scanned, rules).entries == b.entries
  {
    if rules != [] {
      RulesKeepEntries(b, x, es, scanned, rules[..|rules| - 1]);
    }
  }

  lemma CountedIsRules(b: Book, x: Input, es: seq<Entry>, scanned: bool)
    requires es == b.entries + [Entry(x.now, x.p, true)] && scanned == Throttled(b.alerts, PortScan, x.p.src, x.now)
    ensures Counted(Noted(b, x), x, b.entries) == RaiseRules(b.(entries := es), x, es, scanned, MAC_RULE + ALL_RULES)
  {
    NotedIsRule(b, x, true, scanned);
    NotedExamined(b, x, true);
    MacOnly(b, x, es, scanned, Noted(b, x));
    DetectIsRules(Noted(b, x).(entries := es), x, es, scanned);
    RulesJoin(b.(entries := es), x, es, scanned, MAC_RULE, ALL_RULES);
  }

  lemma CountedExamined(b: Book, x: Input)
    ensures var es := b.entries + [Entry(x.now, x.p, true)]; var b' := Counted(Noted(b, x), x, b.entries);
      Examined(b, x, es, MAC_RULE + ALL_RULES, b') && b'.entries == es
  {
    var es, scanned := b.entries + [Entry(x.now, x.p, true)], Throttled(b.alerts, PortScan, x.p.src, x.now);
    CountedIsRules(b, x, es, scanned);
    RulesKeepEntries(b.(entries := es), x, es, scanned, MAC_RULE + ALL_RULES);
    RulesAreDistinct();
    RulesExamined(b, b.(entries := es), x, es, scanned, MAC_RULE + ALL_RULES, Counted(Noted(b, x), x, b.entries));
  }

  lemma ResultIsOutcome(x: Input, t: Trigger)
    ensures OutcomeOf(x, t) == Result(x, t)
  {
  }

  lemma MacReport(b: Book, x: Input, es: seq<Entry>, m: Book)
    requires Examined(b, x, es, MAC_RULE, m) && x.cfg.mode == IPS
    ensures Confirms(b, m) <==> Fires(b, x, es, MacFlooding) && x.firewall(MacFlooding) == Confirmed
  {
    var scanned := Throttled(b.alerts, PortScan, x.p.src, x.now);
    ThrottledIsRecently(b.alerts);
    if Confirms(b, m) {
      var i :| |b.alerts| <= i < |m.alerts| && m.alerts[i].outcome == BlockConfirmed;
      assert IsReport(b, x, es, scanned, MAC_RULE, m.alerts[i]);
    }
    if Fires(b, x, es, MacFlooding) {
      assert MacFlooding in MAC_RULE && IsReported(b, m, MacFlooding);
      var i :| |b.alerts| <= i < |m.alerts| && m.alerts[i].trigger.rule == MacFlooding;
      assert IsReport(b, x, es, scanned, MAC_RULE, m.alerts[i]);
    }
  }

  lemma SkippedIff(b: Book, x: Input, es: seq<Entry>, m: Book)
    requires Examined(b, x, es, MAC_RULE, m)
    ensures Skipped(b, x, es) <==> x.p.loopback || Blocked(m, x)
  {
    if x.cfg.mode == IPS {
      MacReport(b, x, es, m);
    }
  }

  /** What a packet leads to, before a device that moved is blocked at its new address. */
  lemma PacketExamined(b: Book, x: Input) returns (m: Book)
    requires x.p.src != ""
    ensures var b' := Analyzed(b, x); var es := b'.entries;
      && es == b.entries + [Entry(x.now, x.p, !Skipped(b, x, es))]
      && Examined(b, x, es, if Skipped(b, x, es) then MAC_RULE else MAC_RULE + ALL_RULES, m)
      && b' == if Skipped(b, x, es) && Blocked(m, x) then Roamed(m, x) else m
  {
    m := Noted(b, x);
    NotedExamined(b, x, false);
    NotedExamined(b, x, true);
    SkippedIff(b, x, b.entries + [Entry(x.now, x.p, false)], m);
    SkippedIff(b, x, b.entries + [Entry(x.now, x.p, true)], m);
    NotedSteps(b, x, Origins({}, {}), 0.0);
    if !Blocked(m, x) && !x.p.loopback {
      CountedExamined(b, x);
      m := Counted(m, x, b.entries);
    }
  }

  lemma ExaminedReports(b: Book, x: Input, es: seq<Entry>, b': Book)
    requires x.p.src != "" && Examined(b, x, es, if Skipped(b, x, es) then MAC_RULE else MAC_RULE + ALL_RULES, b')
    ensures forall r :: IsReported(b, b', r) <==> Reports(b, x, es, r)
    ensures forall i :: |b.alerts| <= i < |b'.alerts| ==> ReportOf(b, x, es, b'.alerts[i])
  {
    var scanned := Throttled(b.alerts, PortScan, x.p.src, x.now);
    var rules := if Skipped(b, x, es) then MAC_RULE else MAC_RULE + ALL_RULES;
    ThrottledIsRecently(b.alerts);
    RulesAreDistinct();
    forall i | |b.alerts| <= i < |b'.alerts| ensures ReportOf(b, x, es, b'.alerts[i]) && Reports(b, x, es, b'.alerts[i].trigger.rule) {
      assert IsReport(b, x, es, scanned, rules, b'.alerts[i]);
      ResultIsOutcome(x, b'.alerts[i].trigger);
    }
    forall r ensures IsReported(b, b', r) <==> Reports(b, x, es, r) {
      if IsReported(b, b', r) {
        var i :| |b.alerts| <= i < |b'.alerts| && b'.alerts[i].trigger.rule == r;
      }
      if Reports(b, x, es, r) {
        assert r in rules;
      }
    }
  }

  /** In every history: which rules report a packet, and how. The alerts so far stay, and no rule reports it twice. */
  lemma PacketReports(h: seq<Event>, x: Input)
    ensures var b, b' := Offline(h), Offline(h + [Arrive(x)]); var es := b'.entries;
      && b.alerts <= b'.alerts
      && (forall r :: (exists i :: |b.alerts| <= i < |b'.alerts| && b'.alerts[i].trigger.rule == r) <==> Reports(b, x, es, r))
      && (forall i :: |b.alerts| <= i < |b'.alerts| ==> ReportOf(b, x, es, b'.alerts[i]))
      && (forall i, j :: |b.alerts| <= i < j < |b'.alerts| ==> b'.alerts[i].trigger.rule != b'.alerts[j].trigger.rule)
      && es == b.entries + if x.p.src == "" then [] else [Entry(x.now, x.p, !Skipped(b, x, es))]
  {
    var b, b' := Offline(h), Offline(h + [Arrive(x)]);
    OfflineStep(h, Arrive(x), h + [Arrive(x)]);
    if x.p.src != "" {
      var m := PacketExamined(b, x);
      assert m.alerts == b'.alerts;
      ExaminedReports(b, x, b'.entries, m);
      forall r ensures (exists i :: |b.alerts| <= i < |b'.alerts| && b'.alerts[i].trigger.rule == r) <==> Reports(b, x, b'.entries, r) {
        assert IsReported(b, m, r) <==> Reports(b, x, b'.entries, r);
      }
    }
  }

  /** ... and whom it gets blocked: its source and device, if the firewall confirmed that for one of the
      alerts; or a new address of a device that is blocked, for as long as the device. */
  lemma PacketBlocks(h: seq<Event>, x: Input)
    ensures var b, b' := Offline(h), Offline(h + [Arrive(x)]);
      var confirmed := exists i :: |b.alerts| <= i < |b'.alerts| && b'.alerts[i].outcome == BlockConfirmed;
      var moved := x.cfg.mode == IPS && x.p.src != "" && x.p.src !in b.blockedIPs && x.p.mac != "" && x.p.mac in b.blockedMACs;
      && b'.blockedIPs == (if confirmed then b.blockedIPs[x.p.src := NewBlock(x)]
          else if moved then b.blockedIPs[x.p.src := Block(x.p.mac, b.blockedMACs[x.p.mac].expiresAt)] else b.blockedIPs)
      && b'.blockedMACs == (if confirmed && x.p.mac != "" then b.blockedMACs[x.p.mac := NewBlock(x)] else b.blockedMACs)
  {
    var b, b' := Offline(h), Offline(h + [Arrive(x)]);
    OfflineStep(h, Arrive(x), h + [Arrive(x)]);
    if x.p.src != "" {
      var m := PacketExamined(b, x);
      assert m.alerts == b'.alerts;
      RoamedBlocks(b, x, b'.entries, m, b');
    }
  }

  lemma RoamedBlocks(b: Book, x: Input, es: seq<Entry>, m: Book, b': Book)
    requires BlocksFollow(b, x, m) && (x.cfg.mode == IPS && x.p.mac in b.blockedMACs ==> Skipped(b, x, es))
    requires b' == if Skipped(b, x, es) && Blocked(m, x) then Roamed(m, x) else m
    ensures var moved := x.cfg.mode == IPS && x.p.src !in b.blockedIPs && x.p.mac != "" && x.p.mac in b.blockedMACs;
      && b'.blockedIPs == (if Confirms(b, m) then b.blockedIPs[x.p.src := NewBlock(x)]
          else if moved then b.blockedIPs[x.p.src := Block(x.p.mac, b.blockedMACs[x.p.mac].expiresAt)] else b.blockedIPs)
      && b'.blockedMACs == (if Confirms(b, m) && x.p.mac != "" then b.blockedMACs[x.p.mac := NewBlock(x)] else b.blockedMACs)
  {
  }
}
