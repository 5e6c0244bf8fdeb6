/** What each rule of the heuristics reports, spelled out over all packets on record. */
module Detectors {
  import opened Bytes
  import opened Common
  import opened Windows
  import opened HeuristicSpec

  // ---- Packets ----

  predicate ArpPacket(p: Packet) {
    p.protocol == ARP && p.mac != "" && p.src != "0.0.0.0"
  }

  predicate OpensConnection(p: Packet) {
    p.protocol == TCP && p.syn && !p.ack && !p.rst
  }

  /** To one of three service ports of a neighbour. */
  predicate MovesLaterally(p: Packet) {
    p.srcInternal && p.dstInternal && (p.dstPort == 22 || p.dstPort == 445 || p.dstPort == 3389) && p.dstOctet.Some?
  }

  function Target(p: Packet): string {
    if p.dst == "" then "N/A" else p.dst
  }

  predicate PingsHost(p: Packet) {
    p.protocol == ICMP && Target(p) != "N/A" && p.dst != "255.255.255.255"
    && !HasPrefix(p.dst, "224.") && !HasPrefix(p.dst, "239.") && !HasPrefix(p.dst, "ff02:")
  }

  predicate DhcpTraffic(p: Packet) {
    p.protocol == UDP && (p.dstPort == 67 || p.dstPort == 68 || p.srcPort == 67 || p.srcPort == 68)
  }

  predicate DhcpRequest(p: Packet) {
    DhcpTraffic(p) && |p.payload| > 240 && p.payload[0] == 1
  }

  predicate LargeDnsReply(p: Packet) {
    p.protocol == UDP && p.srcPort == 53 && |p.payload| > 500
  }

  predicate DnsMessage(p: Packet) {
    p.protocol == UDP && (p.srcPort == 53 || p.dstPort == 53) && |p.payload| > 12
  }

  /** `labels` are the offsets of the first labels of a query, none of them empty, and the last is over 63
      bytes long and does not reach the end of the payload. */
  ghost predicate WalkToLongLabel(payload: Bytes, labels: seq<nat>, from: nat) {
    && labels != [] && labels[0] == from
    && (forall k :: 0 <= k < |labels| ==> labels[k] < |payload| && payload[labels[k]] != 0)
    && (forall k, l :: 0 <= k && l == k + 1 && l < |labels| ==> labels[l] == labels[k] + payload[labels[k]] + 1)
    && var last := labels[|labels| - 1]; payload[last] > 63 && last + payload[last] < |payload|
  }

  ghost predicate HasLongLabel(payload: Bytes, from: nat) {
    exists labels :: WalkToLongLabel(payload, labels, from)
  }

  // ---- Windows ----

  /** The counted packets of the source in the last `w` seconds, the present one included. */
  ghost function From(es: seq<Entry>, x: Input, w: Time): set<nat> {
    set i: nat | i < |es| && es[i].counted && es[i].p.src == x.p.src && x.now - es[i].at <= w
  }

  ghost function Arps(es: seq<Entry>, x: Input): set<nat> {
    set i | i in From(es, x, 3.0) && ArpPacket(es[i].p)
  }

  ghost function Syns(es: seq<Entry>, x: Input): set<nat> {
    set i | i in From(es, x, 3.0) && OpensConnection(es[i].p)
  }

  ghost function Logins(es: seq<Entry>, x: Input): set<nat> {
    set i | i in From(es, x, 3.0) && OpensConnection(es[i].p) && es[i].p.dstPort == 22
  }

  ghost function Datagrams(es: seq<Entry>, x: Input): set<nat> {
    set i | i in From(es, x, 3.0) && es[i].p.protocol == UDP
  }

  ghost function Pings(es: seq<Entry>, x: Input): set<nat> {
    set i | i in From(es, x, 3.0) && es[i].p.protocol == ICMP
  }

  ghost function LargeReplies(es: seq<Entry>, x: Input): set<nat> {
    set i | i in From(es, x, 3.0) && LargeDnsReply(es[i].p)
  }

  /** The different addresses in hardware that claimed the source's address within a minute. */
  ghost function Claimants(es: seq<Entry>, x: Input): set<string> {
    set i | i in From(es, x, 60.0) && ArpPacket(es[i].p) :: es[i].p.mac
  }

  /** The different ports of the target that the source has opened in three seconds. */
  ghost function OpenedPorts(es: seq<Entry>, x: Input): set<nat> {
    set i | i in From(es, x, 3.0) && OpensConnection(es[i].p) && es[i].p.dstPort != 0 && Target(es[i].p) == Target(x.p) :: es[i].p.dstPort
  }

  /** The different neighbours, by the last octet, within a minute. */
  ghost function Neighbours(es: seq<Entry>, x: Input): set<nat> {
    set i | i in From(es, x, 60.0) && MovesLaterally(es[i].p) :: es[i].p.dstOctet.value
  }

  /** The different hosts pinged within ten seconds. */
  ghost function PingedHosts(es: seq<Entry>, x: Input): set<string> {
    set i | i in From(es, x, 10.0) && PingsHost(es[i].p) :: Target(es[i].p)
  }

  /** All addresses in hardware seen within a second, from whatever source, skipped packets included. */
  ghost function AllSenders(es: seq<Entry>, x: Input): set<string> {
    set i: nat | i < |es| && es[i].p.mac != "" && x.now - es[i].at <= 1.0 :: es[i].p.mac
  }

  /** All that asked for an address within ten seconds. */
  ghost function Requesters(es: seq<Entry>, x: Input): set<string> {
    set i: nat | i < |es| && es[i].counted && DhcpRequest(es[i].p) && x.now - es[i].at <= 10.0 :: es[i].p.mac
  }

  /** How many ports, if the present packet opens one. */
  ghost function PortCount(es: seq<Entry>, x: Input): nat {
    if OpensConnection(x.p) && x.p.dstPort != 0 then |OpenedPorts(es, x)| else 0
  }

  /** Datagrams a second that are too many: fifty times more on web ports, half as many of large ones. */
  function DatagramLimit(p: Packet, cfg: Config): int {
    if p.dstPort in {80, 443} || p.srcPort in {80, 443} then 50 * cfg.udpThresh
    else if |p.payload| <= 1000 then cfg.udpThresh
    else if cfg.udpThresh >= 0 then cfg.udpThresh / 2
    else -((-cfg.udpThresh) / 2)
  }

  // ---- Rules ----

  function Told(cond: bool, rule: Rule, severity: Level, confidence: Level, rate: real): Option<Trigger> {
    if cond then Some(Trigger(rule, severity, confidence, rate)) else None
  }

  /** What the rule has to say about the packet of `x`, the last of `es`; `scanned` says that the source
      was reported for scanning in the last 30 seconds. */
  ghost function Says(rule: Rule, es: seq<Entry>, x: Input, scanned: bool): Option<Trigger> {
    var p, cfg := x.p, x.cfg;
    match rule
    case MacFlooding => Told(p.mac != "" && |AllSenders(es, x)| > 100, rule, Critical, High, |AllSenders(es, x)| as real)
    case ArpSpoofing => Told(ArpPacket(p) && p.arpOp == 2 && |Claimants(es, x)| > 2, rule, Medium, High, |Claimants(es, x)| as real)
    case ArpFlood => Told(ArpPacket(p) && |Arps(es, x)| / 3 > 50, rule, Medium, High, (|Arps(es, x)| / 3) as real)
    case GratuitousArp => Told(ArpPacket(p) && p.arpOp == 2 && |Arps(es, x)| / 3 > 15, rule, High, High, (|Arps(es, x)| / 3) as real)
    case LateralMovement => Told(MovesLaterally(p) && |Neighbours(es, x)| > 10, rule, Critical, High, |Neighbours(es, x)| as real)
    case SynFlood => Told(OpensConnection(p) && |Syns(es, x)| >= cfg.synThresh && PortCount(es, x) <= 5, rule, High, High, |Syns(es, x)| as real / 3.0)
    case SshBruteForce => Told(OpensConnection(p) && p.dstPort == 22 && |Logins(es, x)| / 3 > cfg.sshThresh, rule, Critical, High, (|Logins(es, x)| / 3) as real)
    case PortScan => Told(PortCount(es, x) > cfg.portScanThresh, rule, High, High, PortCount(es, x) as real)
    case UdpFlood => Told(p.protocol == UDP && |Datagrams(es, x)| / 3 > DatagramLimit(p, cfg), rule, Medium, High, (|Datagrams(es, x)| / 3) as real)
    case DhcpStarvation => Told(DhcpRequest(p) && |Requesters(es, x)| > 50, rule, Critical, High, |Requesters(es, x)| as real)
    case RogueDhcp => Told(DhcpTraffic(p) && p.dhcpOffer && cfg.dhcpIP != "" && p.src != cfg.dhcpIP, rule, Critical, High, 1.0)
    case DnsAmplification => Told(LargeDnsReply(p) && |LargeReplies(es, x)| / 3 > 20, rule, High, Medium, (|LargeReplies(es, x)| / 3) as real)
    case DnsTunneling =>
      if DnsMessage(p) && p.payload[2] < 128
      then Told((p.payload[4] != 0 || p.payload[5] != 0) && HasLongLabel(p.payload, 12), rule, High, High, 1.0)
      else Told(DnsMessage(p) && |p.payload| > 4096, rule, High, Medium, 1.0)
    case DnsSpoofing =>
      Told(DnsMessage(p) && p.payload[2] >= 128 && p.srcInternal && cfg.gatewayIP != "" && p.src != cfg.gatewayIP, rule, Critical, High, 1.0)
    case IcmpFlood => Told(p.protocol == ICMP && |Pings(es, x)| / 3 > cfg.icmpThresh, rule, Medium, High, (|Pings(es, x)| / 3) as real)
    case PingOfDeath => Told(p.protocol == ICMP && |p.payload| > 65535, rule, Critical, High, 1.0)
    case IcmpSweep => Told(PingsHost(p) && |PingedHosts(es, x)| > 10, rule, Medium, High, |PingedHosts(es, x)| as real)
    case DosAttack => Told(|From(es, x, 3.0)| / 3 > cfg.susRate && !scanned && PortCount(es, x) <= 5, rule, Critical, High, (|From(es, x, 3.0)| / 3) as real)
  }

  // ---- Alerts and blocks ----

  /** The rule was reported of the source less than 30 seconds ago. */
  ghost predicate Recently(alerts: seq<Alert>, rule: Rule, src: string, now: Time) {
    exists i :: 0 <= i < |alerts| && alerts[i].trigger.rule == rule && alerts[i].src == src && now - alerts[i].at < 30.0
  }

  /** Outside detection mode the firewall is asked about all that is serious or sure. */
  function Result(x: Input, t: Trigger): Outcome {
    if x.cfg.mode == IDS || (t.severity !in {High, Critical} && t.confidence !in {High, Critical}) then Detected else
      match x.firewall(t.rule)
      case Confirmed => BlockConfirmed
      case Requested => BlockRequested
      case Failed => BlockFailed
  }

  /** The rule, examined on the record `es`, has something to say that was not said lately. */
  ghost predicate Fires(b: Book, x: Input, es: seq<Entry>, rule: Rule) {
    Says(rule, es, x, Recently(b.alerts, PortScan, x.p.src, x.now)).Some? && !Recently(b.alerts, rule, x.p.src, x.now)
  }

  /** In prevention mode the packet of a blocked source or device is skipped, and that of a source blocked
      on its account for MAC flooding; in any mode the host's own. */
  ghost predicate Skipped(b: Book, x: Input, es: seq<Entry>) {
    x.p.loopback ||
    (x.cfg.mode == IPS && (x.p.src in b.blockedIPs || x.p.mac in b.blockedMACs
      || (Fires(b, x, es, MacFlooding) && x.firewall(MacFlooding) == Confirmed)))
  }

  /** The packet is reported under the rule. MAC flooding is checked before a packet is skipped. */
  ghost predicate Reports(b: Book, x: Input, es: seq<Entry>, rule: Rule) {
    x.p.src != "" && (rule == MacFlooding || !Skipped(b, x, es)) && Fires(b, x, es, rule)
  }

  /** `a` is how the packet is reported. */
  ghost predicate ReportOf(b: Book, x: Input, es: seq<Entry>, a: Alert) {
    && a.at == x.now && a.src == x.p.src && a.dst == Target(x.p) && a.mac == x.p.mac
    && Says(a.trigger.rule, es, x, Recently(b.alerts, PortScan, x.p.src, x.now)) == Some(a.trigger)
    && a.outcome == Result(x, a.trigger)
  }

  /** Until when the packet gets its source blocked. */
  function NewBlock(x: Input): Block {
    Block(x.p.mac, x.now + x.cfg.blockTTL as real)
  }
}
