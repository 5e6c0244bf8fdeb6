/** The rate heuristics as a function of the inputs so far: every window is a filter over all the
    packets analysed, and nothing is ever forgotten. */
module HeuristicSpec {
  import opened Bytes
  import opened Common
  import opened Windows

  datatype Protocol = TCP | UDP | ICMP | ARP | Other

  /** A decoded packet. The last four fields are what address parsing says about it: whether source
      and destination are internal, whether the source is loopback, and the last octet of a
      destination in dotted form. */
  datatype Packet = Packet(src: string, dst: string, mac: string, protocol: Protocol, srcPort: nat, dstPort: nat,
    syn: bool, ack: bool, rst: bool, arpOp: nat, payload: Bytes, dhcpOffer: bool,
    srcInternal: bool, dstInternal: bool, loopback: bool, dstOctet: Option<nat>)

  datatype Mode = IDS | IPS | OtherMode

  datatype Config = Config(mode: Mode, synThresh: int, sshThresh: int, portScanThresh: int, udpThresh: int,
    icmpThresh: int, dhcpIP: string, gatewayIP: string, susRate: int, blockTTL: int)

  datatype Rule = MacFlooding | ArpSpoofing | ArpFlood | GratuitousArp | LateralMovement | SynFlood | SshBruteForce | PortScan
    | UdpFlood | DhcpStarvation | RogueDhcp | DnsAmplification | DnsTunneling | DnsSpoofing
    | IcmpFlood | PingOfDeath | IcmpSweep | DosAttack

  datatype Level = Medium | High | Critical

  /** What the firewall answers to a block request. */
  datatype Verdict = Confirmed | Requested | Failed

  /** One call of the analysis: the clock, the packet, the configuration and the firewall's answers. */
  datatype Input = Input(now: Time, p: Packet, cfg: Config, firewall: Rule -> Verdict)

  // ---- What each window counts ----

  /** The seven timestamp lists, then the six maps. */
  datatype Kind = Packets | Icmp | Udp | DnsReplies | Syn | Ssh | Arp
    | Ports | Lateral | Sweep | Macs | AllMacs | DhcpMacs

  predicate IsStamp(k: Kind) {
    k in {Packets, Icmp, Udp, DnsReplies, Syn, Ssh, Arp}
  }

  function Window(k: Kind): Time {
    match k
    case Lateral | Macs => 60.0
    case Sweep | DhcpMacs => 10.0
    case AllMacs => 1.0
    case _ => 3.0
  }

  /** A packet on record; `counted` unless it was skipped as blocked or loopback. */
  datatype Entry = Entry(at: Time, p: Packet, counted: bool)

  /** One window: a list or map of kind `kind` filed under a source and perhaps a destination. */
  datatype Cell = Cell(kind: Kind, src: string, dst: string)

  datatype Item = Port(port: nat) | Name(name: string)

  function Dst(p: Packet): string {
    if p.dst == "" then "N/A" else p.dst
  }

  predicate IsArp(p: Packet) {
    p.protocol == ARP && p.mac != "" && p.src != "0.0.0.0"
  }

  predicate IsLateral(p: Packet) {
    p.srcInternal && p.dstInternal && p.dstPort in {22, 445, 3389} && p.dstOctet.Some?
  }

  predicate IsSyn(p: Packet) {
    p.protocol == TCP && p.syn && !p.ack && !p.rst
  }

  predicate IsDhcp(p: Packet) {
    p.protocol == UDP && (p.dstPort == 67 || p.dstPort == 68 || p.srcPort == 67 || p.srcPort == 68)
  }

  predicate IsDhcpDiscover(p: Packet) {
    IsDhcp(p) && |p.payload| > 240 && p.payload[0] == 1
  }

  predicate ToGroup(dst: string) {
    dst == "255.255.255.255" || HasPrefix(dst, "224.") || HasPrefix(dst, "239.") || HasPrefix(dst, "ff02:")
  }

  predicate IsPing(p: Packet) {
    p.protocol == ICMP && !ToGroup(Dst(p)) && Dst(p) != "N/A"
  }

  /** Whether a packet counts in the windows of a kind. */
  predicate Counts(k: Kind, p: Packet) {
    match k
    case Packets => true
    case Icmp => p.protocol == ICMP
    case Udp => p.protocol == UDP
    case DnsReplies => p.protocol == UDP && p.srcPort == 53 && |p.payload| > 500
    case Syn => IsSyn(p)
    case Ssh => IsSyn(p) && p.dstPort == 22
    case Arp => IsArp(p)
    case Ports => IsSyn(p) && p.dstPort != 0
    case Lateral => IsLateral(p)
    case Sweep => IsPing(p)
    case Macs => IsArp(p)
    case AllMacs => p.mac != ""
    case DhcpMacs => IsDhcpDiscover(p)
  }

  /** In which window of the kind. */
  function CellOf(k: Kind, p: Packet): Cell {
    match k
    case AllMacs | DhcpMacs => Cell(k, "", "")
    case Ports => Cell(k, p.src, Dst(p))
    case _ => Cell(k, p.src, "")
  }

  /** As what. */
  function ItemOf(k: Kind, p: Packet): Item {
    match k
    case Ports => Port(p.dstPort)
    case Lateral => if p.dstOctet.Some? then Port(p.dstOctet.value) else Port(0)
    case Sweep => Name(Dst(p))
    case Macs | AllMacs | DhcpMacs => Name(p.mac)
    case _ => Name("")
  }

  /** An entry counts in a window. Only the MAC flooding window takes skipped packets. */
  predicate Marks(e: Entry, c: Cell) {
    (e.counted || c.kind == AllMacs) && Counts(c.kind, e.p) && CellOf(c.kind, e.p) == c
  }

  function Sightings(es: seq<Entry>, c: Cell): seq<Sighting<Item>> {
    if es == [] then [] else
      var n := |es| - 1;
      Sightings(es[..n], c) + if Marks(es[n], c) then [Sighting(ItemOf(c.kind, es[n].p), es[n].at)] else []
  }

  /** What the window of kind `k` that `p` belongs to holds at time `now`: how many packets, or how
      many different items. */
  ghost function Count(es: seq<Entry>, k: Kind, p: Packet, now: Time): nat {
    if IsStamp(k) then |Recent(Sightings(es, CellOf(k, p)), now, 3.0)|
    else |RecentItems(Sightings(es, CellOf(k, p)), now, Window(k))|
  }

  /** The counts of all kinds. */
  type Tally = Kind -> nat

  ghost function TallyOf(es: seq<Entry>, p: Packet, now: Time): Tally {
    k => Count(es, k, p, now)
  }

  /** Packets per second, rounded down. */
  function Rate(n: Tally, k: Kind): nat {
    n(k) / 3
  }

  // ---- Alerts ----

  datatype Trigger = Trigger(rule: Rule, severity: Level, confidence: Level, rate: real)

  datatype Outcome = Detected | BlockConfirmed | BlockRequested | BlockFailed

  datatype Alert = Alert(at: Time, src: string, dst: string, mac: string, trigger: Trigger, outcome: Outcome)

  /** A blocked address or device: the MAC it came with, and when the block ends. */
  datatype Block = Block(mac: string, expiresAt: Time)

  /** What the analysis has on record. */
  datatype Book = Book(entries: seq<Entry>, alerts: seq<Alert>, blockedIPs: map<string, Block>, blockedMACs: map<string, Block>)

  const EMPTY := Book([], [], map[], map[])

  /** An alert is throttled by one of the same rule and source less than 30 seconds before. */
  ghost predicate Throttled(alerts: seq<Alert>, rule: Rule, src: string, now: Time) {
    exists i :: 0 <= i < |alerts| && alerts[i].trigger.rule == rule && alerts[i].src == src && now - alerts[i].at < 30.0
  }

  predicate AsksForBlock(x: Input, t: Trigger) {
    x.cfg.mode != IDS && (t.severity != Medium || t.confidence != Medium)
  }

  function OutcomeOf(x: Input, t: Trigger): Outcome {
    if !AsksForBlock(x, t) then Detected else
      match x.firewall(t.rule)
      case Confirmed => BlockConfirmed
      case Requested => BlockRequested
      case Failed => BlockFailed
  }

  function AlertOf(x: Input, t: Trigger): Alert {
    Alert(x.now, x.p.src, Dst(x.p), x.p.mac, t, OutcomeOf(x, t))
  }

  function BlockOf(x: Input): Block {
    Block(x.p.mac, x.now + x.cfg.blockTTL as real)
  }

  function WithAlert(b: Book, x: Input, t: Trigger): Book {
    var confirmed := OutcomeOf(x, t) == BlockConfirmed;
    Book(b.entries, b.alerts + [AlertOf(x, t)],
      if confirmed then b.blockedIPs[x.p.src := BlockOf(x)] else b.blockedIPs,
      if confirmed && x.p.mac != "" then b.blockedMACs[x.p.mac := BlockOf(x)] else b.blockedMACs)
  }

  ghost function Raise(b: Book, x: Input, t: Trigger): Book {
    if Throttled(b.alerts, t.rule, x.p.src, x.now) then b else WithAlert(b, x, t)
  }

  ghost function RaiseIf(b: Book, x: Input, cond: bool, t: Trigger): Book {
    if cond then Raise(b, x, t) else b
  }

  // ---- Detectors ----

  function Strong(rule: Rule, severity: Level, n: nat): Trigger {
    Trigger(rule, severity, High, n as real)
  }

  ghost function MacStep(b: Book, x: Input, n: Tally): Book {
    RaiseIf(b, x, x.p.mac != "" && n(AllMacs) > 100, Strong(MacFlooding, Critical, n(AllMacs)))
  }

  ghost function ArpStep(b: Book, x: Input, n: Tally): Book {
    if !IsArp(x.p) then b else
      var b1 := RaiseIf(b, x, x.p.arpOp == 2 && n(Macs) > 2, Strong(ArpSpoofing, Medium, n(Macs)));
      var b2 := RaiseIf(b1, x, Rate(n, Arp) > 50, Strong(ArpFlood, Medium, Rate(n, Arp)));
      RaiseIf(b2, x, x.p.arpOp == 2 && Rate(n, Arp) > 15, Strong(GratuitousArp, High, Rate(n, Arp)))
  }

  ghost function LateralStep(b: Book, x: Input, n: Tally): Book {
    RaiseIf(b, x, IsLateral(x.p) && n(Lateral) > 10, Strong(LateralMovement, Critical, n(Lateral)))
  }

  /** How many ports of the destination the source opened in three seconds, if this packet opens one. */
  function PortsTried(p: Packet, n: Tally): nat {
    if Counts(Ports, p) then n(Ports) else 0
  }

  /** A three-second count as an unrounded rate. */
  function PerSecond(n: nat): real {
    n as real / 3.0
  }

  ghost function SynStep(b: Book, x: Input, n: Tally): Book {
    if !IsSyn(x.p) then b else
      var b1 := RaiseIf(b, x, n(Syn) >= x.cfg.synThresh && PortsTried(x.p, n) <= 5, Trigger(SynFlood, High, High, PerSecond(n(Syn))));
      RaiseIf(b1, x, x.p.dstPort == 22 && Rate(n, Ssh) > x.cfg.sshThresh, Strong(SshBruteForce, Critical, Rate(n, Ssh)))
  }

  ghost function ScanStep(b: Book, x: Input, n: Tally): Book {
    RaiseIf(b, x, PortsTried(x.p, n) > x.cfg.portScanThresh, Strong(PortScan, High, PortsTried(x.p, n)))
  }

  /** Go's integer division by two. */
  function Half(n: int): int {
    if n >= 0 then n / 2 else -(-n / 2)
  }

  function UdpThreshold(p: Packet, cfg: Config): int {
    if p.dstPort == 443 || p.srcPort == 443 || p.dstPort == 80 || p.srcPort == 80 then cfg.udpThresh * 50
    else if |p.payload| > 1000 then Half(cfg.udpThresh)
    else cfg.udpThresh
  }

  ghost function UdpStep(b: Book, x: Input, n: Tally): Book {
    RaiseIf(b, x, Rate(n, Udp) > UdpThreshold(x.p, x.cfg), Strong(UdpFlood, Medium, Rate(n, Udp)))
  }

  ghost function DiscoverStep(b: Book, x: Input, n: Tally): Book {
    RaiseIf(b, x, IsDhcpDiscover(x.p) && n(DhcpMacs) > 50, Strong(DhcpStarvation, Critical, n(DhcpMacs)))
  }

  ghost function OfferStep(b: Book, x: Input): Book {
    RaiseIf(b, x, x.p.dhcpOffer && x.cfg.dhcpIP != "" && x.p.src != x.cfg.dhcpIP, Strong(RogueDhcp, Critical, 1))
  }

  ghost function DhcpStep(b: Book, x: Input, n: Tally): Book {
    if IsDhcp(x.p) then OfferStep(DiscoverStep(b, x, n), x) else b
  }

  /** Walking the labels of a query from `offset`: one longer than 63 bytes that is not the last
      thing in the payload. */
  predicate LongLabel(payload: Bytes, offset: nat)
    decreases |payload| - offset
  {
    offset < |payload| &&
    var length := payload[offset];
    length != 0 && ((offset + length < |payload| && length > 63) || LongLabel(payload, offset + length + 1))
  }

  predicate IsDns(p: Packet) {
    p.protocol == UDP && (p.srcPort == 53 || p.dstPort == 53) && |p.payload| > 12
  }

  predicate IsReply(p: Packet)
    requires IsDns(p)
  {
    p.payload[2] >= 0x80
  }

  predicate IsTunnelQuery(p: Packet) {
    IsDns(p) && !IsReply(p) && (p.payload[4] != 0 || p.payload[5] != 0) && LongLabel(p.payload, 12)
  }

  ghost function DnsReplyStep(b: Book, x: Input, n: Tally): Book {
    RaiseIf(b, x, Counts(DnsReplies, x.p) && Rate(n, DnsReplies) > 20, Trigger(DnsAmplification, High, Medium, Rate(n, DnsReplies) as real))
  }

  ghost function DnsStep(b: Book, x: Input): Book {
    if !IsDns(x.p) then b
    else if !IsReply(x.p) then RaiseIf(b, x, IsTunnelQuery(x.p), Strong(DnsTunneling, High, 1))
    else
      var b1 := RaiseIf(b, x, x.p.srcInternal && x.p.src != x.cfg.gatewayIP && x.cfg.gatewayIP != "", Strong(DnsSpoofing, Critical, 1));
      RaiseIf(b1, x, |x.p.payload| > 4096, Trigger(DnsTunneling, High, Medium, 1.0))
  }

  ghost function DnsSteps(b: Book, x: Input, n: Tally): Book {
    DnsStep(DnsReplyStep(b, x, n), x)
  }

  ghost function UdpSteps(b: Book, x: Input, n: Tally): Book {
    if x.p.protocol == UDP then DnsSteps(DhcpStep(UdpStep(b, x, n), x, n), x, n) else b
  }

  ghost function IcmpStep(b: Book, x: Input, n: Tally): Book {
    if x.p.protocol != ICMP then b else
      var b1 := RaiseIf(b, x, Rate(n, Icmp) > x.cfg.icmpThresh, Strong(IcmpFlood, Medium, Rate(n, Icmp)));
      var b2 := RaiseIf(b1, x, |x.p.payload| > 65535, Strong(PingOfDeath, Critical, 1));
      RaiseIf(b2, x, IsPing(x.p) && n(Sweep) > 10, Strong(IcmpSweep, Medium, n(Sweep)))
  }

  /** `scanned` says whether the source was caught scanning ports in the last 30 seconds. */
  ghost function DosStep(b: Book, x: Input, n: Tally, scanned: bool): Book {
    RaiseIf(b, x, Rate(n, Packets) > x.cfg.susRate && !scanned && PortsTried(x.p, n) <= 5, Strong(DosAttack, Critical, Rate(n, Packets)))
  }

  ghost function LocalSteps(b: Book, x: Input, n: Tally): Book {
    LateralStep(ArpStep(b, x, n), x, n)
  }

  ghost function TcpSteps(b: Book, x: Input, n: Tally): Book {
    ScanStep(SynStep(b, x, n), x, n)
  }

  ghost function TrafficSteps(b: Book, x: Input, n: Tally): Book {
    IcmpStep(UdpSteps(b, x, n), x, n)
  }

  ghost function HostSteps(b: Book, x: Input, n: Tally): Book {
    TcpSteps(LocalSteps(b, x, n), x, n)
  }

  ghost function PacketSteps(b: Book, x: Input, n: Tally): Book {
    TrafficSteps(HostSteps(b, x, n), x, n)
  }

  /** The detectors, in order. */
  ghost function Detect(b: Book, x: Input, n: Tally): Book {
    DosStep(PacketSteps(b, x, n), x, n, Throttled(b.alerts, PortScan, x.p.src, x.now))
  }

  // ---- Runs ----

  predicate Blocked(b: Book, x: Input) {
    x.cfg.mode == IPS && (x.p.src in b.blockedIPs || x.p.mac in b.blockedMACs)
  }

  /** A blocked device that shows up under a new address has that address blocked too, for as long. */
  function Roamed(b: Book, x: Input): Book {
    if x.p.mac in b.blockedMACs && x.p.src !in b.blockedIPs && x.p.mac != ""
    then b.(blockedIPs := b.blockedIPs[x.p.src := Block(x.p.mac, b.blockedMACs[x.p.mac].expiresAt)]) else b
  }

  /** MAC flooding is checked on every packet; the packet is then recorded. */
  ghost function Noted(b: Book, x: Input): Book {
    var es := b.entries + [Entry(x.now, x.p, false)];
    MacStep(b.(entries := es), x, TallyOf(es, x.p, x.now))
  }

  ghost function Counted(b: Book, x: Input, before: seq<Entry>): Book {
    var es := before + [Entry(x.now, x.p, true)];
    Detect(b.(entries := es), x, TallyOf(es, x.p, x.now))
  }

  ghost function Analyzed(b: Book, x: Input): Book {
    if x.p.src == "" then b else
      var m := Noted(b, x);
      if Blocked(m, x) then Roamed(m, x)
      else if x.p.loopback then m
      else Counted(m, x, b.entries)
  }

  /** What happens to the state: a packet is analysed, a block comes from elsewhere, an operator
      takes a block back, or the round that ends expired blocks runs. Both the operator's call and the
      round look first and delete later; when something comes between, the deletion is an event of its
      own, of an address and the device found with it. */
  datatype Event =
    | Arrive(x: Input)
    | Manual(now: Time, ip: string, mac: string, ttl: int)
    | Release(ip: string)
    | AutoRelease(now: Time)
    | Drop(ip: string, mac: string)

  function ManualBlock(now: Time, mac: string, ttl: int): Block {
    Block(mac, now + ttl as real)
  }

  function Blocking(b: Book, ip: string, block: Block): Book {
    b.(blockedIPs := b.blockedIPs[ip := block],
       blockedMACs := if block.mac != "" then b.blockedMACs[block.mac := block] else b.blockedMACs)
  }

  function MacOf(block: Block): set<string> {
    if block.mac != "" then {block.mac} else {}
  }

  /** Taking a block back frees the address and the device it was recorded with. */
  function Released(b: Book, ip: string): Book {
    if ip !in b.blockedIPs then b else
      b.(blockedIPs := b.blockedIPs - {ip}, blockedMACs := b.blockedMACs - MacOf(b.blockedIPs[ip]))
  }

  predicate HasExpired(block: Block, now: Time) {
    0.0 < block.expiresAt <= now
  }

  function ExpiredIPs(b: Book, now: Time): set<string> {
    set ip | ip in b.blockedIPs && HasExpired(b.blockedIPs[ip], now)
  }

  function ExpiredMACs(b: Book, now: Time): set<string> {
    set ip | ip in ExpiredIPs(b, now) && b.blockedIPs[ip].mac != "" :: b.blockedIPs[ip].mac
  }

  function Dropped(b: Book, ip: string, mac: string): Book {
    b.(blockedIPs := b.blockedIPs - {ip}, blockedMACs := if mac != "" then b.blockedMACs - {mac} else b.blockedMACs)
  }

  function AutoReleased(b: Book, now: Time): Book {
    b.(blockedIPs := b.blockedIPs - ExpiredIPs(b, now), blockedMACs := b.blockedMACs - ExpiredMACs(b, now))
  }

  ghost function After(b: Book, e: Event): Book {
    match e
    case Arrive(x) => Analyzed(b, x)
    case Manual(now, ip, mac, ttl) => Blocking(b, ip, ManualBlock(now, mac, ttl))
    case Release(ip) => Released(b, ip)
    case AutoRelease(now) => AutoReleased(b, now)
    case Drop(ip, mac) => Dropped(b, ip, mac)
  }

  /** What is on record after the events `h`. */
  ghost function Offline(h: seq<Event>): Book {
    if h == [] then EMPTY else After(Offline(h[..|h| - 1]), h[|h| - 1])
  }

  // ---- Sightings as packets are recorded ----

  ghost predicate EntriesInOrder(es: seq<Entry>, clock: Time) {
    && (forall i, j :: 0 <= i <= j < |es| ==> es[i].at <= es[j].at)
    && (forall i :: 0 <= i < |es| ==> es[i].at <= clock)
  }

  lemma SightingsStep(es: seq<Entry>, e: Entry, es': seq<Entry>, c: Cell)
    requires es' == es + [e]
    ensures Sightings(es', c) == if Marks(e, c) then Sightings(es, c) + [Sighting(ItemOf(c.kind, e.p), e.at)] else Sightings(es, c)
  {
    assert es'[..|es|] == es;
  }

  // ---- The windows in the course of one packet ----

  type Log = imap<Cell, seq<Sighting<Item>>>

  ghost const NO_LOG: Log := imap c: Cell {:trigger c.kind} :: []

  /** The entries reflected in the windows of kind `k`, if those of the kinds in `lag` lack the last one. */
  function Upto(es: seq<Entry>, lag: set<Kind>, k: Kind): seq<Entry> {
    if k in lag && es != [] then es[..|es| - 1] else es
  }

  ghost predicate Linked(log: Log, es: seq<Entry>, lag: set<Kind>, c: Cell) {
    c in log && log[c] == Sightings(Upto(es, lag, c.kind), c)
  }

  /** The log of each window is what counts in it of the entries. */
  ghost predicate Agrees(log: Log, es: seq<Entry>, lag: set<Kind>) {
    forall c :: Linked(log, es, lag, c)
  }

  /** The kinds that a counted packet has yet to be noted in. */
  function DueKinds(p: Packet): set<Kind> {
    set k | k in {Packets, Icmp, Udp, DnsReplies, Syn, Ssh, Arp, Ports, Lateral, Sweep, Macs, DhcpMacs} && Counts(k, p)
  }

  /** ... spelt out. */
  predicate AreDue(p: Packet, lag: set<Kind>) {
    && (IsArp(p) ==> Arp in lag && Macs in lag) && (IsLateral(p) ==> Lateral in lag)
    && (IsSyn(p) ==> Syn in lag && (p.dstPort != 0 ==> Ports in lag) && (p.dstPort == 22 ==> Ssh in lag))
    && (p.protocol == UDP ==> Udp in lag) && (IsDhcpDiscover(p) ==> DhcpMacs in lag) && (Counts(DnsReplies, p) ==> DnsReplies in lag)
    && (p.protocol == ICMP ==> Icmp in lag && (IsPing(p) ==> Sweep in lag))
  }

  lemma DueOnes(p: Packet, lag: set<Kind>)
    requires lag == DueKinds(p)
    ensures Packets in lag && AreDue(p, lag - {Packets})
    ensures lag - {Packets} - {Arp, Macs, Lateral, Ports, Syn, Ssh} - {Udp, DhcpMacs, DnsReplies, Icmp, Sweep} == {}
  {
  }

  /** A packet is put on record. */
  lemma EntryAdded(log: Log, es: seq<Entry>, e: Entry, es': seq<Entry>, lag: set<Kind>)
    requires Agrees(log, es, {}) && es' == es + [e]
    requires forall k :: k in lag <==> Marks(e, CellOf(k, e.p))
    ensures Agrees(log, es', lag)
  {
    assert es'[..|es'| - 1] == es;
    forall c ensures Linked(log, es', lag, c) {
      assert Linked(log, es, {}, c);
      if c.kind !in lag {
        SightingsStep(es, e, es', c);
      }
    }
  }

  lemma StillInOrder(noted: seq<Entry>, counted: seq<Entry>, clock: Time)
    requires EntriesInOrder(noted, clock) && |noted| == |counted|
    requires forall i :: 0 <= i < |noted| ==> noted[i].at == counted[i].at
    ensures EntriesInOrder(counted, clock)
  {
  }

  /** It turns out to count. */
  lemma EntryCounts(log: Log, es: seq<Entry>, e: Entry, noted: seq<Entry>, counted: seq<Entry>, lag: set<Kind>)
    requires noted == es + [e] && !e.counted && counted == es + [e.(counted := true)] && Agrees(log, noted, {})
    requires lag == DueKinds(e.p)
    ensures Agrees(log, counted, lag)
  {
    assert counted[..|counted| - 1] == es;
    forall c ensures Linked(log, counted, lag, c) {
      assert Linked(log, noted, {}, c);
      SightingsStep(es, e, noted, c);
      if c.kind !in lag {
        SightingsStep(es, e.(counted := true), counted, c);
      }
    }
  }

  /** The windows of kind `k` take in the last entry. */
  lemma CatchUp(log: Log, es: seq<Entry>, lag: set<Kind>, k: Kind, log': Log, cell: Cell)
    requires Agrees(log, es, lag) && es != [] && k in lag && cell.kind == k && Marks(es[|es| - 1], cell)
    requires cell in log && log' == log[cell := log[cell] + [Sighting(ItemOf(k, es[|es| - 1].p), es[|es| - 1].at)]]
    ensures Agrees(log', es, lag - {k})
  {
    var n := |es| - 1;
    forall c ensures Linked(log', es, lag - {k}, c) {
      assert Linked(log, es, lag, c);
      if c.kind == k {
        SightingsStep(es[..n], es[n], es, c);
      }
    }
  }

  datatype ThrottleKey = ThrottleKey(src: string, rule: Rule)

  function AlertSightings(alerts: seq<Alert>): seq<Sighting<ThrottleKey>> {
    seq(|alerts|, i requires 0 <= i < |alerts| => Sighting(ThrottleKey(alerts[i].src, alerts[i].trigger.rule), alerts[i].at))
  }

  /** The throttle table decides as the list of all alerts does. */
  lemma ThrottleIff(m: map<ThrottleKey, Time>, alerts: seq<Alert>, clock: Time, rule: Rule, src: string, now: Time)
    requires SeenFits(m, AlertSightings(alerts), 30.0, clock) && clock <= now
    ensures ThrottleKey(src, rule) in m && now - m[ThrottleKey(src, rule)] < 30.0 <==> Throttled(alerts, rule, src, now)
  {
    var key, s := ThrottleKey(src, rule), AlertSightings(alerts);
    if key in m && now - m[key] < 30.0 {
      var i :| 0 <= i < |s| && s[i] == Sighting(key, m[key]);
      assert alerts[i].trigger.rule == rule;
    }
    if Throttled(alerts, rule, src, now) {
      var i :| 0 <= i < |alerts| && alerts[i].trigger.rule == rule && alerts[i].src == src && now - alerts[i].at < 30.0;
      assert s[i].item == key;
    }
  }
}
