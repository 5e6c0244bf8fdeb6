/** The life of a block as a state machine over the kernel's chains, the cache of blocks and the
    allowlist. One event is one call of the manager or one round of the sweeper; the outcomes of
    the kernel commands are part of it. The manager compares addresses as they are spelled, the
    kernel as it parses them: `parse` is its reading of a spelling. */
module FirewallSpec {
  import opened Bytes
  import opened Common
  type Time = int  // nanoseconds

  /** An address as the kernel knows it: the table it belongs to and its bytes. */
  type Address = Bytes

  /** A chain, as the addresses of the DROP rules the system has put there, in this life or an earlier one. */
  type Chain = seq<Address>

  datatype Config = Config(host: bool, ids: bool, ttlSeconds: int, gatewayIP: string, dhcpIP: string)

  datatype BlockRecord = BlockRecord(mac: string, ruleID: string, reason: string, expiresAt: Time)

  datatype Snapshot = Snapshot(input: Chain, forward: Chain, allowlist: set<string>, cache: map<string, BlockRecord>)

  datatype Status = Confirmed | Requested | Failed

  /** A block request; `local` are the addresses of the local interfaces and `inserted` whether the
      kernel takes a new rule. */
  datatype Request = Request(now: Time, ip: string, mac: string, cfg: Config, reason: string, ruleID: string,
    local: set<string>, inserted: bool)

  /** Whether the deletions from the two chains work; their failures are ignored. */
  datatype Removal = Removal(input: bool, forward: bool)

  datatype Event =
    | Block(r: Request)
    | Unblock(ip: string, ok: Removal)
    | Sweep(now: Time, order: seq<string>, outcome: string -> Removal)  // in the order the expired ones are met
    | Allow(ip: string)
    | Disallow(ip: string)

  /** The state at the start of the program: rules may be left from an earlier life. */
  predicate Fresh(s: Snapshot) {
    s.allowlist == {} && s.cache == map[]
  }

  // ---- Safety ----

  /** The address may not be blocked, whoever asks. */
  predicate Protected(allowlist: set<string>, r: Request) {
    || r.ip == ""
    || (r.cfg.gatewayIP != "" && r.ip == r.cfg.gatewayIP)
    || (r.cfg.dhcpIP != "" && r.ip == r.cfg.dhcpIP)
    || r.ip in allowlist
    || Reserved(r.ip)
    || r.ip in r.local
  }

  /** Loopback, multicast and broadcast, by spelling. */
  predicate Reserved(ip: string) {
    ip in {"127.0.0.1", "::1"} || HasPrefix(ip, "224.") || HasPrefix(ip, "239.") || HasSuffix(ip, ".255")
  }

  /** Some configuration allows a block of this spelling. */
  predicate Blockable(ip: string) {
    ip != "" && !Reserved(ip)
  }

  // ---- Kernel commands ----

  function ChainOf(s: Snapshot, host: bool): Chain {
    if host then s.input else s.forward
  }

  /** Inserts a rule at the head of the chain unless there is one. */
  function Inserted(c: Chain, a: Address, taken: bool): Chain {
    if a in c || !taken then c else [a] + c
  }

  /** Deletes the first rule for `a`, if the command works and there is one. */
  function Deleted(c: Chain, a: Address, ok: bool): Chain {
    if c == [] || !ok then c
    else if c[0] == a then c[1..]
    else [c[0]] + Deleted(c[1..], a, ok)
  }

  function ApplyBlock(parse: string -> Address, s: Snapshot, r: Request): Snapshot {
    if r.cfg.host then s.(input := Inserted(s.input, parse(r.ip), r.inserted))
    else s.(forward := Inserted(s.forward, parse(r.ip), r.inserted))
  }

  function RemoveBlock(s: Snapshot, a: Address, ok: Removal): Snapshot {
    s.(input := Deleted(s.input, a, ok.input), forward := Deleted(s.forward, a, ok.forward))
  }

  // ---- Calls ----

  const SECOND: Time := 1_000_000_000

  function ExpiresAt(r: Request): Time {
    r.now + (if r.cfg.ttlSeconds > 0 then r.cfg.ttlSeconds else 600) * SECOND
  }

  function RecordOf(r: Request): BlockRecord {
    BlockRecord(r.mac, r.ruleID, r.reason, ExpiresAt(r))
  }

  function StatusOf(parse: string -> Address, s: Snapshot, r: Request): Status {
    if Protected(s.allowlist, r) then Failed
    else if r.cfg.ids then Requested
    else if r.ip in s.cache || parse(r.ip) in ChainOf(ApplyBlock(parse, s, r), r.cfg.host) then Confirmed
    else Failed
  }

  function AfterBlock(parse: string -> Address, s: Snapshot, r: Request): Snapshot {
    if Protected(s.allowlist, r) || r.cfg.ids then s
    else if r.ip in s.cache then s.(cache := s.cache[r.ip := s.cache[r.ip].(expiresAt := ExpiresAt(r))])
    else
      var t := ApplyBlock(parse, s, r);
      if parse(r.ip) in ChainOf(t, r.cfg.host) then t.(cache := t.cache[r.ip := RecordOf(r)]) else t
  }

  function AfterUnblock(parse: string -> Address, s: Snapshot, ip: string, ok: Removal): Snapshot {
    var t := RemoveBlock(s, parse(ip), ok);
    t.(cache := t.cache - {ip})
  }

  function AfterSweep(parse: string -> Address, s: Snapshot, order: seq<string>, ok: string -> Removal): Snapshot {
    if order == [] then s else
      var n := |order| - 1;
      AfterUnblock(parse, AfterSweep(parse, s, order[..n], ok), order[n], ok(order[n]))
  }

  function Expired(s: Snapshot, now: Time): set<string> {
    set ip | ip in s.cache && now > s.cache[ip].expiresAt
  }

  ghost predicate IsOrderOf(order: seq<string>, ips: set<string>) {
    && (forall i :: 0 <= i < |order| ==> order[i] in ips)
    && (forall ip :: ip in ips ==> ip in order)
    && (forall i, j :: 0 <= i < j < |order| ==> order[i] != order[j])
  }

  function After(parse: string -> Address, s: Snapshot, e: Event): Snapshot {
    match e
    case Block(r) => AfterBlock(parse, s, r)
    case Unblock(ip, ok) => if ip == "" then s else AfterUnblock(parse, s, ip, ok)
    case Sweep(now, order, outcome) => AfterSweep(parse, s, order, outcome)
    case Allow(ip) => s.(allowlist := s.allowlist + {ip})
    case Disallow(ip) => s.(allowlist := s.allowlist - {ip})
  }

  function Run(parse: string -> Address, start: Snapshot, log: seq<Event>): Snapshot {
    if log == [] then start else After(parse, Run(parse, start, log[..|log| - 1]), log[|log| - 1])
  }

  /** The sweeps took all that was expired at the time, and nothing else. */
  ghost predicate WellFormed(parse: string -> Address, start: Snapshot, log: seq<Event>) {
    log == [] ||
    var n := |log| - 1;
    WellFormed(parse, start, log[..n]) && (log[n].Sweep? ==> IsOrderOf(log[n].order, Expired(Run(parse, start, log[..n]), log[n].now)))
  }
}
