/** The Linux backend and the manager of blocks. Each call leads from one snapshot to the next. */
module Firewall {
  import opened Common
  import opened FirewallSpec

  class LinuxFirewall {
    const parse: string -> Address  // how the kernel's tools read an address
    var input: Chain
    var forward: Chain

    constructor (parse: string -> Address, input: Chain, forward: Chain)
      ensures this.parse == parse && this.input == input && this.forward == forward
    {
      this.parse, this.input, this.forward := parse, input, forward;
    }

    method ApplyBlock(ip: string, cfg: Config, inserted: bool) returns (err: bool)
      modifies this
      ensures input == if cfg.host then Inserted(old(input), parse(ip), inserted) else old(input)
      ensures forward == if cfg.host then old(forward) else Inserted(old(forward), parse(ip), inserted)
      ensures err == (!inserted && parse(ip) !in if cfg.host then old(input) else old(forward))
    {
      err := false;
      if cfg.host {
        if parse(ip) !in input {
          if inserted {
            input := [parse(ip)] + input;
          } else {
            err := true;
          }
        }
      } else {
        if parse(ip) !in forward {
          if inserted {
            forward := [parse(ip)] + forward;
          } else {
            err := true;
          }
        }
      }
    }

    method VerifyBlock(ip: string, cfg: Config) returns (present: bool)
      ensures present == (parse(ip) in if cfg.host then input else forward)
    {
      var chain := input;
      if !cfg.host {
        chain := forward;
      }
      present := parse(ip) in chain;
    }

    /** The kernel's part: deletes the first rule for `a`. */
    method Delete(c: Chain, a: Address, ok: bool) returns (r: Chain)
      ensures r == Deleted(c, a, ok)
    {
      if !ok {
        return c;
      }
      var i := 0;
      while i < |c| && c[i] != a
        invariant 0 <= i <= |c|
        invariant Deleted(c, a, true) == c[..i] + Deleted(c[i..], a, true)
      {
        assert c[i..][1..] == c[i + 1..] && c[..i + 1] == c[..i] + [c[i]];
        assert c[..i] + ([c[i]] + Deleted(c[i + 1..], a, true)) == c[..i + 1] + Deleted(c[i + 1..], a, true);
        i := i + 1;
      }
      if i == |c| {
        assert c[..i] + Deleted(c[i..], a, true) == c;
        return c;
      }
      assert c[i..][1..] == c[i + 1..];
      r := c[..i] + c[i + 1..];
    }

    method RemoveBlock(ip: string, ok: Removal)
      modifies this
      ensures input == Deleted(old(input), parse(ip), ok.input) && forward == Deleted(old(forward), parse(ip), ok.forward)
    {
      input := Delete(input, parse(ip), ok.input);
      forward := Delete(forward, parse(ip), ok.forward);
    }
  }

  class FirewallManager {
    const backend: LinuxFirewall
    var allowlist: set<string>
    var blockCache: map<string, BlockRecord>
    ghost const start: Snapshot
    ghost var log: seq<Event>

    ghost function State(): Snapshot
      reads this, backend
    {
      Snapshot(backend.input, backend.forward, allowlist, blockCache)
    }

    ghost predicate Valid()
      reads this, backend
    {
      Fresh(start) && State() == Run(backend.parse, start, log) && WellFormed(backend.parse, start, log)
    }

    /** A new manager over the chains as it finds them. */
    constructor (parse: string -> Address, input: Chain, forward: Chain)
      ensures Valid() && fresh(backend) && log == []
      ensures backend.parse == parse && start == Snapshot(input, forward, {}, map[])
    {
      backend := new LinuxFirewall(parse, input, forward);
      start := Snapshot(input, forward, {}, map[]);
      allowlist, blockCache, log := {}, map[], [];
    }

    ghost method Log(e: Event, before: Snapshot)
      requires Fresh(start) && before == Run(backend.parse, start, log) && WellFormed(backend.parse, start, log)
      requires State() == After(backend.parse, before, e)
      requires e.Sweep? ==> IsOrderOf(e.order, Expired(before, e.now))
      modifies this`log
      ensures Valid() && log == old(log) + [e]
    {
      log := log + [e];
      assert log[..|log| - 1] == old(log);
    }

    method IsSafeToBlock(r: Request) returns (safe: bool)
      ensures safe == !Protected(allowlist, r)
    {
      if r.ip == "" {
        return false;
      }
      if r.cfg.gatewayIP != "" && r.ip == r.cfg.gatewayIP {
        return false;
      }
      if r.cfg.dhcpIP != "" && r.ip == r.cfg.dhcpIP {
        return false;
      }
      if r.ip in allowlist {
        return false;
      }
      if r.ip == "127.0.0.1" || r.ip == "::1" {
        return false;
      }
      if HasPrefix(r.ip, "224.") || HasPrefix(r.ip, "239.") || HasSuffix(r.ip, ".255") {
        return false;
      }
      if r.ip in r.local {
        return false;
      }
      return true;
    }

    method Enforce(r: Request) returns (status: Status)
      modifies this`blockCache, backend
      ensures status == StatusOf(backend.parse, old(State()), r) && State() == AfterBlock(backend.parse, old(State()), r)
    {
      var ttl := 600 * SECOND;
      if r.cfg.ttlSeconds > 0 {
        ttl := r.cfg.ttlSeconds * SECOND;
      }
      var expiresAt := r.now + ttl;
      var safe := IsSafeToBlock(r);
      if !safe {
        return Failed;
      }
      if r.cfg.ids {
        return Requested;
      }
      if r.ip in blockCache {
        var rec := blockCache[r.ip];
        blockCache := blockCache[r.ip := rec.(expiresAt := expiresAt)];
        return Confirmed;
      }
      var err := backend.ApplyBlock(r.ip, r.cfg, r.inserted);
      if err {
        return Failed;
      }
      var present := backend.VerifyBlock(r.ip, r.cfg);
      if !present {
        return Failed;
      }
      blockCache := blockCache[r.ip := BlockRecord(r.mac, r.ruleID, r.reason, expiresAt)];
      status := Confirmed;
    }

    method BlockDeviceWithResult(r: Request) returns (status: Status)
      requires Valid()
      modifies this`blockCache, this`log, backend
      ensures Valid() && log == old(log) + [Block(r)] && status == StatusOf(backend.parse, old(State()), r)
    {
      status := Enforce(r);
      Log(Block(r), old(State()));
    }

    method Release(ip: string, ok: Removal)
      modifies this`blockCache, backend
      ensures State() == AfterUnblock(backend.parse, old(State()), ip, ok)
    {
      backend.RemoveBlock(ip, ok);
      blockCache := blockCache - {ip};
    }

    method UnblockDevice(ip: string, ok: Removal) returns (success: bool)
      requires Valid()
      modifies this`blockCache, this`log, backend
      ensures Valid() && log == old(log) + [Unblock(ip, ok)] && success == (ip != "")
    {
      success := ip != "";
      if success {
        Release(ip, ok);
      }
      Log(Unblock(ip, ok), old(State()));
    }

    method FindExpired(now: Time) returns (expired: seq<string>)
      ensures IsOrderOf(expired, Expired(State(), now))
    {
      expired := [];
      var ips := blockCache.Keys;
      while ips != {}
        invariant ips <= blockCache.Keys
        invariant IsOrderOf(expired, set ip | ip in blockCache && ip !in ips && now > blockCache[ip].expiresAt)
        decreases |ips|
      {
        var ip :| ip in ips;
        if now > blockCache[ip].expiresAt {
          expired := expired + [ip];
        }
        ips := ips - {ip};
      }
    }

    /** One round of the sweeper. */
    method SweepExpired(now: Time, ok: string -> Removal) returns (order: seq<string>)
      requires Valid()
      modifies this`blockCache, this`log, backend
      ensures Valid() && log == old(log) + [Sweep(now, order, ok)]
    {
      order := FindExpired(now);
      for i := 0 to |order|
        invariant State() == AfterSweep(backend.parse, old(State()), order[..i], ok) && log == old(log)
      {
        assert order[..i + 1][..i] == order[..i];
        Release(order[i], ok(order[i]));
      }
      assert order[..|order|] == order;
      Log(Sweep(now, order, ok), old(State()));
    }

    method AddAllowlist(ip: string)
      requires Valid()
      modifies this`allowlist, this`log
      ensures Valid() && log == old(log) + [Allow(ip)]
    {
      allowlist := allowlist + {ip};
      Log(Allow(ip), old(State()));
    }

    method RemoveAllowlist(ip: string)
      requires Valid()
      modifies this`allowlist, this`log
      ensures Valid() && log == old(log) + [Disallow(ip)]
    {
      allowlist := allowlist - {ip};
      Log(Disallow(ip), old(State()));
    }
  }
}
