/** What the block life cycle guarantees over whole runs. A run starts with the chains an earlier life
    may have left. The manager keeps spellings, the kernel addresses, so most guarantees hold exactly
    as long as no two spellings in use stand for one address. */
module FirewallRuns {
  import opened Bytes
  import opened FirewallSpec

  /** All block requests come under one deployment mode. */
  ghost predicate OneMode(log: seq<Event>, host: bool) {
    forall i :: 0 <= i < |log| && log[i].Block? ==> log[i].r.cfg.host == host
  }

  /** The event speaks of spellings in `names` only; the empty one has no effect. */
  ghost predicate Uses(e: Event, names: iset<string>) {
    match e
    case Block(r) => r.ip == "" || r.ip in names
    case Unblock(ip, _) => ip == "" || ip in names
    case Sweep(_, order, _) => forall ip :: ip in order ==> ip in names
    case _ => true
  }

  ghost predicate Within(log: seq<Event>, names: iset<string>) {
    forall i :: 0 <= i < |log| ==> Uses(log[i], names)
  }

  /** A spelling that can be blocked stands for its own address. */
  ghost predicate Apart(parse: string -> Address, names: iset<string>) {
    forall p, q :: p in names && q in names && p != q && Blockable(p) ==> parse(p) != parse(q)
  }

  // ---- Chains ----

  lemma {:induction false} DeletedKeepsOthers(c: Chain, a: Address, ok: bool)
    ensures forall x :: x != a ==> (x in Deleted(c, a, ok) <==> x in c)
    ensures a in Deleted(c, a, ok) ==> a in c
  {
    if c != [] && ok && c[0] != a {
      DeletedKeepsOthers(c[1..], a, ok);
    }
  }

  lemma {:induction false} DeletedOnce(c: Chain, a: Address, ok: bool)
    requires Distinct(c)
    ensures Distinct(Deleted(c, a, ok)) && (ok ==> a !in Deleted(c, a, ok))
  {
    if c != [] && ok && c[0] != a {
      DeletedOnce(c[1..], a, ok);
      DeletedKeepsOthers(c[1..], a, ok);
      var d := Deleted(c[1..], a, ok);
      assert c[0] !in c[1..];
      assert c[0] !in d;
    }
  }

  lemma {:induction false} DeletesNothing(c: Chain, a: Address)
    requires a !in c
    ensures forall ok :: Deleted(c, a, ok) == c
    ensures Deleted([a] + c, a, true) == c
  {
    if c != [] {
      DeletesNothing(c[1..], a);
      assert c == [c[0]] + c[1..];
    }
    assert ([a] + c)[1..] == c;
  }

  lemma DeletedFrom(s: Snapshot, a: Address, ok: Removal, host: bool)
    ensures forall x :: x != a ==> (x in ChainOf(RemoveBlock(s, a, ok), host) <==> x in ChainOf(s, host))
    ensures a in ChainOf(RemoveBlock(s, a, ok), host) ==> a in ChainOf(s, host)
  {
    DeletedKeepsOthers(s.input, a, ok.input);
    DeletedKeepsOthers(s.forward, a, ok.forward);
  }

  // ---- One rule per address ----

  ghost predicate NoRepeats(s: Snapshot) {
    Distinct(s.input) && Distinct(s.forward)
  }

  lemma RemovalKeepsDistinct(s: Snapshot, a: Address, ok: Removal)
    requires NoRepeats(s)
    ensures NoRepeats(RemoveBlock(s, a, ok))
  {
    DeletedOnce(s.input, a, ok.input);
    DeletedOnce(s.forward, a, ok.forward);
  }

  lemma {:induction false} SweepKeepsDistinct(parse: string -> Address, s: Snapshot, order: seq<string>, ok: string -> Removal)
    requires NoRepeats(s)
    ensures NoRepeats(AfterSweep(parse, s, order, ok))
  {
    if order != [] {
      var n := |order| - 1;
      SweepKeepsDistinct(parse, s, order[..n], ok);
      RemovalKeepsDistinct(AfterSweep(parse, s, order[..n], ok), parse(order[n]), ok(order[n]));
    }
  }

  /** There is at most one rule per address and chain, whatever the spellings, modes and failures, if
      it was so at the start. */
  lemma {:induction false} AtMostOneRule(parse: string -> Address, start: Snapshot, log: seq<Event>)
    requires NoRepeats(start)
    ensures NoRepeats(Run(parse, start, log))
  {
    if log != [] {
      var d, e := log[..|log| - 1], log[|log| - 1];
      AtMostOneRule(parse, start, d);
      match e
      case Block(r) =>
      case Unblock(ip, ok) => RemovalKeepsDistinct(Run(parse, start, d), parse(ip), ok);
      case Sweep(now, order, ok) => SweepKeepsDistinct(parse, Run(parse, start, d), order, ok);
      case Allow(ip) =>
      case Disallow(ip) =>
    }
  }

  // ---- Cached blocks are enforced ----

  ghost predicate Enforced(parse: string -> Address, s: Snapshot, host: bool) {
    forall ip :: ip in s.cache ==> parse(ip) in ChainOf(s, host)
  }

  ghost predicate CacheOf(s: Snapshot, names: iset<string>) {
    forall ip :: ip in s.cache ==> ip in names && Blockable(ip)
  }

  /** Only the removal of the address itself takes its rule. */
  lemma UnblockKeeps(parse: string -> Address, names: iset<string>, s: Snapshot, ip: string, ok: Removal, host: bool)
    requires Apart(parse, names) && ip in names && CacheOf(s, names) && Enforced(parse, s, host)
    ensures var t := AfterUnblock(parse, s, ip, ok); CacheOf(t, names) && Enforced(parse, t, host)
  {
    DeletedFrom(s, parse(ip), ok, host);
  }

  lemma {:induction false} SweepKeeps(parse: string -> Address, names: iset<string>, s: Snapshot, order: seq<string>, ok: string -> Removal, host: bool)
    requires Apart(parse, names) && (forall ip :: ip in order ==> ip in names) && CacheOf(s, names) && Enforced(parse, s, host)
    ensures var t := AfterSweep(parse, s, order, ok); CacheOf(t, names) && Enforced(parse, t, host)
  {
    if order != [] {
      var n := |order| - 1;
      SweepKeeps(parse, names, s, order[..n], ok, host);
      UnblockKeeps(parse, names, AfterSweep(parse, s, order[..n], ok), order[n], ok(order[n]), host);
    }
  }

  /** In a fixed mode, and with spellings that stand for their own addresses, every cached address has
      its rule in the kernel, whatever fails and whatever was left from before. */
  lemma {:induction false} CachedIsEnforced(parse: string -> Address, names: iset<string>, start: Snapshot, log: seq<Event>, host: bool)
    requires Fresh(start) && OneMode(log, host) && Within(log, names) && Apart(parse, names)
    ensures CacheOf(Run(parse, start, log), names) && Enforced(parse, Run(parse, start, log), host)
  {
    if log != [] {
      var n := |log| - 1;
      var s, e := Run(parse, start, log[..n]), log[n];
      CachedIsEnforced(parse, names, start, log[..n], host);
      assert Uses(e, names);
      match e
      case Block(r) =>
      case Unblock(ip, ok) => if ip != "" { UnblockKeeps(parse, names, s, ip, ok, host); }
      case Sweep(now, order, ok) => SweepKeeps(parse, names, s, order, ok, host);
      case Allow(ip) =>
      case Disallow(ip) =>
    }
  }

  /** A request that nothing stands against. */
  function Plain(ip: string): Request {
    Request(0, ip, "", Config(true, false, 600, "", ""), "", "", {}, true)
  }

  const EMPTY := Snapshot([], [], {}, map[])
  const WORKS := Removal(true, true)

  lemma TwoSteps(parse: string -> Address, start: Snapshot, a: Event, b: Event)
    requires !a.Sweep? && !b.Sweep?
    ensures Run(parse, start, [a, b]) == After(parse, After(parse, start, a), b)
    ensures WellFormed(parse, start, [a, b])
  {
    assert [a, b][..1] == [a] && [a][..0] == [];
    assert Run(parse, start, [a]) == After(parse, start, a);
    assert WellFormed(parse, start, [a]);
  }

  /** Removing another spelling of a blocked address takes the rule and leaves the cached block. */
  lemma OtherSpellingFrees(parse: string -> Address, p: string, q: string)
    requires Blockable(p) && q != "" && p != q && parse(p) == parse(q)
    ensures var s := Run(parse, EMPTY, [Block(Plain(p)), Unblock(q, WORKS)]);
      p in s.cache && parse(p) !in s.input && parse(p) !in s.forward && StatusOf(parse, s, Plain(p)) == Confirmed
  {
    TwoSteps(parse, EMPTY, Block(Plain(p)), Unblock(q, WORKS));
    var s := AfterBlock(parse, EMPTY, Plain(p));
    assert s == Snapshot([parse(p)], [], {}, map[p := RecordOf(Plain(p))]);
    assert Deleted([parse(p)], parse(q), true) == [];
  }

  /** Two spellings of one address share a rule: both blocks are confirmed, and unblocking one leaves
      the other cached, and confirmed from then on, without a rule. */
  lemma SpellingsShareRule(parse: string -> Address, p: string, q: string)
    requires Blockable(p) && Blockable(q) && p != q && parse(p) == parse(q)
    ensures var s := AfterBlock(parse, EMPTY, Plain(p));
      var t := AfterBlock(parse, s, Plain(q));
      var u := AfterUnblock(parse, t, p, WORKS);
      && StatusOf(parse, EMPTY, Plain(p)) == StatusOf(parse, s, Plain(q)) == StatusOf(parse, u, Plain(q)) == Confirmed
      && q in u.cache && parse(q) !in u.input && parse(q) !in u.forward
  {
    var s := AfterBlock(parse, EMPTY, Plain(p));
    assert s == Snapshot([parse(p)], [], {}, map[p := RecordOf(Plain(p))]);
    assert Deleted([parse(p)], parse(p), true) == [];
  }

  /** A life of the program in one mode, with these spellings. */
  ghost predicate IsLife(parse: string -> Address, names: iset<string>, start: Snapshot, log: seq<Event>, host: bool) {
    Fresh(start) && OneMode(log, host) && Within(log, names) && WellFormed(parse, start, log)
  }

  /** In every such life cached blocks are enforced. */
  ghost predicate AlwaysEnforced(parse: string -> Address, names: iset<string>) {
    forall start, log, host :: IsLife(parse, names, start, log, host) ==> Enforced(parse, Run(parse, start, log), host)
  }

  /** In every such life a confirmation is true. */
  ghost predicate AlwaysTrue(parse: string -> Address, names: iset<string>) {
    forall start, log, r: Request :: IsLife(parse, names, start, log, r.cfg.host) && Uses(Block(r), names) ==>
      TrueIfConfirmed(parse, Run(parse, start, log), r)
  }

  ghost predicate TrueIfConfirmed(parse: string -> Address, s: Snapshot, r: Request) {
    StatusOf(parse, s, r) == Confirmed ==> parse(r.ip) in ChainOf(AfterBlock(parse, s, r), r.cfg.host)
  }

  lemma NotApart(parse: string -> Address, names: iset<string>) returns (p: string, log: seq<Event>)
    requires "" !in names && !Apart(parse, names)
    ensures Uses(Block(Plain(p)), names) && IsLife(parse, names, EMPTY, log, true) && RemovalsWork(log)
    ensures var s := Run(parse, EMPTY, log);
      p in s.cache && parse(p) !in s.input && parse(p) !in s.forward && StatusOf(parse, s, Plain(p)) == Confirmed
  {
    var p0, q :| p0 in names && q in names && p0 != q && Blockable(p0) && parse(p0) == parse(q);
    p := p0;
    log := [Block(Plain(p)), Unblock(q, WORKS)];
    OtherSpellingFrees(parse, p, q);
    TwoSteps(parse, EMPTY, log[0], log[1]);
  }

  /** Exactly when a fixed mode is enough: no spelling that can be blocked shares its address. */
  lemma EnforcedIffApart(parse: string -> Address, names: iset<string>)
    requires "" !in names
    ensures AlwaysEnforced(parse, names) <==> Apart(parse, names)
  {
    if Apart(parse, names) {
      forall start, log, host | IsLife(parse, names, start, log, host) ensures Enforced(parse, Run(parse, start, log), host)
      {
        CachedIsEnforced(parse, names, start, log, host);
      }
    } else {
      var p, log := NotApart(parse, names);
      assert !Enforced(parse, Run(parse, EMPTY, log), true);
    }
  }

  /** `BLOCK_CONFIRMED` means that the rule is in the kernel, under the same condition exactly. */
  lemma ConfirmedIffApart(parse: string -> Address, names: iset<string>)
    requires "" !in names
    ensures AlwaysTrue(parse, names) <==> Apart(parse, names)
  {
    if Apart(parse, names) {
      forall start, log, r: Request | IsLife(parse, names, start, log, r.cfg.host) && Uses(Block(r), names)
        ensures TrueIfConfirmed(parse, Run(parse, start, log), r)
      {
        CachedIsEnforced(parse, names, start, log, r.cfg.host);
      }
    } else {
      var p, log := NotApart(parse, names);
      assert !TrueIfConfirmed(parse, Run(parse, EMPTY, log), Plain(p));
    }
  }

  // ---- What the kernel holds ----

  /** Every deletion the log asks of the kernel works. */
  predicate Removes(ok: Removal) {
    ok.input && ok.forward
  }

  ghost predicate RemovalsWork(log: seq<Event>) {
    forall i :: 0 <= i < |log| ==> RemovalWorks(log[i])
  }

  ghost predicate RemovalWorks(e: Event) {
    match e
    case Unblock(_, ok) => Removes(ok)
    case Sweep(_, _, outcome) => forall ip :: Removes(outcome(ip))
    case _ => true
  }

  /** Under which mode each cached address was blocked: a request that finds it cached changes nothing. */
  function Placed(parse: string -> Address, start: Snapshot, log: seq<Event>): map<string, bool> {
    if log == [] then map[] else
      var d := log[..|log| - 1];
      PlacedAfter(parse, Run(parse, start, d), Placed(parse, start, d), log[|log| - 1])
  }

  function PlacedAfter(parse: string -> Address, s: Snapshot, placed: map<string, bool>, e: Event): map<string, bool> {
    match e
    case Block(r) => if r.ip !in s.cache && r.ip in AfterBlock(parse, s, r).cache then placed[r.ip := r.cfg.host] else placed
    case Unblock(ip, _) => placed - {ip}
    case Sweep(_, order, _) => placed - set ip | ip in order
    case _ => placed
  }

  /** The addresses that have been unblocked since the start. */
  function Gone(parse: string -> Address, log: seq<Event>): set<Address> {
    if log == [] then {} else Gone(parse, log[..|log| - 1]) + GoneBy(parse, log[|log| - 1])
  }

  function GoneBy(parse: string -> Address, e: Event): set<Address> {
    match e
    case Unblock(ip, _) => if ip == "" then {} else {parse(ip)}
    case Sweep(_, order, _) => set ip | ip in order :: parse(ip)
    case _ => {}
  }

  /** The kernel has a rule for `ip` under a mode exactly if it was blocked under that mode and is still
      cached, or the rule was left from before and nothing has removed it. */
  ghost predicate MirroredAt(parse: string -> Address, start: Snapshot, s: Snapshot, placed: map<string, bool>, gone: set<Address>,
      ip: string, host: bool)
  {
    parse(ip) in ChainOf(s, host) <==>
      (ip in placed && placed[ip] == host) || (parse(ip) in ChainOf(start, host) && parse(ip) !in gone)
  }

  ghost predicate Mirrored(parse: string -> Address, names: iset<string>, start: Snapshot, s: Snapshot, placed: map<string, bool>, gone: set<Address>) {
    && NoRepeats(s) && CacheOf(s, names) && placed.Keys == s.cache.Keys
    && forall ip, host :: ip in names && ip != "" ==> MirroredAt(parse, start, s, placed, gone, ip, host)
  }

  lemma BlockMirrors(parse: string -> Address, names: iset<string>, start: Snapshot, s: Snapshot, placed: map<string, bool>, gone: set<Address>, r: Request)
    requires Apart(parse, names) && Mirrored(parse, names, start, s, placed, gone) && Uses(Block(r), names)
    ensures Mirrored(parse, names, start, AfterBlock(parse, s, r), PlacedAfter(parse, s, placed, Block(r)), gone)
  {
    var t, placed' := AfterBlock(parse, s, r), PlacedAfter(parse, s, placed, Block(r));
    forall ip, host | ip in names && ip != "" ensures MirroredAt(parse, start, t, placed', gone, ip, host) {
      assert MirroredAt(parse, start, s, placed, gone, ip, host);
    }
  }

  lemma RemoveMirrors(parse: string -> Address, names: iset<string>, start: Snapshot, s: Snapshot, placed: map<string, bool>, gone: set<Address>,
      x: string, ok: Removal)
    requires Apart(parse, names) && Mirrored(parse, names, start, s, placed, gone) && x in names && Removes(ok)
    ensures Mirrored(parse, names, start, AfterUnblock(parse, s, x, ok), placed - {x}, gone + {parse(x)})
  {
    var t := AfterUnblock(parse, s, x, ok);
    DeletedOnce(s.input, parse(x), true);
    DeletedOnce(s.forward, parse(x), true);
    forall ip, host | ip in names && ip != "" ensures MirroredAt(parse, start, t, placed - {x}, gone + {parse(x)}, ip, host) {
      assert MirroredAt(parse, start, s, placed, gone, ip, host);
      DeletedFrom(s, parse(x), ok, host);
    }
  }

  lemma {:induction false} SweepMirrors(parse: string -> Address, names: iset<string>, start: Snapshot, s: Snapshot, placed: map<string, bool>, gone: set<Address>,
      order: seq<string>, ok: string -> Removal)
    requires Apart(parse, names) && Mirrored(parse, names, start, s, placed, gone)
    requires (forall ip :: ip in order ==> ip in names) && (forall ip :: Removes(ok(ip)))
    ensures Mirrored(parse, names, start, AfterSweep(parse, s, order, ok), placed - (set ip | ip in order), gone + set ip | ip in order :: parse(ip))
  {
    if order == [] {
      assert placed - (set ip | ip in order) == placed && gone + (set ip | ip in order :: parse(ip)) == gone;
    } else {
      var d, x := order[..|order| - 1], order[|order| - 1];
      assert order == d + [x];
      SweepMirrors(parse, names, start, s, placed, gone, d, ok);
      RemoveMirrors(parse, names, start, AfterSweep(parse, s, d, ok), placed - (set ip | ip in d), gone + (set ip | ip in d :: parse(ip)), x, ok(x));
      assert (set ip | ip in order) == (set ip | ip in d) + {x};
      assert placed - (set ip | ip in order) == placed - (set ip | ip in d) - {x};
      assert (set ip | ip in order :: parse(ip)) == (set ip | ip in d :: parse(ip)) + {parse(x)};
      assert gone + (set ip | ip in order :: parse(ip)) == gone + (set ip | ip in d :: parse(ip)) + {parse(x)};
    }
  }

  lemma EventMirrors(parse: string -> Address, names: iset<string>, start: Snapshot, s: Snapshot, placed: map<string, bool>, gone: set<Address>, e: Event)
    requires Apart(parse, names) && Mirrored(parse, names, start, s, placed, gone) && Uses(e, names) && RemovalWorks(e)
    ensures Mirrored(parse, names, start, After(parse, s, e), PlacedAfter(parse, s, placed, e), gone + GoneBy(parse, e))
  {
    match e
    case Block(r) =>
      BlockMirrors(parse, names, start, s, placed, gone, r);
      assert gone + {} == gone;
    case Unblock(ip, ok) =>
      if ip == "" {
        assert placed - {ip} == placed && gone + {} == gone;
      } else {
        RemoveMirrors(parse, names, start, s, placed, gone, ip, ok);
      }
    case Sweep(now, order, ok) => SweepMirrors(parse, names, start, s, placed, gone, order, ok);
    case _ =>
      assert gone + {} == gone;
      forall ip, host | ip in names && ip != "" ensures MirroredAt(parse, start, After(parse, s, e), placed, gone, ip, host) {
        assert MirroredAt(parse, start, s, placed, gone, ip, host);
      }
  }

  /** If removals work and spellings stand for their own addresses, the kernel holds exactly the cached
      blocks, each under the mode it was made in, and the leftovers that nothing has removed: in every
      life, whatever the changes of mode. */
  lemma {:induction false} KernelMirrorsCache(parse: string -> Address, names: iset<string>, start: Snapshot, log: seq<Event>)
    requires Fresh(start) && NoRepeats(start) && Within(log, names) && Apart(parse, names) && RemovalsWork(log)
    ensures Mirrored(parse, names, start, Run(parse, start, log), Placed(parse, start, log), Gone(parse, log))
  {
    if log != [] {
      var d := log[..|log| - 1];
      KernelMirrorsCache(parse, names, start, d);
      assert Uses(log[|log| - 1], names) && RemovalWorks(log[|log| - 1]);
      EventMirrors(parse, names, start, Run(parse, start, d), Placed(parse, start, d), Gone(parse, d), log[|log| - 1]);
    }
  }

  /** In every life with these spellings in which removals work, the kernel mirrors the cache. */
  ghost predicate AlwaysMirrored(parse: string -> Address, names: iset<string>) {
    forall start, log :: Fresh(start) && NoRepeats(start) && Within(log, names) && RemovalsWork(log) ==>
      Mirrored(parse, names, start, Run(parse, start, log), Placed(parse, start, log), Gone(parse, log))
  }

  lemma AbsentIsNotMirrored(parse: string -> Address, start: Snapshot, s: Snapshot, placed: map<string, bool>, gone: set<Address>, p: string)
    requires parse(p) !in s.input && parse(p) !in s.forward
    ensures p in placed ==> !MirroredAt(parse, start, s, placed, gone, p, placed[p])
  {
  }

  /** ... if and only if no spelling that can be blocked shares its address. */
  lemma MirroredIffApart(parse: string -> Address, names: iset<string>)
    requires "" !in names
    ensures AlwaysMirrored(parse, names) <==> Apart(parse, names)
  {
    if Apart(parse, names) {
      forall start, log | Fresh(start) && NoRepeats(start) && Within(log, names) && RemovalsWork(log)
        ensures Mirrored(parse, names, start, Run(parse, start, log), Placed(parse, start, log), Gone(parse, log))
      {
        KernelMirrorsCache(parse, names, start, log);
      }
    } else {
      var p, log := NotApart(parse, names);
      AbsentIsNotMirrored(parse, EMPTY, Run(parse, EMPTY, log), Placed(parse, EMPTY, log), Gone(parse, log), p);
      assert NoRepeats(EMPTY);
    }
  }

  /** Exactly when a confirmation is true, whatever the changes of mode before it: the address was not
      cached, or was blocked under the mode in force, or has a rule from before in its chain. */
  lemma ConfirmedIff(parse: string -> Address, names: iset<string>, start: Snapshot, log: seq<Event>, r: Request)
    requires Fresh(start) && NoRepeats(start) && Within(log, names) && Apart(parse, names) && RemovalsWork(log)
    requires r.ip in names && StatusOf(parse, Run(parse, start, log), r) == Confirmed
    ensures var s, placed := Run(parse, start, log), Placed(parse, start, log);
      parse(r.ip) in ChainOf(AfterBlock(parse, s, r), r.cfg.host) <==>
        r.ip !in s.cache || (r.ip in placed && placed[r.ip] == r.cfg.host)
        || (parse(r.ip) in ChainOf(start, r.cfg.host) && parse(r.ip) !in Gone(parse, log))
  {
    KernelMirrorsCache(parse, names, start, log);
    assert MirroredAt(parse, start, Run(parse, start, log), Placed(parse, start, log), Gone(parse, log), r.ip, r.cfg.host);
  }

  /** So a block made under one mode is confirmed under the other, where it has no rule. */
  lemma ModeChangeMisconfirms(parse: string -> Address, r: Request, q: Request)
    requires !Protected({}, r) && !Protected({}, q) && !r.cfg.ids && !q.cfg.ids && r.inserted
    requires q.ip == r.ip && q.cfg.host != r.cfg.host
    ensures var s := Run(parse, EMPTY, [Block(r)]);
      StatusOf(parse, s, q) == Confirmed && parse(q.ip) !in ChainOf(AfterBlock(parse, s, q), q.cfg.host)
  {
    assert [Block(r)][..0] == [];
    assert Run(parse, EMPTY, [Block(r)]) == AfterBlock(parse, EMPTY, r);
  }

  /** A failed deletion leaks: the rule stays, the cache forgets it, and the call reports success. */
  lemma FailedRemovalLeaks(parse: string -> Address, r: Request, ok: Removal)
    requires !Protected({}, r) && !r.cfg.ids && r.inserted && !(if r.cfg.host then ok.input else ok.forward)
    ensures var s := Run(parse, EMPTY, [Block(r), Unblock(r.ip, ok)]); r.ip !in s.cache && parse(r.ip) in ChainOf(s, r.cfg.host)
  {
    TwoSteps(parse, EMPTY, Block(r), Unblock(r.ip, ok));
    var a := parse(r.ip);
    assert AfterBlock(parse, EMPTY, r) == Snapshot(if r.cfg.host then [a] else [], if r.cfg.host then [] else [a], {}, map[r.ip := RecordOf(r)]);
  }

  // ---- Sweeps ----

  lemma {:induction false} SweptCache(parse: string -> Address, s: Snapshot, order: seq<string>, ok: string -> Removal)
    ensures forall ip :: ip in AfterSweep(parse, s, order, ok).cache <==> ip in s.cache && ip !in order
    ensures forall ip :: ip in AfterSweep(parse, s, order, ok).cache ==> AfterSweep(parse, s, order, ok).cache[ip] == s.cache[ip]
  {
    if order != [] {
      SweptCache(parse, s, order[..|order| - 1], ok);
      assert forall ip :: ip in order <==> ip in order[..|order| - 1] || ip == order[|order| - 1];
    }
  }

  /** After a sweep at time `now` the cache holds exactly the blocks that had not expired before it. */
  lemma SweepLeavesNoneExpired(parse: string -> Address, start: Snapshot, log: seq<Event>, now: Time, order: seq<string>, ok: string -> Removal)
    requires WellFormed(parse, start, log + [Sweep(now, order, ok)])
    ensures var s, t := Run(parse, start, log), Run(parse, start, log + [Sweep(now, order, ok)]);
      && Expired(t, now) == {}
      && forall ip :: ip in t.cache <==> ip in s.cache && s.cache[ip].expiresAt >= now
  {
    var l := log + [Sweep(now, order, ok)];
    assert l[..|l| - 1] == log;
    SweptCache(parse, Run(parse, start, log), order, ok);
  }

  // ---- How long a block lasts ----

  /** Event `i` asks for a block of `ip` and is told that it is confirmed. */
  ghost predicate ConfirmedAt(parse: string -> Address, start: Snapshot, log: seq<Event>, i: int, ip: string) {
    0 <= i < |log| && log[i].Block? && log[i].r.ip == ip && StatusOf(parse, Run(parse, start, log[..i]), log[i].r) == Confirmed
  }

  /** More time has passed than the request gives: its seconds, or ten minutes. */
  predicate TimeOver(r: Request, now: Time) {
    now - r.now > 1_000_000_000 * if r.cfg.ttlSeconds > 0 then r.cfg.ttlSeconds else 600
  }

  /** The event takes the block that `r` made: someone unblocks the address, or a sweep finds its time over. */
  predicate Ends(e: Event, r: Request) {
    (e.Unblock? && e.ip == r.ip) || (e.Sweep? && TimeOver(r, e.now))
  }

  /** Event `i` is the last confirmed request for `ip`, and nothing has ended the block since. */
  ghost predicate Lasts(parse: string -> Address, start: Snapshot, log: seq<Event>, i: int, ip: string) {
    ConfirmedAt(parse, start, log, i, ip) &&
    forall j :: i < j < |log| ==> !ConfirmedAt(parse, start, log, j, ip) && !Ends(log[j], log[i].r)
  }

  lemma ConfirmedBefore(parse: string -> Address, start: Snapshot, log: seq<Event>, n: nat, i: int, ip: string)
    requires n <= |log| && i < n
    ensures ConfirmedAt(parse, start, log[..n], i, ip) <==> ConfirmedAt(parse, start, log, i, ip)
  {
    if 0 <= i {
      assert log[..n][..i] == log[..i];
    }
  }

  /** `ip` is cached until `until`. */
  predicate CachedUntil(s: Snapshot, ip: string, until: Time) {
    ip in s.cache && s.cache[ip].expiresAt == until
  }

  /** What one event does to a cached address: a confirmed request sets its time, and only what ends the
      block takes it out. */
  lemma EventAndCache(parse: string -> Address, s: Snapshot, e: Event, ip: string)
    requires e.Sweep? ==> IsOrderOf(e.order, Expired(s, e.now))
    ensures e.Block? && e.r.ip == ip && StatusOf(parse, s, e.r) == Confirmed ==> CachedUntil(After(parse, s, e), ip, ExpiresAt(e.r))
    ensures !(e.Block? && e.r.ip == ip && StatusOf(parse, s, e.r) == Confirmed) ==>
      (ip in After(parse, s, e).cache <==> ip in s.cache && !(e.Unblock? && e.ip == ip && ip != "") && !(e.Sweep? && e.now > s.cache[ip].expiresAt))
      && (ip in After(parse, s, e).cache ==> After(parse, s, e).cache[ip].expiresAt == s.cache[ip].expiresAt)
  {
    if e.Sweep? {
      SweptCache(parse, s, e.order, e.outcome);
    }
  }

  lemma {:induction false} LastingIsCached(parse: string -> Address, start: Snapshot, log: seq<Event>, i: int, ip: string)
    requires WellFormed(parse, start, log) && Lasts(parse, start, log, i, ip)
    ensures CachedUntil(Run(parse, start, log), ip, ExpiresAt(log[i].r))
    decreases |log|
  {
    var n := |log| - 1;
    EventAndCache(parse, Run(parse, start, log[..n]), log[n], ip);
    if i < n {
      forall j | i <= j < n ensures ConfirmedAt(parse, start, log[..n], j, ip) <==> ConfirmedAt(parse, start, log, j, ip) {
        ConfirmedBefore(parse, start, log, n, j, ip);
      }
      LastingIsCached(parse, start, log[..n], i, ip);
      assert !ConfirmedAt(parse, start, log, n, ip) && !Ends(log[n], log[i].r);
    }
  }

  lemma {:induction false} CachedIsLasting(parse: string -> Address, start: Snapshot, log: seq<Event>, ip: string) returns (i: nat)
    requires Fresh(start) && WellFormed(parse, start, log) && ip in Run(parse, start, log).cache
    ensures Lasts(parse, start, log, i, ip)
  {
    var n := |log| - 1;
    if ConfirmedAt(parse, start, log, n, ip) {
      i := n;
    } else {
      var s := Run(parse, start, log[..n]);
      EventAndCache(parse, s, log[n], ip);
      i := CachedIsLasting(parse, start, log[..n], ip);
      LastingIsCached(parse, start, log[..n], i, ip);
      forall j | i <= j < n ensures ConfirmedAt(parse, start, log[..n], j, ip) <==> ConfirmedAt(parse, start, log, j, ip) {
        ConfirmedBefore(parse, start, log, n, j, ip);
      }
    }
  }

  /** In every life: an address is cached exactly if a request for it was confirmed and, since the last
      that was, nobody unblocked it and no sweep came more than that request's seconds later. */
  lemma CachedIff(parse: string -> Address, start: Snapshot, log: seq<Event>, ip: string)
    requires Fresh(start) && WellFormed(parse, start, log)
    ensures ip in Run(parse, start, log).cache <==> exists i :: Lasts(parse, start, log, i, ip)
  {
    if ip in Run(parse, start, log).cache {
      var i := CachedIsLasting(parse, start, log, ip);
    }
    if i :| Lasts(parse, start, log, i, ip) {
      LastingIsCached(parse, start, log, i, ip);
    }
  }

  /** ... and under one mode, with spellings that stand for their own addresses, it is blocked as long. */
  lemma BlockLasts(parse: string -> Address, names: iset<string>, start: Snapshot, log: seq<Event>, host: bool, i: int, ip: string)
    requires IsLife(parse, names, start, log, host) && Apart(parse, names) && Lasts(parse, start, log, i, ip)
    ensures parse(ip) in ChainOf(Run(parse, start, log), host)
  {
    LastingIsCached(parse, start, log, i, ip);
    CachedIsEnforced(parse, names, start, log, host);
  }

  // ---- Undoing ----

  /** Unblocking takes back a block completely: the chains and the cache are as they were. */
  lemma UnblockUndoesBlock(parse: string -> Address, s: Snapshot, r: Request, ok: Removal)
    requires r.ip !in s.cache && parse(r.ip) !in s.input && parse(r.ip) !in s.forward && Removes(ok)
    ensures AfterUnblock(parse, AfterBlock(parse, s, r), r.ip, ok) == s
  {
    DeletesNothing(s.input, parse(r.ip));
    DeletesNothing(s.forward, parse(r.ip));
    assert AfterUnblock(parse, AfterBlock(parse, s, r), r.ip, ok).cache == s.cache;
  }

  /** Exactly when an address is free after unblocking: each chain that had its rule let go of it. */
  lemma UnblockedIff(parse: string -> Address, start: Snapshot, log: seq<Event>, ip: string, ok: Removal)
    requires ip != "" && NoRepeats(start)
    ensures var s, t := Run(parse, start, log), After(parse, Run(parse, start, log), Unblock(ip, ok));
      parse(ip) !in t.input && parse(ip) !in t.forward <==>
        (parse(ip) in s.input ==> ok.input) && (parse(ip) in s.forward ==> ok.forward)
  {
    AtMostOneRule(parse, start, log);
    var s := Run(parse, start, log);
    DeletedOnce(s.input, parse(ip), ok.input);
    DeletedOnce(s.forward, parse(ip), ok.forward);
    DeletedKeepsOthers(s.input, parse(ip), ok.input);
    DeletedKeepsOthers(s.forward, parse(ip), ok.forward);
  }

  // ---- Protection ----

  /** Every request to block the address, however it is spelled, finds it protected. */
  ghost predicate StaysProtected(parse: string -> Address, start: Snapshot, log: seq<Event>, a: Address) {
    forall i :: 0 <= i < |log| && log[i].Block? && parse(log[i].r.ip) == a ==> Protected(Run(parse, start, log[..i]).allowlist, log[i].r)
  }

  ghost predicate Absent(s: Snapshot, a: Address) {
    a !in s.input && a !in s.forward
  }

  ghost predicate Untouched(parse: string -> Address, s: Snapshot, a: Address) {
    Absent(s, a) && forall ip :: ip in s.cache ==> parse(ip) != a
  }

  lemma {:induction false} SweepKeepsUntouched(parse: string -> Address, s: Snapshot, order: seq<string>, ok: string -> Removal, a: Address)
    requires Untouched(parse, s, a)
    ensures Untouched(parse, AfterSweep(parse, s, order, ok), a)
  {
    if order != [] {
      var n := |order| - 1;
      var t := AfterSweep(parse, s, order[..n], ok);
      SweepKeepsUntouched(parse, s, order[..n], ok, a);
      DeletedKeepsOthers(t.input, parse(order[n]), ok(order[n]).input);
      DeletedKeepsOthers(t.forward, parse(order[n]), ok(order[n]).forward);
    }
  }

  /** An address without a rule from before that stays protected in all its spellings is never in the
      kernel nor the cache, whatever is requested. */
  lemma {:induction false} ProtectedIsNeverBlocked(parse: string -> Address, start: Snapshot, log: seq<Event>, a: Address)
    requires Fresh(start) && Absent(start, a) && StaysProtected(parse, start, log, a)
    ensures Untouched(parse, Run(parse, start, log), a)
  {
    if log != [] {
      var n := |log| - 1;
      var s, e := Run(parse, start, log[..n]), log[n];
      assert forall i :: 0 <= i < n ==> log[..n][..i] == log[..i];
      ProtectedIsNeverBlocked(parse, start, log[..n], a);
      match e
      case Block(r) =>
      case Unblock(x, ok) =>
        DeletedKeepsOthers(s.input, parse(x), ok.input);
        DeletedKeepsOthers(s.forward, parse(x), ok.forward);
      case Sweep(now, order, ok) => SweepKeepsUntouched(parse, s, order, ok, a);
      case Allow(x) =>
      case Disallow(x) =>
    }
  }

  /** The configured gateway or DHCP server, an address of the host itself, loopback, multicast and
      broadcast in their usual spellings. */
  predicate Guarded(r: Request) {
    || (r.ip == r.cfg.gatewayIP || r.ip == r.cfg.dhcpIP || r.ip in r.local)
    || r.ip == "" || r.ip == "127.0.0.1" || r.ip == "::1"
    || (|r.ip| >= 4 && (r.ip[..4] == "224." || r.ip[..4] == "239." || r.ip[|r.ip| - 4..] == ".255"))
  }

  /** An address that only guarded requests name, without a rule from before, is never in the kernel. */
  lemma GuardedIsNeverBlocked(parse: string -> Address, start: Snapshot, log: seq<Event>, a: Address)
    requires Fresh(start) && Absent(start, a)
    requires forall i :: 0 <= i < |log| && log[i].Block? && parse(log[i].r.ip) == a ==> Guarded(log[i].r)
    ensures Untouched(parse, Run(parse, start, log), a)
  {
    ProtectedIsNeverBlocked(parse, start, log, a);
  }

  /** A request outside detection mode is refused exactly if it is guarded or its address allowlisted; any
      other is enforced, if the kernel takes the rule. */
  lemma RefusedIff(parse: string -> Address, s: Snapshot, r: Request)
    requires !r.cfg.ids && r.inserted && r.ip !in s.cache
    ensures Guarded(r) || r.ip in s.allowlist <==> StatusOf(parse, s, r) == Failed
    ensures !Guarded(r) && r.ip !in s.allowlist ==>
      StatusOf(parse, s, r) == Confirmed && parse(r.ip) in ChainOf(AfterBlock(parse, s, r), r.cfg.host)
  {
  }

  /** The same for one spelling. */
  ghost predicate SpellingStaysProtected(parse: string -> Address, start: Snapshot, log: seq<Event>, ip: string) {
    forall i :: 0 <= i < |log| && log[i].Block? && log[i].r.ip == ip ==> Protected(Run(parse, start, log[..i]).allowlist, log[i].r)
  }

  /** Among these spellings, protecting `ip` keeps its address out of the kernel. */
  ghost predicate ProtectionHolds(parse: string -> Address, names: iset<string>, ip: string) {
    forall start, log :: Fresh(start) && Absent(start, parse(ip)) && Within(log, names) && SpellingStaysProtected(parse, start, log, ip) ==>
      Absent(Run(parse, start, log), parse(ip))
  }

  /** An allowlisted address is blocked under another spelling. */
  lemma OtherSpellingIsBlocked(parse: string -> Address, ip: string, q: string) returns (log: seq<Event>)
    requires Blockable(q) && q != ip && parse(q) == parse(ip)
    ensures log == [Allow(ip), Block(Plain(q))] && SpellingStaysProtected(parse, EMPTY, log, ip)
    ensures !Absent(Run(parse, EMPTY, log), parse(ip))
  {
    log := [Allow(ip), Block(Plain(q))];
    TwoSteps(parse, EMPTY, log[0], log[1]);
  }

  /** Exactly when protecting one spelling protects the address: no other that can be blocked is in use. */
  lemma ProtectionHoldsIff(parse: string -> Address, names: iset<string>, ip: string)
    requires ip in names
    ensures ProtectionHolds(parse, names, ip) <==> forall q :: q in names && q != ip && parse(q) == parse(ip) ==> !Blockable(q)
  {
    if q :| q in names && q != ip && parse(q) == parse(ip) && Blockable(q) {
      var log := OtherSpellingIsBlocked(parse, ip, q);
      assert Within(log, names) && Fresh(EMPTY) && Absent(EMPTY, parse(ip));
    } else {
      forall start, log: seq<Event> | Fresh(start) && Absent(start, parse(ip)) && Within(log, names) && SpellingStaysProtected(parse, start, log, ip)
        ensures Absent(Run(parse, start, log), parse(ip))
      {
        forall i | 0 <= i < |log| && log[i].Block? && parse(log[i].r.ip) == parse(ip)
          ensures Protected(Run(parse, start, log[..i]).allowlist, log[i].r)
        {
          assert Uses(log[i], names);
        }
        ProtectedIsNeverBlocked(parse, start, log, parse(ip));
      }
    }
  }

  /** A request that is refused, made of a passive system or failed in the kernel changes nothing. */
  lemma RefusedChangesNothing(parse: string -> Address, s: Snapshot, r: Request)
    ensures Protected(s.allowlist, r) ==> StatusOf(parse, s, r) == Failed && AfterBlock(parse, s, r) == s
    ensures StatusOf(parse, s, r) == Requested <==> r.cfg.ids && !Protected(s.allowlist, r)
    ensures StatusOf(parse, s, r) == Requested || StatusOf(parse, s, r) == Failed ==> AfterBlock(parse, s, r) == s
  {
  }
}
