/** The flow table as a function of the packets offered and the sweeps made so far, and the
    condition under which its flows do not influence each other. */
module TrackerSpec {
  import opened Bytes
  import opened FlowKey
  import opened FlowSpec
  import opened FlowHistory

  /** A packet on its way to the tracker; `p` carries its source endpoint. */
  datatype Arrival = Arrival(protocol: byte, dstIP: Bytes, dstPort: u16, p: Packet)

  datatype Event = Offered(a: Arrival) | Swept(now: Time)

  datatype Limits = Limits(maxFlows: int, idleTimeout: int)

  type Table = map<Key, seq<Packet>>

  function KeyOf(a: Arrival): Key {
    NewKey(a.protocol, a.p.srcIP, a.dstIP, a.p.srcPort, a.dstPort)
  }

  /** What the pruner checks of a flow: idle for too long, or closed. */
  predicate Stale(lastSeen: Time, state: ConnState, now: Time, idleTimeout: int) {
    now - lastSeen > idleTimeout || state == StateClosed
  }

  predicate StaleFlow(h: seq<Packet>, now: Time, idleTimeout: int) {
    h != [] && Stale(h[|h| - 1].now, StateAfter(h), now, idleTimeout)
  }

  function Lookup(m: Table, k: Key): seq<Packet> {
    if k in m then m[k] else []
  }

  function Offer(m: Table, a: Arrival, maxFlows: int): Table {
    var k := KeyOf(a);
    if k !in m && |m| >= maxFlows then m else m[k := Lookup(m, k) + [a.p]]
  }

  function Sweep(m: Table, now: Time, idleTimeout: int): Table {
    map k | k in m && !StaleFlow(m[k], now, idleTimeout) :: m[k]
  }

  /** Midway through a sweep of `m`, with the keys `ks` still to come. */
  ghost predicate Sweeping(m: Table, t: Table, ks: set<Key>, now: Time, idleTimeout: int) {
    forall k :: SweptAt(m, t, ks, k, now, idleTimeout)
  }

  ghost predicate SweptAt(m: Table, t: Table, ks: set<Key>, k: Key, now: Time, idleTimeout: int) {
    (k in t <==> k in m && (k in ks || !StaleFlow(m[k], now, idleTimeout))) && (k in t ==> t[k] == m[k])
  }

  lemma SweepOne(m: Table, t: Table, ks: set<Key>, k: Key, now: Time, idleTimeout: int)
    requires Sweeping(m, t, ks, now, idleTimeout) && k in ks && k in t
    ensures Sweeping(m, if StaleFlow(t[k], now, idleTimeout) then t - {k} else t, ks - {k}, now, idleTimeout)
  {
    var u := if StaleFlow(t[k], now, idleTimeout) then t - {k} else t;
    assert SweptAt(m, t, ks, k, now, idleTimeout);
    forall j ensures SweptAt(m, u, ks - {k}, j, now, idleTimeout) {
      assert SweptAt(m, t, ks, j, now, idleTimeout);
    }
  }

  lemma SweepEnds(m: Table, t: Table, now: Time, idleTimeout: int)
    requires Sweeping(m, t, {}, now, idleTimeout)
    ensures t == Sweep(m, now, idleTimeout)
  {
    forall k ensures (k in t <==> k in Sweep(m, now, idleTimeout)) && (k in t ==> t[k] == m[k]) {
      assert SweptAt(m, t, {}, k, now, idleTimeout);
    }
  }

  function Apply(m: Table, e: Event, limits: Limits): Table {
    match e
    case Offered(a) => Offer(m, a, limits.maxFlows)
    case Swept(now) => Sweep(m, now, limits.idleTimeout)
  }

  function TableAfter(log: seq<Event>, limits: Limits): Table {
    if log == [] then map[] else Apply(TableAfter(log[..|log| - 1], limits), log[|log| - 1], limits)
  }

  // ---- Flows do not influence each other ----

  /** Flow `k` from its own packets and the sweeps alone. */
  function FlowOf(log: seq<Event>, k: Key, idleTimeout: int): seq<Packet> {
    if log == [] then [] else
      var h := FlowOf(log[..|log| - 1], k, idleTimeout);
      match log[|log| - 1]
      case Offered(a) => if KeyOf(a) == k then h + [a.p] else h
      case Swept(now) => if h != [] && now - h[|h| - 1].now > idleTimeout then [] else h
  }

  /** The table has room for the packet: its flow is known or the limit is not reached. */
  predicate HasRoom(m: Table, e: Event, maxFlows: int) {
    e.Offered? ==> KeyOf(e.a) in m || |m| < maxFlows
  }

  predicate NeverFull(log: seq<Event>, limits: Limits) {
    log == [] || (NeverFull(log[..|log| - 1], limits) && HasRoom(TableAfter(log[..|log| - 1], limits), log[|log| - 1], limits.maxFlows))
  }

  ghost predicate Agree(log: seq<Event>, limits: Limits) {
    forall k :: Lookup(TableAfter(log, limits), k) == FlowOf(log, k, limits.idleTimeout)
  }

  /** At every moment of the log the table holds each flow as if it were the only one. */
  ghost predicate Independent(log: seq<Event>, limits: Limits) {
    log == [] || (Independent(log[..|log| - 1], limits) && Agree(log, limits))
  }

  lemma {:induction false} NoEmptyFlows(log: seq<Event>, limits: Limits)
    ensures forall k :: k in TableAfter(log, limits) ==> TableAfter(log, limits)[k] != []
  {
    if log != [] {
      NoEmptyFlows(log[..|log| - 1], limits);
    }
  }

  lemma StepAgrees(log: seq<Event>, limits: Limits)
    requires log != [] && Agree(log[..|log| - 1], limits)
    ensures Agree(log, limits) <==> HasRoom(TableAfter(log[..|log| - 1], limits), log[|log| - 1], limits.maxFlows)
  {
    var d, e := log[..|log| - 1], log[|log| - 1];
    var m := TableAfter(d, limits);
    NoEmptyFlows(d, limits);
    if HasRoom(m, e, limits.maxFlows) {
      forall k ensures Lookup(TableAfter(log, limits), k) == FlowOf(log, k, limits.idleTimeout) {
        assert Lookup(m, k) == FlowOf(d, k, limits.idleTimeout);
        NeverClosed(Lookup(m, k));
      }
    } else {
      var k := KeyOf(e.a);
      assert Lookup(m, k) == FlowOf(d, k, limits.idleTimeout);
      assert Lookup(TableAfter(log, limits), k) != FlowOf(log, k, limits.idleTimeout);
    }
  }

  /** In any interleaving of any number of connections, every flow depends on its own packets and
      the sweeps alone exactly as long as no packet of a new flow meets a full table. */
  lemma {:induction false} IndependentIffNeverFull(log: seq<Event>, limits: Limits)
    ensures Independent(log, limits) <==> NeverFull(log, limits)
    ensures NeverFull(log, limits) ==> Agree(log, limits)
  {
    if log != [] {
      var d := log[..|log| - 1];
      IndependentIffNeverFull(d, limits);
      if NeverFull(d, limits) {
        StepAgrees(log, limits);
      }
    }
  }

  /** The table never holds more flows than the limit. */
  lemma {:induction false} TableIsBounded(log: seq<Event>, limits: Limits)
    ensures |TableAfter(log, limits)| <= if limits.maxFlows > 0 then limits.maxFlows else 0
  {
    if log != [] {
      var d, e := log[..|log| - 1], log[|log| - 1];
      TableIsBounded(d, limits);
      if e.Swept? {
        SubsetSize(TableAfter(log, limits).Keys, TableAfter(d, limits).Keys);
      } else {
        var m, k := TableAfter(d, limits), KeyOf(e.a);
        if k in m {
          assert TableAfter(log, limits).Keys == m.Keys;
        } else if |m| < limits.maxFlows {
          assert TableAfter(log, limits).Keys == m.Keys + {k};
        }
      }
    }
  }

  // ---- A sufficient condition that mentions no table ----

  /** The flows the packets belong to. */
  function KeysOf(log: seq<Event>): set<Key> {
    if log == [] then {} else
      KeysOf(log[..|log| - 1]) + if log[|log| - 1].Offered? then {KeyOf(log[|log| - 1].a)} else {}
  }

  lemma SubsetSize<T>(a: set<T>, b: set<T>)
    requires a <= b
    ensures |a| <= |b|
  {
    assert |b| == |a| + |b - a| by { assert a + (b - a) == b; }
  }

  lemma {:induction false} TableKeys(log: seq<Event>, limits: Limits)
    ensures TableAfter(log, limits).Keys <= KeysOf(log)
  {
    if log != [] {
      TableKeys(log[..|log| - 1], limits);
    }
  }

  lemma {:induction false} FewFlowsNeverFill(log: seq<Event>, limits: Limits)
    requires |KeysOf(log)| <= limits.maxFlows
    ensures NeverFull(log, limits)
  {
    if log != [] {
      var d, e := log[..|log| - 1], log[|log| - 1];
      SubsetSize(KeysOf(d), KeysOf(log));
      FewFlowsNeverFill(d, limits);
      TableKeys(d, limits);
      var m := TableAfter(d, limits);
      if e.Offered? && KeyOf(e.a) !in m {
        SubsetSize(m.Keys + {KeyOf(e.a)}, KeysOf(log));
      }
    }
  }
}
