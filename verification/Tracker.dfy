/** The table of active flows. Its state is a function of the events so far: the packets the
    detection engine hands over and the sweeps of the background pruner. */
module Tracker {
  import opened Bytes
  import opened FlowKey
  import opened FlowSpec
  import opened FlowHistory
  import opened TrackerSpec
  import F = Flow

  class Tracker {
    var flows: map<Key, F.Flow>
    const maxFlows: int
    const idleTimeout: int
    const maxReassembly: int
    ghost var log: seq<Event>
    ghost var table: Table       // the history of each flow in `flows`
    ghost var Repr: set<object>  // the objects of the flows, present and past

    ghost function Limits(): Limits {
      TrackerSpec.Limits(maxFlows, idleTimeout)
    }

    /** Flow `f` holds the history `h`. */
    ghost predicate Holds(f: F.Flow, h: seq<Packet>)
      reads f, f.Repr
    {
      && f.Valid() && f.history == h
      && f.ClientStream.MaxDepth == f.ServerStream.MaxDepth == maxReassembly
    }

    /** ... and was opened, under key `k`, by the first packet of it. */
    ghost predicate Stored(f: F.Flow, k: Key, h: seq<Packet>)
      reads f, f.Repr
    {
      && Holds(f, h) && f.key == k && h != []
      && f.client == Endpoint(h[0].srcIP, h[0].srcPort) && f.LastSeen == h[|h| - 1].now
    }

    /** The table and `flows` agree about key `k`. */
    ghost predicate Entry(k: Key)
      reads this`flows, this`table, this`Repr, Repr
    {
      && (k in flows <==> k in table)
      && (k in flows ==> flows[k] in Repr && flows[k].Repr <= Repr && Stored(flows[k], k, table[k]))
    }

    ghost predicate Apart(j: Key, k: Key)
      reads this`flows
    {
      j in flows && k in flows && j != k ==> flows[j] !in flows[k].Repr && flows[j].Repr !! flows[k].Repr
    }

    ghost predicate AllApart()
      reads this`flows, this`Repr
    {
      this !in Repr && forall j, k :: Apart(j, k)
    }

    ghost predicate Represents()
      reads this`flows, this`table, this`Repr, Repr
    {
      AllApart() && forall k :: Entry(k)
    }

    ghost predicate Valid()
      reads this, Repr
    {
      Represents() && table == TableAfter(log, Limits())
    }

    constructor (maxFlows: int, idleTimeout: int, maxReassembly: int)
      ensures Valid() && log == [] && Repr == {} && Limits() == TrackerSpec.Limits(maxFlows, idleTimeout)
    {
      this.maxFlows, this.idleTimeout, this.maxReassembly := maxFlows, idleTimeout, maxReassembly;
      flows, table, log, Repr := map[], map[], [], {};
    }

    /** The flow of `key`, created by this packet if it is unknown and the table has room. */
    method GetOrCreate(key: Key, srcIP: IP16, srcPort: u16, now: Time) returns (f: F.Flow?, created: bool)
      requires AllApart() && Entry(key) && forall k :: k in flows ==> flows[k].Repr <= Repr
      modifies this`flows, this`Repr, if key in flows then {flows[key]} else {}
      ensures AllApart() && fresh(Repr - old(Repr)) && old(Repr) <= Repr
      ensures f == null <==> key !in old(flows) && |old(flows)| >= maxFlows
      ensures created <==> key !in old(flows) && |old(flows)| < maxFlows
      ensures flows == if f == null then old(flows) else old(flows)[key := f]
      ensures f != null ==> Holds(f, Lookup(table, key)) && f.key == key && f in Repr && f.Repr <= Repr
      ensures created ==> f.client == Endpoint(srcIP, srcPort) && fresh(f.Repr)
      ensures !created ==> Repr == old(Repr) && (f != null ==> f == old(flows[key]))
    {
      if key in flows {
        f := flows[key];
        f.Touch(now);
        return f, false;
      }
      if |flows| >= maxFlows {
        return null, false;
      }
      f := new F.Flow(key, Endpoint(srcIP, srcPort), maxReassembly, now);
      flows := flows[key := f];
      Repr := Repr + f.Repr;
      created := true;
      forall j, k ensures Apart(j, k) {
        assert old(Apart(j, k));
      }
    }

    lemma EntriesFit()
      requires Represents()
      ensures flows.Keys == table.Keys && forall k :: k in flows ==> flows[k].Repr <= Repr
    {
      forall k ensures k in flows.Keys <==> k in table.Keys {
        assert Entry(k);
      }
      forall k | k in flows ensures flows[k].Repr <= Repr {
        assert Entry(k);
      }
    }

    /** The flow of `key` sees a packet; the other flows do not. */
    method Record(f: F.Flow, key: Key, p: Packet)
      requires AllApart() && (forall k :: k != key ==> Entry(k))
      requires key in flows && flows[key] == f && f.key == key && f in Repr && f.Repr <= Repr
      requires Holds(f, Lookup(table, key)) && ClientFits(f, Lookup(table, key), p)
      modifies this`table, f.Repr
      ensures Represents() && table == old(table)[key := Lookup(old(table), key) + [p]]
    {
      f.UpdateFlowML(p);
      table := table[key := Lookup(table, key) + [p]];
      forall k ensures Entry(k) {
        if k != key {
          assert old(Entry(k)) && Apart(k, key);
        }
      }
    }

    /** The client of the flow sent its first packet, which is `p` if it has none yet. */
    static ghost predicate ClientFits(f: F.Flow, h: seq<Packet>, p: Packet) {
      f.client == Endpoint((h + [p])[0].srcIP, (h + [p])[0].srcPort)
    }

    /** A packet changes the flow of its key and no other. */
    method UpdateTable(a: Arrival) returns (f: F.Flow?)
      requires Represents()
      modifies this`flows, this`table, this`Repr, Repr
      ensures Represents() && fresh(Repr - old(Repr))
      ensures table == Offer(old(table), a, maxFlows)
      ensures f != null <==> old(HasRoom(table, Offered(a), maxFlows))
      ensures f != null ==> KeyOf(a) in flows && flows[KeyOf(a)] == f
    {
      var key := KeyOf(a);
      EntriesFit();
      assert Entry(key);
      var created;
      f, created := GetOrCreate(key, a.p.srcIP, a.p.srcPort, a.p.now);
      forall k | f == null || k != key ensures Entry(k) {
        assert old(Entry(k)) && old(Apart(k, key));
      }
      if f != null {
        Record(f, key, a.p);
      }
    }

    /** The tracker's part in processing one packet. */
    method Process(a: Arrival) returns (f: F.Flow?)
      requires Valid()
      modifies this, Repr
      ensures Valid() && fresh(Repr - old(Repr)) && log == old(log) + [Offered(a)]
      ensures f != null <==> old(HasRoom(table, Offered(a), maxFlows))
      ensures f != null ==> KeyOf(a) in flows && flows[KeyOf(a)] == f
    {
      f := UpdateTable(a);
      Log(Offered(a), old(table));
    }

    ghost method Log(e: Event, before: Table)
      requires before == TableAfter(log, Limits()) && table == Apply(before, e, Limits())
      modifies this`log
      ensures log == old(log) + [e] && table == TableAfter(log, Limits())
    {
      log := log + [e];
      assert log[..|log| - 1] == old(log);
    }

    /** Whether the pruner drops the flow. */
    method IsStale(k: Key, now: Time) returns (stale: bool)
      requires k in flows && Entry(k)
      ensures stale == StaleFlow(table[k], now, idleTimeout)
    {
      var f := flows[k];
      StateOfFlow(f.history);
      stale := now - f.LastSeen > idleTimeout || f.State == StateClosed;
    }

    /** Drops the flows that are idle or closed. */
    method PruneTable(now: Time)
      requires Represents()
      modifies this`flows, this`table
      ensures Represents() && table == Sweep(old(table), now, idleTimeout)
    {
      EntriesFit();
      var ks := flows.Keys;
      while ks != {}
        invariant Represents() && ks <= flows.Keys && Repr == old(Repr)
        invariant Sweeping(old(table), table, ks, now, idleTimeout)
        decreases |ks|
      {
        var k :| k in ks;
        ghost var before := table;
        assert Entry(k);
        var stale := IsStale(k, now);
        if stale {
          Drop(k);
        }
        SweepOne(old(table), before, ks, k, now, idleTimeout);
        ks := ks - {k};
      }
      SweepEnds(old(table), table, now, idleTimeout);
    }

    method Drop(key: Key)
      requires Represents()
      modifies this`flows, this`table
      ensures Represents() && flows == old(flows) - {key} && table == old(table) - {key}
    {
      flows, table := flows - {key}, table - {key};
      forall j, k ensures Apart(j, k) {
        assert old(Apart(j, k));
      }
      forall k ensures Entry(k) {
        assert old(Entry(k));
      }
    }

    /** One round of the background pruner. */
    method Prune(now: Time)
      requires Valid()
      modifies this`flows, this`table, this`log
      ensures Valid() && log == old(log) + [Swept(now)]
    {
      PruneTable(now);
      Log(Swept(now), old(table));
    }
  }
}
