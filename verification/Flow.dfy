/** One tracked connection: two directions, two reassemblers, connection state and timing. */
module Flow {
  import opened Bytes
  import opened Common
  import opened FlowKey
  import opened FlowSpec
  import opened FlowStats
  import opened FlowHistory
  import opened StreamSpec
  import opened Reassembly

  class Flow {
    const key: Key
    const client: Endpoint  // OriginalSrcIP and OriginalSrcPort
    const Fwd: DirectionStats
    const Bwd: DirectionStats
    const ClientStream: StreamReassembler
    const ServerStream: StreamReassembler
    var State: ConnState
    var LastSeen: Time
    var PacketCount: nat
    var ByteCount: nat
    var AllIATs: seq<int>
    var ActivePeriods: seq<int>
    var IdlePeriods: seq<int>
    var ActiveStart: Time
    var ActiveEnd: Time
    var LastPktTime: Option<Time>
    ghost var history: seq<Packet>
    ghost const Repr: set<object>

    ghost function FiguresNow(): FlowFigures
      reads this`State, this`PacketCount, this`ByteCount,
        this`AllIATs, this`ActivePeriods, this`IdlePeriods, this`ActiveStart, this`ActiveEnd, this`LastPktTime
    {
      FlowFigures(State, PacketCount, ByteCount, TimingNow())
    }

    ghost function TimingNow(): Timing
      reads this`AllIATs, this`ActivePeriods, this`IdlePeriods, this`ActiveStart, this`ActiveEnd, this`LastPktTime
    {
      Timing(AllIATs, ActivePeriods, IdlePeriods, ActiveStart, ActiveEnd, LastPktTime)
    }

    /** The counters and the reassembler of one direction of the history `h`. */
    static ghost predicate HasSide(stats: DirectionStats, stream: StreamReassembler, h: seq<Packet>, client: Endpoint, forward: bool)
      reads stats, stream
    {
      && stats.Valid() && stats.history == SideSamples(h, client, forward)
      && stream.Valid() && stream.ops == OpsOf(h, client, forward)
    }

    ghost predicate Separate() {
      Fwd != Bwd && ClientStream != ServerStream
    }

    /** Each direction is what the history `h` makes it. */
    ghost predicate ShowsSide(forward: bool, h: seq<Packet>)
      reads Fwd, Bwd, ClientStream, ServerStream
    {
      if forward then HasSide(Fwd, ClientStream, h, client, true) else HasSide(Bwd, ServerStream, h, client, false)
    }

    ghost predicate ShowsSides(h: seq<Packet>)
      reads Fwd, Bwd, ClientStream, ServerStream
    {
      forall forward :: ShowsSide(forward, h)
    }

    ghost predicate Valid()
      reads this, Repr
    {
      && Repr == {this, Fwd, Bwd, ClientStream, ServerStream} && Separate()
      && FiguresNow() == FlowAfter(history) && ShowsSides(history)
    }

    constructor (key: Key, client: Endpoint, maxReassembly: int, now: Time)
      ensures Valid() && fresh(Repr) && history == []
      ensures this.key == key && this.client == client && LastSeen == now
      ensures ClientStream.MaxDepth == ServerStream.MaxDepth == maxReassembly
    {
      this.key, this.client, LastSeen := key, client, now;
      Fwd := new DirectionStats();
      Bwd := new DirectionStats();
      ClientStream := new StreamReassembler(maxReassembly);
      ServerStream := new StreamReassembler(maxReassembly);
      State, PacketCount, ByteCount := StateNew, 0, 0;
      AllIATs, ActivePeriods, IdlePeriods, ActiveStart, ActiveEnd, LastPktTime := [], [], [], 0, 0, None;
      history := [];
      Repr := {this, Fwd, Bwd, ClientStream, ServerStream};
    }

    /** Notes that the flow was looked up. */
    method Touch(now: Time)
      requires Valid()
      modifies this`LastSeen
      ensures Valid() && LastSeen == now
    {
      LastSeen := now;
    }

    /** Inter-arrival time, and the active and idle periods: a gap over one second closes the
        active period and opens an idle one. */
    method UpdateTiming(now: Time)
      modifies this`AllIATs, this`ActivePeriods, this`IdlePeriods, this`ActiveStart, this`ActiveEnd, this`LastPktTime
      ensures TimingNow() == Timed(old(TimingNow()), now)
    {
      if LastPktTime.Some? {
        var iat := Micros(now - LastPktTime.value);
        if |AllIATs| < 1000 {
          AllIATs := AllIATs + [iat];
        }
        if iat > IDLE_US {
          if |ActivePeriods| < 1000 {
            ActivePeriods := ActivePeriods + [Micros(ActiveEnd - ActiveStart)];
          }
          if |IdlePeriods| < 1000 {
            IdlePeriods := IdlePeriods + [iat];
          }
          ActiveStart := now;
        }
        ActiveEnd := now;
      } else {
        ActiveStart := now;
        ActiveEnd := now;
      }
      LastPktTime := Some(now);
    }

    /** Tells a reassembler about one packet of its direction: perhaps where the stream starts,
        then the payload. */
    method Feed(stream: StreamReassembler, p: Packet, starts: bool)
      requires stream.Valid()
      modifies stream
      ensures stream.Valid() && stream.ops == old(stream.ops) + OwnOps(p, starts)
    {
      if starts {
        stream.Init(Wrap(p.seqNo + 1));
      }
      if |p.payload| > 0 {
        stream.AddSegment(p.seqNo, p.payload);
      }
    }

    /** A packet of one direction updates that direction's counters and reassembler. */
    method UpdateSide(stats: DirectionStats, stream: StreamReassembler, p: Packet, starts: bool,
        ghost h: seq<Packet>, ghost e: seq<Packet>, ghost forward: bool)
      requires HasSide(stats, stream, h, client, forward) && e == h + [p]
      requires FromClient(p, client) == forward && starts == Starts(StateAfter(h), p, client)
      modifies stats, stream
      ensures HasSide(stats, stream, e, client, forward)
    {
      SideStep(h, p, e, client, forward);
      stats.Record(p.now, |p.payload|);
      Feed(stream, p, starts);
    }

    /** It is nothing to the other direction. */
    lemma KeepSide(stats: DirectionStats, stream: StreamReassembler, p: Packet, h: seq<Packet>, e: seq<Packet>, forward: bool)
      requires HasSide(stats, stream, h, client, forward) && e == h + [p] && FromClient(p, client) != forward
      ensures HasSide(stats, stream, e, client, forward)
    {
      SideStep(h, p, e, client, forward);
    }

    /** The connection state machine. The answer says whether the packet opens its direction's stream. */
    method UpdateState(p: Packet, isClientToServer: bool) returns (starts: bool)
      requires isClientToServer == FromClient(p, client)
      modifies this`State
      ensures State == NextState(old(State), p)
      ensures starts == Starts(old(State), p, client)
    {
      starts := false;
      if p.syn && !p.ack {
        State := StateNew;
        starts := true;
      } else if p.ack && State == StateNew {
        State := StateEstablished;
        if !isClientToServer && p.syn {
          starts := true;
        }
      } else if p.fin || p.rst {
        State := StateClosing;
      }
    }

    /** Counters, timing and connection state. */
    method UpdateFigures(p: Packet, isClientToServer: bool, ghost e: seq<Packet>) returns (starts: bool)
      requires isClientToServer == FromClient(p, client)
      requires FiguresNow() == FlowAfter(history) && e == history + [p]
      modifies this`LastSeen, this`PacketCount, this`ByteCount, this`State,
        this`AllIATs, this`ActivePeriods, this`IdlePeriods, this`ActiveStart, this`ActiveEnd, this`LastPktTime
      ensures LastSeen == p.now
      ensures FiguresNow() == FlowAfter(e)
      ensures starts == Starts(StateAfter(history), p, client)
    {
      StateOfFlow(history);
      assert e[..|e| - 1] == history;
      LastSeen := p.now;
      PacketCount := PacketCount + 1;
      ByteCount := ByteCount + |p.payload|;
      UpdateTiming(p.now);
      starts := UpdateState(p, isClientToServer);
    }

    method UpdateForward(p: Packet, starts: bool, ghost e: seq<Packet>)
      requires Separate() && ShowsSides(history) && e == history + [p]
      requires FromClient(p, client) && starts == Starts(StateAfter(history), p, client)
      modifies Fwd, ClientStream
      ensures ShowsSides(e)
    {
      assert ShowsSide(true, history) && ShowsSide(false, history);
      KeepSide(Bwd, ServerStream, p, history, e, false);
      UpdateSide(Fwd, ClientStream, p, starts, history, e, true);
    }

    method UpdateBackward(p: Packet, starts: bool, ghost e: seq<Packet>)
      requires Separate() && ShowsSides(history) && e == history + [p]
      requires !FromClient(p, client) && starts == Starts(StateAfter(history), p, client)
      modifies Bwd, ServerStream
      ensures ShowsSides(e)
    {
      assert ShowsSide(true, history) && ShowsSide(false, history);
      KeepSide(Fwd, ClientStream, p, history, e, true);
      UpdateSide(Bwd, ServerStream, p, starts, history, e, false);
    }

    /** One packet of the connection. */
    method UpdateFlowML(p: Packet)
      requires Valid()
      modifies Repr
      ensures Valid() && history == old(history) + [p] && LastSeen == p.now
    {
      var isClientToServer := FromClient(p, client);
      ghost var e := history + [p];
      var starts := UpdateFigures(p, isClientToServer, e);
      if isClientToServer {
        UpdateForward(p, starts, e);
      } else {
        UpdateBackward(p, starts, e);
      }
      history := e;
    }

    /** The active and idle periods as the features take them: the open active period counts as if
        it closed now. Under the caps they are those of the maximal runs, however those are found. */
    method ExtractPeriods() returns (active: seq<int>, idle: seq<int>)
      requires Valid()
      ensures ArePeriods(history, active, idle)
    {
      active := ActivePeriods;
      if LastPktTime.Some? {
        active := active + [Micros(ActiveEnd - ActiveStart)];
      }
      idle := IdlePeriods;
      TimingIsOffline(history);
      PeriodsExtracted(history, TimingNow(), active);
    }
  }
}
