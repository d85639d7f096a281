/** The file messages of a satellite on their way through the network: what is dumped, what is lost, what
    arrives, and what ground control makes of it, in any run of the constellation. */
module DumpTraffics {
  import opened Config
  import opened Messages
  import opened Parsers
  import opened Connections
  import opened GCConnectionHandlers
  import opened Receivers
  import opened PeerConnections
  import opened ConnectionHandlers
  import opened Satellites
  import opened NetworkManagers
  import opened Constellations
  import opened Traffics
  import opened Handshakes
  import opened Conducts
  import opened Acknowledgements
  import opened Pipelines
  import GroundControls

  /** The messages a dump of satellite a puts in flight. */
  function DumpedBy(sys: System, e: Event, a: int): seq<Packet> {
    if Dumps(sys, e, a) then
      DumpSends(sys.sats[a], DumpOf(sys.sats[a].id, sys.sats[a].port, sys.sats[a].log, e.garbage))
    else []
  }

  /** The file message of satellite a that ground control handles. */
  function ArrivedBy(sys: System, e: Event, a: int): seq<Packet>
    requires CanHappen(sys, e)
  {
    if e.Delivery? && FileFrom(a).Has(sys.flight[e.i]) && sys.flight[e.i].to == 0
       && Listen(sys.gc, GC_PORT, sys.flight[e.i].msg, e.w.gc).Listened?
    then [sys.flight[e.i]] else []
  }

  /** One that the network loses, that goes elsewhere, or that ground control dies of. */
  function LostBy(sys: System, e: Event, a: int): seq<Packet>
    requires CanHappen(sys, e)
  {
    if (e.Loss? || e.Delivery?) && FileFrom(a).Has(sys.flight[e.i]) && ArrivedBy(sys, e, a) == [] then [sys.flight[e.i]]
    else []
  }

  // ---------------------------------------------------------------- nobody else sends files

  predicate NoFiles(ps: seq<Packet>) { forall p <- ps :: !p.msg.FileMsg? }

  lemma {:induction false} GroundSendsNoFiles(ps: seq<Packet>, a: int)
    requires AllFromGround(ps)
    ensures PacketsOf(ps, FileFrom(a)) == multiset{}
  {
    NoneOf(ps, FileFrom(a));
  }

  lemma {:induction false} PeerPassSendsNoFiles(peers: Peers, order: seq<int>, ticks: map<int, PeerTick>)
    requires forall id <- order :: id in peers && id in ticks
    ensures NoFiles(PeerPass(peers, order, ticks).sent)
  {
    if order != [] {
      PeerPassSendsNoFiles(peers, order[..|order| - 1], ticks);
    }
  }

  lemma {:induction false} BroadcastSendsNoFiles(peers: Peers, order: seq<int>, m: Message)
    requires !m.FileMsg?
    ensures NoFiles(BroadcastSends(peers, order, m))
  {
    if order != [] {
      BroadcastSendsNoFiles(peers, order[..|order| - 1], m);
    }
  }

  lemma {:induction false} AcceptSendsNoFiles(sat: Sat, m: Message, s: SatSurroundings)
    requires Accept(sat, m, s).Accepted?
    ensures NoFiles(Accept(sat, m, s).sent)
  {
    hide Processed, Greeted;
  }

  lemma {:induction false} PeerHelloIsNoFile(peers: Peers, port: int32, ip: string, id: int32, satId: int32,
                                             listening: int32, a: PeerArrival)
    ensures NoFiles(AddPeerSends(peers, port, ip, id, satId, listening, a))
  {
  }

  lemma {:induction false} DumpIsFiles(sat: Sat, file: Bytes, garbage: nat -> Block)
    ensures forall p <- DumpSends(sat, DumpOf(sat.id, sat.port, file, garbage)) :: FileFrom(sat.id).Has(p)
  {
    var ms := DumpOf(sat.id, sat.port, file, garbage);
    forall m <- ms ensures m.FileMsg? && m.senderId == sat.id {
      var k :| 0 <= k < |ms| && ms[k] == m;
      assert m == ChunkMessage(sat.id, sat.port, PieceAt(file, k), garbage(k));
    }
    DumpSendsThese(sat, ms);
  }

  lemma {:induction false} DumpSendsThese(sat: Sat, ms: seq<Message>)
    ensures forall p <- DumpSends(sat, ms) :: p.msg in ms
  {
    if ms != [] {
      DumpSendsThese(sat, ms[..|ms| - 1]);
    }
  }

  // ---------------------------------------------------------------- conservation, event by event

  lemma {:induction false} DeliveryConserves(sys: System, i: nat, w: Weather, a: int)
    requires Proper(sys) && Deliverable(sys, i)
    ensures PacketsOf(sys.flight, FileFrom(a)) ==
              PacketsOf(Deliver(sys, i, w).flight, FileFrom(a))
              + PacketOf(sys.flight[i], FileFrom(a))
  {
    hide Listen, Accept, Without, PacketsOf, FromGround, FromSat;
    var p, rest, sys' := sys.flight[i], Without(sys.flight, i), Deliver(sys, i, w);
    PacketsWithout(sys.flight, i, FileFrom(a));
    if p.to == 0 {
      var r := Listen(sys.gc, GC_PORT, p.msg, w.gc);
      if r.Listened? {
        ListenIsProper(sys.gc, p.msg, w.gc);
        GroundSendsNoFiles(r.sent, a);
        PacketsOfSum(rest, r.sent, FileFrom(a));
      }
    } else {
      var r := Accept(sys.sats[p.to], p.msg, w.sat);
      if r.Accepted? {
        AcceptSendsNoFiles(sys.sats[p.to], p.msg, w.sat);
        NoneOf(r.sent, FileFrom(a));
        PacketsOfSum(rest, r.sent, FileFrom(a));
      }
    }
  }

  lemma {:induction false} DumpConserves(sys: System, e: Event, a: int)
    requires Proper(sys) && CanHappen(sys, e) && e.Dump?
    ensures PacketsOf(sys.flight, FileFrom(a)) + multiset(DumpedBy(sys, e, a)) ==
              PacketsOf(Next(sys, e).flight, FileFrom(a))
  {
    hide DumpOf, DumpSends, PacketsOf;
    var sat := sys.sats[e.a];
    assert ProperSat(e.a, sat);
    if 0 in sat.peers {
      var sent := DumpSends(sat, DumpOf(sat.id, sat.port, sat.log, e.garbage));
      DumpIsFiles(sat, sat.log, e.garbage);
      PacketsOfSum(sys.flight, sent, FileFrom(a));
      if e.a == a {
        AllOf(sent, FileFrom(a));
      } else {
        NoneOf(sent, FileFrom(a));
      }
    }
  }

  lemma {:induction false} StepConserves(sys: System, e: Event, a: int)
    requires Proper(sys) && CanHappen(sys, e)
    ensures PacketsOf(sys.flight, FileFrom(a)) + multiset(DumpedBy(sys, e, a)) ==
              PacketsOf(Next(sys, e).flight, FileFrom(a)) + multiset(ArrivedBy(sys, e, a)) + multiset(LostBy(sys, e, a))
  {
    hide Deliver, Pass, PeerPass, AddSends, AddPeerSends, SatSends, DumpSends, BroadcastSends, DumpOf, PacketsOf,
         Listen, Without, Proper, FromGround, AddedPeer;
    var sys' := Next(sys, e);
    match e
    case Delivery(i, w) => DeliveryConserves(sys, i, w, a);
    case GroundPass(order, ticks) =>
      PassSendsNoFiles(sys, order, ticks);
      OnlyOthers(sys, sys', Pass(sys.gc.conns, order, ticks).sent, FileFrom(a));
    case SatPass(s, order, ticks) =>
      PeerPassSendsNoFiles(sys.sats[s].peers, order, ticks);
      OnlyOthers(sys, sys', PeerPass(sys.sats[s].peers, order, ticks).sent, FileFrom(a));
    case Broadcast(s, order) =>
      var m := HeartbeatFrom(sys.sats[s].id, sys.sats[s].port);
      BroadcastSendsNoFiles(sys.sats[s].peers, order, m);
      OnlyOthers(sys, sys', BroadcastSends(sys.sats[s].peers, order, m), FileFrom(a));
    case Dump(_, _) => DumpConserves(sys, e, a);
    case Written(_, _) =>
    case Order(to, motion) =>
      if !SendAborts(sys.gc.conns, to) {
        OrderSendsNoFiles(sys.gc.conns, to, motion);
        OnlyOthers(sys, sys', SatSends(sys.gc.conns, to, CommandMessage(GC_PORT, motion)), FileFrom(a));
      }
    case GroundMeets(id, port, ip, met) =>
      if !AddAborts(sys.gc.conns, port, ip, id, GC_PORT) {
        HelloIsNoFile(sys.gc.conns, port, ip, id, met);
        OnlyOthers(sys, sys', AddSends(sys.gc.conns, port, ip, id, GC_PORT, met), FileFrom(a));
      }
    case SatMeets(s, peer, port, ip, met) =>
      var sat := sys.sats[s];
      if !AddPeerAborts(port, ip, peer, sat.id) {
        PeerHelloIsNoFile(sat.peers, port, ip, peer, sat.id, sat.port, met);
        OnlyOthers(sys, sys', AddPeerSends(sat.peers, port, ip, peer, sat.id, sat.port, met), FileFrom(a));
      }
    case Loss(i) => PacketsWithout(sys.flight, i, FileFrom(a));
  }

  lemma {:induction false} PassSendsNoFiles(sys: System, order: seq<int>, ticks: map<int, Tick>)
    requires Proper(sys) && Visits(order, sys.gc.conns) && forall id <- order :: id in ticks
    ensures NoFiles(Pass(sys.gc.conns, order, ticks).sent)
  {
    hide Pass;
    PassIsProper(sys.gc.conns, order, ticks);
  }

  lemma {:induction false} OrderSendsNoFiles(conns: Conns, to: int, motion: Motion)
    requires !SendAborts(conns, to)
    ensures NoFiles(SatSends(conns, to, CommandMessage(GC_PORT, motion)))
  {
  }

  lemma {:induction false} HelloIsNoFile(conns: Conns, port: int32, ip: string, id: int32, met: Arrival)
    ensures NoFiles(AddSends(conns, port, ip, id, GC_PORT, met))
  {
  }

  // ---------------------------------------------------------------- conservation, in every run

  ghost function AllDumped(sys: System, es: seq<Event>, a: int): seq<Packet>
    requires AnyRun(sys, es)
    decreases es
  {
    if es == [] then [] else DumpedBy(sys, es[0], a) + AllDumped(Next(sys, es[0]), es[1..], a)
  }

  ghost function AllArrived(sys: System, es: seq<Event>, a: int): seq<Packet>
    requires AnyRun(sys, es)
    decreases es
  {
    if es == [] then [] else ArrivedBy(sys, es[0], a) + AllArrived(Next(sys, es[0]), es[1..], a)
  }

  ghost function AllLost(sys: System, es: seq<Event>, a: int): seq<Packet>
    requires AnyRun(sys, es)
    decreases es
  {
    if es == [] then [] else LostBy(sys, es[0], a) + AllLost(Next(sys, es[0]), es[1..], a)
  }

  /** In every run the file messages of a satellite that were in flight and that it dumped are, each exactly
      as often, those that arrived at ground control, those that were lost, and those still in flight. So
      from a quiet start each that arrives was dumped, and arrives at most once. */
  lemma {:induction false} DumpsAreConserved(sys: System, es: seq<Event>, a: int)
    requires Proper(sys) && AnyRun(sys, es)
    ensures PacketsOf(sys.flight, FileFrom(a)) + multiset(AllDumped(sys, es, a)) ==
              multiset(AllArrived(sys, es, a)) + multiset(AllLost(sys, es, a))
              + PacketsOf(EndOf(sys, es).flight, FileFrom(a))
    ensures sys.flight == [] ==> multiset(AllArrived(sys, es, a)) <= multiset(AllDumped(sys, es, a))
    decreases es
  {
    hide Proper, Next, CanHappen, DumpedBy, ArrivedBy, LostBy, PacketsOf;
    if es != [] {
      var e, sys', rest := es[0], Next(sys, es[0]), es[1..];
      StepConserves(sys, e, a);
      StepIsProper(sys, e);
      DumpsAreConserved(sys', rest, a);
      var d, r, l := multiset(DumpedBy(sys, e, a)), multiset(ArrivedBy(sys, e, a)), multiset(LostBy(sys, e, a));
      var ds, rs := multiset(AllDumped(sys', rest, a)), multiset(AllArrived(sys', rest, a));
      var ls := multiset(AllLost(sys', rest, a));
      Add(PacketsOf(sys.flight, FileFrom(a)), d, PacketsOf(sys'.flight, FileFrom(a)), r, l, ds, rs, ls,
          PacketsOf(EndOf(sys', rest).flight, FileFrom(a)));
      assert multiset(AllDumped(sys, es, a)) == d + ds && multiset(AllArrived(sys, es, a)) == r + rs;
      assert multiset(AllLost(sys, es, a)) == l + ls;
    }
    NoneOf([], FileFrom(a));
    if sys.flight == [] {
      Part(multiset(AllDumped(sys, es, a)), multiset(AllArrived(sys, es, a)),
           multiset(AllLost(sys, es, a)) + PacketsOf(EndOf(sys, es).flight, FileFrom(a)));
    }
  }

  // ---------------------------------------------------------------- what ground control makes of them

  function MessagesOf(ps: seq<Packet>): seq<Message> {
    seq(|ps|, i requires 0 <= i < |ps| => ps[i].msg)
  }

  /** The dumps, other than empty ones, that outputs about one satellite carry. */
  function ChunksIn(outs: seq<SatOutput>, a: int): seq<string> {
    if outs == [] then []
    else
      var o := outs[|outs| - 1];
      ChunksIn(outs[..|outs| - 1], a) + (if o.id == a && o.chunks != [] then [o.chunks] else [])
  }

  function NonEmpty(ss: seq<string>): seq<string> {
    if ss == [] then []
    else NonEmpty(ss[..|ss| - 1]) + (if ss[|ss| - 1] != [] then [ss[|ss| - 1]] else [])
  }

  lemma {:induction false} NonEmptySum(ss: seq<string>, ts: seq<string>)
    ensures NonEmpty(ss + ts) == NonEmpty(ss) + NonEmpty(ts)
    decreases |ts|
  {
    if ts == [] {
      assert ss + ts == ss;
    } else {
      NonEmptySum(ss, ts[..|ts| - 1]);
      assert (ss + ts)[..|ss + ts| - 1] == ss + ts[..|ts| - 1];
    }
  }

  lemma {:induction false} ChunksInSum(outs: seq<SatOutput>, more: seq<SatOutput>, a: int)
    ensures ChunksIn(outs + more, a) == ChunksIn(outs, a) + ChunksIn(more, a)
    decreases |more|
  {
    if more == [] {
      assert outs + more == outs;
    } else {
      ChunksInSum(outs, more[..|more| - 1], a);
      assert (outs + more)[..|outs + more| - 1] == outs + more[..|more| - 1];
    }
  }

  lemma {:induction false} NoChunksIn(outs: seq<SatOutput>, a: int)
    requires forall o <- outs :: o.id == a ==> o.chunks == []
    ensures ChunksIn(outs, a) == []
  {
    if outs != [] {
      NoChunksIn(outs[..|outs| - 1], a);
    }
  }

  lemma {:induction false} NoticesCarryNothing(conns: Conns, order: seq<int>, ticks: map<int, Tick>)
    requires forall id <- order :: id in conns && id in ticks
    ensures forall o <- Pass(conns, order, ticks).notices :: o.chunks == []
  {
    if order != [] {
      NoticesCarryNothing(conns, order[..|order| - 1], ticks);
    }
  }

  /** The output a message makes carries its sender's buffer. */
  lemma {:induction false} PushesCarry(gc: Gc, m: Message, a: int)
    requires Acceptable(m)
    ensures ChunksIn(Pushes(gc, m), a) ==
              if m.FileMsg? && m.senderId as int == a
              then NonEmpty(Assemble(BufferOf(gc.buffer, a), [m]).emitted) else []
  {
    hide DataDecoder, Assemble;
    var status: seq<SatOutput> := if m.senderId in gc.conns then [Status(m.senderId, true)] else [];
    ChunksInSum(status, DumpPushes(gc, m), a);
    NoChunksIn(status, a);
    if m.FileMsg? {
      AssembleOne(BufferOf(gc.buffer, m.senderId), m);
      var chunk := BufferOf(gc.buffer, m.senderId) + Payload(m);
      GroundControls.DumpSaysAlive(m.senderId, chunk);
      OutputCarries(m.senderId, chunk, a);
    }
  }

  lemma {:induction false} OutputCarries(id: int, chunk: string, a: int)
    ensures ChunksIn([], a) == [] && NonEmpty([]) == []
    ensures ChunksIn([DataDecoder(id, chunk, true)], a) == if id == a then NonEmpty([chunk]) else []
  {
    ParsesCarry(id, [chunk]);
    assert Parses(id, [chunk])[0] == DataDecoder(id, chunk, true);
    GroundControls.DumpSaysAlive(id, chunk);
    hide DataDecoder;
    assert [DataDecoder(id, chunk, true)][..0] == [] && [chunk][..0] == [];
  }

  /** One event: the buffer and the dumps handed to the terminal advance as the arriving file messages say. */
  lemma {:induction false} StepReassemblesHere(sys: System, e: Event, a: int)
    requires Proper(sys) && CanHappen(sys, e)
    ensures Chunks(MessagesOf(ArrivedBy(sys, e, a)))
    ensures var r := Assemble(BufferOf(sys.gc.buffer, a), MessagesOf(ArrivedBy(sys, e, a)));
            && BufferOf(Next(sys, e).gc.buffer, a) == r.rest
            && ChunksIn(Next(sys, e).gc.outputs, a) == ChunksIn(sys.gc.outputs, a) + NonEmpty(r.emitted)
  {
    hide Pass, PeerPass, Proper, Accept, DumpOf, DumpSends, BroadcastSends, AddSends, AddPeerSends, SatSends, Listen,
         ChunksIn, NonEmpty, Assemble, DataDecoder, Pushes;
    OutputCarries(0, [], a);
    NothingAssembled(BufferOf(sys.gc.buffer, a));
    match e
    case Delivery(i, w) =>
      var m := sys.flight[i].msg;
      if sys.flight[i].to == 0 && Listen(sys.gc, GC_PORT, m, w.gc).Listened? {
        var world, received := GroundControls.World(sys.gc, map[]), GroundControls.Received(m, w.gc);
        StepReassembles(world, received, a);
        GroundControls.ListenPushes(sys.gc, m, w.gc);
        ChunksInSum(sys.gc.outputs, Pushes(sys.gc, m), a);
        PushesCarry(sys.gc, m, a);
        assert FileOf(received, a) == MessagesOf(ArrivedBy(sys, e, a));
      }
    case GroundPass(order, ticks) =>
      NoticesCarryNothing(sys.gc.conns, order, ticks);
      NoChunksIn(Pass(sys.gc.conns, order, ticks).notices, a);
      ChunksInSum(sys.gc.outputs, Pass(sys.gc.conns, order, ticks).notices, a);
    case SatPass(_, _, _) =>
    case Broadcast(_, _) =>
    case Dump(_, _) =>
    case Written(_, _) =>
    case Order(_, _) =>
    case GroundMeets(_, _, _, _) =>
    case SatMeets(_, _, _, _, _) =>
    case Loss(_) =>
  }

  lemma {:induction false} MessagesOfSum(ps: seq<Packet>, qs: seq<Packet>)
    ensures MessagesOf(ps + qs) == MessagesOf(ps) + MessagesOf(qs)
  {
  }

  /** In every run of the constellation, what ground control holds of a satellite's dumps and what it has
      handed to the terminal are the reassembly of the file messages that arrived, in their order: dumped
      messages all, as the account above says, and nothing else. */
  lemma {:induction false} ArrivalsAreReassembled(sys: System, es: seq<Event>, a: int)
    requires Proper(sys) && AnyRun(sys, es)
    ensures Chunks(MessagesOf(AllArrived(sys, es, a)))
    ensures var r := Assemble(BufferOf(sys.gc.buffer, a), MessagesOf(AllArrived(sys, es, a)));
            && BufferOf(EndOf(sys, es).gc.buffer, a) == r.rest
            && ChunksIn(EndOf(sys, es).gc.outputs, a) == ChunksIn(sys.gc.outputs, a) + NonEmpty(r.emitted)
    decreases es
  {
    hide Proper, Next, CanHappen, ArrivedBy, Assemble, ChunksIn, NonEmpty;
    if es == [] {
      NothingAssembled(BufferOf(sys.gc.buffer, a));
      OutputCarries(0, [], a);
    } else {
      var sys', rest := Next(sys, es[0]), es[1..];
      StepReassemblesHere(sys, es[0], a);
      StepIsProper(sys, es[0]);
      ArrivalsAreReassembled(sys', rest, a);
      var now, later := MessagesOf(ArrivedBy(sys, es[0], a)), MessagesOf(AllArrived(sys', rest, a));
      MessagesOfSum(ArrivedBy(sys, es[0], a), AllArrived(sys', rest, a));
      AssembleTwice(BufferOf(sys.gc.buffer, a), now, later);
      var x := Assemble(BufferOf(sys.gc.buffer, a), now);
      NonEmptySum(x.emitted, Assemble(x.rest, later).emitted);
    }
  }

  /** So a log below the cap whose dump arrives whole, in order and by itself is handed on as it was. */
  lemma {:induction false} LogReachesTerminal(sys: System, es: seq<Event>, a: int, id: int32, port: int32, log: Bytes,
                                              garbage: nat -> Block)
    requires Proper(sys) && AnyRun(sys, es) && BufferOf(sys.gc.buffer, a) == [] && |log| < 102400
    requires MessagesOf(AllArrived(sys, es, a)) == DumpOf(id, port, log, garbage)
    ensures BufferOf(EndOf(sys, es).gc.buffer, a) == []
    ensures ChunksIn(EndOf(sys, es).gc.outputs, a) == ChunksIn(sys.gc.outputs, a) + (if log == [] then [] else [log])
  {
    hide Proper, AnyRun, EndOf, AllArrived, DumpOf, Assemble, ChunksIn;
    ArrivalsAreReassembled(sys, es, a);
    DumpReassembles([], id, port, log, garbage);
    assert [] + log == log;
    assert NonEmpty([log]) == if log == [] then [] else [log] by { assert [log][..0] == []; }
  }
}
