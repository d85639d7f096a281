/** What the nodes send each other in any run, and which assertions can therefore fail. */
module Conducts {
  import opened Config
  import opened Messages
  import opened Connections
  import opened GCConnectionHandlers
  import opened Receivers
  import opened PeerConnections
  import opened ConnectionHandlers
  import opened Satellites
  import opened NetworkManagers
  import opened Constellations
  import opened Handshakes

  predicate FromGround(p: Packet) {
    && p.to > 0 && p.msg.senderId == 0 && p.msg.senderPort == GC_PORT
    && Acceptable(p.msg) && !p.msg.FileMsg? && (p.msg.Command? ==> p.msg.size == Message.COMMAND_SIZE)
  }

  predicate FromSat(p: Packet, id: int32, port: int32) {
    && p.msg.senderId == id && p.msg.senderPort == port
    && Acceptable(p.msg) && !p.msg.Command? && (p.msg.FileMsg? ==> p.msg.size == Message.FILE_MSG_SIZE)
  }

  predicate AllFromGround(ps: seq<Packet>) { forall p <- ps :: FromGround(p) }

  predicate AllFromSat(ps: seq<Packet>, id: int32, port: int32) { forall p <- ps :: FromSat(p, id, port) }

  predicate ProperSat(a: int, sat: Sat) {
    && a > 0 && sat.id as int == a && sat.port > 0 && sat.port != GC_PORT
    && forall b <- sat.peers :: sat.peers[b].satId == sat.id && sat.peers[b].listeningPort == sat.port
  }

  predicate ProperConns(conns: Conns) {
    forall id <- conns :: id > 0 && conns[id].gcPort == GC_PORT
  }

  predicate ProperPacket(sats: map<int, Sat>, p: Packet) {
    FromGround(p) || (p.msg.senderId as int in sats && FromSat(p, p.msg.senderId, sats[p.msg.senderId as int].port))
  }

  ghost predicate Proper(sys: System) {
    && (forall a <- sys.sats :: ProperSat(a, sys.sats[a]))
    && ProperConns(sys.gc.conns)
    && forall p <- sys.flight :: ProperPacket(sys.sats, p)
  }

  // ---------------------------------------------------------------- what each step sends

  lemma {:induction false} PassIsProper(conns: Conns, order: seq<int>, ticks: map<int, Tick>)
    requires ProperConns(conns) && forall id <- order :: id in conns && id in ticks
    ensures ProperConns(Pass(conns, order, ticks).conns) && AllFromGround(Pass(conns, order, ticks).sent)
  {
    hide Pass;
    if order == [] {
      PassNothing(conns, ticks);
    } else {
      var init, id := order[..|order| - 1], order[|order| - 1];
      assert order == init + [id];
      PassIsProper(conns, init, ticks);
      PassSnoc(conns, init, id, ticks);
    }
  }

  lemma {:induction false} PeerPassIsProper(sat: Sat, a: int, order: seq<int>, ticks: map<int, PeerTick>)
    requires ProperSat(a, sat) && forall id <- order :: id in sat.peers && id in ticks
    ensures ProperSat(a, sat.(peers := PeerPass(sat.peers, order, ticks).peers))
    ensures AllFromSat(PeerPass(sat.peers, order, ticks).sent, sat.id, sat.port)
  {
    hide PeerPass, UpdatePeer, UpdateSends;
    if order == [] {
      PeerPassNothing(sat.peers, ticks);
    } else {
      var init, id := order[..|order| - 1], order[|order| - 1];
      assert order == init + [id];
      PeerPassIsProper(sat, a, init, ticks);
      PeerPassSnoc(sat.peers, init, id, ticks);
      UpdateIsProper(PeerPass(sat.peers, init, ticks).peers[id], ticks[id], id);
    }
  }

  lemma {:induction false} UpdateIsProper(p: Peer, tick: PeerTick, id: int)
    requires p.satId >= 0 && p.listeningPort > 0
    ensures UpdatePeer(p, tick).satId == p.satId && UpdatePeer(p, tick).listeningPort == p.listeningPort
    ensures AllFromSat(AddressAll(id, UpdateSends(p, tick)), p.satId, p.listeningPort)
  {
  }

  lemma {:induction false} BroadcastIsProper(sat: Sat, a: int, order: seq<int>)
    requires ProperSat(a, sat)
    ensures AllFromSat(BroadcastSends(sat.peers, order, HeartbeatFrom(sat.id, sat.port)), sat.id, sat.port)
  {
    if order != [] {
      BroadcastIsProper(sat, a, order[..|order| - 1]);
    }
  }

  lemma {:induction false} DumpIsProper(sat: Sat, a: int, ms: seq<Message>)
    requires ProperSat(a, sat) && forall m <- ms :: FromSat(Packet(0, m), sat.id, sat.port)
    ensures AllFromSat(DumpSends(sat, ms), sat.id, sat.port)
  {
    if ms != [] {
      DumpIsProper(sat, a, ms[..|ms| - 1]);
      assert ms[|ms| - 1] in ms;
    }
  }

  lemma {:induction false} DumpMessagesAreProper(sat: Sat, a: int, file: Bytes, garbage: nat -> Block)
    requires ProperSat(a, sat)
    ensures forall m <- DumpOf(sat.id, sat.port, file, garbage) :: FromSat(Packet(0, m), sat.id, sat.port)
  {
    var ms := DumpOf(sat.id, sat.port, file, garbage);
    forall m <- ms ensures FromSat(Packet(0, m), sat.id, sat.port) {
      var k :| 0 <= k < |ms| && ms[k] == m;
      assert m == ChunkMessage(sat.id, sat.port, PieceAt(file, k), garbage(k));
    }
  }

  lemma {:induction false} ListenIsProper(gc: Gc, m: Message, s: Surroundings)
    requires ProperConns(gc.conns) && Acceptable(m) && Listen(gc, GC_PORT, m, s).Listened?
    ensures ProperConns(Listen(gc, GC_PORT, m, s).gc.conns) && AllFromGround(Listen(gc, GC_PORT, m, s).sent)
  {
    hide FileDump;
    FileDumpPushes(Meet(gc, GC_PORT, m, s), m);
  }

  lemma {:induction false} AcceptIsProper(sat: Sat, a: int, m: Message, s: SatSurroundings)
    requires ProperSat(a, sat) && Accept(sat, m, s).Accepted?
    ensures ProperSat(a, Accept(sat, m, s).sat) && Accept(sat, m, s).sat.port == sat.port
    ensures AllFromSat(Accept(sat, m, s).sent, sat.id, sat.port)
  {
    hide Processed, Answer, AddPeerSends, FromSat;
    ProcessedKeepsPeers(sat, m);
    GreetedIsProper(Processed(sat, m), a, m, s);
    AnswerIsProper(sat, a, m);
    PeerHelloIsProper(sat, a, m, s);
  }

  lemma {:induction false} GreetedIsProper(sat: Sat, a: int, m: Message, s: SatSurroundings)
    requires ProperSat(a, sat)
    ensures ProperSat(a, Greeted(sat, m, s)) && Greeted(sat, m, s).port == sat.port
  {
  }

  lemma {:induction false} AnswerIsProper(sat: Sat, a: int, m: Message)
    requires ProperSat(a, sat)
    ensures AllFromSat(Answer(sat, m), sat.id, sat.port)
  {
  }

  lemma {:induction false} PeerHelloIsProper(sat: Sat, a: int, m: Message, s: SatSurroundings)
    requires ProperSat(a, sat)
    ensures AllFromSat(AddPeerSends(sat.peers, m.senderPort, s.ip, m.senderId, sat.id, sat.port, s.arrival),
                       sat.id, sat.port)
  {
  }

  /** A system whose satellites keep their ports stays proper when proper packets are added. */
  lemma {:induction false} ProperNext(sys: System, sys': System, kept: seq<Packet>, sent: seq<Packet>)
    requires Proper(sys) && sys'.flight == kept + sent && forall p <- kept :: p in sys.flight
    requires forall p <- sent :: ProperPacket(sys'.sats, p)
    requires sys'.sats.Keys == sys.sats.Keys
    requires forall a <- sys.sats :: ProperSat(a, sys'.sats[a]) && sys'.sats[a].port == sys.sats[a].port
    requires ProperConns(sys'.gc.conns)
    ensures Proper(sys')
  {
    forall p <- sys'.flight ensures ProperPacket(sys'.sats, p) {
      if p in kept {
        assert ProperPacket(sys.sats, p);
      }
    }
  }

  lemma {:induction false} WithoutKeeps(flight: seq<Packet>, i: nat)
    requires i < |flight|
    ensures forall p <- Without(flight, i) :: p in flight
  {
  }

  lemma {:induction false} DeliveryIsProper(sys: System, i: nat, w: Weather)
    requires Proper(sys) && Deliverable(sys, i)
    ensures Proper(Deliver(sys, i, w))
  {
    hide Listen, Accept, FromSat, FromGround, Without;
    var p, rest, sys' := sys.flight[i], Without(sys.flight, i), Deliver(sys, i, w);
    WithoutKeeps(sys.flight, i);
    assert rest + [] == rest;
    if p.to == 0 {
      var r := Listen(sys.gc, GC_PORT, p.msg, w.gc);
      if r.Listened? {
        ListenIsProper(sys.gc, p.msg, w.gc);
      }
      ProperNext(sys, sys', rest, if r.Listened? then r.sent else []);
    } else {
      var sat := sys.sats[p.to];
      var r := Accept(sat, p.msg, w.sat);
      if r.Accepted? {
        AcceptIsProper(sat, p.to, p.msg, w.sat);
        FromOneSat(sys', p.to, sat.id, r.sent);
      }
      ProperNext(sys, sys', rest, if r.Accepted? then r.sent else []);
    }
  }

  lemma {:induction false} FromOneSat(sys: System, a: int, id: int32, ps: seq<Packet>)
    requires a in sys.sats && id as int == a && AllFromSat(ps, id, sys.sats[a].port)
    ensures forall p <- ps :: ProperPacket(sys.sats, p)
  {
  }

  lemma {:induction false} StepIsProper(sys: System, e: Event)
    requires Proper(sys) && CanHappen(sys, e)
    ensures Proper(Next(sys, e))
  {
    hide Deliver, Pass, PeerPass, FromSat, FromGround, Without, DumpOf;
    var sys' := Next(sys, e);
    match e
    case Delivery(i, w) => DeliveryIsProper(sys, i, w);
    case GroundPass(order, ticks) =>
      PassIsProper(sys.gc.conns, order, ticks);
      ProperNext(sys, sys', sys.flight, Pass(sys.gc.conns, order, ticks).sent);
    case SatPass(a, order, ticks) =>
      PeerPassIsProper(sys.sats[a], a, order, ticks);
      FromOneSat(sys', a, sys.sats[a].id, PeerPass(sys.sats[a].peers, order, ticks).sent);
      ProperNext(sys, sys', sys.flight, PeerPass(sys.sats[a].peers, order, ticks).sent);
    case Broadcast(a, order) =>
      BroadcastIsProper(sys.sats[a], a, order);
      FromOneSat(sys', a, sys.sats[a].id,
                 BroadcastSends(sys.sats[a].peers, order, HeartbeatFrom(sys.sats[a].id, sys.sats[a].port)));
      ProperNext(sys, sys', sys.flight,
                 BroadcastSends(sys.sats[a].peers, order, HeartbeatFrom(sys.sats[a].id, sys.sats[a].port)));
    case Dump(a, garbage) =>
      var sat := sys.sats[a];
      var ms := DumpOf(sat.id, sat.port, sat.log, garbage);
      DumpMessagesAreProper(sat, a, sat.log, garbage);
      DumpIsProper(sat, a, ms);
      FromOneSat(sys', a, sat.id, DumpSends(sat, ms));
      if 0 in sat.peers {
        ProperNext(sys, sys', sys.flight, DumpSends(sat, ms));
      }
    case Order(id, motion) => OrderIsProper(sys, id, motion);
    case GroundMeets(id, port, ip, met) => MeetingIsProper(sys, e);
    case SatMeets(a, peer, port, ip, met) => MeetingIsProper(sys, e);
    case Loss(i) =>
      WithoutKeeps(sys.flight, i);
      assert Without(sys.flight, i) + [] == Without(sys.flight, i);
      ProperNext(sys, sys', Without(sys.flight, i), []);
    case Written(a, record) =>
      assert sys.flight + [] == sys.flight;
      ProperNext(sys, sys', sys.flight, []);
  }

  lemma {:induction false} OrderIsProper(sys: System, id: int, motion: Motion)
    requires Proper(sys)
    ensures Proper(Next(sys, Order(id, motion)))
  {
    if !SendAborts(sys.gc.conns, id) {
      ProperNext(sys, Next(sys, Order(id, motion)), sys.flight,
                 SatSends(sys.gc.conns, id, CommandMessage(GC_PORT, motion)));
    }
  }

  lemma {:induction false} MeetingIsProper(sys: System, e: Event)
    requires Proper(sys) && CanHappen(sys, e) && (e.GroundMeets? || e.SatMeets?)
    ensures Proper(Next(sys, e))
  {
    hide AddSends, AddPeerSends, Added, AddedPeer, FromGround, FromSat;
    var sys' := Next(sys, e);
    if e.GroundMeets? {
      if AddAborts(sys.gc.conns, e.port, e.ip, e.id, GC_PORT) {
        NobodyMet(sys, sys');
      } else {
        HelloIsProper(sys.gc.conns, e.port, e.ip, e.id, e.met);
        ProperNext(sys, sys', sys.flight, AddSends(sys.gc.conns, e.port, e.ip, e.id, GC_PORT, e.met));
      }
    } else {
      var sat := sys.sats[e.a];
      if AddPeerAborts(e.port, e.ip, e.peer, sat.id) {
        NobodyMet(sys, sys');
      } else {
        var sent := AddPeerSends(sat.peers, e.port, e.ip, e.peer, sat.id, sat.port, e.peerMet);
        AddedPeerIsProper(sat, e.a, e.port, e.ip, e.peer, e.peerMet);
        FromOneSat(sys', e.a, sat.id, sent);
        ProperNext(sys, sys', sys.flight, sent);
      }
    }
  }

  lemma {:induction false} NobodyMet(sys: System, sys': System)
    requires Proper(sys) && sys'.gc == sys.gc && sys'.sats == sys.sats && sys'.flight == sys.flight
    ensures Proper(sys')
  {
  }

  lemma {:induction false} HelloIsProper(conns: Conns, port: int32, ip: string, id: int32, met: Arrival)
    requires ProperConns(conns) && id > 0
    ensures ProperConns(Added(conns, port, ip, id, GC_PORT, met))
    ensures AllFromGround(AddSends(conns, port, ip, id, GC_PORT, met))
  {
  }

  lemma {:induction false} AddedPeerIsProper(sat: Sat, a: int, port: int32, ip: string, peer: int32, met: PeerArrival)
    requires ProperSat(a, sat)
    ensures ProperSat(a, sat.(peers := AddedPeer(sat.peers, port, ip, peer, sat.id, sat.port, met)))
    ensures AllFromSat(AddPeerSends(sat.peers, port, ip, peer, sat.id, sat.port, met), sat.id, sat.port)
  {
  }

  // ---------------------------------------------------------------- who can fail

  /** A satellite's listener never fails an assertion on a proper message. */
  lemma {:induction false} SatelliteSurvives(sys: System, i: nat, w: Weather)
    requires Proper(sys) && Deliverable(sys, i) && sys.flight[i].to != 0
    ensures Deliver(sys, i, w).up == sys.up
  {
    var p := sys.flight[i];
    assert ProperPacket(sys.sats, p) && ProperSat(p.to, sys.sats[p.to]);
  }

  /** Ground control's listener fails exactly when it has no socket to answer on: the sender is known and
      its connection is closed, or the sender is new and socket() failed. */
  lemma {:induction false} GroundFailsExactly(sys: System, i: nat, w: Weather)
    requires Proper(sys) && Deliverable(sys, i) && sys.flight[i].to == 0
    ensures var s := sys.flight[i].msg.senderId;
            0 !in Deliver(sys, i, w).up <==>
              if s in sys.gc.conns then !sys.gc.conns[s].Open() else w.gc.arrival.dial.fd < 0
  {
    hide FileDump;
    var p := sys.flight[i];
    assert ProperPacket(sys.sats, p);
  }

  ghost predicate AnyRun(sys: System, es: seq<Event>)
    decreases es
  {
    es == [] || (CanHappen(sys, es[0]) && AnyRun(Next(sys, es[0]), es[1..]))
  }

  ghost function EndOf(sys: System, es: seq<Event>): System
    requires AnyRun(sys, es)
    decreases es
  {
    if es == [] then sys else EndOf(Next(sys, es[0]), es[1..])
  }

  /** The state the i-th event of a run meets. */
  ghost function StateAt(sys: System, es: seq<Event>, i: nat): (s: System)
    requires AnyRun(sys, es) && i <= |es|
    ensures i < |es| ==> CanHappen(s, es[i])
    decreases es
  {
    if i == 0 then sys else StateAt(Next(sys, es[0]), es[1..], i - 1)
  }

  lemma {:induction false} NobodyComesBack(sys: System, es: seq<Event>)
    requires AnyRun(sys, es)
    ensures EndOf(sys, es).up <= sys.up
    decreases es
  {
    hide CanHappen, Listen, Accept, Pass, PeerPass, AddSends, AddPeerSends, SatSends, DumpSends, BroadcastSends;
    if es != [] {
      NobodyComesBack(Next(sys, es[0]), es[1..]);
    }
  }

  /** A configured peer whose id, port or address fails an assertion of the satellite. */
  predicate BadPeer(e: Event, a: int) {
    e.SatMeets? && e.a == a && (e.port < 0 || e.ip == "" || e.peer < 0)
  }

  lemma {:induction false} StepFailsSatellite(sys: System, e: Event, a: int)
    requires Proper(sys) && CanHappen(sys, e) && a in sys.sats
    ensures a in Next(sys, e).sats
    ensures a in Next(sys, e).up <==> a in sys.up && !BadPeer(e, a)
  {
    hide Pass, PeerPass, Listen, Accept, DumpSends, BroadcastSends, AddSends, AddPeerSends, SatSends;
    assert ProperSat(a, sys.sats[a]);
    if e.Delivery? && sys.flight[e.i].to != 0 {
      SatelliteSurvives(sys, e.i, e.w);
    }
  }

  /** The only assertions a satellite can fail are those on a configured peer: in every run of the
      constellation, with losses, failing sockets and timers at will, a satellite that is up at the start is
      up at the end exactly if no peer it is given in between is a bad one. Every message in flight is one
      its receiver can handle. */
  lemma {:induction false} SatellitesFailExactly(sys: System, es: seq<Event>, a: int)
    requires Proper(sys) && AnyRun(sys, es) && a in sys.sats
    ensures Proper(EndOf(sys, es)) && a in EndOf(sys, es).sats
    ensures a in EndOf(sys, es).up <==> a in sys.up && forall e <- es :: !BadPeer(e, a)
    decreases es
  {
    hide Proper, Next, CanHappen, BadPeer;
    if es != [] {
      StepIsProper(sys, es[0]);
      StepFailsSatellite(sys, es[0], a);
      SatellitesFailExactly(Next(sys, es[0]), es[1..], a);
      assert forall e <- es :: e == es[0] || e in es[1..];
    }
  }

  /** An event at which an assertion of ground control fails: a message from a known sender whose socket is
      closed, or from a new one for which socket() fails; an order for a satellite whose socket is closed; a
      bad line of its configuration. */
  predicate GroundFails(sys: System, e: Event)
    requires CanHappen(sys, e)
  {
    match e
    case Delivery(i, w) =>
      var s := sys.flight[i].msg.senderId;
      sys.flight[i].to == 0 && if s in sys.gc.conns then !sys.gc.conns[s].Open() else w.gc.arrival.dial.fd < 0
    case Order(to, _) => to in sys.gc.conns && !sys.gc.conns[to].Open()
    case GroundMeets(id, port, ip, _) =>
      id <= 0 || port < 0 || ip == "" || port == GC_PORT || (id !in sys.gc.conns && port == 0)
    case _ => false
  }

  lemma {:induction false} StepFailsGround(sys: System, e: Event)
    requires Proper(sys) && CanHappen(sys, e)
    ensures 0 in Next(sys, e).up <==> 0 in sys.up && !GroundFails(sys, e)
  {
    hide Pass, PeerPass, Listen, Accept, DumpSends, BroadcastSends, AddSends, AddPeerSends, SatSends;
    if e.Delivery? {
      if sys.flight[e.i].to == 0 {
        GroundFailsExactly(sys, e.i, e.w);
      } else {
        SatelliteSurvives(sys, e.i, e.w);
      }
    }
    assert e.SatMeets? ==> ProperSat(e.a, sys.sats[e.a]);
  }

  /** In every run ground control is up at the end exactly if it was at the start and no event meets a state
      in which it makes an assertion fail. */
  lemma {:induction false} GroundStaysUpExactly(sys: System, es: seq<Event>)
    requires Proper(sys) && AnyRun(sys, es)
    ensures 0 in EndOf(sys, es).up <==>
              0 in sys.up && forall i :: 0 <= i < |es| ==> !GroundFails(StateAt(sys, es, i), es[i])
    decreases es
  {
    hide Proper, Next, CanHappen, GroundFails;
    if es != [] {
      var sys', rest := Next(sys, es[0]), es[1..];
      StepIsProper(sys, es[0]);
      StepFailsGround(sys, es[0]);
      GroundStaysUpExactly(sys', rest);
      assert StateAt(sys, es, 0) == sys;
      forall i | 0 <= i < |rest| ensures StateAt(sys, es, i + 1) == StateAt(sys', rest, i) && es[i + 1] == rest[i] {
      }
      assert forall i :: 1 <= i < |es| ==> StateAt(sys, es, i) == StateAt(sys', rest, i - 1) && es[i] == rest[i - 1];
    }
  }

  /** Nothing is ever stuck: while everyone is up and the addressees exist, any message in flight can be
      delivered. With the bound on cascades, a constellation left alone falls silent. */
  lemma {:induction false} AnyMessageCanArrive(sys: System, i: nat)
    requires Proper(sys) && sys.Nodes() <= sys.up && i < |sys.flight| && sys.flight[i].to in sys.Nodes()
    ensures Deliverable(sys, i)
  {
    assert sys.flight[i] in sys.flight;
    assert ProperPacket(sys.sats, sys.flight[i]);
  }

  lemma {:induction false} RunIsProper(sys: System, es: seq<Event>)
    requires Proper(sys) && AnyRun(sys, es)
    ensures Proper(EndOf(sys, es))
    decreases es
  {
    hide Proper, Next, CanHappen;
    if es != [] {
      StepIsProper(sys, es[0]);
      RunIsProper(Next(sys, es[0]), es[1..]);
    }
  }

  lemma {:induction false} ProperIsWellFormed(sys: System)
    requires Proper(sys)
    ensures WellFormed(sys)
  {
    assert forall a <- sys.sats :: ProperSat(a, sys.sats[a]);
    assert forall p <- sys.flight :: ProperPacket(sys.sats, p);
  }

  /** Whatever has happened before, traffic dies down once the timers and the operator are quiet: every
      sequence of deliveries and losses from then on is no longer than the measure of that moment. */
  lemma {:induction false} TrafficDiesDown(sys: System, es: seq<Event>, mvs: seq<Move>)
    requires Proper(sys) && AnyRun(sys, es) && Cascade(EndOf(sys, es), mvs)
    ensures |mvs| + Measure(After(EndOf(sys, es), mvs)) <= Measure(EndOf(sys, es))
  {
    hide Proper, WellFormed, Measure;
    RunIsProper(sys, es);
    ProperIsWellFormed(EndOf(sys, es));
    CascadesTerminate(EndOf(sys, es), mvs);
  }
}
