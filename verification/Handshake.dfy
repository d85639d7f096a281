/** The whole constellation at work: deliveries, timers, broadcasts, dumps, commands, new peers. */
module Handshakes {
  import opened Config
  import opened Messages
  import opened Connections
  import opened GCConnectionHandlers
  import opened Receivers
  import opened PeerConnections
  import opened ConnectionHandlers
  import opened Satellites
  import opened NetworkManagers
  import opened Constellations

  /** A message is handled; an update pass of ground control or of a satellite; a satellite's heartbeats,
      its log dump, a record it logs; an operator command; a satellite or a peer from the configuration;
      a message lost. */
  datatype Event =
    | Delivery(i: nat, w: Weather)
    | GroundPass(order: seq<int>, ticks: map<int, Tick>)
    | SatPass(a: int, peerOrder: seq<int>, peerTicks: map<int, PeerTick>)
    | Broadcast(a: int, peerOrder: seq<int>)
    | Dump(a: int, garbage: nat -> Block)
    | Written(a: int, record: Bytes)
    | Order(to: int, motion: Motion)
    | GroundMeets(id: int32, port: int32, ip: string, met: Arrival)
    | SatMeets(a: int, peer: int32, port: int32, ip: string, peerMet: PeerArrival)
    | Loss(i: nat)

  predicate CanHappen(sys: System, e: Event) {
    match e
    case Delivery(i, _) => Deliverable(sys, i)
    case GroundPass(order, ticks) => Visits(order, sys.gc.conns) && forall id <- order :: id in ticks
    case SatPass(a, order, ticks) =>
      a in sys.sats && VisitsPeers(order, sys.sats[a].peers) && forall id <- order :: id in ticks
    case Broadcast(a, order) => a in sys.sats && VisitsPeers(order, sys.sats[a].peers)
    case Dump(a, _) => a in sys.sats
    case Order(_, _) => true
    case GroundMeets(_, _, _, _) => true
    case SatMeets(a, _, _, _, _) => a in sys.sats
    case Loss(i) => i < |sys.flight|
    case Written(a, _) => a in sys.sats
  }

  function DumpSends(sat: Sat, ms: seq<Message>): seq<Packet> {
    if ms == [] then [] else DumpSends(sat, ms[..|ms| - 1]) + PeerSends(sat.peers, 0, ms[|ms| - 1])
  }

  function Next(sys: System, e: Event): System
    requires CanHappen(sys, e)
  {
    match e
    case Delivery(i, w) => Deliver(sys, i, w)
    case GroundPass(order, ticks) =>
      var p := Pass(sys.gc.conns, order, ticks);
      sys.(gc := sys.gc.(conns := p.conns, outputs := sys.gc.outputs + p.notices), flight := sys.flight + p.sent)
    case SatPass(a, order, ticks) =>
      var p := PeerPass(sys.sats[a].peers, order, ticks);
      sys.(sats := sys.sats[a := sys.sats[a].(peers := p.peers)], flight := sys.flight + p.sent)
    case Broadcast(a, order) =>
      sys.(flight := sys.flight +
             BroadcastSends(sys.sats[a].peers, order, HeartbeatFrom(sys.sats[a].id, sys.sats[a].port)))
    case Dump(a, garbage) =>
      var sat := sys.sats[a];
      if 0 !in sat.peers then sys
      else sys.(sats := sys.sats[a := sat.(waitingForAck := true, log := [])],
                flight := sys.flight + DumpSends(sat, DumpOf(sat.id, sat.port, sat.log, garbage)))
    case Order(id, motion) =>
      if SendAborts(sys.gc.conns, id) then sys.(up := sys.up - {0})
      else sys.(flight := sys.flight + SatSends(sys.gc.conns, id, CommandMessage(GC_PORT, motion)))
    case GroundMeets(id, port, ip, met) =>
      if AddAborts(sys.gc.conns, port, ip, id, GC_PORT) then sys.(up := sys.up - {0})
      else sys.(gc := sys.gc.(conns := Added(sys.gc.conns, port, ip, id, GC_PORT, met)),
                flight := sys.flight + AddSends(sys.gc.conns, port, ip, id, GC_PORT, met))
    case SatMeets(a, peer, port, ip, met) =>
      var sat := sys.sats[a];
      if AddPeerAborts(port, ip, peer, sat.id) then sys.(up := sys.up - {a})
      else sys.(sats := sys.sats[a := sat.(peers := AddedPeer(sat.peers, port, ip, peer, sat.id, sat.port, met))],
                flight := sys.flight + AddPeerSends(sat.peers, port, ip, peer, sat.id, sat.port, met))
    case Loss(i) => sys.(flight := Without(sys.flight, i))
    case Written(a, record) => sys.(sats := sys.sats[a := sys.sats[a].(log := sys.sats[a].log + record)])
  }

  /** An order puts its one command in flight to its satellite exactly if that is known with an open socket,
      and nothing to a satellite that is not known. */
  lemma {:induction false} OrderIsSent(sys: System, to: int, motion: Motion)
    ensures var sys' := Next(sys, Order(to, motion));
            && sys'.flight == sys.flight + (
                 if to in sys.gc.conns && sys.gc.conns[to].satSocket >= 0
                 then [Packet(to, Command(Message.COMMAND_SIZE, 0, GC_PORT, motion.x, motion.y, motion.z,
                                          motion.vx, motion.vy, motion.vz))]
                 else [])
            && sys'.gc == sys.gc && sys'.sats == sys.sats
  {
    assert sys.flight + [] == sys.flight;
  }

  /** A broadcast puts one heartbeat in flight to each connected peer with an open socket but ground control,
      and nothing else. */
  lemma {:induction false} BroadcastIsSent(sys: System, a: int, order: seq<int>)
    requires CanHappen(sys, Broadcast(a, order))
    ensures var sat, sent := sys.sats[a], Next(sys, Broadcast(a, order)).flight[|sys.flight|..];
            && Next(sys, Broadcast(a, order)) == sys.(flight := sys.flight + sent)
            && forall p: Packet :: multiset(sent)[p] ==
                 if p.to != 0 && p.to in sat.peers && sat.peers[p.to].state == UP && sat.peers[p.to].peerSocket >= 0
                    && p.msg == Heartbeat(Message.HEARTBEAT_SIZE, sat.id, sat.port, true)
                 then 1 else 0
  {
    var sent := BroadcastSends(sys.sats[a].peers, order, HeartbeatFrom(sys.sats[a].id, sys.sats[a].port));
    BroadcastReachesEach(sys.sats[a].peers, order, HeartbeatFrom(sys.sats[a].id, sys.sats[a].port));
    assert (sys.flight + sent)[|sys.flight|..] == sent;
  }

  /** An update pass of ground control puts in flight exactly the heartbeats of its retries. */
  lemma {:induction false} GroundPassIsSent(sys: System, order: seq<int>, ticks: map<int, Tick>)
    requires CanHappen(sys, GroundPass(order, ticks))
    ensures var sys' := Next(sys, GroundPass(order, ticks));
            && sys.flight <= sys'.flight && sys'.sats == sys.sats
            && forall p: Packet :: multiset(sys'.flight[|sys.flight|..])[p] ==
                 if p.to in sys.gc.conns && Regreeted(sys.gc.conns[p.to], sys'.gc.conns[p.to], ticks[p.to].dial, p.msg)
                 then 1 else 0
  {
    hide Pass;
    PassSendsHeartbeats(sys.gc.conns, order, ticks);
    var sent := Pass(sys.gc.conns, order, ticks).sent;
    assert (sys.flight + sent)[|sys.flight|..] == sent;
  }

  /** So does one of a satellite. */
  lemma {:induction false} SatPassIsSent(sys: System, a: int, order: seq<int>, ticks: map<int, PeerTick>)
    requires CanHappen(sys, SatPass(a, order, ticks))
    ensures var sys' := Next(sys, SatPass(a, order, ticks));
            && sys.flight <= sys'.flight && a in sys'.sats && sys'.gc == sys.gc
            && forall p: Packet :: multiset(sys'.flight[|sys.flight|..])[p] ==
                 if p.to in sys.sats[a].peers
                    && Redialled(sys.sats[a].peers[p.to], sys'.sats[a].peers[p.to], ticks[p.to].dial, p.msg)
                 then 1 else 0
  {
    hide PeerPass;
    PeerPassSendsHeartbeats(sys.sats[a].peers, order, ticks);
    var sent := PeerPass(sys.sats[a].peers, order, ticks).sent;
    assert (sys.flight + sent)[|sys.flight|..] == sent;
  }

  /** Nothing is lost: no message vanishes, and whoever is met for the first time can be dialled, so that
      the greeting really goes out. */
  predicate Greets(sys: System, e: Event)
    requires CanHappen(sys, e)
  {
    match e
    case Delivery(i, w) =>
      var p := sys.flight[i];
      p.msg.senderId in sys.Known(p.to) || (if p.to == 0 then w.gc.arrival.dial.Works() else w.sat.arrival.dial.Works())
    case GroundMeets(id, port, ip, met) =>
      AddAborts(sys.gc.conns, port, ip, id, GC_PORT) || id in sys.gc.conns || met.dial.Works()
    case SatMeets(a, peer, port, ip, met) =>
      AddPeerAborts(port, ip, peer, sys.sats[a].id) || peer in sys.sats[a].peers || met.dial.Works()
    case Loss(_) => false
    case _ => true
  }

  predicate OnItsWay(flight: seq<Packet>, from: int, to: int) {
    exists p <- flight :: p.to == to && p.msg.senderId as int == from
  }

  /** Whom a running node knows either knows it too, or has a message from it coming. */
  ghost predicate Symmetric(sys: System) {
    forall a, b | a in sys.up && b in sys.up && a in sys.Nodes() && b in sys.Nodes() && b in sys.Known(a) ::
      a in sys.Known(b) || OnItsWay(sys.flight, a, b)
  }

  ghost predicate Numbered(sys: System) {
    forall a <- sys.sats :: a > 0 && sys.sats[a].id as int == a
  }

  /** More messages and fewer running nodes: the relation survives. */
  lemma {:induction false} MoreTraffic(sys: System, sys': System, sent: seq<Packet>)
    requires Symmetric(sys)
    requires sys'.flight == sys.flight + sent && sys'.up <= sys.up && sys'.Nodes() == sys.Nodes()
    requires forall a <- sys.Nodes() :: sys'.Known(a) == sys.Known(a)
    ensures Symmetric(sys')
  {
    forall a, b | a in sys'.up && b in sys'.up && a in sys.Nodes() && b in sys.Nodes() && b in sys.Known(a)
      ensures a in sys.Known(b) || OnItsWay(sys'.flight, a, b)
    {
      if a !in sys.Known(b) {
        var p :| p in sys.flight && p.to == b && p.msg.senderId as int == a;
        assert p in sys'.flight;
      }
    }
  }

  /** Node n gets to know s and greets it. */
  lemma {:induction false} NewAcquaintance(sys: System, sys': System, n: int, s: int, sent: seq<Packet>)
    requires Symmetric(sys)
    requires sys'.flight == sys.flight + sent && sys'.up == sys.up && sys'.Nodes() == sys.Nodes()
    requires forall a <- sys.Nodes() :: sys'.Known(a) == sys.Known(a) + (if a == n then {s} else {})
    requires s in sys.Known(n) || OnItsWay(sent, n, s)
    ensures Symmetric(sys')
  {
    forall a, b | a in sys'.up && b in sys'.up && a in sys.Nodes() && b in sys.Nodes() && b in sys'.Known(a)
      ensures a in sys'.Known(b) || OnItsWay(sys'.flight, a, b)
    {
      if b in sys.Known(a) {
        if a !in sys.Known(b) {
          var p :| p in sys.flight && p.to == b && p.msg.senderId as int == a;
          assert p in sys'.flight;
        }
      } else {
        var p :| p in sent && p.to == b && p.msg.senderId as int == a;
        assert p in sys'.flight;
      }
    }
  }

  /** A message from s leaves the network: it was only needed until its receiver knew s. */
  lemma {:induction false} Consumed(sys: System, sys': System, i: nat, n: int, s: int, sent: seq<Packet>)
    requires Symmetric(sys) && i < |sys.flight| && sys.flight[i].to == n && sys.flight[i].msg.senderId as int == s
    requires sys'.flight == Without(sys.flight, i) + sent && sys'.up == sys.up && sys'.Nodes() == sys.Nodes()
    requires forall a <- sys.Nodes() :: sys'.Known(a) == sys.Known(a) + (if a == n then {s} else {})
    requires s in sys.Known(n) || OnItsWay(sent, n, s)
    ensures Symmetric(sys')
  {
    forall a, b | a in sys'.up && b in sys'.up && a in sys.Nodes() && b in sys.Nodes() && b in sys'.Known(a)
      ensures a in sys'.Known(b) || OnItsWay(sys'.flight, a, b)
    {
      if b in sys.Known(a) {
        if a !in sys'.Known(b) {
          var k :| 0 <= k < |sys.flight| && sys.flight[k].to == b && sys.flight[k].msg.senderId as int == a;
          assert k != i;
          assert sys.flight[k] in Without(sys.flight, i) by {
            assert sys.flight[k] == Without(sys.flight, i)[if k < i then k else k - 1];
          }
        }
      } else {
        var p :| p in sent && p.to == b && p.msg.senderId as int == a;
        assert p in sys'.flight;
      }
    }
  }

  /** The receiver failed an assertion and is gone. */
  lemma {:induction false} Gone(sys: System, sys': System, i: nat, n: int)
    requires Symmetric(sys) && i < |sys.flight| && sys.flight[i].to == n
    requires sys'.flight == Without(sys.flight, i) && sys'.up == sys.up - {n}
    requires sys'.gc == sys.gc && sys'.sats == sys.sats
    ensures Symmetric(sys')
  {
    forall a, b | a in sys'.up && b in sys'.up && a in sys.Nodes() && b in sys.Nodes() && b in sys.Known(a)
      ensures a in sys.Known(b) || OnItsWay(sys'.flight, a, b)
    {
      if a !in sys.Known(b) {
        var k :| 0 <= k < |sys.flight| && sys.flight[k].to == b && sys.flight[k].msg.senderId as int == a;
        assert sys.flight[k] == Without(sys.flight, i)[if k < i then k else k - 1];
        assert sys.flight[k] in sys'.flight;
      }
    }
  }

  lemma {:induction false} GreetingArrives(conns: Conns, port: int32, ip: string, id: int32, a: Arrival)
    ensures id in conns || (a.dial.Works() ==> OnItsWay(AddSends(conns, port, ip, id, GC_PORT, a), 0, id))
  {
    var sent := AddSends(conns, port, ip, id, GC_PORT, a);
    if id !in conns && a.dial.Works() {
      assert sent[0] in sent;
    }
  }

  lemma {:induction false} PeerGreetingArrives(sat: Sat, port: int32, ip: string, id: int32, a: PeerArrival)
    ensures id in sat.peers ||
            (a.dial.Works() ==> OnItsWay(AddPeerSends(sat.peers, port, ip, id, sat.id, sat.port, a), sat.id, id))
  {
    var sent := AddPeerSends(sat.peers, port, ip, id, sat.id, sat.port, a);
    if id !in sat.peers && a.dial.Works() {
      assert sent[0] in sent;
    }
  }

  lemma {:induction false} OnItsWayStill(a: seq<Packet>, b: seq<Packet>, from: int, to: int)
    requires OnItsWay(a, from, to) || OnItsWay(b, from, to)
    ensures OnItsWay(a + b, from, to)
  {
    if OnItsWay(a, from, to) {
      var p :| p in a && p.to == to && p.msg.senderId as int == from;
      assert p in a + b;
    } else {
      var p :| p in b && p.to == to && p.msg.senderId as int == from;
      assert p in a + b;
    }
  }

  lemma {:induction false} GroundDelivery(sys: System, i: nat, w: Weather)
    requires Symmetric(sys) && Numbered(sys)
    requires Deliverable(sys, i) && Greets(sys, Delivery(i, w)) && sys.flight[i].to == 0
    ensures Symmetric(Deliver(sys, i, w))
  {
    hide Symmetric, OnItsWay, Meet, FileDump, AddSends, SatSends;
    var m, sys' := sys.flight[i].msg, Deliver(sys, i, w);
    var r := Listen(sys.gc, GC_PORT, m, w.gc);
    if r.Listened? {
      ListenSendsLittle(sys.gc, m, w.gc);
      var hello := AddSends(sys.gc.conns, m.senderPort, w.gc.ip, m.senderId, GC_PORT, w.gc.arrival);
      var met := Meet(sys.gc, GC_PORT, m, w.gc);
      var reply := if Handled(m) then SatSends(met.conns, m.senderId, Reply(GC_PORT)) else [];
      assert hello + [] == hello;
      assert r.sent == hello + reply;
      GreetingArrives(sys.gc.conns, m.senderPort, w.gc.ip, m.senderId, w.gc.arrival);
      if m.senderId !in sys.gc.conns {
        OnItsWayStill(hello, reply, 0, m.senderId);
      }
      Consumed(sys, sys', i, 0, m.senderId, r.sent);
    } else {
      Gone(sys, sys', i, 0);
    }
  }

  lemma {:induction false} SatDelivery(sys: System, i: nat, w: Weather)
    requires Symmetric(sys) && Numbered(sys)
    requires Deliverable(sys, i) && Greets(sys, Delivery(i, w)) && sys.flight[i].to != 0
    ensures Symmetric(Deliver(sys, i, w))
  {
    hide Symmetric, OnItsWay, Processed, Answer, AddPeerSends;
    var p, sys' := sys.flight[i], Deliver(sys, i, w);
    var sat, m := sys.sats[p.to], p.msg;
    var r := Accept(sat, m, w.sat);
    if r.Accepted? {
      AcceptSendsLittle(sat, m, w.sat);
      var answer := Answer(sat, m);
      var hello := AddPeerSends(sat.peers, m.senderPort, w.sat.ip, m.senderId, sat.id, sat.port, w.sat.arrival);
      PeerGreetingArrives(sat, m.senderPort, w.sat.ip, m.senderId, w.sat.arrival);
      if m.senderId !in sat.peers {
        OnItsWayStill(answer, hello, sat.id, m.senderId);
      }
      assert sys'.Nodes() == sys.Nodes();
      Consumed(sys, sys', i, p.to, m.senderId, r.sent);
    } else {
      Gone(sys, sys', i, p.to);
    }
  }

  lemma {:induction false} DeliveryKeepsNumbers(sys: System, i: nat, w: Weather)
    requires Numbered(sys) && Deliverable(sys, i)
    ensures Numbered(Deliver(sys, i, w))
  {
    var p := sys.flight[i];
    if p.to != 0 && Accept(sys.sats[p.to], p.msg, w.sat).Accepted? {
      AcceptSendsLittle(sys.sats[p.to], p.msg, w.sat);
    }
  }

  lemma {:induction false} MeetingKeepsSymmetry(sys: System, e: Event)
    requires Symmetric(sys) && Numbered(sys) && CanHappen(sys, e) && Greets(sys, e) && (e.GroundMeets? || e.SatMeets?)
    ensures Symmetric(Next(sys, e)) && Numbered(Next(sys, e))
  {
    hide Symmetric, OnItsWay, AddSends, AddPeerSends;
    var sys' := Next(sys, e);
    if sys'.up != sys.up || (sys'.gc == sys.gc && sys'.sats == sys.sats && sys'.flight == sys.flight) {
      assert sys.flight + [] == sys.flight;
      MoreTraffic(sys, sys', []);
    } else if e.GroundMeets? {
      GreetingArrives(sys.gc.conns, e.port, e.ip, e.id, e.met);
      NewAcquaintance(sys, sys', 0, e.id, AddSends(sys.gc.conns, e.port, e.ip, e.id, GC_PORT, e.met));
    } else {
      var sat := sys.sats[e.a];
      assert sys'.Nodes() == sys.Nodes();
      PeerGreetingArrives(sat, e.port, e.ip, e.peer, e.peerMet);
      NewAcquaintance(sys, sys', e.a, e.peer,
                      AddPeerSends(sat.peers, e.port, e.ip, e.peer, sat.id, sat.port, e.peerMet));
    }
  }

  lemma {:induction false} StepKeepsSymmetry(sys: System, e: Event)
    requires Symmetric(sys) && Numbered(sys) && CanHappen(sys, e) && Greets(sys, e)
    ensures Symmetric(Next(sys, e)) && Numbered(Next(sys, e))
  {
    hide Symmetric, OnItsWay, Deliver, Pass, PeerPass, AddSends, AddPeerSends, SatSends, DumpSends, BroadcastSends,
         AddedPeer, DumpOf;
    var sys' := Next(sys, e);
    match e
    case Delivery(i, w) =>
      DeliveryKeepsNumbers(sys, i, w);
      if sys.flight[i].to == 0 {
        GroundDelivery(sys, i, w);
      } else {
        SatDelivery(sys, i, w);
      }
    case GroundPass(order, ticks) => MoreTraffic(sys, sys', Pass(sys.gc.conns, order, ticks).sent);
    case SatPass(a, order, ticks) =>
      assert sys'.Nodes() == sys.Nodes();
      MoreTraffic(sys, sys', PeerPass(sys.sats[a].peers, order, ticks).sent);
    case Broadcast(a, order) =>
      MoreTraffic(sys, sys', BroadcastSends(sys.sats[a].peers, order, HeartbeatFrom(sys.sats[a].id, sys.sats[a].port)));
    case Dump(a, garbage) =>
      assert sys'.Nodes() == sys.Nodes();
      if 0 in sys.sats[a].peers {
        MoreTraffic(sys, sys',
                    DumpSends(sys.sats[a], DumpOf(sys.sats[a].id, sys.sats[a].port, sys.sats[a].log, garbage)));
      }
    case Order(id, motion) =>
      if SendAborts(sys.gc.conns, id) {
        assert sys.flight + [] == sys.flight;
        MoreTraffic(sys, sys', []);
      } else {
        MoreTraffic(sys, sys', SatSends(sys.gc.conns, id, CommandMessage(GC_PORT, motion)));
      }
    case GroundMeets(_, _, _, _) => MeetingKeepsSymmetry(sys, e);
    case SatMeets(_, _, _, _, _) => MeetingKeepsSymmetry(sys, e);
    case Written(a, record) =>
      assert sys'.Nodes() == sys.Nodes();
      assert sys.flight + [] == sys.flight;
      MoreTraffic(sys, sys', []);
  }

  ghost predicate Lossless(sys: System, es: seq<Event>)
    decreases es
  {
    es == [] || (CanHappen(sys, es[0]) && Greets(sys, es[0]) && Lossless(Next(sys, es[0]), es[1..]))
  }

  ghost function Run(sys: System, es: seq<Event>): System
    requires Lossless(sys, es)
    decreases es
  {
    if es == [] then sys else Run(Next(sys, es[0]), es[1..])
  }

  /** Nobody knows anybody yet, and nothing is in flight. */
  ghost predicate Initial(sys: System) {
    && Numbered(sys) && sys.flight == [] && sys.gc.conns == map[]
    && forall a <- sys.sats :: sys.sats[a].peers == map[]
  }

  lemma {:induction false} RunKeepsSymmetry(sys: System, es: seq<Event>)
    requires Symmetric(sys) && Numbered(sys) && Lossless(sys, es)
    ensures Symmetric(Run(sys, es)) && Numbered(Run(sys, es))
    decreases es
  {
    hide Symmetric, Numbered, Next, CanHappen, Greets;
    if es != [] {
      StepKeepsSymmetry(sys, es[0]);
      RunKeepsSymmetry(Next(sys, es[0]), es[1..]);
    }
  }

  /** Handshake symmetry: in every run in which no message is lost, with timers, reconnects, broadcasts,
      dumps, commands and new peers in any order, whom a running node knows either knows it back or has a
      message from it in flight; when nothing is in flight to a running node, knowing is symmetric among
      running nodes. */
  lemma {:induction false} HandshakesComplete(sys: System, es: seq<Event>)
    requires Initial(sys) && Lossless(sys, es)
    ensures var end := Run(sys, es);
            forall a, b | a in end.up && b in end.up && a in end.Nodes() && b in end.Nodes() ::
              && (b in end.Known(a) ==> a in end.Known(b) || OnItsWay(end.flight, a, b))
              && ((forall p <- end.flight :: p.to !in end.up) ==> (b in end.Known(a) <==> a in end.Known(b)))
  {
    hide Next, CanHappen, Greets, Run, Lossless;
    assert Symmetric(sys);
    RunKeepsSymmetry(sys, es);
  }
}
