/** An operator command from the input line to the satellite, in any run of the constellation. */
module Commands {
  import opened Config
  import opened Messages
  import opened Serializers
  import opened Numbers
  import opened Parsers
  import opened Connections
  import opened GCConnectionHandlers
  import opened Receivers
  import opened ConnectionHandlers
  import opened Satellites
  import opened NetworkManagers
  import opened Constellations
  import opened Handshakes
  import opened Conducts

  // ---------------------------------------------------------------- one command

  /** Of ground control's commands a satellite fails an assertion exactly if it listens on ground control's
      port. */
  lemma {:induction false} CommandFailsExactly(motion: Motion, sat: Sat, s: SatSurroundings)
    requires sat.id > 0
    ensures Accept(sat, CommandMessage(GC_PORT, motion), s).SatCrashed? <==> sat.port == GC_PORT
  {
  }

  /** A command arrives as it was sent, whatever earlier datagrams left in the buffer. The satellite takes
      over its motion and changes nothing else but ground control's entry among its peers. If it knows
      ground control it answers exactly if that can be sent to; if not, it is told of the stranger by a
      heartbeat exactly if it can be dialled. */
  lemma {:induction false} CommandMovesSatellite(motion: Motion, sat: Sat, s: SatSurroundings, pad: Bytes, stale: Bytes)
    requires sat.id > 0 && sat.port != GC_PORT && |pad| == 3
    requires |CommandMessage(GC_PORT, motion).Frame(pad) + stale| == BUFFER_SIZE
    ensures var m := CommandMessage(GC_PORT, motion);
            Decode(m.Frame(pad) + stale, |m.Frame(pad)|) == Decoded(m)
    ensures var r := Accept(sat, CommandMessage(GC_PORT, motion), s);
            && r.Accepted? && r.sat.(peers := sat.peers) == sat.(motion := motion)
            && r.sat.peers.Keys == sat.peers.Keys + {0}
            && (forall b <- sat.peers :: b != 0 ==> r.sat.peers[b] == sat.peers[b])
            && r.sent == if 0 in sat.peers then
                           (if Reachable(sat.peers, 0) then [Packet(0, Ack(Message.ACK_SIZE, sat.id, sat.port, true))]
                            else [])
                         else if s.arrival.dial.Works() then [Packet(0, HeartbeatFrom(sat.id, sat.port))]
                         else []
  {
    var m := CommandMessage(GC_PORT, motion);
    DecodeUndoesSerialize(m, pad, stale);
    hide Decode, PeerSends;
    PeerSendsOne(sat.peers, 0, Ack(Message.ACK_SIZE, sat.id, sat.port, true));
    var hello := AddPeerSends(sat.peers, m.senderPort, s.ip, m.senderId, sat.id, sat.port, s.arrival);
    assert Answer(sat, m) + [] == Answer(sat, m) && [] + hello == hello;
  }

  /** What the operator typed is what the satellite is told: for every line the pattern accepts, the
      command built from it carries the six numbers behind the id, in the order of the line. */
  lemma {:induction false} LineBecomesMotion(input: string, misfit: int, encode: Number -> Double)
    ensures CheckRegex(input) ==>
              var fs := TakeFields(input, 7).value;
              && |fs| == 7 && AllValid(fs) && input == Spaced(fs) && CommandDecoder(input, misfit).Some?
              && Commanded(CommandMessage(GC_PORT, Encoded(CommandDecoder(input, misfit).value, encode))) ==
                   Motion(encode(fs[1].Value()), encode(fs[2].Value()), encode(fs[3].Value()),
                          encode(fs[4].Value()), encode(fs[5].Value()), encode(fs[6].Value()))
  {
    hide CommandDecoder, TakeFields, Spaced, ValueOf, CheckRegex;
    if CheckRegex(input) {
      AcceptedCommandsParse(input, misfit);
      AcceptedIsSpaced(input);
    }
  }

  lemma {:induction false} AcceptedIsSpaced(input: string)
    requires CheckRegex(input)
    ensures input == Spaced(TakeFields(input, 7).value)
  {
    TakeFieldsSound(input, 7);
  }

  // ---------------------------------------------------------------- commands in a run

  /** The commands the operator gave in a run, each with the satellite it is for. */
  function Orders(es: seq<Event>): set<(int, Motion)>
    decreases es
  {
    if es == [] then {} else OrderOf(es[0]) + Orders(es[1..])
  }

  function OrderOf(e: Event): set<(int, Motion)> {
    if e.Order? then {(e.to, e.motion)} else {}
  }

  predicate NoCommands(ps: seq<Packet>) { forall p <- ps :: !p.msg.Command? }

  /** Every command in flight was given, for the satellite it is going to; every satellite moves as it did
      at the start or as some command given for it says. */
  ghost predicate Traceable(start: map<int, Sat>, sys: System, orders: set<(int, Motion)>) {
    && (forall p <- sys.flight :: p.msg.Command? ==> (p.to, Commanded(p.msg)) in orders)
    && forall a <- sys.sats ::
         a in start && (sys.sats[a].motion == start[a].motion || (a, sys.sats[a].motion) in orders)
  }

  lemma {:induction false} PassSendsNoCommands(conns: Conns, order: seq<int>, ticks: map<int, Tick>)
    requires forall id <- order :: id in conns && id in ticks
    ensures NoCommands(Pass(conns, order, ticks).sent)
  {
    if order != [] {
      PassSendsNoCommands(conns, order[..|order| - 1], ticks);
    }
  }

  lemma {:induction false} FromSatMeansNoCommands(ps: seq<Packet>, id: int32, port: int32)
    requires AllFromSat(ps, id, port)
    ensures NoCommands(ps)
  {
  }

  lemma {:induction false} ListenSendsNoCommands(gc: Gc, m: Message, s: Surroundings)
    requires Acceptable(m) && Listen(gc, GC_PORT, m, s).Listened?
    ensures NoCommands(Listen(gc, GC_PORT, m, s).sent)
  {
    hide FileDump, Meet;
  }

  /** Nobody's motion changed and no command was added. */
  lemma {:induction false} StillTraceable(start: map<int, Sat>, sys: System, orders: set<(int, Motion)>, sys': System,
                                          kept: seq<Packet>, sent: seq<Packet>)
    requires Traceable(start, sys, orders)
    requires sys'.flight == kept + sent && (forall p <- kept :: p in sys.flight) && NoCommands(sent)
    requires sys'.sats.Keys == sys.sats.Keys && forall a <- sys.sats :: sys'.sats[a].motion == sys.sats[a].motion
    ensures Traceable(start, sys', orders)
  {
    assert forall p <- sys'.flight :: p in kept || p in sent;
  }

  lemma {:induction false} DeliveryStaysTraceable(start: map<int, Sat>, sys: System, orders: set<(int, Motion)>,
                                                  i: nat, w: Weather)
    requires Traceable(start, sys, orders) && Proper(sys) && Deliverable(sys, i)
    ensures Traceable(start, Deliver(sys, i, w), orders)
  {
    hide Listen, FromSat, FromGround, Without, AddPeerSends, AddedPeer, HeardPeer;
    var p, rest, sys' := sys.flight[i], Without(sys.flight, i), Deliver(sys, i, w);
    WithoutKeeps(sys.flight, i);
    assert p in sys.flight;
    if p.to == 0 {
      var r := Listen(sys.gc, GC_PORT, p.msg, w.gc);
      if r.Listened? {
        ListenSendsNoCommands(sys.gc, p.msg, w.gc);
      } else {
        assert rest + [] == rest;
      }
      StillTraceable(start, sys, orders, sys', rest, if r.Listened? then r.sent else []);
    } else {
      var sat := sys.sats[p.to];
      var r := Accept(sat, p.msg, w.sat);
      if r.Accepted? {
        AcceptIsProper(sat, p.to, p.msg, w.sat);
        FromSatMeansNoCommands(r.sent, sat.id, sat.port);
        assert r.sat.motion == if p.msg.Command? then Commanded(p.msg) else sat.motion;
      }
    }
  }

  lemma {:induction false} OrderStaysTraceable(start: map<int, Sat>, sys: System, orders: set<(int, Motion)>,
                                               to: int, motion: Motion)
    requires Traceable(start, sys, orders)
    ensures Traceable(start, Next(sys, Order(to, motion)), orders + {(to, motion)})
  {
  }

  /** What a satellite sends by itself. */
  lemma {:induction false} SatStaysTraceable(start: map<int, Sat>, sys: System, orders: set<(int, Motion)>, e: Event)
    requires Traceable(start, sys, orders) && Proper(sys) && CanHappen(sys, e)
    requires e.SatPass? || e.Broadcast? || e.Dump?
    ensures Traceable(start, Next(sys, e), orders)
  {
    hide PeerPass, DumpSends, BroadcastSends, DumpOf, FromSat, FromGround, NoCommands;
    var sys', sat := Next(sys, e), sys.sats[e.a];
    assert ProperSat(e.a, sat);
    match e
    case SatPass(a, order, ticks) =>
      PeerPassIsProper(sat, a, order, ticks);
      FromSatMeansNoCommands(PeerPass(sat.peers, order, ticks).sent, sat.id, sat.port);
      StillTraceable(start, sys, orders, sys', sys.flight, PeerPass(sat.peers, order, ticks).sent);
    case Broadcast(a, order) =>
      var sent := BroadcastSends(sat.peers, order, HeartbeatFrom(sat.id, sat.port));
      BroadcastIsProper(sat, a, order);
      FromSatMeansNoCommands(sent, sat.id, sat.port);
      StillTraceable(start, sys, orders, sys', sys.flight, sent);
    case Dump(a, garbage) =>
      var ms := DumpOf(sat.id, sat.port, sat.log, garbage);
      DumpMessagesAreProper(sat, a, sat.log, garbage);
      DumpIsProper(sat, a, ms);
      FromSatMeansNoCommands(DumpSends(sat, ms), sat.id, sat.port);
      if 0 in sat.peers {
        StillTraceable(start, sys, orders, sys', sys.flight, DumpSends(sat, ms));
      }
  }

  lemma {:induction false} StepStaysTraceable(start: map<int, Sat>, sys: System, orders: set<(int, Motion)>, e: Event)
    requires Traceable(start, sys, orders) && Proper(sys) && CanHappen(sys, e)
    ensures Traceable(start, Next(sys, e), orders + OrderOf(e))
  {
    hide Deliver, Pass, PeerPass, Without, AddSends, AddPeerSends, DumpSends, BroadcastSends, DumpOf, Added, AddedPeer,
         SatSends, Proper;
    var sys' := Next(sys, e);
    assert !e.Order? ==> orders + OrderOf(e) == orders;
    match e
    case Delivery(i, w) => DeliveryStaysTraceable(start, sys, orders, i, w);
    case GroundPass(order, ticks) =>
      PassSendsNoCommands(sys.gc.conns, order, ticks);
      StillTraceable(start, sys, orders, sys', sys.flight, Pass(sys.gc.conns, order, ticks).sent);
    case SatPass(_, _, _) => SatStaysTraceable(start, sys, orders, e);
    case Broadcast(_, _) => SatStaysTraceable(start, sys, orders, e);
    case Dump(_, _) => SatStaysTraceable(start, sys, orders, e);
    case Order(to, motion) => OrderStaysTraceable(start, sys, orders, to, motion);
    case GroundMeets(id, port, ip, met) =>
      HelloIsOne(sys.gc.conns, port, ip, id, met);
      if !AddAborts(sys.gc.conns, port, ip, id, GC_PORT) {
        StillTraceable(start, sys, orders, sys', sys.flight, AddSends(sys.gc.conns, port, ip, id, GC_PORT, met));
      }
    case SatMeets(a, peer, port, ip, met) =>
      var sat := sys.sats[a];
      PeerHelloIsNoCommand(sat.peers, port, ip, peer, sat.id, sat.port, met);
      if !AddPeerAborts(port, ip, peer, sat.id) {
        StillTraceable(start, sys, orders, sys', sys.flight,
                       AddPeerSends(sat.peers, port, ip, peer, sat.id, sat.port, met));
      }
    case Loss(i) =>
      WithoutKeeps(sys.flight, i);
      assert Without(sys.flight, i) + [] == Without(sys.flight, i);
      StillTraceable(start, sys, orders, sys', Without(sys.flight, i), []);
    case Written(a, record) =>
  }

  lemma {:induction false} PeerHelloIsNoCommand(peers: Peers, port: int32, ip: string, id: int32, satId: int32,
                                                listening: int32, a: PeerArrival)
    ensures NoCommands(AddPeerSends(peers, port, ip, id, satId, listening, a))
  {
  }

  lemma {:induction false} RunStaysTraceable(start: map<int, Sat>, sys: System, orders: set<(int, Motion)>,
                                             es: seq<Event>)
    requires Traceable(start, sys, orders) && Proper(sys) && AnyRun(sys, es)
    ensures Traceable(start, EndOf(sys, es), orders + Orders(es))
    decreases es
  {
    hide Traceable, Proper, Next, CanHappen;
    if es == [] {
      assert orders + {} == orders;
    } else {
      StepStaysTraceable(start, sys, orders, es[0]);
      StepIsProper(sys, es[0]);
      RunStaysTraceable(start, Next(sys, es[0]), orders + OrderOf(es[0]), es[1..]);
      assert orders + OrderOf(es[0]) + Orders(es[1..]) == orders + Orders(es);
    }
  }

  /** Commands are neither invented nor misdirected: in every run, with losses, reordering, timers and
      failing sockets at will, a satellite's commanded motion is the one it started with or one the
      operator gave in this run for this satellite. */
  lemma {:induction false} MotionsComeFromOrders(sys: System, es: seq<Event>)
    requires Proper(sys) && sys.flight == [] && AnyRun(sys, es)
    ensures forall a <- EndOf(sys, es).sats ::
              a in sys.sats && (EndOf(sys, es).sats[a].motion == sys.sats[a].motion
                                || exists e <- es :: e.Order? && e.to == a && e.motion == EndOf(sys, es).sats[a].motion)
  {
    assert Traceable(sys.sats, sys, {});
    RunStaysTraceable(sys.sats, sys, {}, es);
    var end := EndOf(sys, es);
    forall a <- end.sats | (a, end.sats[a].motion) in Orders(es)
      ensures exists e <- es :: e.Order? && e.to == a && e.motion == end.sats[a].motion
    {
      OrderWasGiven(es, a, end.sats[a].motion);
    }
  }

  lemma {:induction false} OrderWasGiven(es: seq<Event>, a: int, motion: Motion)
    requires (a, motion) in Orders(es)
    ensures exists e <- es :: e.Order? && e.to == a && e.motion == motion
    decreases es
  {
    if (a, motion) in OrderOf(es[0]) {
      assert es[0] in es;
    } else {
      OrderWasGiven(es[1..], a, motion);
      var e :| e in es[1..] && e.Order? && e.to == a && e.motion == motion;
      assert e in es;
    }
  }
}
