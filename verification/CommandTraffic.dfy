/** The commands for a satellite on their way through the network, in any run of the constellation: what is
    ordered, what is lost, what is obeyed, and the motion that results. */
module CommandTraffics {
  import opened Config
  import opened Messages
  import opened GCConnectionHandlers
  import opened Receivers
  import opened ConnectionHandlers
  import opened Satellites
  import opened NetworkManagers
  import opened Constellations
  import opened Traffics
  import opened Handshakes
  import opened Conducts
  import opened Commands

  /** The command an order puts in flight to satellite a. */
  function OrderedBy(sys: System, e: Event, a: int): seq<Packet> {
    if e.Order? && e.to == a && a in sys.gc.conns && sys.gc.conns[a].Open()
    then [Packet(a, CommandMessage(GC_PORT, e.motion))] else []
  }

  /** The command satellite a takes over. */
  function ObeyedBy(sys: System, e: Event, a: int): seq<Packet>
    requires CanHappen(sys, e)
  {
    if e.Delivery? && CommandTo(a).Has(sys.flight[e.i]) && a in sys.sats
       && Accept(sys.sats[a], sys.flight[e.i].msg, e.w.sat).Accepted?
    then [sys.flight[e.i]] else []
  }

  /** One that the network loses or that nobody takes. */
  function LostBy(sys: System, e: Event, a: int): seq<Packet>
    requires CanHappen(sys, e)
  {
    if (e.Loss? || e.Delivery?) && CommandTo(a).Has(sys.flight[e.i]) && ObeyedBy(sys, e, a) == [] then [sys.flight[e.i]]
    else []
  }

  lemma {:induction false} DeliveryConserves(sys: System, i: nat, w: Weather, a: int)
    requires Proper(sys) && Deliverable(sys, i)
    ensures PacketsOf(sys.flight, CommandTo(a)) ==
              PacketsOf(Deliver(sys, i, w).flight, CommandTo(a)) + PacketOf(sys.flight[i], CommandTo(a))
  {
    hide Listen, Accept, Without, PacketsOf, FromGround, FromSat;
    var p, rest := sys.flight[i], Without(sys.flight, i);
    PacketsWithout(sys.flight, i, CommandTo(a));
    if p.to == 0 {
      var r := Listen(sys.gc, GC_PORT, p.msg, w.gc);
      if r.Listened? {
        ListenSendsNoCommands(sys.gc, p.msg, w.gc);
        NoneOf(r.sent, CommandTo(a));
        PacketsOfSum(rest, r.sent, CommandTo(a));
      }
    } else {
      var sat := sys.sats[p.to];
      var r := Accept(sat, p.msg, w.sat);
      if r.Accepted? {
        AcceptIsProper(sat, p.to, p.msg, w.sat);
        FromSatMeansNoCommands(r.sent, sat.id, sat.port);
        NoneOf(r.sent, CommandTo(a));
        PacketsOfSum(rest, r.sent, CommandTo(a));
      }
    }
  }

  /** What a satellite sends by itself are no commands. */
  lemma {:induction false} SatConserves(sys: System, e: Event, a: int)
    requires Proper(sys) && CanHappen(sys, e) && (e.SatPass? || e.Broadcast? || e.Dump?)
    ensures PacketsOf(Next(sys, e).flight, CommandTo(a)) == PacketsOf(sys.flight, CommandTo(a))
  {
    hide PeerPass, DumpSends, BroadcastSends, DumpOf, FromSat, PacketsOf;
    var sys', sat := Next(sys, e), sys.sats[e.a];
    assert ProperSat(e.a, sat);
    match e
    case SatPass(s, order, ticks) =>
      PeerPassIsProper(sat, s, order, ticks);
      FromSatMeansNoCommands(PeerPass(sat.peers, order, ticks).sent, sat.id, sat.port);
      OnlyOthers(sys, sys', PeerPass(sat.peers, order, ticks).sent, CommandTo(a));
    case Broadcast(s, order) =>
      var sent := BroadcastSends(sat.peers, order, HeartbeatFrom(sat.id, sat.port));
      BroadcastIsProper(sat, s, order);
      FromSatMeansNoCommands(sent, sat.id, sat.port);
      OnlyOthers(sys, sys', sent, CommandTo(a));
    case Dump(s, garbage) =>
      var ms := DumpOf(sat.id, sat.port, sat.log, garbage);
      DumpMessagesAreProper(sat, s, sat.log, garbage);
      DumpIsProper(sat, s, ms);
      FromSatMeansNoCommands(DumpSends(sat, ms), sat.id, sat.port);
      if 0 in sat.peers {
        OnlyOthers(sys, sys', DumpSends(sat, ms), CommandTo(a));
      }
  }

  lemma {:induction false} OrderConserves(sys: System, to: int, motion: Motion, a: int)
    ensures PacketsOf(sys.flight, CommandTo(a)) + multiset(OrderedBy(sys, Order(to, motion), a)) ==
              PacketsOf(Next(sys, Order(to, motion)).flight, CommandTo(a))
  {
    hide PacketsOf;
    OrderIsSent(sys, to, motion);
    var p := Packet(to, CommandMessage(GC_PORT, motion));
    PacketsOfSum(sys.flight, [p], CommandTo(a));
    PacketsOfOne(p, CommandTo(a));
    assert sys.flight + [] == sys.flight;
  }

  lemma {:induction false} StepConserves(sys: System, e: Event, a: int)
    requires Proper(sys) && CanHappen(sys, e)
    ensures PacketsOf(sys.flight, CommandTo(a)) + multiset(OrderedBy(sys, e, a)) ==
              PacketsOf(Next(sys, e).flight, CommandTo(a)) + multiset(ObeyedBy(sys, e, a)) + multiset(LostBy(sys, e, a))
  {
    hide Deliver, Pass, PeerPass, AddSends, AddPeerSends, SatSends, DumpSends, BroadcastSends, DumpOf, PacketsOf,
         Accept, Without, Proper, AddedPeer;
    var sys' := Next(sys, e);
    match e
    case Delivery(i, w) => DeliveryConserves(sys, i, w, a);
    case GroundPass(order, ticks) =>
      PassSendsNoCommands(sys.gc.conns, order, ticks);
      OnlyOthers(sys, sys', Pass(sys.gc.conns, order, ticks).sent, CommandTo(a));
    case SatPass(_, _, _) => SatConserves(sys, e, a);
    case Broadcast(_, _) => SatConserves(sys, e, a);
    case Dump(_, _) => SatConserves(sys, e, a);
    case Written(_, _) =>
    case Order(to, motion) => OrderConserves(sys, to, motion, a);
    case GroundMeets(id, port, ip, met) =>
      HelloIsOne(sys.gc.conns, port, ip, id, met);
      if !AddAborts(sys.gc.conns, port, ip, id, GC_PORT) {
        OnlyOthers(sys, sys', AddSends(sys.gc.conns, port, ip, id, GC_PORT, met), CommandTo(a));
      }
    case SatMeets(s, peer, port, ip, met) =>
      var sat := sys.sats[s];
      PeerHelloIsNoCommand(sat.peers, port, ip, peer, sat.id, sat.port, met);
      if !AddPeerAborts(port, ip, peer, sat.id) {
        OnlyOthers(sys, sys', AddPeerSends(sat.peers, port, ip, peer, sat.id, sat.port, met), CommandTo(a));
      }
    case Loss(i) => PacketsWithout(sys.flight, i, CommandTo(a));
  }

  /** The motion of a satellite changes by the command it obeys, and by nothing else. */
  lemma {:induction false} StepMoves(sys: System, e: Event, a: int)
    requires Proper(sys) && CanHappen(sys, e) && a in sys.sats
    ensures a in Next(sys, e).sats
    ensures Next(sys, e).sats[a].motion ==
              if ObeyedBy(sys, e, a) != [] then Commanded(ObeyedBy(sys, e, a)[0].msg) else sys.sats[a].motion
  {
    hide Pass, PeerPass, Listen, Without, AddSends, AddPeerSends, SatSends, DumpSends, BroadcastSends, DumpOf,
         AddedPeer, HeardPeer;
    assert ProperSat(a, sys.sats[a]);
    if e.Delivery? && sys.flight[e.i].to != 0 {
      SatelliteSurvives(sys, e.i, e.w);
    }
  }

  // ---------------------------------------------------------------- whole runs

  ghost function AllOrdered(sys: System, es: seq<Event>, a: int): seq<Packet>
    requires AnyRun(sys, es)
    decreases es
  {
    if es == [] then [] else OrderedBy(sys, es[0], a) + AllOrdered(Next(sys, es[0]), es[1..], a)
  }

  ghost function AllObeyed(sys: System, es: seq<Event>, a: int): seq<Packet>
    requires AnyRun(sys, es)
    ensures forall p <- AllObeyed(sys, es, a) :: p.msg.Command?
    decreases es
  {
    if es == [] then [] else ObeyedBy(sys, es[0], a) + AllObeyed(Next(sys, es[0]), es[1..], a)
  }

  ghost function AllLost(sys: System, es: seq<Event>, a: int): seq<Packet>
    requires AnyRun(sys, es)
    decreases es
  {
    if es == [] then [] else LostBy(sys, es[0], a) + AllLost(Next(sys, es[0]), es[1..], a)
  }

  /** In every run the commands in flight to a satellite and those ordered for it over an open connection are,
      each exactly as often, those it obeyed, those lost, and those still in flight. From a quiet start each
      command obeyed was ordered, and is obeyed at most once. */
  lemma {:induction false} CommandsAreConserved(sys: System, es: seq<Event>, a: int)
    requires Proper(sys) && AnyRun(sys, es)
    ensures PacketsOf(sys.flight, CommandTo(a)) + multiset(AllOrdered(sys, es, a)) ==
              multiset(AllObeyed(sys, es, a)) + multiset(AllLost(sys, es, a))
              + PacketsOf(EndOf(sys, es).flight, CommandTo(a))
    ensures sys.flight == [] ==> multiset(AllObeyed(sys, es, a)) <= multiset(AllOrdered(sys, es, a))
    decreases es
  {
    hide Proper, Next, CanHappen, OrderedBy, ObeyedBy, LostBy, PacketsOf;
    if es != [] {
      var e, sys', rest := es[0], Next(sys, es[0]), es[1..];
      StepConserves(sys, e, a);
      StepIsProper(sys, e);
      CommandsAreConserved(sys', rest, a);
      var d, r, l := multiset(OrderedBy(sys, e, a)), multiset(ObeyedBy(sys, e, a)), multiset(LostBy(sys, e, a));
      var ds, rs := multiset(AllOrdered(sys', rest, a)), multiset(AllObeyed(sys', rest, a));
      var ls := multiset(AllLost(sys', rest, a));
      Add(PacketsOf(sys.flight, CommandTo(a)), d, PacketsOf(sys'.flight, CommandTo(a)), r, l, ds, rs, ls,
          PacketsOf(EndOf(sys', rest).flight, CommandTo(a)));
      assert multiset(AllOrdered(sys, es, a)) == d + ds && multiset(AllObeyed(sys, es, a)) == r + rs;
      assert multiset(AllLost(sys, es, a)) == l + ls;
    }
    NoneOf([], CommandTo(a));
    if sys.flight == [] {
      Part(multiset(AllOrdered(sys, es, a)), multiset(AllObeyed(sys, es, a)),
           multiset(AllLost(sys, es, a)) + PacketsOf(EndOf(sys, es).flight, CommandTo(a)));
    }
  }

  /** In every run a satellite moves as the last command it obeyed says, or as at the start if there was
      none. */
  lemma {:induction false} LastCommandMoves(sys: System, es: seq<Event>, a: int)
    requires Proper(sys) && AnyRun(sys, es) && a in sys.sats
    ensures a in EndOf(sys, es).sats
    ensures var obeyed := AllObeyed(sys, es, a);
            EndOf(sys, es).sats[a].motion ==
              if obeyed == [] then sys.sats[a].motion else Commanded(obeyed[|obeyed| - 1].msg)
    decreases es
  {
    hide Proper, Next, CanHappen, ObeyedBy;
    if es != [] {
      StepMoves(sys, es[0], a);
      StepIsProper(sys, es[0]);
      LastCommandMoves(Next(sys, es[0]), es[1..], a);
      AtMostOneObeyed(sys, es[0], a);
    }
  }

  lemma {:induction false} AtMostOneObeyed(sys: System, e: Event, a: int)
    requires CanHappen(sys, e)
    ensures |ObeyedBy(sys, e, a)| <= 1 && forall p <- ObeyedBy(sys, e, a) :: p.msg.Command?
  {
  }
}
