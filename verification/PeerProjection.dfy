/** One peer of one satellite in a run of the constellation: what is proved of a peer by itself holds in
    every run. */
module PeerProjections {
  import opened Messages
  import opened Receivers
  import opened PeerConnections
  import opened ConnectionHandlers
  import opened NetworkManagers
  import opened Constellations
  import opened Handshakes
  import opened Conducts

  /** What an event is for the connection of satellite a to peer b. */
  function Touch(sys: System, e: Event, a: int, b: int): seq<PeerEvent>
    requires CanHappen(sys, e)
  {
    match e
    case Delivery(i, w) =>
      if sys.flight[i].to == a && sys.flight[i].msg.senderId == b then [Contact(w.sat.beat)] else []
    case SatPass(s, _, ticks) => if s == a && b in ticks then [Visit(ticks[b])] else []
    case _ => []
  }

  ghost function Touches(sys: System, es: seq<Event>, a: int, b: int): seq<PeerEvent>
    requires AnyRun(sys, es)
    decreases es
  {
    if es == [] then [] else Touch(sys, es[0], a, b) + Touches(Next(sys, es[0]), es[1..], a, b)
  }

  lemma {:induction false} OneTouch(c: Peer, e: PeerEvent)
    ensures PeerConnections.Run(c, []) == c && PeerConnections.Run(c, [e]) == Step(c, e)
  {
    assert [e][..0] == [];
    assert PeerConnections.Run(c, [e][..0]) == c;
  }

  lemma {:induction false} DeliveryProjects(sys: System, i: nat, w: Weather, a: int, b: int)
    requires Proper(sys) && Deliverable(sys, i) && a in sys.sats && b in sys.sats[a].peers
    ensures a in Deliver(sys, i, w).sats && b in Deliver(sys, i, w).sats[a].peers
    ensures Deliver(sys, i, w).sats[a].peers[b] ==
              if sys.flight[i].to == a && sys.flight[i].msg.senderId == b
              then Step(sys.sats[a].peers[b], Contact(w.sat.beat)) else sys.sats[a].peers[b]
  {
    hide Listen, Without, AddPeerSends, Answer;
    assert ProperSat(a, sys.sats[a]);
    assert ProperPacket(sys.sats, sys.flight[i]);
    if sys.flight[i].to == a {
      ProcessedKeepsPeers(sys.sats[a], sys.flight[i].msg);
    }
  }

  lemma {:induction false} StepProjects(sys: System, e: Event, a: int, b: int)
    requires Proper(sys) && CanHappen(sys, e) && a in sys.sats && b in sys.sats[a].peers
    ensures a in Next(sys, e).sats && b in Next(sys, e).sats[a].peers
    ensures Next(sys, e).sats[a].peers[b] == PeerConnections.Run(sys.sats[a].peers[b], Touch(sys, e, a, b))
  {
    hide Deliver, PeerPass, PeerConnections.Run, Step, UpdatePeer, Proper, AddPeerSends;
    var p := sys.sats[a].peers[b];
    OneTouch(p, Contact(0));
    match e
    case Delivery(i, w) =>
      DeliveryProjects(sys, i, w, a, b);
      OneTouch(p, Contact(w.sat.beat));
    case SatPass(s, order, ticks) =>
      if s == a {
        PeerPassEntries(sys.sats[a].peers, order, ticks);
        OneTouch(p, Visit(ticks[b]));
        VisitIsUpdate(p, ticks[b]);
      }
    case GroundPass(_, _) =>
    case Broadcast(_, _) =>
    case Dump(_, _) =>
    case Written(_, _) =>
    case Order(_, _) =>
    case GroundMeets(_, _, _, _) =>
    case SatMeets(_, _, _, _, _) =>
    case Loss(_) =>
  }

  lemma {:induction false} VisitIsUpdate(p: Peer, tick: PeerTick)
    ensures Step(p, Visit(tick)) == UpdatePeer(p, tick)
  {
  }

  /** A satellite's connection to a peer in a run is the connection alone under the events that touch it. */
  lemma {:induction false} RunProjects(sys: System, es: seq<Event>, a: int, b: int)
    requires Proper(sys) && AnyRun(sys, es) && a in sys.sats && b in sys.sats[a].peers
    ensures a in EndOf(sys, es).sats && b in EndOf(sys, es).sats[a].peers
    ensures EndOf(sys, es).sats[a].peers[b] == PeerConnections.Run(sys.sats[a].peers[b], Touches(sys, es, a, b))
    decreases es
  {
    hide Proper, Next, CanHappen, Touch, PeerConnections.Run;
    if es == [] {
      OneTouch(sys.sats[a].peers[b], Contact(0));
    } else {
      StepProjects(sys, es[0], a, b);
      StepIsProper(sys, es[0]);
      RunProjects(Next(sys, es[0]), es[1..], a, b);
      RunTwice(sys.sats[a].peers[b], Touch(sys, es[0], a, b), Touches(Next(sys, es[0]), es[1..], a, b));
    }
  }

  // ---------------------------------------------------------------- the peer's laws, in every run

  /** In a run in which a satellite hears nothing from a peer, it makes at most ten attempts to reach it, and
      its retry counter is the number of passes that found one due. */
  lemma {:induction false} RetriesInRun(sys: System, es: seq<Event>, a: int, b: int)
    requires Proper(sys) && AnyRun(sys, es) && a in sys.sats && b in sys.sats[a].peers
    requires forall i :: 0 <= i < |Touches(sys, es, a, b)| ==> Touches(sys, es, a, b)[i].Visit?
    ensures a in EndOf(sys, es).sats && b in EndOf(sys, es).sats[a].peers
    ensures var p, ts := sys.sats[a].peers[b], Touches(sys, es, a, b);
            && |DialTimes(p, ts)| <= 10
            && EndOf(sys, es).sats[a].peers[b].retryCounter == p.retryCounter + DueVisits(p, ts)
  {
    hide Proper, AnyRun, EndOf, Touches, PeerConnections.Run, DialTimes, DueVisits;
    RunProjects(sys, es, a, b);
    AtMostTenAttempts(sys.sats[a].peers[b], Touches(sys, es, a, b));
    CounterCountsDueVisits(sys.sats[a].peers[b], Touches(sys, es, a, b));
  }

  /** In every run a satellite's socket to a peer is closed exactly if it was at the start, or by a timeout,
      or by an attempt that got no descriptor, and no attempt has been made since; it is then a connected
      peer's exactly if the peer has been heard since. */
  lemma {:induction false} PeerSocketsAreClosedExactly(sys: System, es: seq<Event>, a: int, b: int)
    requires Proper(sys) && AnyRun(sys, es) && a in sys.sats && b in sys.sats[a].peers
    ensures a in EndOf(sys, es).sats && b in EndOf(sys, es).sats[a].peers
    ensures var p, p', ts := sys.sats[a].peers[b], EndOf(sys, es).sats[a].peers[b], Touches(sys, es, a, b);
            && (!p'.Open() <==>
                  (!p.Open() && NeverRedials(p, ts)) || exists i :: 0 <= i < |ts| && LastClosed(p, ts, i))
            && forall i :: 0 <= i < |ts| && LastClosed(p, ts, i) ==> (p'.state == UP <==> HeardAfter(ts, i))
  {
    hide Proper, AnyRun, EndOf, Touches, PeerConnections.Run, NeverRedials, LastClosed, HeardAfter;
    RunProjects(sys, es, a, b);
    SocketIsClosedExactly(sys.sats[a].peers[b], Touches(sys, es, a, b));
  }

  /** A connected peer with a closed socket that is heard within 20 seconds of every pass is sent nothing for
      the whole run: no heartbeat, and if it is ground control no dump and no answer. */
  lemma {:induction false} MuteForTheRun(sys: System, es: seq<Event>, a: int, b: int, m: Message)
    requires Proper(sys) && AnyRun(sys, es) && a in sys.sats && b in sys.sats[a].peers
    requires var p := sys.sats[a].peers[b]; p.state == UP && !p.Open() && p.retryCounter == 0
    requires Regular(sys.sats[a].peers[b], Touches(sys, es, a, b))
    ensures a in EndOf(sys, es).sats && b in EndOf(sys, es).sats[a].peers
    ensures EndOf(sys, es).sats[a].peers[b].state == UP
    ensures PeerSends(EndOf(sys, es).sats[a].peers, b, m) == []
    ensures DialTimes(sys.sats[a].peers[b], Touches(sys, es, a, b)) == []
  {
    hide Proper, AnyRun, EndOf, Touches, PeerConnections.Run, DialTimes, Regular;
    RunProjects(sys, es, a, b);
    NoFalseSuspicion(sys.sats[a].peers[b], Touches(sys, es, a, b));
  }
}
