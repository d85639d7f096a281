/** Who is acknowledged, and when a satellite's log is emptied for it. */
module Acknowledgements {
  import opened Config
  import opened Messages
  import opened GCConnectionHandlers
  import opened Receivers
  import opened ConnectionHandlers
  import opened Satellites
  import opened Constellations
  import opened Handshakes
  import opened Conducts

  const GROUND_ACK := Ack(Message.ACK_SIZE, 0, GC_PORT, true)
  const GROUND_GREETING := Heartbeat(Message.HEARTBEAT_SIZE, 0, GC_PORT, true)

  /** Ground control acknowledges every satellite message it survives, an ACK included, with exactly one
      ACK to its sender; a sender it did not know is first added and, if it can be dialled, greeted. */
  lemma {:induction false} EveryReportIsAcknowledged(sys: System, i: nat, w: Weather)
    requires Proper(sys) && Deliverable(sys, i) && sys.flight[i].to == 0 && 0 in Deliver(sys, i, w).up
    ensures var s := sys.flight[i].msg.senderId;
            var greeting := if s in sys.gc.conns || !w.gc.arrival.dial.Works() then []
              else [Packet(s, GROUND_GREETING)];
            Deliver(sys, i, w).flight == Without(sys.flight, i) + greeting + [Packet(s, GROUND_ACK)]
  {
    hide FileDump, Without;
    var p, rest := sys.flight[i], Without(sys.flight, i);
    assert ProperPacket(sys.sats, p);
    var s := p.msg.senderId;
    var met := Meet(sys.gc, GC_PORT, p.msg, w.gc);
    var hello := AddSends(sys.gc.conns, p.msg.senderPort, w.gc.ip, s, GC_PORT, w.gc.arrival);
    assert s in met.conns;
    assert SatSends(met.conns, s, Reply(GC_PORT)) == [Packet(s, GROUND_ACK)];
    assert hello == if s in sys.gc.conns || !w.gc.arrival.dial.Works() then [] else [Packet(s, GROUND_GREETING)];
    assert rest + (hello + [Packet(s, GROUND_ACK)]) == rest + hello + [Packet(s, GROUND_ACK)];
  }

  /** This event makes satellite a empty its log for an acknowledgement. */
  predicate Empties(sys: System, e: Event, a: int)
    requires CanHappen(sys, e)
  {
    && e.Delivery? && sys.flight[e.i].to == a && a in sys.sats && a != 0
    && sys.flight[e.i].msg.Ack? && sys.sats[a].waitingForAck
  }

  /** This event is a dump of satellite a that really goes out. */
  predicate Dumps(sys: System, e: Event, a: int) {
    e.Dump? && e.a == a && a in sys.sats && 0 in sys.sats[a].peers
  }

  ghost function EmptiedTimes(sys: System, es: seq<Event>, a: int): nat
    requires AnyRun(sys, es)
    decreases es
  {
    if es == [] then 0 else (if Empties(sys, es[0], a) then 1 else 0) + EmptiedTimes(Next(sys, es[0]), es[1..], a)
  }

  ghost function DumpTimes(sys: System, es: seq<Event>, a: int): nat
    requires AnyRun(sys, es)
    decreases es
  {
    if es == [] then 0 else (if Dumps(sys, es[0], a) then 1 else 0) + DumpTimes(Next(sys, es[0]), es[1..], a)
  }

  predicate Waits(sys: System, a: int) {
    a in sys.sats && sys.sats[a].waitingForAck
  }

  /** A delivery touches the waiting flag only by emptying the log, and the log only then. */
  lemma {:induction false} DeliveryAndWaiting(sys: System, i: nat, w: Weather, a: int)
    requires Deliverable(sys, i) && Proper(sys) && a in sys.sats
    ensures var sys' := Deliver(sys, i, w);
            && a in sys'.sats
            && (if Empties(sys, Delivery(i, w), a) then sys'.sats[a].log == [] && !sys'.sats[a].waitingForAck
                else sys'.sats[a].log == sys.sats[a].log && sys'.sats[a].waitingForAck == sys.sats[a].waitingForAck)
  {
    hide Listen, AddedPeer, HeardPeer, AddPeerSends, Without;
    assert ProperSat(a, sys.sats[a]);
  }

  /** What a satellite logs in an event. */
  function WrittenBy(e: Event, a: int): Bytes {
    if e.Written? && e.a == a then e.record else []
  }

  /** A log shrinks only when it is dumped or emptied for an ACK, and grows only by what is logged. */
  lemma {:induction false} StepAndWaiting(sys: System, e: Event, a: int)
    requires CanHappen(sys, e) && Proper(sys) && a in sys.sats
    ensures var sys' := Next(sys, e);
            && a in sys'.sats
            && (if Empties(sys, e, a) then sys'.sats[a].log == [] && !sys'.sats[a].waitingForAck
                else if Dumps(sys, e, a) then sys'.sats[a].log == [] && sys'.sats[a].waitingForAck
                else && sys'.sats[a].log == sys.sats[a].log + WrittenBy(e, a)
                     && sys'.sats[a].waitingForAck == sys.sats[a].waitingForAck)
  {
    hide Deliver, Pass, PeerPass, Proper, AddedPeer;
    if e.Delivery? {
      DeliveryAndWaiting(sys, e.i, e.w, a);
    }
  }

  /** A satellite empties its log at most once for each dump, however many ACKs arrive: in every run, the
      emptyings, and one more if it is still waiting, are no more than the dumps it sent, and one more if
      it was waiting at the start. */
  lemma {:induction false} OneEmptyingPerDump(sys: System, es: seq<Event>, a: int)
    requires Proper(sys) && AnyRun(sys, es) && a in sys.sats
    ensures a in EndOf(sys, es).sats
    ensures EmptiedTimes(sys, es, a) + (if Waits(EndOf(sys, es), a) then 1 else 0) <=
              DumpTimes(sys, es, a) + (if Waits(sys, a) then 1 else 0)
    decreases es
  {
    hide Proper, Next, CanHappen;
    if es != [] {
      StepIsProper(sys, es[0]);
      StepAndWaiting(sys, es[0], a);
      OneEmptyingPerDump(Next(sys, es[0]), es[1..], a);
    }
  }

  /** The ACK that empties the log need not be one for the dump: an ACK that was on its way before does as
      well, and takes with it every record written since the dump. */
  lemma {:induction false} StaleAckEmptiesLog(sys: System, a: int, garbage: nat -> Block, record: Bytes, i: nat,
                                              w: Weather)
    requires Proper(sys) && a in sys.sats && 0 in sys.sats[a].peers && Deliverable(sys, i)
    requires sys.flight[i].to == a && sys.flight[i].msg.Ack?
    ensures var dumped := Next(sys, Dump(a, garbage));
            var written := Next(dumped, Written(a, record));
            && written.sats[a].log == record && Deliverable(written, i)
            && var sys' := Deliver(written, i, w); a in sys'.sats && sys'.sats[a].log == []
  {
    hide DumpOf, DumpSends, Deliver;
    var dumped := Next(sys, Dump(a, garbage));
    var written := Next(dumped, Written(a, record));
    StepIsProper(sys, Dump(a, garbage));
    StepIsProper(dumped, Written(a, record));
    assert ProperSat(a, sys.sats[a]);
    assert [] + record == record;
    assert written.flight[i] == sys.flight[i];
    DeliveryAndWaiting(written, i, w, a);
  }
}
