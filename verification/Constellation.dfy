/** Ground control, any number of satellites, and the messages between them: deliveries only. */
module Constellations {
  import opened Config
  import opened Messages
  import opened GCConnectionHandlers
  import opened Receivers
  import opened ConnectionHandlers
  import opened NetworkManagers

  /** up holds the processes that have not failed an assertion; ground control is node 0. The order of
      flight means nothing: any message in it may be the next to arrive. */
  datatype System = System(up: set<int>, gc: Gc, sats: map<int, Sat>, flight: seq<Packet>)
  {
    function Nodes(): set<int> { {0} + sats.Keys }

    /** The peers a node has an entry for. */
    function Known(a: int): set<int> {
      if a == 0 then gc.conns.Keys else if a in sats then sats[a].peers.Keys else {}
    }
  }

  /** What the receiving node reads from its surroundings. */
  datatype Weather = Weather(gc: Surroundings, sat: SatSurroundings)

  function Without(flight: seq<Packet>, i: nat): seq<Packet>
    requires i < |flight|
  {
    flight[..i] + flight[i + 1..]
  }

  predicate Deliverable(sys: System, i: nat) {
    i < |sys.flight| && sys.flight[i].to in sys.up && sys.flight[i].to in sys.Nodes() && Acceptable(sys.flight[i].msg)
  }

  /** The i-th message arrives and its receiver handles it. */
  function Deliver(sys: System, i: nat, w: Weather): System
    requires Deliverable(sys, i)
  {
    var p, rest := sys.flight[i], Without(sys.flight, i);
    if p.to == 0 then
      match Listen(sys.gc, GC_PORT, p.msg, w.gc)
      case Listened(gc, sent) => sys.(gc := gc, flight := rest + sent)
      case Crashed => sys.(up := sys.up - {0}, flight := rest)
    else
      match Accept(sys.sats[p.to], p.msg, w.sat)
      case Accepted(sat, sent) => sys.(sats := sys.sats[p.to := sat], flight := rest + sent)
      case SatCrashed => sys.(up := sys.up - {p.to}, flight := rest)
  }

  /** Only nodes of the constellation send, and each under its own id. */
  ghost predicate WellFormed(sys: System) {
    && (forall a <- sys.sats :: a > 0 && sys.sats[a].id as int == a)
    && (forall p <- sys.flight :: p.msg.senderId as int in sys.Nodes())
  }

  // ---------------------------------------------------------------- the measure

  /** A message to ground control may cause one reply and one greeting to a satellite; a command one
      answer to ground control; a message from a stranger costs an unknown pair. */
  function Weight(p: Packet): nat {
    if p.to == 0 then 2 else if p.msg.Command? then 3 else 1
  }

  function TotalWeight(ps: seq<Packet>): nat {
    if ps == [] then 0 else TotalWeight(ps[..|ps| - 1]) + Weight(ps[|ps| - 1])
  }

  /** The ordered pairs of nodes the first of which does not know the second. */
  function Strangers(sys: System): set<(int, int)> {
    set a <- sys.Nodes(), b <- sys.Nodes() | b !in sys.Known(a) :: (a, b)
  }

  function Measure(sys: System): nat {
    TotalWeight(sys.flight) + 2 * |Strangers(sys)|
  }

  lemma {:induction false} TotalWeightOfSum(a: seq<Packet>, b: seq<Packet>)
    ensures TotalWeight(a + b) == TotalWeight(a) + TotalWeight(b)
    decreases |b|
  {
    if b == [] {
      assert a + b == a;
    } else {
      TotalWeightOfSum(a, b[..|b| - 1]);
      assert (a + b)[..|a + b| - 1] == a + b[..|b| - 1];
    }
  }

  lemma {:induction false} WeightOfOne(p: Packet)
    ensures TotalWeight([p]) == Weight(p)
  {
    assert [p][..0] == [];
  }

  lemma {:induction false} TotalWeightWithout(flight: seq<Packet>, i: nat)
    requires i < |flight|
    ensures TotalWeight(flight) == TotalWeight(Without(flight, i)) + Weight(flight[i])
  {
    TotalWeightOfSum(flight[..i], flight[i..]);
    TotalWeightOfSum([flight[i]], flight[i + 1..]);
    WeightOfOne(flight[i]);
    assert flight == flight[..i] + flight[i..] && flight[i..] == [flight[i]] + flight[i + 1..];
    TotalWeightOfSum(flight[..i], flight[i + 1..]);
  }

  /** At most one packet, which is addressed to a given node and is no command. */
  predicate AtMostOneTo(ps: seq<Packet>, to: int) {
    |ps| <= 1 && forall p <- ps :: p.to == to && !p.msg.Command?
  }

  lemma {:induction false} WeightOfAtMostOne(ps: seq<Packet>, to: int)
    requires AtMostOneTo(ps, to)
    ensures TotalWeight(ps) <= |ps| * (if to == 0 then 2 else 1)
  {
    if ps != [] {
      assert ps == [ps[0]];
      WeightOfOne(ps[0]);
    }
  }

  lemma {:induction false} HelloIsOne(conns: Conns, port: int32, ip: string, id: int32, a: Arrival)
    ensures var hello := AddSends(conns, port, ip, id, GC_PORT, a);
            AtMostOneTo(hello, id) && (id in conns ==> hello == []) && forall p <- hello :: p.msg.senderId == 0
  {
  }

  lemma {:induction false} MeetKnows(gc: Gc, m: Message, s: Surroundings)
    ensures Meet(gc, GC_PORT, m, s).conns.Keys == gc.conns.Keys + {m.senderId as int}
  {
  }

  /** What ground control sends on a message from s: at most a greeting, if s was unknown, and a reply. */
  lemma {:induction false} ListenSendsLittle(gc: Gc, m: Message, s: Surroundings)
    requires Acceptable(m) && Listen(gc, GC_PORT, m, s).Listened?
    ensures var r := Listen(gc, GC_PORT, m, s);
            && r.gc.conns.Keys == gc.conns.Keys + {m.senderId as int} && m.senderId > 0
            && TotalWeight(r.sent) <= (if m.senderId in gc.conns then 1 else 2)
            && forall p <- r.sent :: p.msg.senderId == 0
  {
    hide FileDump, Meet, AddSends, TotalWeight;
    var id := m.senderId;
    var hello := AddSends(gc.conns, m.senderPort, s.ip, id, GC_PORT, s.arrival);
    var met := Meet(gc, GC_PORT, m, s);
    FileDumpPushes(met, m);
    MeetKnows(gc, m, s);
    HelloIsOne(gc.conns, m.senderPort, s.ip, id, s.arrival);
    WeightOfAtMostOne(hello, id);
    if Handled(m) {
      var reply := SatSends(met.conns, id, Reply(GC_PORT));
      WeightOfAtMostOne(reply, id);
      TotalWeightOfSum(hello, reply);
    }
  }

  /** What a satellite sends: an answer to a command if it knows ground control, and a greeting to a
      stranger; never both. */
  lemma {:induction false} AcceptSendsLittle(sat: Sat, m: Message, s: SatSurroundings)
    requires Accept(sat, m, s).Accepted?
    ensures var r := Accept(sat, m, s);
            && r.sat.peers.Keys == sat.peers.Keys + {m.senderId as int} && r.sat.id == sat.id
            && TotalWeight(r.sent) <= (if m.senderId in sat.peers then (if m.Command? then 2 else 0) else 2)
            && forall p <- r.sent :: p.msg.senderId == sat.id
  {
    hide Processed, Answer, AddPeerSends, TotalWeight, AddedPeer, HeardPeer;
    ProcessedKeepsPeers(sat, m);
    GreetedKnows(Processed(sat, m), m, s);
    var answer := Answer(sat, m);
    var hello := AddPeerSends(sat.peers, m.senderPort, s.ip, m.senderId, sat.id, sat.port, s.arrival);
    AnswerIsOne(sat, m);
    PeerHelloIsOne(sat, m, s);
    WeightOfAtMostOne(answer, 0);
    WeightOfAtMostOne(hello, m.senderId);
    TotalWeightOfSum(answer, hello);
  }

  lemma {:induction false} GreetedKnows(sat: Sat, m: Message, s: SatSurroundings)
    ensures Greeted(sat, m, s).peers.Keys == sat.peers.Keys + {m.senderId as int}
  {
  }

  lemma {:induction false} AnswerIsOne(sat: Sat, m: Message)
    requires !CommandAborts(sat, m)
    ensures AtMostOneTo(Answer(sat, m), 0) && (Answer(sat, m) != [] ==> m.Command? && 0 in sat.peers && m.senderId == 0)
    ensures forall p <- Answer(sat, m) :: p.msg.senderId == sat.id
  {
  }

  lemma {:induction false} PeerHelloIsOne(sat: Sat, m: Message, s: SatSurroundings)
    ensures var hello := AddPeerSends(sat.peers, m.senderPort, s.ip, m.senderId, sat.id, sat.port, s.arrival);
            && AtMostOneTo(hello, m.senderId) && (m.senderId in sat.peers ==> hello == [])
            && forall p <- hello :: p.msg.senderId == sat.id
  {
  }

  lemma {:induction false} ProcessedKeepsPeers(sat: Sat, m: Message)
    ensures Processed(sat, m).peers == sat.peers && Processed(sat, m).id == sat.id && Processed(sat, m).port == sat.port
  {
  }

  /** When node n has come to know s, the pair (n, s) is no longer strange, and no other pair changed. */
  lemma {:induction false} StrangersShrink(sys: System, sys': System, n: int, s: int)
    requires sys'.Nodes() == sys.Nodes() && n in sys.Nodes() && s in sys.Nodes()
    requires sys'.Known(n) == sys.Known(n) + {s}
    requires forall a <- sys.Nodes() :: a != n ==> sys'.Known(a) == sys.Known(a)
    ensures |Strangers(sys')| == |Strangers(sys)| - (if s in sys.Known(n) then 0 else 1)
  {
    assert Strangers(sys') == Strangers(sys) - {(n, s)};
  }

  lemma {:induction false} GroundDeliveryDecreases(sys: System, i: nat, w: Weather)
    requires WellFormed(sys) && Deliverable(sys, i) && sys.flight[i].to == 0
    ensures Measure(Deliver(sys, i, w)) < Measure(sys)
  {
    hide Listen, Accept, Strangers, TotalWeight;
    var p, rest, sys' := sys.flight[i], Without(sys.flight, i), Deliver(sys, i, w);
    TotalWeightWithout(sys.flight, i);
    var r := Listen(sys.gc, GC_PORT, p.msg, w.gc);
    if r.Listened? {
      ListenSendsLittle(sys.gc, p.msg, w.gc);
      TotalWeightOfSum(rest, r.sent);
      assert sys'.Nodes() == sys.Nodes();
      StrangersShrink(sys, sys', 0, p.msg.senderId);
    } else {
      SameStrangers(sys, sys');
    }
  }

  lemma {:induction false} DeliveryKeepsForm(sys: System, i: nat, w: Weather)
    requires WellFormed(sys) && Deliverable(sys, i)
    ensures WellFormed(Deliver(sys, i, w)) && Deliver(sys, i, w).Nodes() == sys.Nodes()
  {
    hide Listen, Accept, TotalWeight;
    var p, sys' := sys.flight[i], Deliver(sys, i, w);
    assert p in sys.flight;
    if p.to == 0 {
      if Listen(sys.gc, GC_PORT, p.msg, w.gc).Listened? {
        ListenSendsLittle(sys.gc, p.msg, w.gc);
      }
    } else if Accept(sys.sats[p.to], p.msg, w.sat).Accepted? {
      AcceptSendsLittle(sys.sats[p.to], p.msg, w.sat);
    }
    assert sys'.Nodes() == sys.Nodes();
    forall q <- Without(sys.flight, i) ensures q in sys.flight {
    }
  }

  lemma {:induction false} SameStrangers(sys: System, sys': System)
    requires sys'.gc == sys.gc && sys'.sats == sys.sats
    ensures Strangers(sys') == Strangers(sys)
  {
  }

  lemma {:induction false} SatelliteDeliveryDecreases(sys: System, i: nat, w: Weather)
    requires WellFormed(sys) && Deliverable(sys, i) && sys.flight[i].to != 0
    ensures Measure(Deliver(sys, i, w)) < Measure(sys)
  {
    hide Listen, Accept, Strangers, TotalWeight;
    var p, rest, sys' := sys.flight[i], Without(sys.flight, i), Deliver(sys, i, w);
    TotalWeightWithout(sys.flight, i);
    var r := Accept(sys.sats[p.to], p.msg, w.sat);
    if r.Accepted? {
      AcceptSendsLittle(sys.sats[p.to], p.msg, w.sat);
      TotalWeightOfSum(rest, r.sent);
      assert sys'.Nodes() == sys.Nodes();
      StrangersShrink(sys, sys', p.to, p.msg.senderId);
    } else {
      SameStrangers(sys, sys');
    }
  }

  // ---------------------------------------------------------------- cascades

  /** A message arrives, or the network loses it. */
  datatype Move = Arrive(i: nat, w: Weather) | Lose(i: nat)

  predicate Possible(sys: System, mv: Move) {
    match mv
    case Arrive(i, _) => Deliverable(sys, i)
    case Lose(i) => i < |sys.flight|
  }

  function Moved(sys: System, mv: Move): System
    requires Possible(sys, mv)
  {
    match mv
    case Arrive(i, w) => Deliver(sys, i, w)
    case Lose(i) => sys.(flight := Without(sys.flight, i))
  }

  predicate Cascade(sys: System, mvs: seq<Move>)
    decreases mvs
  {
    mvs == [] || (Possible(sys, mvs[0]) && Cascade(Moved(sys, mvs[0]), mvs[1..]))
  }

  function After(sys: System, mvs: seq<Move>): System
    requires Cascade(sys, mvs)
    decreases mvs
  {
    if mvs == [] then sys else After(Moved(sys, mvs[0]), mvs[1..])
  }

  lemma {:induction false} MoveDecreases(sys: System, mv: Move)
    requires WellFormed(sys) && Possible(sys, mv)
    ensures Measure(Moved(sys, mv)) < Measure(sys) && WellFormed(Moved(sys, mv))
  {
    hide Deliver;
    match mv
    case Arrive(i, w) =>
      DeliveryKeepsForm(sys, i, w);
      if sys.flight[i].to == 0 {
        GroundDeliveryDecreases(sys, i, w);
      } else {
        SatelliteDeliveryDecreases(sys, i, w);
      }
    case Lose(i) =>
      TotalWeightWithout(sys.flight, i);
      SameStrangers(sys, Moved(sys, mv));
  }

  /** Cascades terminate: from any state, with any number of satellites and any messages in flight, every
      delivery and every loss lowers the measure, so no sequence of them is longer than the measure of the
      state it starts from. */
  lemma {:induction false} CascadesTerminate(sys: System, mvs: seq<Move>)
    requires WellFormed(sys) && Cascade(sys, mvs)
    ensures |mvs| + Measure(After(sys, mvs)) <= Measure(sys)
    decreases mvs
  {
    hide Measure, Moved, WellFormed;
    if mvs != [] {
      MoveDecreases(sys, mvs[0]);
      CascadesTerminate(Moved(sys, mvs[0]), mvs[1..]);
    }
  }
}
