/** All peer connections of one satellite. */
module ConnectionHandlers {
  import opened Messages
  import opened Connections
  import opened PeerConnections

  type Peers = map<int, Peer>

  /** The clock reads addConnection makes, in order, and connect's answers. */
  datatype PeerArrival = PeerArrival(beat: nat, reconnect: nat, heard: nat, dialled: nat, dial: Dial)

  /** A new peer is dialled and then marked connected, whether the dial worked or not. */
  function AddedPeer(peers: Peers, port: int32, ip: string, peerId: int32, satId: int32, listening: int32,
                     a: PeerArrival): Peers {
    if peerId in peers then peers
    else peers[peerId := NewPeer(peerId, ip, port, satId, listening, a.beat, a.reconnect)
                           .Beat(a.heard).Connect(a.dial, a.dialled).MarkConnected()]
  }

  /** The assertions of addConnection. */
  predicate AddPeerAborts(port: int32, ip: string, peerId: int32, satId: int32) {
    port < 0 || ip == "" || peerId < 0 || satId <= 0
  }

  function AddPeerSends(peers: Peers, port: int32, ip: string, peerId: int32, satId: int32, listening: int32,
                        a: PeerArrival): seq<Packet> {
    if peerId in peers then []
    else AddressAll(peerId, NewPeer(peerId, ip, port, satId, listening, a.beat, a.reconnect).Greeting(a.dial))
  }

  /** A new peer can be sent to at once, exactly if its socket could be opened. */
  lemma {:induction false} NewPeerCanBeSentTo(peers: Peers, port: int32, ip: string, peerId: int32, satId: int32,
                                              listening: int32, a: PeerArrival, m: Message)
    requires peerId !in peers
    ensures var peers' := AddedPeer(peers, port, ip, peerId, satId, listening, a);
            && PeerSends(peers', peerId, m) == (if a.dial.fd >= 0 then [Packet(peerId, m)] else [])
            && forall other <- peers :: other in peers' && peers'[other] == peers[other]
  {
    var peers' := AddedPeer(peers, port, ip, peerId, satId, listening, a);
    assert |PeerSends(peers', peerId, m)| == if a.dial.fd >= 0 then 1 else 0;
  }

  /** A new peer is the one that was given, and counts as heard when connect noted the time, or when it was
      added if there was no socket: a pass leaves it connected exactly until 20 seconds later. */
  lemma {:induction false} NewPeerStaysConnected(peers: Peers, port: int32, ip: string, peerId: int32, satId: int32,
                                                 listening: int32, a: PeerArrival, tick: PeerTick)
    requires peerId !in peers && a.heard <= a.dialled
    ensures var p := AddedPeer(peers, port, ip, peerId, satId, listening, a)[peerId];
            && p.peerId == peerId && p.port == port && p.ip == ip && p.satId == satId && p.listeningPort == listening
            && p.lastReconnect == a.reconnect && p.retryCounter == 0
            && (UpdatePeer(p, tick).state == UP <==>
                  tick.first <= (if a.dial.fd >= 0 then a.dialled else a.heard) + 20)
    ensures AddPeerSends(peers, port, ip, peerId, satId, listening, a) ==
              if a.dial.fd >= 0 && a.dial.resolved
              then [Packet(peerId, Heartbeat(Message.HEARTBEAT_SIZE, satId, listening, true))] else []
  {
  }

  function HeardPeer(peers: Peers, id: int, now: nat): Peers {
    if id in peers then peers[id := peers[id].Beat(now).MarkConnected()] else peers
  }

  /** Only a connected peer is sent to; an unknown one is logged and skipped. */
  function PeerSends(peers: Peers, id: int, m: Message): seq<Packet> {
    if id in peers && peers[id].state == UP then AddressAll(id, peers[id].Sends(m)) else []
  }

  /** A broadcast goes to every connected peer except ground control. */
  function BroadcastSends(peers: Peers, order: seq<int>, m: Message): seq<Packet> {
    if order == [] then []
    else
      var id := order[|order| - 1];
      BroadcastSends(peers, order[..|order| - 1], m) + (if id != 0 then PeerSends(peers, id, m) else [])
  }

  lemma {:induction false} BroadcastNothing(peers: Peers, m: Message)
    ensures BroadcastSends(peers, [], m) == []
  {
  }

  lemma {:induction false} BroadcastSnoc(peers: Peers, order: seq<int>, id: int, m: Message)
    ensures BroadcastSends(peers, order + [id], m) ==
              BroadcastSends(peers, order, m) + (if id != 0 then PeerSends(peers, id, m) else [])
  {
    assert (order + [id])[..|order|] == order;
  }

  /** A peer that can be sent to. */
  predicate Reachable(peers: Peers, id: int) {
    id in peers && peers[id].state == UP && peers[id].Open()
  }

  /** A peer a broadcast reaches. */
  predicate Reached(peers: Peers, id: int) { id != 0 && Reachable(peers, id) }

  lemma {:induction false} PeerSendsOne(peers: Peers, id: int, m: Message)
    ensures PeerSends(peers, id, m) == if Reachable(peers, id) then [Packet(id, m)] else []
  {
    assert id in peers && peers[id].Open() ==> AddressAll(id, peers[id].Sends(m)) == [Packet(id, m)];
  }

  lemma {:induction false} BroadcastCounts(peers: Peers, order: seq<int>, m: Message)
    requires forall i, j :: 0 <= i < j < |order| ==> order[i] != order[j]
    ensures forall p: Packet :: multiset(BroadcastSends(peers, order, m))[p] ==
              if p.msg == m && p.to in order && Reached(peers, p.to) then 1 else 0
  {
    hide PeerSends, Reachable;
    if order != [] {
      var init, id := order[..|order| - 1], order[|order| - 1];
      assert order == init + [id] && id !in init;
      BroadcastCounts(peers, init, m);
      PeerSendsOne(peers, id, m);
      var more := if id != 0 then PeerSends(peers, id, m) else [];
      assert BroadcastSends(peers, order, m) == BroadcastSends(peers, init, m) + more;
      assert forall p: Packet :: multiset(more)[p] == if p == Packet(id, m) && Reached(peers, id) then 1 else 0;
    }
  }

  /** A broadcast reaches each connected peer with an open socket but ground control exactly once, and
      nobody else, in whatever order the peers are visited. */
  lemma {:induction false} BroadcastReachesEach(peers: Peers, order: seq<int>, m: Message)
    requires VisitsPeers(order, peers)
    ensures forall p: Packet :: multiset(BroadcastSends(peers, order, m))[p] ==
              if p.msg == m && Reached(peers, p.to) then 1 else 0
  {
    BroadcastCounts(peers, order, m);
  }

  datatype PeerPassResult = PeerPassResult(peers: Peers, sent: seq<Packet>)

  function PeerPass(peers: Peers, order: seq<int>, ticks: map<int, PeerTick>): PeerPassResult
    requires forall id <- order :: id in peers && id in ticks
    ensures PeerPass(peers, order, ticks).peers.Keys == peers.Keys
  {
    if order == [] then PeerPassResult(peers, [])
    else
      var p, id := PeerPass(peers, order[..|order| - 1], ticks), order[|order| - 1];
      PeerPassResult(p.peers[id := UpdatePeer(p.peers[id], ticks[id])],
                     p.sent + AddressAll(id, UpdateSends(p.peers[id], ticks[id])))
  }

  lemma {:induction false} PeerPassNothing(peers: Peers, ticks: map<int, PeerTick>)
    ensures PeerPass(peers, [], ticks) == PeerPassResult(peers, [])
  {
  }

  lemma {:induction false} PeerPassSnoc(peers: Peers, order: seq<int>, id: int, ticks: map<int, PeerTick>)
    requires id in peers && id in ticks && forall i <- order :: i in peers && i in ticks
    ensures forall i <- order + [id] :: i in peers && i in ticks
    ensures var p := PeerPass(peers, order, ticks);
            PeerPass(peers, order + [id], ticks) ==
              PeerPassResult(p.peers[id := UpdatePeer(p.peers[id], ticks[id])],
                             p.sent + AddressAll(id, UpdateSends(p.peers[id], ticks[id])))
  {
    assert (order + [id])[..|order|] == order;
  }

  /** order lists every peer once. */
  predicate VisitsPeers(order: seq<int>, peers: Peers) {
    && (forall i, j :: 0 <= i < j < |order| ==> order[i] != order[j])
    && (forall id <- order :: id in peers) && (forall id <- peers :: id in order)
  }

  /** An update pass is the same independent step for every peer, whatever the iteration order. */
  lemma {:induction false} PeerPassEntries(peers: Peers, order: seq<int>, ticks: map<int, PeerTick>)
    requires forall id <- order :: id in peers && id in ticks
    requires forall i, j :: 0 <= i < j < |order| ==> order[i] != order[j]
    ensures forall id <- peers ::
              PeerPass(peers, order, ticks).peers[id] ==
                if id in order then UpdatePeer(peers[id], ticks[id]) else peers[id]
  {
    hide UpdatePeer, UpdateSends;
    if order != [] {
      var init, id := order[..|order| - 1], order[|order| - 1];
      PeerPassEntries(peers, init, ticks);
      assert order == init + [id];
      assert id !in init;
      PeerPassSnoc(peers, init, id, ticks);
    }
  }

  /** A pass keeps the peers and each one's identity, and leaves none connected whose last heartbeat is
      more than 20 seconds before its clock read. */
  lemma {:induction false} PeerPassRefinesEntries(peers: Peers, order: seq<int>, ticks: map<int, PeerTick>)
    requires VisitsPeers(order, peers) && forall id <- order :: id in ticks
    ensures var peers' := PeerPass(peers, order, ticks).peers;
            && peers'.Keys == peers.Keys
            && forall id <- peers ::
                 && peers'[id] == UpdatePeer(peers[id], ticks[id])
                 && peers'[id].peerId == peers[id].peerId
                 && peers'[id].port == peers[id].port && peers'[id].ip == peers[id].ip
                 && (peers'[id].state == UP ==> ticks[id].first - peers'[id].lastHeartbeat <= 20)
  {
    hide PeerPass;
    PeerPassEntries(peers, order, ticks);
  }

  /** The heartbeat a pass sends to a peer, told from the peer before and after it. */
  predicate Redialled(c: Peer, c': Peer, dial: Dial, m: Message) {
    && c.retryCounter < c'.retryCounter <= 10 && dial.fd >= 0 && dial.resolved
    && m == Heartbeat(Message.HEARTBEAT_SIZE, c.satId, c.listeningPort, true)
  }

  lemma {:induction false} PeerPassGreets(peers: Peers, order: seq<int>, ticks: map<int, PeerTick>)
    requires forall id <- order :: id in peers && id in ticks
    requires forall i, j :: 0 <= i < j < |order| ==> order[i] != order[j]
    ensures forall p: Packet :: multiset(PeerPass(peers, order, ticks).sent)[p] ==
              if p.to in order && Redialled(peers[p.to], UpdatePeer(peers[p.to], ticks[p.to]), ticks[p.to].dial, p.msg)
              then 1 else 0
  {
    hide PeerPass, UpdatePeer, UpdateSends;
    if order == [] {
      PeerPassNothing(peers, ticks);
    } else {
      var init, id := order[..|order| - 1], order[|order| - 1];
      assert order == init + [id] && id !in init;
      PeerPassGreets(peers, init, ticks);
      PeerPassEntries(peers, init, ticks);
      PeerPassSnoc(peers, init, id, ticks);
      RetrySendsHeartbeat(peers[id], ticks[id]);
      var more := AddressAll(id, UpdateSends(peers[id], ticks[id]));
      forall p: Packet
        ensures multiset(more)[p] ==
                  if p.to == id && Redialled(peers[id], UpdatePeer(peers[id], ticks[id]), ticks[id].dial, p.msg)
                  then 1 else 0
      {
        if more != [] {
          assert more ==
            [Packet(id, Heartbeat(Message.HEARTBEAT_SIZE, peers[id].satId, peers[id].listeningPort, true))];
        }
      }
      assert PeerPass(peers, order, ticks).sent == PeerPass(peers, init, ticks).sent + more;
    }
  }

  /** A pass sends one heartbeat to each peer for which it counts a retry within the limit and whose dial
      works, and nothing else. */
  lemma {:induction false} PeerPassSendsHeartbeats(peers: Peers, order: seq<int>, ticks: map<int, PeerTick>)
    requires VisitsPeers(order, peers) && forall id <- order :: id in ticks
    ensures var peers' := PeerPass(peers, order, ticks).peers;
            forall p: Packet :: multiset(PeerPass(peers, order, ticks).sent)[p] ==
              if p.to in peers && Redialled(peers[p.to], peers'[p.to], ticks[p.to].dial, p.msg) then 1 else 0
  {
    hide PeerPass, UpdatePeer, Redialled;
    PeerPassGreets(peers, order, ticks);
    PeerPassEntries(peers, order, ticks);
  }

  class ConnectionHandler {
    var connections: map<int, PeerConnection>
    const listeningPort: int32

    ghost predicate Valid()
      reads this
    {
      forall i, j :: i in connections && j in connections && i != j ==> connections[i] != connections[j]
    }

    function View(): Peers
      reads this, connections.Values
    {
      map i | i in connections :: connections[i].View()
    }

    constructor (listeningPort: int32)
      ensures Valid() && View() == map[] && this.listeningPort == listeningPort && connections == map[]
    {
      this.listeningPort := listeningPort;
      connections := map[];
    }

    /** One connection changed, the others did not. */
    twostate lemma {:induction false} OneChanged(id: int)
      requires connections == old(connections) && id in connections
      requires forall i <- connections :: i != id ==> unchanged(connections[i])
      ensures View() == old(View())[id := connections[id].View()]
    {
      forall i <- connections | i != id ensures connections[i].View() == old(connections[i].View()) {
        assert unchanged(connections[i]);
      }
    }

    method AddConnection(port: int32, ip: string, peerId: int32, satId: int32, a: PeerArrival)
      returns (aborted: bool, sent: seq<Packet>)
      requires Valid()
      modifies this
      ensures Valid() && fresh(connections.Values - old(connections.Values))
      ensures aborted == AddPeerAborts(port, ip, peerId, satId)
      ensures !aborted ==> View() == AddedPeer(old(View()), port, ip, peerId, satId, listeningPort, a)
      ensures !aborted ==> sent == AddPeerSends(old(View()), port, ip, peerId, satId, listeningPort, a)
    {
      aborted, sent := port < 0 || ip == "" || peerId < 0 || satId <= 0, [];
      if !aborted && peerId !in connections {
        var c := new PeerConnection(peerId, ip, port, satId, listeningPort, a.beat, a.reconnect);
        c.Beat(a.heard);
        var greeting := c.Connect(a.dial, a.dialled);
        c.MarkConnected();
        connections := connections[peerId := c];
        sent := AddressAll(peerId, greeting);
      }
    }

    method HasConnection(peerId: int) returns (b: bool)
      ensures b == (peerId in connections)
    {
      b := peerId in connections;
    }

    method HeartbeatSat(peerId: int, now: nat)
      requires Valid()
      modifies connections.Values
      ensures View() == HeardPeer(old(View()), peerId, now)
    {
      if peerId in connections {
        var c := connections[peerId];
        c.Beat(now);
        c.MarkConnected();
        OneChanged(peerId);
      }
    }

    method SendMessageToPeer(peerId: int, message: Message) returns (sent: seq<Packet>)
      requires Valid()
      ensures sent == PeerSends(View(), peerId, message)
    {
      sent := [];
      if peerId in connections && connections[peerId].state == UP {
        var ms := connections[peerId].SendMessage(message);
        sent := AddressAll(peerId, ms);
      }
    }

    method BroadcastMessage(order: seq<int>, message: Message) returns (sent: seq<Packet>)
      requires Valid() && VisitsPeers(order, View())
      ensures sent == BroadcastSends(View(), order, message)
      ensures forall p: Packet :: multiset(sent)[p] == if p.msg == message && Reached(View(), p.to) then 1 else 0
    {
      hide PeerSends, Reachable, BroadcastSends;
      ghost var peers := View();
      BroadcastNothing(peers, message);
      sent := [];
      for k := 0 to |order|
        invariant sent == BroadcastSends(peers, order[..k], message)
      {
        assert order[..k + 1] == order[..k] + [order[k]];
        BroadcastSnoc(peers, order[..k], order[k], message);
        if order[k] != 0 {
          var ms := SendMessageToPeer(order[k], message);
          sent := sent + ms;
        }
      }
      assert order[..|order|] == order;
      BroadcastReachesEach(peers, order, message);
    }

    method Update(order: seq<int>, ticks: map<int, PeerTick>) returns (sent: seq<Packet>)
      requires Valid() && VisitsPeers(order, View()) && forall id <- order :: id in ticks
      modifies connections.Values
      ensures View() == PeerPass(old(View()), order, ticks).peers
      ensures sent == PeerPass(old(View()), order, ticks).sent
    {
      hide PeerPass, UpdatePeer, UpdateSends, AddressAll;
      sent := [];
      ghost var peers := View();
      assert PeerPass(peers, [], ticks) == PeerPassResult(peers, []) by { PeerPassNothing(peers, ticks); }
      for k := 0 to |order|
        invariant forall id <- order[..k] :: id in peers && id in ticks
        invariant connections.Keys == peers.Keys
        invariant PeerPassResult(View(), sent) == PeerPass(peers, order[..k], ticks)
      {
        var id := order[k];
        assert order[..k + 1] == order[..k] + [id];
        PeerPassSnoc(peers, order[..k], id, ticks);
        assert id in peers.Keys;
        var ms := UpdateOne(id, ticks[id]);
        sent := sent + AddressAll(id, ms);
      }
      assert order[..|order|] == order;
    }

    /** One iteration of the pass. */
    method UpdateOne(id: int, tick: PeerTick) returns (sent: seq<Message>)
      requires Valid() && id in connections
      modifies connections[id]
      ensures View() == old(View())[id := UpdatePeer(old(View())[id], tick)]
      ensures sent == UpdateSends(old(View())[id], tick)
    {
      var c := connections[id];
      sent := [];
      var timedOut := false;
      if c.state == UP {
        timedOut := c.IsTimedOut(tick.first);
      }
      if timedOut {
        c.Disconnect(tick.second);
      } else if c.state == DOWN || c.state == CONNECTING {
        sent := c.Reconnect(tick);
      }
      OneChanged(id);
    }
  }
}
