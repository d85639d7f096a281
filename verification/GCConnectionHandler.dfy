/** All connections of ground control, and the update pass over them. */
module GCConnectionHandlers {
  import opened Messages
  import opened MessageQueues
  import opened Numbers
  import opened Parsers
  import opened Connections

  type Conns = map<int, Conn>

  /** One entry's share of an update pass: a timed-out connection is dropped, a dropped one that is not
      dead is retried. */
  function UpdateEntry(c: Conn, tick: Tick): Conn {
    if c.state == CONNECTED && c.TimedOut(tick.first) then c.Disconnect(tick.second)
    else if c.state == DISCONNECTED && !c.Dead() then c.Reconnect(tick)
    else c
  }

  predicate EntryRetried(c: Conn) {
    c.state == DISCONNECTED && !c.Dead()
  }

  function EntrySends(c: Conn, tick: Tick): seq<Message> {
    if EntryRetried(c) then c.ReconnectSends(tick) else []
  }

  predicate EntryDies(c: Conn, tick: Tick) {
    EntryRetried(c) && !c.Reconnects(tick)
  }

  /** An entry's share of a pass sends one heartbeat, exactly if it counts a retry within the limit and the
      dial works. */
  lemma {:induction false} RetrySendsHeartbeat(c: Conn, tick: Tick)
    ensures EntrySends(c, tick) ==
              if c.retryCounter < UpdateEntry(c, tick).retryCounter <= 10 && tick.dial.fd >= 0 && tick.dial.resolved
              then [Heartbeat(Message.HEARTBEAT_SIZE, 0, c.gcPort, true)] else []
  {
  }

  /** An update pass visits the entries in the order the hash map yields them. */
  datatype PassResult = PassResult(conns: Conns, notices: seq<SatOutput>, sent: seq<Packet>)

  function Pass(conns: Conns, order: seq<int>, ticks: map<int, Tick>): PassResult
    requires forall id <- order :: id in conns && id in ticks
    ensures Pass(conns, order, ticks).conns.Keys == conns.Keys
  {
    if order == [] then PassResult(conns, [], [])
    else
      var p, id := Pass(conns, order[..|order| - 1], ticks), order[|order| - 1];
      var c := p.conns[id];
      PassResult(p.conns[id := UpdateEntry(c, ticks[id])],
                 p.notices + (if EntryDies(c, ticks[id]) then [Status(id, false)] else []),
                 p.sent + AddressAll(id, EntrySends(c, ticks[id])))
  }

  lemma {:induction false} PassNothing(conns: Conns, ticks: map<int, Tick>)
    ensures Pass(conns, [], ticks) == PassResult(conns, [], [])
  {
  }

  lemma {:induction false} PassSnoc(conns: Conns, order: seq<int>, id: int, ticks: map<int, Tick>)
    requires id in conns && id in ticks && forall i <- order :: i in conns && i in ticks
    ensures forall i <- order + [id] :: i in conns && i in ticks
    ensures var p := Pass(conns, order, ticks);
            var c, tick := p.conns[id], ticks[id];
            var p' := Pass(conns, order + [id], ticks);
            && p'.conns == p.conns[id := UpdateEntry(c, tick)]
            && p'.notices == p.notices + (if EntryDies(c, tick) then [Status(id, false)] else [])
            && p'.sent == p.sent + AddressAll(id, EntrySends(c, tick))
  {
    assert (order + [id])[..|order|] == order;
  }

  /** order lists every key of conns once. */
  predicate Visits(order: seq<int>, conns: Conns) {
    && (forall i, j :: 0 <= i < j < |order| ==> order[i] != order[j])
    && (forall id <- order :: id in conns) && (forall id <- conns :: id in order)
  }

  // ---------------------------------------------------------------- an update pass, entry by entry

  lemma {:induction false} PassEntries(conns: Conns, order: seq<int>, ticks: map<int, Tick>)
    requires forall id <- order :: id in conns && id in ticks
    requires forall i, j :: 0 <= i < j < |order| ==> order[i] != order[j]
    ensures forall id <- conns ::
              Pass(conns, order, ticks).conns[id] ==
                if id in order then UpdateEntry(conns[id], ticks[id]) else conns[id]
  {
    if order != [] {
      var init, id := order[..|order| - 1], order[|order| - 1];
      PassEntries(conns, init, ticks);
      assert order == init + [id];
      assert id !in init;
      PassSnoc(conns, init, id, ticks);
    }
  }

  /** An update pass is the same independent step for every entry, whatever the iteration order: it keeps
      the keys and each entry's identity, and leaves no entry connected whose last heartbeat is more than
      20 seconds before its clock read. */
  lemma {:induction false} PassRefinesEntries(conns: Conns, order: seq<int>, ticks: map<int, Tick>)
    requires Visits(order, conns) && forall id <- order :: id in ticks
    ensures var conns' := Pass(conns, order, ticks).conns;
            && conns'.Keys == conns.Keys
            && forall id <- conns ::
                 && conns'[id] == UpdateEntry(conns[id], ticks[id])
                 && conns'[id].id == conns[id].id && conns'[id].port == conns[id].port && conns'[id].ip == conns[id].ip
                 && (conns'[id].state == CONNECTED ==> ticks[id].first - conns'[id].lastHeartbeat <= 20)
  {
    hide Pass;
    PassEntries(conns, order, ticks);
    forall id <- conns
      ensures var c := UpdateEntry(conns[id], ticks[id]);
              && c.id == conns[id].id && c.port == conns[id].port && c.ip == conns[id].ip
              && (c.state == CONNECTED ==> ticks[id].first - c.lastHeartbeat <= 20)
    {
    }
  }

  /** The heartbeat a pass sends to an entry, told from the entry before and after it. */
  predicate Regreeted(c: Conn, c': Conn, dial: Dial, m: Message) {
    && c.retryCounter < c'.retryCounter <= 10 && dial.fd >= 0 && dial.resolved
    && m == Heartbeat(Message.HEARTBEAT_SIZE, 0, c.gcPort, true)
  }

  lemma {:induction false} PassGreets(conns: Conns, order: seq<int>, ticks: map<int, Tick>)
    requires forall id <- order :: id in conns && id in ticks
    requires forall i, j :: 0 <= i < j < |order| ==> order[i] != order[j]
    ensures forall p: Packet :: multiset(Pass(conns, order, ticks).sent)[p] ==
              if p.to in order && Regreeted(conns[p.to], UpdateEntry(conns[p.to], ticks[p.to]), ticks[p.to].dial, p.msg)
              then 1 else 0
  {
    hide Pass, UpdateEntry, EntrySends, EntryDies;
    if order == [] {
      PassNothing(conns, ticks);
    } else {
      var init, id := order[..|order| - 1], order[|order| - 1];
      assert order == init + [id] && id !in init;
      PassGreets(conns, init, ticks);
      PassEntries(conns, init, ticks);
      PassSnoc(conns, init, id, ticks);
      RetrySendsHeartbeat(conns[id], ticks[id]);
      var more := AddressAll(id, EntrySends(conns[id], ticks[id]));
      forall p: Packet
        ensures multiset(more)[p] ==
                  if p.to == id && Regreeted(conns[id], UpdateEntry(conns[id], ticks[id]), ticks[id].dial, p.msg)
                  then 1 else 0
      {
        if more != [] {
          assert more == [Packet(id, Heartbeat(Message.HEARTBEAT_SIZE, 0, conns[id].gcPort, true))];
        }
      }
      assert Pass(conns, order, ticks).sent == Pass(conns, init, ticks).sent + more;
    }
  }

  /** A pass sends one heartbeat to each entry for which it counts a retry within the limit and whose dial
      works, and nothing else. */
  lemma {:induction false} PassSendsHeartbeats(conns: Conns, order: seq<int>, ticks: map<int, Tick>)
    requires Visits(order, conns) && forall id <- order :: id in ticks
    ensures var conns' := Pass(conns, order, ticks).conns;
            forall p: Packet :: multiset(Pass(conns, order, ticks).sent)[p] ==
              if p.to in conns && Regreeted(conns[p.to], conns'[p.to], ticks[p.to].dial, p.msg) then 1 else 0
  {
    hide Pass, UpdateEntry, Regreeted;
    PassGreets(conns, order, ticks);
    PassEntries(conns, order, ticks);
  }

  // ---------------------------------------------------------------- adding, hearing, sending

  /** What addConnection reads from its surroundings: the clock twice, and connect's answers. */
  datatype Arrival = Arrival(beat: nat, reconnect: nat, dial: Dial)

  function Added(conns: Conns, port: int32, ip: string, id: int32, gcPort: int32, a: Arrival): Conns {
    if id in conns then conns else conns[id := New(id, port, ip, gcPort, a.beat, a.reconnect).Connect(a.dial)]
  }

  function AddSends(conns: Conns, port: int32, ip: string, id: int32, gcPort: int32, a: Arrival): seq<Packet> {
    if id in conns then [] else AddressAll(id, New(id, port, ip, gcPort, a.beat, a.reconnect).Greeting(a.dial))
  }

  /** A new entry is the satellite that was given, not yet connected; it is greeted exactly if the dial
      works, and a pass tries it again exactly from ten seconds after its creation on. */
  lemma {:induction false} NewEntryIsRetried(conns: Conns, port: int32, ip: string, id: int32, gcPort: int32,
                                             a: Arrival, tick: Tick)
    requires id !in conns
    ensures var c := Added(conns, port, ip, id, gcPort, a)[id];
            && c.id == id && c.port == port && c.ip == ip && c.gcPort == gcPort
            && c.state == DISCONNECTED && c.lastHeartbeat == a.beat && (c.Open() <==> a.dial.fd >= 0)
            && UpdateEntry(c, tick).retryCounter == (if tick.first >= a.reconnect + 10 then 1 else 0)
    ensures AddSends(conns, port, ip, id, gcPort, a) ==
              if a.dial.fd >= 0 && a.dial.resolved
              then [Packet(id, Heartbeat(Message.HEARTBEAT_SIZE, 0, gcPort, true))] else []
    ensures var conns' := Added(conns, port, ip, id, gcPort, a);
            forall other <- conns :: other in conns' && conns'[other] == conns[other]
  {
  }

  /** The assertions of addConnection, and the one connect adds for a new satellite. */
  predicate AddAborts(conns: Conns, port: int32, ip: string, id: int32, gcPort: int32) {
    port < 0 || id <= 0 || ip == "" || port == gcPort || (id !in conns && port == 0)
  }

  function Heard(conns: Conns, id: int, now: nat): Conns {
    if id in conns then conns[id := conns[id].Beat(now).MarkConnected()] else conns
  }

  /** A message to an unknown satellite is dropped; one to a known satellite whose socket is closed
      fails the assertion in sendMessage. */
  predicate SendAborts(conns: Conns, id: int) {
    id in conns && !conns[id].Open()
  }

  function SatSends(conns: Conns, id: int, m: Message): seq<Packet>
    requires !SendAborts(conns, id)
  {
    if id in conns then [Packet(id, m)] else []
  }

  function CommandMessage(gcPort: int32, motion: Motion): Message {
    Command(Message.COMMAND_SIZE, 0, gcPort, motion.x, motion.y, motion.z, motion.vx, motion.vy, motion.vz)
  }

  /** The motion an operator asked for; encode is the host's double for a decimal number. */
  function Encoded(com: CommandInput, encode: Number -> Double): Motion {
    Motion(encode(com.x), encode(com.y), encode(com.z), encode(com.vx), encode(com.vy), encode(com.vz))
  }

  class GCConnectionHandler {
    var satellites: map<int, Connection>
    const gcPort: int32
    const outputQueue: MessageQueue<SatOutput>

    ghost predicate Valid()
      reads this
    {
      forall i, j :: i in satellites && j in satellites && i != j ==> satellites[i] != satellites[j]
    }

    function View(): Conns
      reads this, satellites.Values
    {
      map i | i in satellites :: satellites[i].View()
    }

    constructor (gcPort: int32, outputQueue: MessageQueue<SatOutput>)
      ensures Valid() && View() == map[] && this.gcPort == gcPort && this.outputQueue == outputQueue
      ensures satellites == map[]
    {
      this.gcPort, this.outputQueue := gcPort, outputQueue;
      satellites := map[];
    }

    /** One connection changed, the others did not. */
    twostate lemma {:induction false} OneChanged(id: int)
      requires satellites == old(satellites) && id in satellites
      requires forall i <- satellites :: i != id ==> unchanged(satellites[i])
      ensures View() == old(View())[id := satellites[id].View()]
    {
      forall i <- satellites | i != id ensures satellites[i].View() == old(satellites[i].View()) {
        assert unchanged(satellites[i]);
      }
    }

    method AddConnection(port: int32, ip: string, satId: int32, a: Arrival) returns (aborted: bool, sent: seq<Packet>)
      requires Valid()
      modifies this
      ensures Valid() && fresh(satellites.Values - old(satellites.Values))
      ensures aborted == AddAborts(old(View()), port, ip, satId, gcPort)
      ensures !aborted ==> View() == Added(old(View()), port, ip, satId, gcPort, a)
      ensures !aborted ==> sent == AddSends(old(View()), port, ip, satId, gcPort, a)
    {
      aborted, sent := port < 0 || satId <= 0 || ip == "" || port == gcPort, [];
      if !aborted && satId !in satellites {
        if port == 0 {
          return true, [];
        }
        var c := new Connection(satId, port, ip, gcPort, a.beat, a.reconnect);
        var greeting := c.Connect(a.dial);
        satellites := satellites[satId := c];
        sent := AddressAll(satId, greeting);
      }
    }

    method HasConnection(satId: int) returns (b: bool)
      ensures b == (satId in satellites)
    {
      b := satId in satellites;
    }

    method HeartbeatSat(satId: int, now: nat)
      requires Valid()
      modifies satellites.Values
      ensures View() == Heard(old(View()), satId, now)
    {
      if satId in satellites {
        var c := satellites[satId];
        c.Beat(now);
        c.MarkConnected();
        OneChanged(satId);
      }
    }

    method SendMessageToSat(satId: int, message: Message) returns (aborted: bool, sent: seq<Packet>)
      requires Valid()
      ensures aborted == SendAborts(View(), satId)
      ensures !aborted ==> sent == SatSends(View(), satId, message)
    {
      aborted, sent := false, [];
      if satId !in satellites {
        return;
      }
      var c := satellites[satId];
      if c.satSocket < 0 {
        return true, [];
      }
      var ms := c.SendMessage(message);
      sent := AddressAll(satId, ms);
    }

    /** The body of the sendCommand loop, once the pop it starts with need not wait any more; blank is
        what pop returns from a stopped queue. */
    method SendCommand(inputQueue: MessageQueue<CommandInput>, running: bool, blank: CommandInput,
                       encode: Number -> Double)
      returns (aborted: bool, sent: seq<Packet>)
      requires Valid() && inputQueue.View().Ready()
      modifies inputQueue
      ensures inputQueue.View() == old(inputQueue.View()).Rest() && View() == old(View())
      ensures !running ==> !aborted && sent == []
      ensures running ==>
                var com := old(inputQueue.View()).Result(blank);
                && aborted == SendAborts(View(), com.id)
                && (!aborted ==> sent == SatSends(View(), com.id, CommandMessage(gcPort, Encoded(com, encode))))
    {
      aborted, sent := false, [];
      var com := inputQueue.Pop(blank);
      if !running {
        return;
      }
      var c := CommandMessage(gcPort, Encoded(com, encode));
      aborted, sent := SendMessageToSat(com.id, c);
    }

    /** The body of the update loop, between two sleeps. */
    method UpdatePass(order: seq<int>, ticks: map<int, Tick>) returns (sent: seq<Packet>)
      requires Valid() && Visits(order, View()) && forall id <- order :: id in ticks
      modifies satellites.Values, outputQueue
      ensures View() == Pass(old(View()), order, ticks).conns
      ensures outputQueue.messageQueue == old(outputQueue.messageQueue) + Pass(old(View()), order, ticks).notices
      ensures outputQueue.stopped == old(outputQueue.stopped)
      ensures sent == Pass(old(View()), order, ticks).sent
    {
      hide Pass, UpdateEntry, EntrySends, EntryDies, AddressAll;
      sent := [];
      ghost var conns := View();
      assert Pass(conns, [], ticks) == PassResult(conns, [], []) by { PassNothing(conns, ticks); }
      for k := 0 to |order|
        invariant forall id <- order[..k] :: id in conns && id in ticks
        invariant satellites.Keys == conns.Keys
        invariant View() == Pass(conns, order[..k], ticks).conns
        invariant outputQueue.messageQueue == old(outputQueue.messageQueue) + Pass(conns, order[..k], ticks).notices
        invariant outputQueue.stopped == old(outputQueue.stopped)
        invariant sent == Pass(conns, order[..k], ticks).sent
      {
        var id := order[k];
        assert order[..k + 1] == order[..k] + [id];
        PassSnoc(conns, order[..k], id, ticks);
        assert id in conns.Keys;
        var ms := UpdateOne(id, ticks[id]);
        sent := sent + AddressAll(id, ms);
      }
      assert order[..|order|] == order;
    }

    /** One iteration of the pass. */
    method UpdateOne(id: int, tick: Tick) returns (sent: seq<Message>)
      requires Valid() && id in satellites
      modifies satellites[id], outputQueue
      ensures View() == old(View())[id := UpdateEntry(old(View())[id], tick)]
      ensures sent == EntrySends(old(View())[id], tick)
      ensures outputQueue.messageQueue ==
                old(outputQueue.messageQueue) + (if EntryDies(old(View())[id], tick) then [Status(id, false)] else [])
      ensures outputQueue.stopped == old(outputQueue.stopped)
    {
      var c := satellites[id];
      sent := [];
      var timedOut := c.IsTimedOut(tick.first);
      var dead := c.IsDead();
      if c.state == CONNECTED && timedOut {
        c.Disconnect(tick.second);
      } else if c.state == DISCONNECTED && !dead {
        var ok;
        ok, sent := c.Reconnect(tick);
        if !ok {
          outputQueue.PushBack(Status(id, false));
        }
      }
      OneChanged(id);
    }
  }
}
