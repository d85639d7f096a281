/** Ground control's connection to one satellite. */
module Connections {
  import opened Config
  import opened Messages

  datatype State = CONNECTED | DISCONNECTED

  /** What the operating system answers while connecting: the descriptor from socket(), negative on
      failure, and whether the address could be parsed. */
  datatype Dial = Dial(fd: int, resolved: bool) {
    predicate Works() { fd >= 0 && resolved }
  }

  /** The fields of a connection. A negative socket is a closed one. */
  datatype Conn = Conn(
    id: int32, port: int32, ip: string, gcPort: int32,
    satSocket: int, state: State, lastHeartbeat: nat, lastReconnect: nat, retryCounter: nat)
  {
    function Connect(dial: Dial): Conn {
      this.(satSocket := dial.fd)
    }

    /** What connect sends: a heartbeat, unless the socket or the address fails. */
    function Greeting(dial: Dial): seq<Message> {
      if dial.Works() then [Heartbeat(Message.HEARTBEAT_SIZE, 0, gcPort, true)] else []
    }

    predicate Open() { satSocket >= 0 }

    function Disconnect(now: nat): Conn {
      this.(satSocket := if Open() then -1 else satSocket, state := DISCONNECTED, lastReconnect := now)
    }

    function Beat(now: nat): Conn {
      this.(lastHeartbeat := now)
    }

    function MarkConnected(): Conn {
      this.(state := CONNECTED, retryCounter := 0)
    }

    predicate TimedOut(now: nat) {
      now - lastHeartbeat > TIMEOUT_THRESHOLD
    }

    predicate Dead() {
      retryCounter > MAX_RECONNECT_ATTEMPTS
    }

    predicate Due(now: nat) {
      now - lastReconnect >= RECONNECT_INTERVAL
    }

    /** reconnect reads the clock twice: on entry, and again inside disconnect. */
    function Reconnect(tick: Tick): Conn {
      if !Due(tick.first) then this
      else
        var c := this.(retryCounter := retryCounter + 1);
        if c.Dead() then c
        else c.(lastReconnect := tick.first).Disconnect(tick.second).Connect(tick.dial)
    }

    /** reconnect's result: false exactly when this call found the attempts used up. */
    predicate Reconnects(tick: Tick) {
      !Due(tick.first) || retryCounter < MAX_RECONNECT_ATTEMPTS
    }

    function ReconnectSends(tick: Tick): seq<Message> {
      if Due(tick.first) && retryCounter < MAX_RECONNECT_ATTEMPTS then Greeting(tick.dial) else []
    }
  }

  /** A connection as the constructor leaves it, the clock read twice. */
  function New(id: int32, port: int32, ip: string, gcPort: int32, beat: nat, reconnect: nat): Conn {
    Conn(id, port, ip, gcPort, -1, DISCONNECTED, beat, reconnect, 0)
  }

  /** The clock reads and system answers one entry of an update pass may use. */
  datatype Tick = Tick(first: nat, second: nat, dial: Dial)

  class Connection {
    const id: int32
    const port: int32
    const ip: string
    const gcPort: int32
    var satSocket: int
    var state: State
    var lastHeartbeat: nat
    var lastReconnect: nat
    var retryCounter: nat

    function View(): Conn
      reads this
    {
      Conn(id, port, ip, gcPort, satSocket, state, lastHeartbeat, lastReconnect, retryCounter)
    }

    constructor (id: int32, port: int32, ip: string, gcPort: int32, beat: nat, reconnect: nat)
      ensures View() == New(id, port, ip, gcPort, beat, reconnect)
    {
      this.id, this.port, this.ip, this.gcPort := id, port, ip, gcPort;
      satSocket, state, lastHeartbeat, lastReconnect, retryCounter := -1, DISCONNECTED, beat, reconnect, 0;
    }

    method Connect(dial: Dial) returns (sent: seq<Message>)
      modifies this
      ensures View() == old(View()).Connect(dial)
      ensures sent == View().Greeting(dial)
    {
      sent := [];
      satSocket := dial.fd;
      if satSocket < 0 || !dial.resolved {
        return;
      }
      sent := SendMessage(Heartbeat(Message.HEARTBEAT_SIZE, 0, gcPort, true));
    }

    /** sendto on the connection's socket; asserts that the socket is open. */
    method SendMessage(message: Message) returns (sent: seq<Message>)
      requires satSocket >= 0
      ensures sent == [message]
    {
      sent := [message];
    }

    method Disconnect(now: nat)
      modifies this
      ensures View() == old(View()).Disconnect(now)
    {
      if satSocket >= 0 {
        satSocket := -1;
      }
      state := DISCONNECTED;
      lastReconnect := now;
    }

    method Beat(now: nat)
      modifies this
      ensures View() == old(View()).Beat(now)
    {
      lastHeartbeat := now;
    }

    method Reconnect(tick: Tick) returns (ok: bool, sent: seq<Message>)
      modifies this
      ensures View() == old(View()).Reconnect(tick)
      ensures ok == old(View()).Reconnects(tick) && sent == old(View()).ReconnectSends(tick)
    {
      var curTime := tick.first;
      if curTime - lastReconnect < RECONNECT_INTERVAL {
        return true, [];
      }
      retryCounter := retryCounter + 1;
      if retryCounter > MAX_RECONNECT_ATTEMPTS {
        return false, [];
      }
      lastReconnect := curTime;
      Disconnect(tick.second);
      sent := Connect(tick.dial);
      ok := true;
    }

    method IsTimedOut(now: nat) returns (b: bool)
      ensures b == View().TimedOut(now)
    {
      b := now - lastHeartbeat > TIMEOUT_THRESHOLD;
    }

    method MarkConnected()
      modifies this
      ensures View() == old(View()).MarkConnected()
    {
      state := CONNECTED;
      retryCounter := 0;
    }

    method IsDead() returns (b: bool)
      ensures b == View().Dead()
    {
      b := retryCounter > MAX_RECONNECT_ATTEMPTS;
    }
  }
}
