/** A satellite's listener: what one received message does. */
module NetworkManagers {
  import opened Config
  import opened Messages
  import opened Serializers
  import opened ConnectionHandlers
  import opened Satellites
  import opened Loggers

  /** A satellite as its listener sees it; log is the content of its log file. */
  datatype Sat = Sat(id: int32, port: int32, peers: Peers, waitingForAck: bool, motion: Motion, log: Bytes)

  datatype SatSurroundings = SatSurroundings(ip: Address, arrival: PeerArrival, beat: nat)

  /** SatCrashed stands for a failed assertion. */
  datatype Accepting = Accepted(sat: Sat, sent: seq<Packet>) | SatCrashed

  /** The first ACK while waiting empties the log file; a command moves the satellite. */
  function Processed(sat: Sat, m: Message): Sat {
    if m.Ack? && sat.waitingForAck then sat.(waitingForAck := false, log := [])
    else if m.Command? then sat.(motion := Commanded(m))
    else sat
  }

  predicate CommandAborts(sat: Sat, m: Message) {
    m.Command? && (m.size != Message.COMMAND_SIZE || m.senderId != 0 || m.senderPort == sat.port)
  }

  /** The answer to a command, to ground control under id 0. */
  function Answer(sat: Sat, m: Message): seq<Packet> {
    if m.Command? then PeerSends(sat.peers, 0, Ack(Message.ACK_SIZE, sat.id, sat.port, true)) else []
  }

  /** Afterwards the sender is added, or its heartbeat noted. */
  function Greeted(sat: Sat, m: Message, s: SatSurroundings): Sat {
    sat.(peers := if m.senderId in sat.peers then HeardPeer(sat.peers, m.senderId, s.beat)
                  else AddedPeer(sat.peers, m.senderPort, s.ip, m.senderId, sat.id, sat.port, s.arrival))
  }

  predicate GreetAborts(sat: Sat, m: Message, s: SatSurroundings) {
    m.senderId < 0 || (m.senderId !in sat.peers && AddPeerAborts(m.senderPort, s.ip, m.senderId, sat.id))
  }

  /** One iteration of acceptConnections on a decoded message. */
  function Accept(sat: Sat, m: Message, s: SatSurroundings): Accepting {
    if CommandAborts(sat, m) || GreetAborts(sat, m, s) then SatCrashed
    else
      Accepted(Greeted(Processed(sat, m), m, s),
               Answer(sat, m) + AddPeerSends(sat.peers, m.senderPort, s.ip, m.senderId, sat.id, sat.port, s.arrival))
  }

  /** A decoded message ends a satellite exactly if it is a command of another size, not from ground control,
      or from the satellite's own port. */
  lemma {:induction false} AcceptFailsExactly(sat: Sat, m: Message, s: SatSurroundings)
    requires Sendable(m) && sat.id > 0
    ensures Accept(sat, m, s).SatCrashed? <==>
              m.Command? && (m.size != 72 || m.senderId != 0 || m.senderPort == sat.port)
  {
    hide Greeted, Processed;
  }

  /** One iteration of acceptConnections on the receive buffer. */
  function AcceptBytes(sat: Sat, b: Bytes, size: nat, s: SatSurroundings): Accepting
    requires |b| == BUFFER_SIZE
  {
    match Decode(b, size)
    case Rejected(_) => Accepted(sat, [])
    case Aborted => SatCrashed
    case Decoded(m) => Accept(sat, m, s)
  }

  /** A stray datagram is skipped. */
  lemma {:induction false} StraysAreSkipped(sat: Sat, b: Bytes, size: nat, s: SatSurroundings)
    requires |b| == BUFFER_SIZE && size > 0 && Stray(b, size)
    ensures AcceptBytes(sat, b, size, s) == Accepted(sat, [])
  {
    hide Accept;
  }

  /** Decoding itself ends a satellite exactly for an empty datagram, and for a proper header with a negative
      id or no port above zero. */
  lemma {:induction false} DecodingEndsSatellite(sat: Sat, b: Bytes, size: nat, s: SatSurroundings)
    requires |b| == BUFFER_SIZE
    ensures size == 0 || (!Stray(b, size) && (I32At(b, 8) < 0 || I32At(b, 12) <= 0)) ==>
              AcceptBytes(sat, b, size, s).SatCrashed?
    ensures size > 0 && (Stray(b, size) || (I32At(b, 8) >= 0 && I32At(b, 12) > 0)) ==>
              Decode(b, size).Decoded? || AcceptBytes(sat, b, size, s) == Accepted(sat, [])
  {
    hide Accept;
  }

  /** The wire is transparent at the satellite, too. */
  lemma {:induction false} FrameActsAsMessage(sat: Sat, m: Message, pad: Bytes, stale: Bytes, s: SatSurroundings)
    requires Sendable(m) && |pad| == 3 && |m.Frame(pad) + stale| == BUFFER_SIZE
    ensures AcceptBytes(sat, m.Frame(pad) + stale, |m.Frame(pad)|, s) == Accept(sat, m, s)
  {
    hide Decode, Accept;
    DecodeUndoesSerialize(m, pad, stale);
  }

  class NetworkManager {
    const self: Satellite
    const handler: ConnectionHandler
    const logger: Logger

    constructor (self: Satellite, handler: ConnectionHandler, logger: Logger)
      ensures this.self == self && this.handler == handler && this.logger == logger
    {
      this.self, this.handler, this.logger := self, handler, logger;
    }

    function View(): Sat
      reads this, self, handler, handler.connections.Values, logger
    {
      Sat(self.id, self.port, handler.View(), self.waitingForAck, self.motion, logger.file)
    }

    /** The answer to a command. */
    method AckCommand() returns (sent: seq<Packet>)
      requires handler.Valid()
      ensures sent == PeerSends(handler.View(), 0, Ack(Message.ACK_SIZE, self.id, self.port, true))
    {
      sent := handler.SendMessageToPeer(0, Ack(Message.ACK_SIZE, self.id, self.port, true));
    }

    /** The type-specific part. */
    method Process(m: Message) returns (crashed: bool, sent: seq<Packet>)
      requires handler.Valid()
      modifies self, logger
      ensures crashed == CommandAborts(old(View()), m)
      ensures !crashed ==> View() == Processed(old(View()), m) && sent == Answer(old(View()), m)
    {
      hide PeerSends;
      crashed, sent := false, [];
      if m.Ack? && self.waitingForAck {
        self.SetWaitingForAck(false);
        logger.ClearFile();
      } else if m.Command? {
        if m.size != Message.COMMAND_SIZE || m.senderId != 0 || m.senderPort == self.port {
          return true, [];
        }
        self.HandleCommand(m);
        sent := AckCommand();
      }
    }

    lemma {:induction false} KnownIsNotGreeted(m: Message, s: SatSurroundings)
      requires m.senderId in handler.View()
      ensures AddPeerSends(handler.View(), m.senderPort, s.ip, m.senderId, self.id, self.port, s.arrival) == []
    {
    }

    /** Adding the sender, or noting its heartbeat. */
    method Greet(m: Message, s: SatSurroundings) returns (crashed: bool, sent: seq<Packet>)
      requires handler.Valid() && handler.listeningPort == self.port
      modifies handler, handler.connections.Values
      ensures handler.Valid()
      ensures crashed == GreetAborts(old(View()), m, s)
      ensures !crashed ==> View() == Greeted(old(View()), m, s)
      ensures !crashed ==>
                sent == AddPeerSends(old(handler.View()), m.senderPort, s.ip, m.senderId, self.id, self.port, s.arrival)
    {
      hide AddedPeer, HeardPeer, AddPeerSends;
      crashed, sent := false, [];
      if m.senderId < 0 {
        return true, [];
      }
      var known := handler.HasConnection(m.senderId);
      if !known {
        crashed, sent := handler.AddConnection(m.senderPort, s.ip, m.senderId, self.id, s.arrival);
      } else {
        KnownIsNotGreeted(m, s);
        handler.HeartbeatSat(m.senderId, s.beat);
      }
    }

    /** The loop body: a datagram arrives in the buffer all iterations share. */
    method AcceptDatagram(buf: array<octet>, frame: Bytes, s: SatSurroundings)
      returns (crashed: bool, sent: seq<Packet>)
      requires handler.Valid() && handler.listeningPort == self.port
      requires |frame| <= buf.Length == BUFFER_SIZE
      modifies self, handler, handler.connections.Values, logger, buf
      ensures handler.Valid() && buf[..] == frame + old(buf[..])[|frame|..]
      ensures crashed == AcceptBytes(old(View()), buf[..], |frame|, s).SatCrashed?
      ensures !crashed ==> Accepted(View(), sent) == AcceptBytes(old(View()), buf[..], |frame|, s)
    {
      hide Decode, Accept;
      crashed, sent := false, [];
      ReceiveInto(buf, frame);
      var r := DecodeBuffer(buf, |frame|);
      assert View() == old(View());
      if r.Aborted? {
        return true, [];
      }
      if r.Decoded? {
        crashed, sent := AcceptOnce(r.message, s);
      }
    }

    /** The loop body after decode. */
    method AcceptOnce(m: Message, s: SatSurroundings) returns (crashed: bool, sent: seq<Packet>)
      requires handler.Valid() && handler.listeningPort == self.port
      modifies self, handler, handler.connections.Values, logger
      ensures handler.Valid()
      ensures crashed == old(Accept(View(), m, s)).SatCrashed?
      ensures !crashed ==> Accepted(View(), sent) == old(Accept(View(), m, s))
    {
      hide AddPeerSends, Answer, AddedPeer, HeardPeer;
      crashed, sent := Process(m);
      if !crashed {
        var greeting;
        crashed, greeting := Greet(m, s);
        sent := sent + greeting;
      }
    }
  }
}
