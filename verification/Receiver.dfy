/** Ground control's listener: what one received message does. */
module Receivers {
  import opened Config
  import opened Messages
  import opened Serializers
  import opened MessageQueues
  import opened Parsers
  import opened GCConnectionHandlers

  /** The listener's view of ground control: connections, reassembly buffers, output queue. */
  datatype Gc = Gc(conns: Conns, buffer: map<int, string>, outputs: seq<SatOutput>)

  /** What one iteration reads from its surroundings: the sender's address, the answers for a new
      connection, and the clock for the heartbeat. */
  datatype Surroundings = Surroundings(ip: Address, arrival: Arrival, beat: nat)

  /** Crashed stands for a failed assertion, which ends the process. */
  datatype Listening = Listened(gc: Gc, sent: seq<Packet>) | Crashed

  /** What decode lets through, with a chunk length inside the chunk. */
  predicate Acceptable(m: Message) {
    Sendable(m) && (m.FileMsg? ==> 0 <= m.len <= FILE_CHUNK_SIZE)
  }

  function BufferOf(buffer: map<int, string>, id: int): string {
    if id in buffer then buffer[id] else []
  }

  /** handleFileDump: append the chunk; the last one hands the buffer to the parser and empties it. */
  function FileDump(gc: Gc, m: Message): Gc
    requires m.FileMsg? && Acceptable(m)
  {
    var chunk := BufferOf(gc.buffer, m.senderId) + Payload(m);
    if m.last then
      gc.(buffer := gc.buffer[m.senderId := []], outputs := gc.outputs + [DataDecoder(m.senderId, chunk, true)])
    else gc.(buffer := gc.buffer[m.senderId := chunk])
  }

  /** The output a message makes of its sender's buffer, if it ends a dump. */
  function DumpPushes(gc: Gc, m: Message): seq<SatOutput>
    requires Acceptable(m)
  {
    if m.FileMsg? && m.last then [DataDecoder(m.senderId, BufferOf(gc.buffer, m.senderId) + Payload(m), true)] else []
  }

  /** A file message changes no connection, and pushes this output only. */
  lemma {:induction false} FileDumpPushes(gc: Gc, m: Message)
    ensures m.FileMsg? && Acceptable(m) ==>
              FileDump(gc, m).conns == gc.conns && FileDump(gc, m).outputs == gc.outputs + DumpPushes(gc, m)
  {
    hide DataDecoder;
  }

  /** The outputs one listener iteration pushes. */
  function Pushes(gc: Gc, m: Message): seq<SatOutput>
    requires Acceptable(m)
  {
    (if m.senderId in gc.conns then [Status(m.senderId, true)] else []) + DumpPushes(gc, m)
  }

  /** Receiver::addConnection, after its assertions. */
  function Meet(gc: Gc, gcPort: int32, m: Message, s: Surroundings): Gc {
    var id := m.senderId;
    if id in gc.conns then
      gc.(conns := Heard(gc.conns, id, s.beat), outputs := gc.outputs + [Status(id, true)])
    else
      gc.(conns := Heard(Added(gc.conns, m.senderPort, s.ip, id, gcPort, s.arrival), id, s.beat))
  }

  /** With a port above zero and an address, what is left of the assertions of both addConnections. */
  predicate MeetAborts(gc: Gc, gcPort: int32, m: Message) {
    m.senderId <= 0 || (m.senderId !in gc.conns && m.senderPort == gcPort)
  }

  /** Everything but a COMMAND is answered with an ACK, an ACK included. */
  predicate Handled(m: Message) { !m.Command? }

  function Reply(gcPort: int32): Message {
    Ack(Message.ACK_SIZE, 0, gcPort, true)
  }

  /** One iteration of listen on a decoded message. */
  function Listen(gc: Gc, gcPort: int32, m: Message, s: Surroundings): Listening
    requires Acceptable(m)
  {
    if MeetAborts(gc, gcPort, m) then Crashed
    else
      var met := Meet(gc, gcPort, m, s);
      var hello := AddSends(gc.conns, m.senderPort, s.ip, m.senderId, gcPort, s.arrival);
      if !Handled(m) then Listened(met, hello)
      else if m.FileMsg? && m.size != Message.FILE_MSG_SIZE then Crashed
      else if SendAborts(met.conns, m.senderId) then Crashed
      else Listened(if m.FileMsg? then FileDump(met, m) else met,
                    hello + SatSends(met.conns, m.senderId, Reply(gcPort)))
  }

  /** A decoded chunk length inside the chunk: past that the code reads outside the message. */
  predicate SoundLength(r: Outcome) {
    r.Decoded? && r.message.FileMsg? ==> 0 <= r.message.len <= FILE_CHUNK_SIZE
  }

  /** A decoded message ends ground control exactly if its id is zero, or it is new and has ground control's
      own port, or it is a file message of another size, or its answer finds the socket closed. */
  lemma {:induction false} ListenFailsExactly(gc: Gc, gcPort: int32, m: Message, s: Surroundings)
    requires Acceptable(m)
    ensures Listen(gc, gcPort, m, s).Crashed? <==>
              || m.senderId == 0
              || (m.senderId !in gc.conns && m.senderPort == gcPort)
              || (m.FileMsg? && m.size != 1056)
              || (!m.Command? && if m.senderId in gc.conns then gc.conns[m.senderId].satSocket < 0
                                 else s.arrival.dial.fd < 0)
  {
    hide FileDump;
  }

  /** One iteration of listen on the receive buffer: what decode rejects is skipped. */
  function ListenToBytes(gc: Gc, gcPort: int32, b: Bytes, size: nat, s: Surroundings): Listening
    requires |b| == BUFFER_SIZE && SoundLength(Decode(b, size))
  {
    match Decode(b, size)
    case Rejected(_) => Listened(gc, [])
    case Aborted => Crashed
    case Decoded(m) => Listen(gc, gcPort, m, s)
  }

  /** A stray datagram is skipped. */
  lemma {:induction false} StraysAreSkipped(gc: Gc, gcPort: int32, b: Bytes, size: nat, s: Surroundings)
    requires |b| == BUFFER_SIZE && size > 0 && Stray(b, size)
    ensures SoundLength(Decode(b, size)) && ListenToBytes(gc, gcPort, b, size, s) == Listened(gc, [])
  {
    hide Listen;
  }

  /** Decoding itself ends ground control exactly for an empty datagram, and for a proper header with a
      negative id or no port above zero. */
  lemma {:induction false} DecodingEndsGroundControl(gc: Gc, gcPort: int32, b: Bytes, size: nat, s: Surroundings)
    requires |b| == BUFFER_SIZE && SoundLength(Decode(b, size))
    ensures size == 0 || (!Stray(b, size) && (I32At(b, 8) < 0 || I32At(b, 12) <= 0)) ==>
              ListenToBytes(gc, gcPort, b, size, s).Crashed?
    ensures size > 0 && (Stray(b, size) || (I32At(b, 8) >= 0 && I32At(b, 12) > 0)) ==>
              Decode(b, size).Decoded? || ListenToBytes(gc, gcPort, b, size, s) == Listened(gc, [])
  {
    hide Listen;
  }

  /** The wire is transparent: the frame of any message a node may send, over whatever the buffer held,
      has exactly the effect the message itself is given everywhere else in this model. */
  lemma {:induction false} FrameActsAsMessage(gc: Gc, gcPort: int32, m: Message, pad: Bytes, stale: Bytes,
                                              s: Surroundings)
    requires Acceptable(m) && |pad| == 3 && |m.Frame(pad) + stale| == BUFFER_SIZE
    ensures SoundLength(Decode(m.Frame(pad) + stale, |m.Frame(pad)|))
    ensures ListenToBytes(gc, gcPort, m.Frame(pad) + stale, |m.Frame(pad)|, s) == Listen(gc, gcPort, m, s)
  {
    hide Decode, Listen;
    DecodeUndoesSerialize(m, pad, stale);
  }

  class Receiver {
    var buffer: map<int, string>
    const gcPort: int32
    const outputQueue: MessageQueue<SatOutput>

    constructor (gcPort: int32, outputQueue: MessageQueue<SatOutput>)
      ensures buffer == map[] && this.gcPort == gcPort && this.outputQueue == outputQueue
    {
      this.gcPort, this.outputQueue := gcPort, outputQueue;
      buffer := map[];
    }

    function View(handler: GCConnectionHandler): Gc
      reads this, handler, handler.satellites.Values, outputQueue
    {
      Gc(handler.View(), buffer, outputQueue.messageQueue)
    }

    method HandleFileDump(m: Message)
      requires m.FileMsg? && Acceptable(m)
      modifies this, outputQueue
      ensures forall conns: Conns ::
                Gc(conns, buffer, outputQueue.messageQueue) ==
                  FileDump(Gc(conns, old(buffer), old(outputQueue.messageQueue)), m)
    {
      hide DataDecoder;
      var chunk := BufferOf(buffer, m.senderId) + m.data[..m.len];
      buffer := buffer[m.senderId := chunk];
      if m.last {
        var parsed := DecodeData(m.senderId, chunk, true);
        outputQueue.PushBack(parsed);
        buffer := buffer[m.senderId := []];
      }
    }

    lemma {:induction false} KnownGetsNoGreeting(conns: Conns, m: Message, s: Surroundings)
      ensures m.senderId in conns ==> AddSends(conns, m.senderPort, s.ip, m.senderId, gcPort, s.arrival) == []
    {
    }

    method AddConnection(m: Message, handler: GCConnectionHandler, s: Surroundings) returns (sent: seq<Packet>)
      requires handler.Valid() && handler.gcPort == gcPort && handler.outputQueue == outputQueue
      requires Acceptable(m) && !MeetAborts(View(handler), gcPort, m)
      modifies handler, handler.satellites.Values, outputQueue
      ensures handler.Valid()
      ensures View(handler) == Meet(old(View(handler)), gcPort, m, s)
      ensures sent == AddSends(old(handler.View()), m.senderPort, s.ip, m.senderId, gcPort, s.arrival)
    {
      hide Heard, Added, AddSends;
      sent := [];
      ghost var conns := handler.View();
      assert m.senderId in conns ==> AddSends(conns, m.senderPort, s.ip, m.senderId, gcPort, s.arrival) == [] by {
        KnownGetsNoGreeting(conns, m, s);
      }
      var known := handler.HasConnection(m.senderId);
      if !known {
        var aborted;
        aborted, sent := handler.AddConnection(m.senderPort, s.ip, m.senderId, s.arrival);
        handler.HeartbeatSat(m.senderId, s.beat);
      } else {
        handler.HeartbeatSat(m.senderId, s.beat);
        outputQueue.PushBack(Status(m.senderId, true));
      }
    }

    /** The loop body: a datagram of at most 2048 bytes arrives in the buffer all iterations share. */
    method ListenToDatagram(buf: array<octet>, frame: Bytes, handler: GCConnectionHandler, s: Surroundings)
      returns (crashed: bool, sent: seq<Packet>)
      requires handler.Valid() && handler.gcPort == gcPort && handler.outputQueue == outputQueue
      requires |frame| <= buf.Length == BUFFER_SIZE
      requires SoundLength(Decode(frame + buf[..][|frame|..], |frame|))
      modifies this, handler, handler.satellites.Values, outputQueue, buf
      ensures handler.Valid() && buf[..] == frame + old(buf[..])[|frame|..]
      ensures crashed == ListenToBytes(old(View(handler)), gcPort, buf[..], |frame|, s).Crashed?
      ensures !crashed ==>
                Listened(View(handler), sent) == ListenToBytes(old(View(handler)), gcPort, buf[..], |frame|, s)
    {
      hide Decode, Listen;
      crashed, sent := false, [];
      ReceiveInto(buf, frame);
      var r := DecodeBuffer(buf, |frame|);
      assert View(handler) == old(View(handler));
      if r.Aborted? {
        return true, [];
      }
      if r.Decoded? {
        assert Acceptable(r.message) by { DecodedIsSendable(buf[..], |frame|); }
        crashed, sent := ListenOnce(r.message, handler, s);
      }
    }

    /** The loop body after decode. */
    method ListenOnce(m: Message, handler: GCConnectionHandler, s: Surroundings)
      returns (crashed: bool, sent: seq<Packet>)
      requires handler.Valid() && handler.gcPort == gcPort && handler.outputQueue == outputQueue
      requires Acceptable(m)
      modifies this, handler, handler.satellites.Values, outputQueue
      ensures handler.Valid()
      ensures crashed == old(Listen(View(handler), gcPort, m, s)).Crashed?
      ensures !crashed ==> Listened(View(handler), sent) == old(Listen(View(handler), gcPort, m, s))
    {
      hide FileDump, Heard, Added, AddSends, SatSends, SendAborts, AddAborts;
      crashed, sent := false, [];
      var known := handler.HasConnection(m.senderId);
      if m.senderId <= 0 || (!known && m.senderPort == gcPort) {
        return true, [];
      }
      sent := AddConnection(m, handler, s);
      var ok, reply := Ack(m, handler);
      crashed := !ok;
      sent := sent + reply;
    }

    method Ack(m: Message, handler: GCConnectionHandler) returns (ok: bool, sent: seq<Packet>)
      requires handler.Valid() && handler.gcPort == gcPort && handler.outputQueue == outputQueue
      requires Acceptable(m)
      modifies this, outputQueue
      ensures ok <==> !Handled(m) || ((m.FileMsg? ==> m.size == Message.FILE_MSG_SIZE)
                                      && !SendAborts(old(handler.View()), m.senderId))
      ensures handler.View() == old(handler.View())
      ensures ok && m.FileMsg? ==> View(handler) == FileDump(old(View(handler)), m)
      ensures ok && !m.FileMsg? ==> View(handler) == old(View(handler))
      ensures ok ==> sent == if Handled(m) then SatSends(old(handler.View()), m.senderId, Reply(gcPort)) else []
    {
      ok, sent := true, [];
      var handled := false;
      if m.FileMsg? {
        if m.size != Message.FILE_MSG_SIZE {
          return false, [];
        }
        HandleFileDump(m);
        handled := true;
      } else if m.Heartbeat? {
        handled := true;
      } else if m.Ack? {
        handled := true;
      }
      if handled {
        var aborted;
        aborted, sent := handler.SendMessageToSat(m.senderId, Reply(gcPort));
        ok := !aborted;
      }
    }
  }
}
