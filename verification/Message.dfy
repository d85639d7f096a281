/** The four wire messages and their byte encoding. */
module Messages {
  import opened Config

  /** A byte is a character below 256, so log text and wire bytes are the same sequences. */
  type octet = c: char | c as int < 256
  type Bytes = seq<octet>

  /** What a file message's fixed array holds, and an opaque 8-byte double. */
  type Block = b: Bytes | |b| == FILE_CHUNK_SIZE witness Zeros(FILE_CHUNK_SIZE)
  type Double = b: Bytes | |b| == 8 witness Zeros(8)
  type int16 = n: int | -0x8000 <= n < 0x8000
  type int32 = n: int | -0x8000_0000 <= n < 0x8000_0000
  type uint32 = n: int | 0 <= n < 0x1_0000_0000

  /** An address as inet_ntop writes it. */
  type Address = s: string | s != "" witness "0.0.0.0"

  function Zeros(n: nat): (b: Bytes)
    ensures |b| == n
  {
    seq(n, _ => 0 as char)
  }

  /** The type tag in the header is fixed by the constructor; size is carried as it is. */
  datatype Message =
    | Heartbeat(size: uint32, senderId: int32, senderPort: int32, alive: bool)
    | FileMsg(size: uint32, senderId: int32, senderPort: int32, data: Block, len: int16, last: bool)
    | Ack(size: uint32, senderId: int32, senderPort: int32, received: bool)
    | Command(size: uint32, senderId: int32, senderPort: int32,
              x: Double, y: Double, z: Double, vx: Double, vy: Double, vz: Double)
  {
    function Tag(): int {
      match this
      case Heartbeat(_, _, _, _) => 0
      case FileMsg(_, _, _, _, _, _) => 1
      case Ack(_, _, _, _) => 2
      case Command(_, _, _, _, _, _, _, _, _) => 3
    }

    /** Header, sender id and sender port. The header's three padding bytes hold whatever memory held. */
    function Envelope(pad: Bytes): (e: Bytes)
      requires |pad| == 3
      ensures |e| == 16
    {
      HeaderBytes(Tag(), pad, size) + I32Bytes(senderId) + I32Bytes(senderPort)
    }

    /** The wire frame. */
    function Frame(pad: Bytes): Bytes
      requires |pad| == 3
    {
      match this
      case Heartbeat(_, _, _, alive) => Envelope(pad) + BoolBytes(alive)
      case FileMsg(_, _, _, data, len, last) => Envelope(pad) + data + I16Bytes(len) + BoolBytes(last)
      case Ack(_, _, _, received) => Envelope(pad) + BoolBytes(received)
      case Command(_, _, _, x, y, z, vx, vy, vz) => Envelope(pad) + x + y + z + vx + vy + vz
    }

    /** The in-memory sizes the sender stores in the header and the receivers assert. */
    static const HEARTBEAT_SIZE: uint32 := 32
    static const FILE_MSG_SIZE: uint32 := 1056
    static const ACK_SIZE: uint32 := 32
    static const COMMAND_SIZE: uint32 := 72
  }

  /** Position and velocity as the opaque doubles a command carries. */
  datatype Motion = Motion(x: Double, y: Double, z: Double, vx: Double, vy: Double, vz: Double)

  /** The bytes of a chunk that count. */
  function Payload(m: Message): Bytes
    requires m.FileMsg? && 0 <= m.len <= FILE_CHUNK_SIZE
  {
    m.data[..m.len]
  }

  /** A message on its way to the node listening under id to. */
  datatype Packet = Packet(to: int, msg: Message)

  function AddressAll(to: int, ms: seq<Message>): seq<Packet> {
    seq(|ms|, i requires 0 <= i < |ms| => Packet(to, ms[i]))
  }

  function Octet(n: int): octet
    requires 0 <= n < 256
  {
    n as char
  }

  function BoolBytes(b: bool): Bytes {
    if b then [Octet(1)] else [Octet(0)]
  }

  /** Little-endian, as the hosts store integers. */
  function U16Bytes(n: int): (b: Bytes)
    requires 0 <= n < 0x1_0000
    ensures |b| == 2
  {
    [Octet(n % 256), Octet(n / 256)]
  }

  function U32Bytes(n: uint32): (b: Bytes)
    ensures |b| == 4
  {
    U16Bytes(n % 0x1_0000) + U16Bytes(n / 0x1_0000)
  }

  /** Two's complement. */
  function I16Bytes(n: int16): (b: Bytes)
    ensures |b| == 2
  {
    U16Bytes(if n < 0 then n + 0x1_0000 else n)
  }

  function I32Bytes(n: int32): (b: Bytes)
    ensures |b| == 4
  {
    U32Bytes(if n < 0 then n + 0x1_0000_0000 else n)
  }

  function HeaderBytes(tag: int, pad: Bytes, size: uint32): (b: Bytes)
    requires 0 <= tag < 256 && |pad| == 3
    ensures |b| == 8
  {
    [Octet(tag)] + pad + U32Bytes(size)
  }

  /** The growing byte vector every serialize method fills. */
  class ByteBuffer {
    var bytes: Bytes

    constructor ()
      ensures bytes == []
    {
      bytes := [];
    }

    method AppendBytes(data: Bytes)
      requires |data| > 0
      modifies this
      ensures bytes == old(bytes) + data
    {
      bytes := bytes + data;
    }
  }

  /** What every serialize method appends first. */
  method AppendEnvelope(buffer: ByteBuffer, m: Message, pad: Bytes)
    requires |pad| == 3 && buffer.bytes == []
    modifies buffer
    ensures buffer.bytes == m.Envelope(pad)
  {
    buffer.AppendBytes(HeaderBytes(m.Tag(), pad, m.size));
    buffer.AppendBytes(I32Bytes(m.senderId));
    buffer.AppendBytes(I32Bytes(m.senderPort));
  }

  /** The four serialize methods: field after field, in declaration order. */
  method Serialize(m: Message, pad: Bytes) returns (frame: Bytes)
    requires |pad| == 3
    ensures frame == m.Frame(pad)
  {
    var buffer := new ByteBuffer();
    AppendEnvelope(buffer, m, pad);
    if m.Heartbeat? {
      buffer.AppendBytes(BoolBytes(m.alive));
    } else if m.FileMsg? {
      buffer.AppendBytes(m.data);
      buffer.AppendBytes(I16Bytes(m.len));
      buffer.AppendBytes(BoolBytes(m.last));
    } else if m.Ack? {
      buffer.AppendBytes(BoolBytes(m.received));
    } else {
      buffer.AppendBytes(m.x);
      buffer.AppendBytes(m.y);
      buffer.AppendBytes(m.z);
      buffer.AppendBytes(m.vx);
      buffer.AppendBytes(m.vy);
      buffer.AppendBytes(m.vz);
    }
    return buffer.bytes;
  }
}
