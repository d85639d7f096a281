/** decode, and what it makes of the frames serialize writes. */
module Serializers {
  import opened Config
  import opened Messages

  datatype Reason = BufferTooSmall | InvalidSize | UnknownType

  /** Rejected stands for the exceptions the receive loops catch, Aborted for a failed assertion. */
  datatype Outcome = Decoded(message: Message) | Rejected(reason: Reason) | Aborted

  function U16At(b: Bytes, o: nat): (n: int)
    requires o + 2 <= |b|
    ensures 0 <= n < 0x1_0000
  {
    b[o] as int + 0x100 * b[o + 1] as int
  }

  function U32At(b: Bytes, o: nat): uint32
    requires o + 4 <= |b|
  {
    U16At(b, o) + 0x1_0000 * U16At(b, o + 2)
  }

  function I16At(b: Bytes, o: nat): int16
    requires o + 2 <= |b|
  {
    var n := U16At(b, o);
    if n < 0x8000 then n else n - 0x1_0000
  }

  function I32At(b: Bytes, o: nat): int32
    requires o + 4 <= |b|
  {
    var n := U32At(b, o);
    if n < 0x8000_0000 then n else n - 0x1_0000_0000
  }

  predicate BoolAt(b: Bytes, o: nat)
    requires o < |b|
  {
    b[o] as int != 0
  }

  function DoubleAt(b: Bytes, o: nat): Double
    requires o + 8 <= |b|
  {
    b[o..o + 8]
  }

  /** The fields behind a header with tag 0 to 3. */
  function Fields(b: Bytes): Message
    requires |b| == BUFFER_SIZE && b[0] as int <= 3
  {
    var size, id, port := U32At(b, 4), I32At(b, 8), I32At(b, 12);
    var tag := b[0] as int;
    if tag == 0 then Heartbeat(size, id, port, BoolAt(b, 16))
    else if tag == 1 then
      FileMsg(size, id, port, b[16..16 + FILE_CHUNK_SIZE], I16At(b, 16 + FILE_CHUNK_SIZE),
              BoolAt(b, 18 + FILE_CHUNK_SIZE))
    else if tag == 2 then Ack(size, id, port, BoolAt(b, 16))
    else Command(size, id, port, DoubleAt(b, 16), DoubleAt(b, 24), DoubleAt(b, 32),
                 DoubleAt(b, 40), DoubleAt(b, 48), DoubleAt(b, 56))
  }

  /** decode on the whole receive buffer, of which this datagram filled the first size bytes. Past the
      header nothing looks at size again. */
  function Decode(b: Bytes, size: nat): Outcome
    requires |b| == BUFFER_SIZE
  {
    if size == 0 then Aborted
    else if size < 8 then Rejected(BufferTooSmall)
    else if U32At(b, 4) < 8 || U32At(b, 4) > 4096 then Rejected(InvalidSize)
    else if b[0] as int > 3 then Rejected(UnknownType)
    else if I32At(b, 8) < 0 || I32At(b, 12) <= 0 then Aborted
    else Decoded(Fields(b))
  }

  /** decode as it runs: an offset moves over the buffer. */
  method DecodeBuffer(buf: array<octet>, size: nat) returns (r: Outcome)
    requires buf.Length == BUFFER_SIZE
    ensures r == Decode(buf[..], size)
  {
    if size == 0 {
      return Aborted;
    }
    if size < 8 {
      return Rejected(BufferTooSmall);
    }
    var tag, headSize := buf[0] as int, U32At(buf[..], 4);
    var offset := 8;
    if headSize < 8 || headSize > 4096 {
      return Rejected(InvalidSize);
    }
    var senderId := I32At(buf[..], offset);
    offset := offset + 4;
    var senderPort := I32At(buf[..], offset);
    offset := offset + 4;
    if tag > 3 {
      return Rejected(UnknownType);
    }
    if senderId < 0 || senderPort <= 0 {
      return Aborted;
    }
    if tag == 0 {
      r := Decoded(Heartbeat(headSize, senderId, senderPort, BoolAt(buf[..], offset)));
    } else if tag == 1 {
      var data := buf[..][offset..offset + FILE_CHUNK_SIZE];
      offset := offset + FILE_CHUNK_SIZE;
      var len := I16At(buf[..], offset);
      offset := offset + 2;
      r := Decoded(FileMsg(headSize, senderId, senderPort, data, len, BoolAt(buf[..], offset)));
    } else if tag == 2 {
      r := Decoded(Ack(headSize, senderId, senderPort, BoolAt(buf[..], offset)));
    } else {
      r := DecodeCommand(buf, headSize, senderId, senderPort, offset);
    }
  }

  method DecodeCommand(buf: array<octet>, headSize: uint32, senderId: int32, senderPort: int32, start: nat)
    returns (r: Outcome)
    requires buf.Length == BUFFER_SIZE && start + 48 <= BUFFER_SIZE
    ensures r == Decoded(Command(headSize, senderId, senderPort,
                                 DoubleAt(buf[..], start), DoubleAt(buf[..], start + 8), DoubleAt(buf[..], start + 16),
                                 DoubleAt(buf[..], start + 24), DoubleAt(buf[..], start + 32),
                                 DoubleAt(buf[..], start + 40)))
  {
    var offset := start;
    var x := DoubleAt(buf[..], offset);
    offset := offset + 8;
    var y := DoubleAt(buf[..], offset);
    offset := offset + 8;
    var z := DoubleAt(buf[..], offset);
    offset := offset + 8;
    var vx := DoubleAt(buf[..], offset);
    offset := offset + 8;
    var vy := DoubleAt(buf[..], offset);
    offset := offset + 8;
    var vz := DoubleAt(buf[..], offset);
    r := Decoded(Command(headSize, senderId, senderPort, x, y, z, vx, vy, vz));
  }

  /** A datagram lands on the front of the receive buffer; the rest keeps what earlier ones left. */
  method ReceiveInto(buf: array<octet>, frame: Bytes)
    requires |frame| <= buf.Length
    modifies buf
    ensures buf[..] == frame + old(buf[..])[|frame|..]
  {
    for i := 0 to |frame|
      invariant forall k :: 0 <= k < i ==> buf[k] == frame[k]
      invariant forall k :: i <= k < buf.Length ==> buf[k] == old(buf[k])
    {
      buf[i] := frame[i];
    }
  }

  /** What the senders guarantee and decode insists on. */
  predicate Sendable(m: Message) {
    m.senderId >= 0 && m.senderPort > 0 && 8 <= m.size <= 4096
  }

  /** A datagram neither receive loop can use: shorter than a header, of no known type, or with a size field
      outside 8 to 4096. */
  predicate Stray(b: Bytes, size: nat)
    requires |b| == BUFFER_SIZE
  {
    size < 8 || b[0] as int > 3 || U32At(b, 4) < 8 || U32At(b, 4) > 4096
  }

  /** Every datagram but an empty one is rejected exactly if it is such a stray; decoding ends the process
      exactly for an empty one, and for one with a proper header but a negative id or no port above zero. */
  lemma {:induction false} DecodeTellsApart(b: Bytes, size: nat)
    requires |b| == BUFFER_SIZE
    ensures Decode(b, size).Rejected? <==> size > 0 && Stray(b, size)
    ensures Decode(b, size).Aborted? <==>
              size == 0 || (!Stray(b, size) && (I32At(b, 8) < 0 || I32At(b, 12) <= 0))
  {
  }

  lemma {:induction false} DecodedIsSendable(b: Bytes, size: nat)
    requires |b| == BUFFER_SIZE && Decode(b, size).Decoded?
    ensures Sendable(Decode(b, size).message)
  {
  }

  lemma {:induction false} U16RoundTrip(n: int, b: Bytes, o: nat)
    requires 0 <= n < 0x1_0000 && o + 2 <= |b| && b[o..o + 2] == U16Bytes(n)
    ensures U16At(b, o) == n
  {
    assert b[o] == b[o..o + 2][0] && b[o + 1] == b[o..o + 2][1];
  }

  lemma {:induction false} U32RoundTrip(n: uint32, b: Bytes, o: nat)
    requires o + 4 <= |b| && b[o..o + 4] == U32Bytes(n)
    ensures U32At(b, o) == n
  {
    assert b[o..o + 2] == U32Bytes(n)[..2];
    assert b[o + 2..o + 4] == U32Bytes(n)[2..];
    U16RoundTrip(n % 0x1_0000, b, o);
    U16RoundTrip(n / 0x1_0000, b, o + 2);
  }

  lemma {:induction false} I32RoundTrip(n: int32, b: Bytes, o: nat)
    requires o + 4 <= |b| && b[o..o + 4] == I32Bytes(n)
    ensures I32At(b, o) == n
  {
    U32RoundTrip(if n < 0 then n + 0x1_0000_0000 else n, b, o);
  }

  lemma {:induction false} I16RoundTrip(n: int16, b: Bytes, o: nat)
    requires o + 2 <= |b| && b[o..o + 2] == I16Bytes(n)
    ensures I16At(b, o) == n
  {
    U16RoundTrip(if n < 0 then n + 0x1_0000 else n, b, o);
  }

  /** Every frame fits the receive buffer. */
  lemma {:induction false} FrameFits(m: Message, pad: Bytes)
    requires |pad| == 3
    ensures 17 <= |m.Frame(pad)| <= 19 + FILE_CHUNK_SIZE < BUFFER_SIZE
  {
  }

  /** The number four bytes hold, least significant first. */
  function LittleEndian(b: Bytes, o: nat): int
    requires o + 4 <= |b|
  {
    b[o] as int + 0x100 * b[o + 1] as int + 0x1_0000 * b[o + 2] as int + 0x100_0000 * b[o + 3] as int
  }

  lemma {:induction false} WordLayout(n: uint32)
    ensures LittleEndian(U32Bytes(n), 0) == n
  {
  }

  /** Where the fields of a frame stand: the type byte at 0, then padding, size at 4, sender id at 8 and port
      at 12, negative numbers in two's complement. */
  lemma {:induction false} EnvelopeLayout(m: Message, pad: Bytes)
    requires |pad| == 3
    ensures var e := m.Envelope(pad);
            && e[0] as int == (if m.Heartbeat? then 0 else if m.FileMsg? then 1 else if m.Ack? then 2 else 3)
            && e[1..4] == pad && LittleEndian(e, 4) == m.size
            && LittleEndian(e, 8) == (if m.senderId < 0 then m.senderId + 0x1_0000_0000 else m.senderId)
            && LittleEndian(e, 12) == (if m.senderPort < 0 then m.senderPort + 0x1_0000_0000 else m.senderPort)
  {
    var e := m.Envelope(pad);
    var id: uint32 := if m.senderId < 0 then m.senderId + 0x1_0000_0000 else m.senderId;
    var port: uint32 := if m.senderPort < 0 then m.senderPort + 0x1_0000_0000 else m.senderPort;
    WordLayout(m.size);
    WordLayout(id);
    WordLayout(port);
    hide U32Bytes;
    assert e[4..8] == U32Bytes(m.size) && e[8..12] == U32Bytes(id) && e[12..16] == U32Bytes(port);
    assert forall i :: 0 <= i < 4 ==> e[4 + i] == e[4..8][i] && e[8 + i] == e[8..12][i] && e[12 + i] == e[12..16][i];
  }

  /** The rest of a frame: a flag is 0 or 1, a chunk is followed by its length and a flag, coordinates come
      in order. */
  lemma {:induction false} FlagLayout(m: Message, pad: Bytes)
    requires |pad| == 3 && (m.Heartbeat? || m.Ack?)
    ensures var f := m.Frame(pad);
            && |f| == 17 && f[..16] == m.Envelope(pad)
            && f[16] as int == if (if m.Heartbeat? then m.alive else m.received) then 1 else 0
  {
  }

  lemma {:induction false} FileLayout(m: Message, pad: Bytes)
    requires |pad| == 3 && m.FileMsg?
    ensures var f := m.Frame(pad);
            && |f| == 1043 && f[..16] == m.Envelope(pad) && f[16..1040] == m.data
            && f[1040] as int + 0x100 * f[1041] as int == (if m.len < 0 then m.len + 0x1_0000 else m.len)
            && f[1042] as int == if m.last then 1 else 0
  {
    var f, e := m.Frame(pad), m.Envelope(pad);
    Piece(e + m.data + I16Bytes(m.len), BoolBytes(m.last), f);
    Piece(e + m.data, I16Bytes(m.len), f);
    Piece(e, m.data, f);
    assert f[1040] == f[1040..1042][0] && f[1041] == f[1040..1042][1] && f[1042] == f[1042..1043][0];
  }

  lemma {:induction false} CommandLayout(m: Message, pad: Bytes)
    requires |pad| == 3 && m.Command?
    ensures var f := m.Frame(pad);
            && |f| == 64 && f[..16] == m.Envelope(pad)
            && f[16..24] == m.x && f[24..32] == m.y && f[32..40] == m.z
            && f[40..48] == m.vx && f[48..56] == m.vy && f[56..64] == m.vz
  {
    var f, e := m.Frame(pad), m.Envelope(pad);
    Piece(e + m.x + m.y + m.z + m.vx + m.vy, m.vz, f);
    Piece(e + m.x + m.y + m.z + m.vx, m.vy, f);
    Piece(e + m.x + m.y + m.z, m.vx, f);
    Piece(e + m.x + m.y, m.z, f);
    Piece(e + m.x, m.y, f);
    Piece(e, m.x, f);
  }

  lemma {:induction false} EnvelopeReadsBack(m: Message, pad: Bytes, b: Bytes)
    requires |pad| == 3 && |b| == BUFFER_SIZE && b[..16] == m.Envelope(pad)
    ensures b[0] as int == m.Tag() && b[1..4] == pad
    ensures U32At(b, 4) == m.size && I32At(b, 8) == m.senderId && I32At(b, 12) == m.senderPort
  {
    var e := m.Envelope(pad);
    assert b[0] == e[0] && b[1..4] == e[1..4];
    assert b[4..8] == e[4..8] == U32Bytes(m.size);
    assert b[8..12] == e[8..12] == I32Bytes(m.senderId);
    assert b[12..16] == e[12..16] == I32Bytes(m.senderPort);
    U32RoundTrip(m.size, b, 4);
    I32RoundTrip(m.senderId, b, 8);
    I32RoundTrip(m.senderPort, b, 12);
  }

  /** The fields of a frame read back from a buffer it was written over, whatever lies behind it. */
  lemma {:induction false} FieldsReadBack(m: Message, pad: Bytes, b: Bytes)
    requires |pad| == 3 && |b| == BUFFER_SIZE
    requires m.Frame(pad) <= b
    ensures b[0] as int == m.Tag() && b[1..4] == pad && Fields(b) == m
  {
    assert b[..16] == m.Envelope(pad) by {
      assert m.Frame(pad)[..16] == m.Envelope(pad);
    }
    EnvelopeReadsBack(m, pad, b);
    match m
    case Heartbeat(_, _, _, _) =>
    case Ack(_, _, _, _) =>
    case FileMsg(_, _, _, _, _, _) => FileMsgReadsBack(m, pad, b);
    case Command(_, _, _, _, _, _, _, _, _) => CommandReadsBack(m, pad, b);
  }

  lemma {:induction false} FileMsgReadsBack(m: Message, pad: Bytes, b: Bytes)
    requires |pad| == 3 && |b| == BUFFER_SIZE && m.FileMsg?
    requires m.Frame(pad) <= b
    ensures b[16..16 + FILE_CHUNK_SIZE] == m.data && I16At(b, 16 + FILE_CHUNK_SIZE) == m.len
    ensures BoolAt(b, 18 + FILE_CHUNK_SIZE) == m.last
  {
    var e := m.Envelope(pad);
    Piece(e + m.data + I16Bytes(m.len), BoolBytes(m.last), b);
    Piece(e + m.data, I16Bytes(m.len), b);
    Piece(e, m.data, b);
    I16RoundTrip(m.len, b, 16 + FILE_CHUNK_SIZE);
  }

  lemma {:induction false} CommandReadsBack(m: Message, pad: Bytes, b: Bytes)
    requires |pad| == 3 && |b| == BUFFER_SIZE && m.Command?
    requires m.Frame(pad) <= b
    ensures DoubleAt(b, 16) == m.x && DoubleAt(b, 24) == m.y && DoubleAt(b, 32) == m.z
    ensures DoubleAt(b, 40) == m.vx && DoubleAt(b, 48) == m.vy && DoubleAt(b, 56) == m.vz
  {
    var e := m.Envelope(pad);
    Piece(e + m.x + m.y + m.z + m.vx + m.vy, m.vz, b);
    Piece(e + m.x + m.y + m.z + m.vx, m.vy, b);
    Piece(e + m.x + m.y + m.z, m.vx, b);
    Piece(e + m.x + m.y, m.z, b);
    Piece(e + m.x, m.y, b);
    Piece(e, m.x, b);
  }

  /** What was appended after before is found behind it. */
  lemma {:induction false} Piece(before: Bytes, piece: Bytes, b: Bytes)
    requires before + piece <= b
    ensures before <= b && b[|before|..|before| + |piece|] == piece
  {
    assert b[..|before + piece|] == before + piece;
    assert b[..|before|] == (before + piece)[..|before|];
    assert b[|before|..|before| + |piece|] == (before + piece)[|before|..];
  }

  /** Codec round trip in a reused buffer: for every sendable message of the four types and whatever
      earlier datagrams left behind it, decode gives the message back. */
  lemma {:induction false} DecodeUndoesSerialize(m: Message, pad: Bytes, stale: Bytes)
    requires |pad| == 3 && Sendable(m)
    requires |m.Frame(pad) + stale| == BUFFER_SIZE
    ensures Decode(m.Frame(pad) + stale, |m.Frame(pad)|) == Decoded(m)
  {
    FieldsReadBack(m, pad, m.Frame(pad) + stale);
    EnvelopeReadsBack(m, pad, m.Frame(pad) + stale) by {
      assert (m.Frame(pad) + stale)[..16] == m.Envelope(pad);
    }
  }

  /** serialize is injective, and more: no frame is a prefix of a frame of another message. */
  lemma {:induction false} FramesArePrefixFree(m: Message, n: Message, pad: Bytes, pad': Bytes)
    requires |pad| == |pad'| == 3
    requires m.Frame(pad) <= n.Frame(pad')
    ensures m == n && pad == pad'
  {
    FrameFits(n, pad');
    var b := n.Frame(pad') + Zeros(BUFFER_SIZE - |n.Frame(pad')|);
    FieldsReadBack(m, pad, b);
    FieldsReadBack(n, pad', b);
  }

  lemma {:induction false} U16Rewrites(b: Bytes, o: nat)
    requires o + 2 <= |b|
    ensures U16Bytes(U16At(b, o)) == b[o..o + 2]
  {
    var lo, hi := b[o] as int, b[o + 1] as int;
    assert U16At(b, o) == lo + 0x100 * hi;
    assert U16At(b, o) % 256 == lo && U16At(b, o) / 256 == hi;
  }

  lemma {:induction false} U32Rewrites(b: Bytes, o: nat)
    requires o + 4 <= |b|
    ensures U32Bytes(U32At(b, o)) == b[o..o + 4]
  {
    var lo, hi := U16At(b, o), U16At(b, o + 2);
    U16Rewrites(b, o);
    U16Rewrites(b, o + 2);
    assert U32At(b, o) % 0x1_0000 == lo && U32At(b, o) / 0x1_0000 == hi;
    assert b[o..o + 4] == b[o..o + 2] + b[o + 2..o + 4];
  }

  /** The flag byte of the three messages that end in a bool. */
  predicate CleanFlag(b: Bytes)
    requires |b| == BUFFER_SIZE
  {
    b[0] as int == 3 || b[if b[0] as int == 1 then 18 + FILE_CHUNK_SIZE else 16] as int <= 1
  }

  lemma {:induction false} EnvelopeRewrites(b: Bytes)
    requires |b| == BUFFER_SIZE && b[0] as int <= 3
    ensures Fields(b).Envelope(b[1..4]) == b[..16]
  {
    var m := Fields(b);
    U32Rewrites(b, 4);
    I32Rewrites(b, 8);
    I32Rewrites(b, 12);
    assert HeaderBytes(m.Tag(), b[1..4], m.size) == b[..8];
    Abut(b, m.senderId, m.senderPort);
  }

  lemma {:induction false} Abut(b: Bytes, id: int32, port: int32)
    requires |b| == BUFFER_SIZE && I32Bytes(id) == b[8..12] && I32Bytes(port) == b[12..16]
    ensures b[..8] + I32Bytes(id) + I32Bytes(port) == b[..16]
  {
    assert b[..8] + b[8..12] + b[12..16] == b[..16];
  }

  lemma {:induction false} I32Rewrites(b: Bytes, o: nat)
    requires o + 4 <= |b|
    ensures I32Bytes(I32At(b, o)) == b[o..o + 4]
  {
    U32Rewrites(b, o);
    var n: int := I32At(b, o);
    assert U32At(b, o) == (if n < 0 then n + 0x1_0000_0000 else n) as int;
  }

  lemma {:induction false} FileMsgRewrites(b: Bytes)
    requires |b| == BUFFER_SIZE && b[0] as int == 1
    ensures Fields(b).Frame(b[1..4]) == b[..18 + FILE_CHUNK_SIZE] + BoolBytes(BoolAt(b, 18 + FILE_CHUNK_SIZE))
  {
    EnvelopeRewrites(b);
    U16Rewrites(b, 16 + FILE_CHUNK_SIZE);
    var m := Fields(b);
    assert I16Bytes(m.len) == b[16 + FILE_CHUNK_SIZE..18 + FILE_CHUNK_SIZE];
    assert b[..18 + FILE_CHUNK_SIZE] == b[..16] + m.data + I16Bytes(m.len);
  }

  lemma {:induction false} CommandRewrites(b: Bytes)
    requires |b| == BUFFER_SIZE && b[0] as int == 3
    ensures Fields(b).Frame(b[1..4]) == b[..64]
  {
    EnvelopeRewrites(b);
    assert b[..64] == b[..16] + b[16..24] + b[24..32] + b[32..40] + b[40..48] + b[48..56] + b[56..64];
  }

  /** The other direction: what decode accepts is the frame of its result exactly when the flag byte
      holds a proper bool; any other value there is normalised. */
  lemma {:induction false} SerializeUndoesDecode(b: Bytes, size: nat)
    requires |b| == BUFFER_SIZE && Decode(b, size).Decoded?
    ensures var m := Decode(b, size).message;
            Sendable(m) && (m.Frame(b[1..4]) <= b <==> CleanFlag(b))
  {
    if b[0] as int == 1 {
      FileMsgRewrites(b);
      FlagRewrites(b, 18 + FILE_CHUNK_SIZE);
    } else if b[0] as int == 3 {
      CommandRewrites(b);
    } else {
      EnvelopeRewrites(b);
      FlagRewrites(b, 16);
    }
  }

  /** A datagram is the frame of what it decodes to exactly if its flag byte, if any, is clean and its
      length is the frame's. */
  lemma {:induction false} DatagramIsFrame(b: Bytes, size: nat)
    requires |b| == BUFFER_SIZE && size <= BUFFER_SIZE && Decode(b, size).Decoded?
    ensures var frame := Decode(b, size).message.Frame(b[1..4]);
            frame == b[..size] <==> CleanFlag(b) && size == |frame|
  {
    hide Decode, CleanFlag;
    SerializeUndoesDecode(b, size);
    var frame := Decode(b, size).message.Frame(b[1..4]);
    assert frame <= b <==> |frame| <= |b| && frame == b[..|frame|];
  }

  /** Past the header the length of the datagram does not matter. */
  lemma {:induction false} LengthIsForgotten(b: Bytes, size: nat, size': nat)
    requires |b| == BUFFER_SIZE && size >= 8 && size' >= 8
    ensures Decode(b, size) == Decode(b, size')
  {
  }

  /** A datagram cut anywhere behind its header is completed by what the buffer held: sent again after the
      whole frame, the first 8 bytes alone already decode to the message once more. */
  lemma {:induction false} ShortDatagramReplays(m: Message, pad: Bytes, stale: Bytes, size: nat)
    requires |pad| == 3 && Sendable(m) && |m.Frame(pad) + stale| == BUFFER_SIZE
    requires 8 <= size <= |m.Frame(pad)|
    ensures var held := m.Frame(pad) + stale;
            && m.Frame(pad)[..size] + held[size..] == held
            && Decode(m.Frame(pad)[..size] + held[size..], size) == Decoded(m)
            && (size < |m.Frame(pad)| ==> m.Frame(pad) != held[..size])
  {
    FrameFits(m, pad);
    DecodeUndoesSerialize(m, pad, stale);
    hide Decode, Message.Frame;
    var held := m.Frame(pad) + stale;
    LengthIsForgotten(held, size, |m.Frame(pad)|);
    assert m.Frame(pad)[..size] == held[..size];
    assert held[..size] + held[size..] == held;
  }

  lemma {:induction false} FlagRewrites(b: Bytes, o: nat)
    requires o < |b|
    ensures b[..o] + BoolBytes(BoolAt(b, o)) <= b <==> b[o] as int <= 1
  {
    var f := b[..o] + BoolBytes(BoolAt(b, o));
    assert f[..o] == b[..o];
    assert f <= b <==> f[o] == b[o];
  }
}
