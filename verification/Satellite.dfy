/** The satellite object: its state, its telemetry line and its log dump. */
module Satellites {
  import opened Config
  import opened Messages
  import opened MessageQueues
  import opened Serializers
  import opened Parsers
  import opened Loggers

  function Commanded(m: Message): Motion
    requires m.Command?
  {
    Motion(m.x, m.y, m.z, m.vx, m.vy, m.vz)
  }

  /** The k-th 1024-byte piece of a file, shorter or empty at its end. */
  function PieceAt(file: Bytes, k: nat): Bytes
    requires k * FILE_CHUNK_SIZE <= |file|
  {
    if (k + 1) * FILE_CHUNK_SIZE <= |file| then file[k * FILE_CHUNK_SIZE..(k + 1) * FILE_CHUNK_SIZE]
    else file[k * FILE_CHUNK_SIZE..]
  }

  /** A chunk message: the piece, what the stack held behind it, and whether the read hit the end. */
  function ChunkMessage(id: int32, port: int32, piece: Bytes, garbage: Block): Message
    requires |piece| <= FILE_CHUNK_SIZE
  {
    FileMsg(Message.FILE_MSG_SIZE, id, port, piece + garbage[|piece|..], |piece|, |piece| < FILE_CHUNK_SIZE)
  }

  function ChunkCount(file: Bytes): nat {
    if |file| / FILE_CHUNK_SIZE + 1 < MAX_FILE_CHUNKS then |file| / FILE_CHUNK_SIZE + 1 else MAX_FILE_CHUNKS
  }

  /** The messages of one dump. */
  function DumpOf(id: int32, port: int32, file: Bytes, garbage: nat -> Block): seq<Message> {
    seq(ChunkCount(file), k requires 0 <= k < ChunkCount(file) => ChunkMessage(id, port, PieceAt(file, k), garbage(k)))
  }

  function HeartbeatFrom(id: int32, port: int32): Message {
    Heartbeat(Message.HEARTBEAT_SIZE, id, port, true)
  }

  /** The two failures stand for the exceptions, which nobody catches. */
  datatype DumpResult = Dumped(msgs: seq<Message>) | CannotOpen | CannotClear

  class Satellite {
    const id: int32
    const port: int32
    const loggerQueue: MessageQueue<string>
    var motion: Motion
    var waitingForAck: bool

    constructor (id: int32, port: int32, motion: Motion, loggerQueue: MessageQueue<string>)
      ensures this.id == id && this.port == port && this.motion == motion && !waitingForAck
      ensures this.loggerQueue == loggerQueue
    {
      this.id, this.port, this.motion, this.loggerQueue := id, port, motion, loggerQueue;
      waitingForAck := false;
    }

    /** print: the telemetry line goes to the log, the coordinates taken in millionths. */
    method Print(t: Telemetry)
      modifies loggerQueue
      ensures loggerQueue.messageQueue == old(loggerQueue.messageQueue) + [SatLine(t)]
      ensures loggerQueue.stopped == old(loggerQueue.stopped)
    {
      loggerQueue.PushBack(SatLine(t));
    }

    method CreateHeartbeatMessage() returns (m: Message)
      requires port > 0 && id > 0
      ensures m == HeartbeatFrom(id, port) && Sendable(m)
    {
      m := Heartbeat(Message.HEARTBEAT_SIZE, id, port, true);
    }

    /** createDataDump on the file of the log; opens and clears say whether the system lets it be opened and
        truncated, garbage is what uninitialised chunk bytes hold. */
    method CreateDataDump(log: Logger, opens: bool, clears: bool, garbage: nat -> Block) returns (r: DumpResult)
      modifies log
      ensures !opens ==> r == CannotOpen && log.file == old(log.file)
      ensures opens && !clears ==> r == CannotClear && log.file == old(log.file)
      ensures opens && clears ==> r == Dumped(DumpOf(id, port, old(log.file), garbage)) && log.file == []
    {
      if !opens {
        return CannotOpen;
      }
      var file := log.file;
      var msgs := [];
      var cursor := 0;
      var i := 0;
      while i < MAX_FILE_CHUNKS
        invariant 0 <= i <= ChunkCount(file)
        invariant cursor == i * FILE_CHUNK_SIZE <= |file|
        invariant msgs == DumpOf(id, port, file, garbage)[..i]
      {
        var count := if |file| - cursor < FILE_CHUNK_SIZE then |file| - cursor else FILE_CHUNK_SIZE;
        var data := file[cursor..cursor + count];
        var isLast := count < FILE_CHUNK_SIZE;
        assert data == PieceAt(file, i);
        msgs := msgs + [FileMsg(Message.FILE_MSG_SIZE, id, port, data + garbage(i)[count..], count, isLast)];
        if isLast {
          break;
        }
        cursor := cursor + count;
        i := i + 1;
      }
      if !clears {
        return CannotClear;
      }
      log.ClearFile();
      r := Dumped(msgs);
    }

    method HandleCommand(m: Message)
      requires m.Command? && m.senderId == 0 && m.senderPort != port
      modifies this`motion
      ensures motion == Commanded(m)
    {
      motion := Motion(m.x, m.y, m.z, m.vx, m.vy, m.vz);
    }

    method SetWaitingForAck(b: bool)
      modifies this`waitingForAck
      ensures waitingForAck == b
    {
      waitingForAck := b;
    }
  }

  // ---------------------------------------------------------------- chunking

  predicate Chunks(ms: seq<Message>) {
    forall i :: 0 <= i < |ms| ==> ms[i].FileMsg? && 0 <= ms[i].len <= FILE_CHUNK_SIZE
  }

  function Payloads(ms: seq<Message>): Bytes
    requires Chunks(ms)
  {
    if ms == [] then [] else Payloads(ms[..|ms| - 1]) + Payload(ms[|ms| - 1])
  }

  lemma {:induction false} PayloadOfChunk(id: int32, port: int32, piece: Bytes, garbage: Block)
    requires |piece| <= FILE_CHUNK_SIZE
    ensures Payload(ChunkMessage(id, port, piece, garbage)) == piece
  {
  }

  /** Where the k-th piece of a file ends. */
  function EndOfPiece(file: Bytes, k: nat): (n: nat)
    ensures n <= |file|
  {
    if k * FILE_CHUNK_SIZE < |file| then k * FILE_CHUNK_SIZE else |file|
  }

  lemma {:induction false} PieceFollows(file: Bytes, k: nat)
    requires k < ChunkCount(file)
    ensures k * FILE_CHUNK_SIZE <= |file| && |PieceAt(file, k)| <= FILE_CHUNK_SIZE
    ensures file[..EndOfPiece(file, k)] + PieceAt(file, k) == file[..EndOfPiece(file, k + 1)]
  {
  }

  lemma {:induction false} DumpGoesOn(id: int32, port: int32, file: Bytes, garbage: nat -> Block, k: nat)
    requires k < ChunkCount(file) && k * FILE_CHUNK_SIZE <= |file| && |PieceAt(file, k)| <= FILE_CHUNK_SIZE
    ensures |DumpOf(id, port, file, garbage)| == ChunkCount(file)
    ensures DumpOf(id, port, file, garbage)[..k + 1] ==
              DumpOf(id, port, file, garbage)[..k] + [ChunkMessage(id, port, PieceAt(file, k), garbage(k))]
  {
    hide PieceAt, ChunkMessage;
  }

  lemma {:induction false} PayloadsOfPrefix(id: int32, port: int32, file: Bytes, garbage: nat -> Block, k: nat)
    requires k <= ChunkCount(file)
    ensures var ms := DumpOf(id, port, file, garbage)[..k];
            Chunks(ms) && Payloads(ms) == file[..EndOfPiece(file, k)]
  {
    if k > 0 {
      PieceFollows(file, k - 1);
      DumpGoesOn(id, port, file, garbage, k - 1);
      var piece := PieceAt(file, k - 1);
      var m := ChunkMessage(id, port, piece, garbage(k - 1));
      PayloadOfChunk(id, port, piece, garbage(k - 1));
      assert m.FileMsg? && 0 <= m.len <= FILE_CHUNK_SIZE;
      hide DumpOf, ChunkMessage, PieceAt, ChunkCount, EndOfPiece;
      PayloadsOfPrefix(id, port, file, garbage, k - 1);
      PayloadsSnoc(DumpOf(id, port, file, garbage)[..k - 1], m);
    }
  }

  lemma {:induction false} PayloadsSnoc(ms: seq<Message>, m: Message)
    requires Chunks(ms) && m.FileMsg? && 0 <= m.len <= FILE_CHUNK_SIZE
    ensures Chunks(ms + [m]) && Payloads(ms + [m]) == Payloads(ms) + Payload(m)
  {
    assert (ms + [m])[..|ms|] == ms;
  }

  /** Chunking is exact: a dump is min(100, L / 1024 + 1) messages whose payloads make up the first
      min(L, 102400) bytes of the file; only the final message can be marked last, and it is exactly when
      L < 102400; a shorter file of whole chunks ends with an empty one. */
  lemma {:induction false} ChunkingIsExact(id: int32, port: int32, file: Bytes, garbage: nat -> Block)
    ensures var ms := DumpOf(id, port, file, garbage);
            && Chunks(ms) && |ms| == (if |file| / 1024 + 1 < 100 then |file| / 1024 + 1 else 100)
            && Payloads(ms) == file[..if |file| < 102400 then |file| else 102400]
            && (forall k :: 0 <= k < |ms| - 1 ==> !ms[k].last)
            && (ms[|ms| - 1].last <==> |file| < 102400)
            && (|file| < 102400 && |file| % 1024 == 0 ==> ms[|ms| - 1].len == 0)
  {
    var ms := DumpOf(id, port, file, garbage);
    PayloadsOfPrefix(id, port, file, garbage, |ms|);
    assert ms[..|ms|] == ms;
    forall k | 0 <= k < |ms|
      ensures ms[k].len == |PieceAt(file, k)| && (ms[k].last <==> |file| < (k + 1) * FILE_CHUNK_SIZE)
    {
      assert ms[k] == ChunkMessage(id, port, PieceAt(file, k), garbage(k));
    }
  }
}
