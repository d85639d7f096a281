/** The telemetry pipeline: log file, chunks, frames, reassembly, parser and terminal. */
module Pipelines {
  import opened Config
  import opened Wrappers
  import opened Messages
  import opened Serializers
  import opened Numbers
  import opened TextLines
  import opened Parsers
  import opened Connections
  import opened GCConnectionHandlers
  import opened Receivers
  import opened Satellites
  import opened Terminals
  import opened GroundControls

  // ---------------------------------------------------------------- reassembly of one sender's messages

  /** The buffers handed to the parser so far, and the one being filled. */
  datatype Assembly = Assembly(emitted: seq<string>, rest: string)

  function Assemble(start: string, ms: seq<Message>): Assembly
    requires Chunks(ms)
  {
    if ms == [] then Assembly([], start)
    else
      var a, m := Assemble(start, ms[..|ms| - 1]), ms[|ms| - 1];
      var chunk := a.rest + Payload(m);
      if m.last then Assembly(a.emitted + [chunk], []) else a.(rest := chunk)
  }

  function Concat(ss: seq<string>): string {
    if ss == [] then [] else Concat(ss[..|ss| - 1]) + ss[|ss| - 1]
  }

  /** Reassembly conserves bytes, whatever the order of arrival and wherever the last marks fall. */
  lemma {:induction false} ReassemblyConserves(start: string, ms: seq<Message>)
    requires Chunks(ms)
    ensures Concat(Assemble(start, ms).emitted) + Assemble(start, ms).rest == start + Payloads(ms)
  {
    if ms == [] {
      assert start + [] == start;
    } else {
      var init, m := ms[..|ms| - 1], ms[|ms| - 1];
      ReassemblyConserves(start, init);
      var a, b := Assemble(start, init), Assemble(start, ms);
      Regroup(Concat(a.emitted), a.rest, Payload(m));
      Regroup(start, Payloads(init), Payload(m));
      if m.last {
        assert b.emitted[..|b.emitted| - 1] == a.emitted;
        assert Concat(b.emitted) + [] == Concat(b.emitted);
      }
    }
  }

  /** Without a last mark nothing is emitted. */
  lemma {:induction false} NoLastNoBuffer(start: string, ms: seq<Message>)
    requires Chunks(ms) && forall k :: 0 <= k < |ms| ==> !ms[k].last
    ensures Assemble(start, ms) == Assembly([], start + Payloads(ms))
  {
    if ms == [] {
      assert start + [] == start;
    } else {
      var init, m := ms[..|ms| - 1], ms[|ms| - 1];
      NoLastNoBuffer(start, init);
      Regroup(start, Payloads(init), Payload(m));
    }
  }

  /** A dump is reassembled into exactly one buffer, the file behind what was left over, if the file is
      shorter than 102400 bytes; otherwise its first 102400 bytes stay in the buffer for the next dump. */
  lemma {:induction false} DumpReassembles(start: string, id: int32, port: int32, file: Bytes, garbage: nat -> Block)
    ensures var ms := DumpOf(id, port, file, garbage);
            && Chunks(ms)
            && Assemble(start, ms) ==
                 if |file| < 102400 then Assembly([start + file], []) else Assembly([], start + file[..102400])
  {
    var ms := DumpOf(id, port, file, garbage);
    ChunkingIsExact(id, port, file, garbage);
    var init, m := ms[..|ms| - 1], ms[|ms| - 1];
    if |file| < 102400 {
      NoLastNoBuffer(start, init);
      assert Payloads(init) + Payload(m) == file;
      Regroup(start, Payloads(init), Payload(m));
    } else {
      NoLastNoBuffer(start, ms);
    }
  }

  /** Every message of a dump survives the wire: written over any stale buffer content it decodes to
      itself, and ground control accepts it. */
  lemma {:induction false} DumpSurvivesTheWire(id: int32, port: int32, file: Bytes, garbage: nat -> Block,
                                               k: nat, pad: Bytes, stale: Bytes)
    requires id > 0 && port > 0 && k < |DumpOf(id, port, file, garbage)| && |pad| == 3
    requires |DumpOf(id, port, file, garbage)[k].Frame(pad) + stale| == BUFFER_SIZE
    ensures var m := DumpOf(id, port, file, garbage)[k];
            Acceptable(m) && Decode(m.Frame(pad) + stale, |m.Frame(pad)|) == Decoded(m)
  {
    hide Decode;
    var m := DumpOf(id, port, file, garbage)[k];
    assert m == ChunkMessage(id, port, PieceAt(file, k), garbage(k));
    DecodeUndoesSerialize(m, pad, stale);
  }

  // ---------------------------------------------------------------- one satellite in a run of ground control

  /** The file messages of one satellite among the events of a run, in order of arrival. */
  function FilesFrom(es: seq<Event>, id: int): (ms: seq<Message>)
    requires forall i :: 0 <= i < |es| && es[i].Received? ==> Acceptable(es[i].m)
    ensures Chunks(ms)
  {
    if es == [] then []
    else FileOf(es[0], id) + FilesFrom(es[1..], id)
  }

  function FileOf(e: Event, id: int): (ms: seq<Message>)
    requires e.Received? ==> Acceptable(e.m)
    ensures Chunks(ms)
  {
    if e.Received? && e.m.FileMsg? && e.m.senderId as int == id then [e.m] else []
  }

  /** The outputs an event makes of a sender's file messages. */
  function ParsedBy(w: World, e: Event, id: int): seq<SatOutput>
    requires Enabled(w, e)
  {
    if e.Received? && e.m.senderId as int == id then DumpPushes(w.gc, e.m) else []
  }

  function Parsed(w: World, es: seq<Event>, id: int): seq<SatOutput>
    requires Valid(w, es)
    decreases es
  {
    if es == [] then [] else ParsedBy(w, es[0], id) + Parsed(Apply(w, es[0]), es[1..], id)
  }

  function Parses(id: int, buffers: seq<string>): seq<SatOutput> {
    seq(|buffers|, k requires 0 <= k < |buffers| => DataDecoder(id, buffers[k], true))
  }

  lemma {:induction false} ValidMeansAcceptable(w: World, es: seq<Event>)
    requires Valid(w, es)
    ensures forall i :: 0 <= i < |es| && es[i].Received? ==> Acceptable(es[i].m)
    decreases es
  {
    hide Listen, Apply;
    if es != [] {
      ValidMeansAcceptable(Apply(w, es[0]), es[1..]);
      assert forall i :: 1 <= i < |es| ==> es[i] == es[1..][i - 1];
    }
  }

  /** The record of a satellite once the output queue is drained, apart from its alive flag. */
  function Pending(w: World, id: int): SatRecord
    requires id in w.shown
  {
    Settled(w.shown[id], id, w.gc.outputs)
  }

  function Settled(r: SatRecord, id: int, outs: seq<SatOutput>): SatRecord {
    if outs == [] then r.(alive := true)
    else if outs[|outs| - 1].id == id then
      Terminals.Updated(Settled(r, id, outs[..|outs| - 1]), outs[|outs| - 1]).(alive := true)
    else Settled(r, id, outs[..|outs| - 1])
  }

  /** What a series of reassembled buffers makes of a record. */
  function Dumped(r: SatRecord, id: int, buffers: seq<string>): SatRecord {
    if buffers == [] then r
    else
      var init, last := buffers[..|buffers| - 1], buffers[|buffers| - 1];
      Terminals.Updated(Dumped(r, id, init), DataDecoder(id, last, true)).(alive := true)
  }

  lemma {:induction false} SettledSnoc(r: SatRecord, id: int, outs: seq<SatOutput>, o: SatOutput)
    ensures Settled(r, id, outs + [o]) ==
              if o.id == id then Terminals.Updated(Settled(r, id, outs), o).(alive := true) else Settled(r, id, outs)
  {
    assert (outs + [o])[..|outs|] == outs;
  }

  lemma {:induction false} SettledIsAlive(r: SatRecord, id: int, outs: seq<SatOutput>)
    ensures Settled(r, id, outs).alive
  {
    if outs != [] && outs[|outs| - 1].id != id {
      SettledIsAlive(r, id, outs[..|outs| - 1]);
    }
  }

  lemma {:induction false} AliveFlagIsForgotten(r: SatRecord, o: SatOutput)
    ensures Terminals.Updated(r, o).(alive := true) == Terminals.Updated(r.(alive := true), o).(alive := true)
  {
    hide Lines;
  }

  /** Consuming the first output does not change what the rest settles to. */
  lemma {:induction false} SettledFront(r: SatRecord, id: int, outs: seq<SatOutput>)
    requires outs != []
    ensures Settled(r, id, outs) ==
              Settled(if outs[0].id == id then Terminals.Updated(r, outs[0]) else r, id, outs[1..])
  {
    hide Terminals.Updated;
    var init, o := outs[..|outs| - 1], outs[|outs| - 1];
    if |outs| == 1 {
      AliveFlagIsForgotten(r, o);
      SettledNothing(r, id);
      SettledNothing(Terminals.Updated(r, o), id);
      assert init == [];
    } else {
      SettledFront(r, id, init);
      assert outs[1..] == init[1..] + [o];
      SettledSnoc(if outs[0].id == id then Terminals.Updated(r, outs[0]) else r, id, init[1..], o);
    }
  }

  lemma {:induction false} SettledNothing(r: SatRecord, id: int)
    ensures Settled(r, id, []) == r.(alive := true)
  {
  }

  lemma {:induction false} StatusSettles(r: SatRecord, id: int, outs: seq<SatOutput>, who: int, alive: bool)
    ensures Settled(r, id, outs + [Status(who, alive)]) == Settled(r, id, outs)
  {
    SettledSnoc(r, id, outs, Status(who, alive));
    SettledIsAlive(r, id, outs);
  }

  lemma {:induction false} NoticesSettle(r: SatRecord, id: int, outs: seq<SatOutput>, conns: Conns, order: seq<int>,
                                         ticks: map<int, Tick>)
    requires forall i <- order :: i in conns && i in ticks
    ensures Settled(r, id, outs + Pass(conns, order, ticks).notices) == Settled(r, id, outs)
  {
    hide Pass, EntryDies, Settled;
    if order == [] {
      PassNothing(conns, ticks);
      assert outs + [] == outs;
    } else {
      var init, last := order[..|order| - 1], order[|order| - 1];
      assert order == init + [last];
      NoticesSettle(r, id, outs, conns, init, ticks);
      PassSnoc(conns, init, last, ticks);
      var p := Pass(conns, init, ticks);
      if EntryDies(p.conns[last], ticks[last]) {
        StatusSettles(r, id, outs + p.notices, last, false);
        assert outs + (p.notices + [Status(last, false)]) == (outs + p.notices) + [Status(last, false)];
      } else {
        assert p.notices + [] == p.notices;
      }
    }
  }

  /** One event: a sender's buffer and the outputs made of it advance as its file messages say, and by
      nothing else. */
  lemma {:induction false} StepReassembles(w: World, e: Event, id: int)
    requires Enabled(w, e)
    ensures e.Received? ==> Acceptable(e.m)
    ensures var a := Assemble(BufferOf(w.gc.buffer, id), FileOf(e, id));
            && BufferOf(Apply(w, e).gc.buffer, id) == a.rest
            && ParsedBy(w, e, id) == Parses(id, a.emitted)
  {
    hide DataDecoder, Pass, Lines;
    if e.Received? && e.m.FileMsg? {
      var met := Meet(w.gc, GC_PORT, e.m, e.s);
      FileDumpPushes(met, e.m);
      assert met.buffer == w.gc.buffer;
      AssembleOne(BufferOf(w.gc.buffer, id), e.m);
    }
  }

  lemma {:induction false} AssembleOne(start: string, m: Message)
    requires m.FileMsg? && 0 <= m.len <= FILE_CHUNK_SIZE
    ensures Assemble(start, [m]) ==
              if m.last then Assembly([start + Payload(m)], []) else Assembly([], start + Payload(m))
  {
    assert [m][..0] == [];
    assert Assemble(start, []) == Assembly([], start);
  }

  /** The satellite's settled record advances likewise. */
  lemma {:induction false} StepAssembles(w: World, e: Event, id: int)
    requires Enabled(w, e) && id in w.shown
    ensures id in Apply(w, e).shown && (e.Received? ==> Acceptable(e.m))
    ensures Pending(Apply(w, e), id) ==
              Dumped(Pending(w, id), id, Assemble(BufferOf(w.gc.buffer, id), FileOf(e, id)).emitted)
  {
    hide DataDecoder, Settled, Pass, Terminals.Updated, Lines;
    match e
    case Received(m, s) => MessageAssembles(w, e, id);
    case Updated(order, ticks, _, _) =>
      NoticesSettle(w.shown[id], id, w.gc.outputs, w.gc.conns, order, ticks);
    case Consumed => SettledFront(w.shown[id], id, w.gc.outputs);
  }

  lemma {:induction false} MessageAssembles(w: World, e: Event, id: int)
    requires e.Received? && Enabled(w, e) && id in w.shown
    ensures Pending(Apply(w, e), id) ==
              Dumped(Pending(w, id), id, Assemble(BufferOf(w.gc.buffer, id), FileOf(e, id)).emitted)
  {
    hide DataDecoder, Settled, FileDump, Terminals.Updated, Lines;
    var m, met := e.m, Meet(w.gc, GC_PORT, e.m, e.s);
    var r := w.shown[id];
    StatusSettles(r, id, w.gc.outputs, m.senderId, true);
    assert met.buffer == w.gc.buffer;
    assert Settled(r, id, met.outputs) == Settled(r, id, w.gc.outputs);
    if m.FileMsg? {
      FileDumpAssembles(met, m, r, id);
    }
  }

  lemma {:induction false} FileDumpAssembles(gc: Gc, m: Message, r: SatRecord, id: int)
    requires m.FileMsg? && Acceptable(m)
    ensures var ms := if m.senderId as int == id then [m] else [];
            Settled(r, id, FileDump(gc, m).outputs) ==
              Dumped(Settled(r, id, gc.outputs), id, Assemble(BufferOf(gc.buffer, id), ms).emitted)
  {
    hide DataDecoder, Settled, Terminals.Updated;
    var chunk := BufferOf(gc.buffer, m.senderId) + Payload(m);
    var out := DataDecoder(m.senderId, chunk, true);
    SettledSnoc(r, id, gc.outputs, out);
    DumpSaysAlive(m.senderId, chunk);
    AssembleOne(BufferOf(gc.buffer, id), m);
    assert Assemble(BufferOf(gc.buffer, id), []) == Assembly([], BufferOf(gc.buffer, id));
    assert [chunk][..0] == [];
  }

  lemma {:induction false} AssembleTwice(start: string, a: seq<Message>, b: seq<Message>)
    requires Chunks(a) && Chunks(b)
    ensures Chunks(a + b)
    ensures var x := Assemble(start, a);
            var y := Assemble(x.rest, b);
            Assemble(start, a + b) == Assembly(x.emitted + y.emitted, y.rest)
    decreases |b|
  {
    if b == [] {
      assert a + b == a;
    } else {
      var init, m := b[..|b| - 1], b[|b| - 1];
      AssembleTwice(start, a, init);
      assert (a + b)[..|a + b| - 1] == a + init && (a + b)[|a + b| - 1] == m;
    }
  }

  lemma {:induction false} DumpedTwice(r: SatRecord, id: int, a: seq<string>, b: seq<string>)
    ensures Dumped(r, id, a + b) == Dumped(Dumped(r, id, a), id, b)
    decreases |b|
  {
    hide DataDecoder, Terminals.Updated;
    if b == [] {
      assert a + b == a;
    } else {
      DumpedTwice(r, id, a, b[..|b| - 1]);
      assert (a + b)[..|a + b| - 1] == a + b[..|b| - 1];
    }
  }

  /** Over any run of ground control, with messages of all senders, update passes and consumption interleaved
      at will, what a sender's file messages are reassembled to depends on the run only through those
      messages in order of arrival: the buffer, and the buffers handed to the parser, whose outputs carry
      exactly these. */
  lemma {:induction false} RunReassembles(w: World, es: seq<Event>, id: int)
    requires Valid(w, es)
    ensures forall i :: 0 <= i < |es| && es[i].Received? ==> Acceptable(es[i].m)
    ensures var a := Assemble(BufferOf(w.gc.buffer, id), FilesFrom(es, id));
            && BufferOf(Run(w, es).gc.buffer, id) == a.rest
            && Parsed(w, es, id) == Parses(id, a.emitted)
            && forall k :: 0 <= k < |a.emitted| ==> Parsed(w, es, id)[k].chunks == a.emitted[k]
    decreases es
  {
    hide Assemble, Apply, Enabled, ParsedBy, Parses;
    ValidMeansAcceptable(w, es);
    if es == [] {
      NothingAssembled(BufferOf(w.gc.buffer, id));
    } else {
      var e, rest := es[0], es[1..];
      StepReassembles(w, e, id);
      RunReassembles(Apply(w, e), rest, id);
      AssembleTwice(BufferOf(w.gc.buffer, id), FileOf(e, id), FilesFrom(rest, id));
      var x := Assemble(BufferOf(w.gc.buffer, id), FileOf(e, id));
      ParsesTwice(id, x.emitted, Assemble(x.rest, FilesFrom(rest, id)).emitted);
    }
    ParsesCarry(id, Assemble(BufferOf(w.gc.buffer, id), FilesFrom(es, id)).emitted);
  }

  lemma {:induction false} ParsesTwice(id: int, a: seq<string>, b: seq<string>)
    ensures Parses(id, a + b) == Parses(id, a) + Parses(id, b)
  {
    hide DataDecoder;
  }

  lemma {:induction false} ParsesCarry(id: int, buffers: seq<string>)
    ensures Parses(id, []) == []
    ensures |Parses(id, buffers)| == |buffers|
    ensures forall k :: 0 <= k < |buffers| ==> Parses(id, buffers)[k].chunks == buffers[k]
  {
    hide Lines, TallyOf, Sscanf;
  }

  /** The outputs counted above are those that reach the queue, behind the status of a known sender. */
  lemma {:induction false} ParsedIsPushed(w: World, e: Event)
    requires e.Received? && Enabled(w, e)
    ensures Apply(w, e).gc.outputs ==
              w.gc.outputs + (if e.m.senderId in w.gc.conns then [Status(e.m.senderId, true)] else [])
              + ParsedBy(w, e, e.m.senderId)
  {
    hide DataDecoder, Listen, DumpPushes;
    ListenPushes(w.gc, e.m, e.s);
  }

  /** So does the record of a satellite on the terminal, once the output queue is drained. */
  lemma {:induction false} RunAssembles(w: World, es: seq<Event>, id: int)
    requires Valid(w, es) && id in w.shown
    ensures forall i :: 0 <= i < |es| && es[i].Received? ==> Acceptable(es[i].m)
    ensures id in Run(w, es).shown
    ensures var a := Assemble(BufferOf(w.gc.buffer, id), FilesFrom(es, id));
            && BufferOf(Run(w, es).gc.buffer, id) == a.rest
            && Pending(Run(w, es), id) == Dumped(Pending(w, id), id, a.emitted)
    decreases es
  {
    hide Assemble, Dumped, Pending, Apply, Enabled;
    ValidMeansAcceptable(w, es);
    if es == [] {
      NothingAssembled(BufferOf(w.gc.buffer, id));
      NothingDumped(Pending(w, id), id);
    } else {
      var e, rest := es[0], es[1..];
      StepReassembles(w, e, id);
      StepAssembles(w, e, id);
      RunAssembles(Apply(w, e), rest, id);
      AssembleTwice(BufferOf(w.gc.buffer, id), FileOf(e, id), FilesFrom(rest, id));
      var x := Assemble(BufferOf(w.gc.buffer, id), FileOf(e, id));
      DumpedTwice(Pending(w, id), id, x.emitted, Assemble(x.rest, FilesFrom(rest, id)).emitted);
    }
  }

  lemma {:induction false} NothingAssembled(start: string)
    ensures Assemble(start, []) == Assembly([], start)
  {
  }

  lemma {:induction false} NothingDumped(r: SatRecord, id: int)
    ensures Dumped(r, id, []) == r
  {
  }

  /** A log as it was dumped: its records, its bytes, what unused chunk bytes held, and the telemetry of its
      last SAT record, if there is one. */
  datatype DumpedLog = DumpedLog(records: seq<Record>, file: Bytes, garbage: nat -> Block, told: Option<Telemetry>) {
    predicate Sound() {
      && (forall i :: 0 <= i < |records| ==> records[i].Valid())
      && file == LogFile(records) && |file| < 102400
      && LastWith(records, SAT) == (if told.Some? then SatLine(told.value) else [])
    }
  }

  /** What a dump makes of a record: the lines go to the log; coordinates and totals change only if there is
      telemetry. */
  function Reported(r: SatRecord, d: DumpedLog): SatRecord {
    var logged := r.(log := r.log + RecordLines(d.records), alive := true);
    match d.told
    case None => logged
    case Some(t) =>
      logged.(x := Number(t.x, 6), y := Number(t.y, 6), z := Number(t.z, 6),
              vx := Number(t.vx, 6), vy := Number(t.vy, 6), vz := Number(t.vz, 6),
              packetsReceived := r.packetsReceived + CountWith(d.records, RECEIVED),
              packetsSent := r.packetsSent + CountWith(d.records, SENT))
  }

  lemma {:induction false} DumpIsReported(r: SatRecord, id: int, d: DumpedLog)
    requires d.Sound()
    ensures Terminals.Updated(r, DataDecoder(id, d.file, true)).(alive := true) == Reported(r, d)
  {
    hide Lines, CountWith, SatLine, LogFile, TallyOf, Sscanf, RecordLines;
    LinesOfLogFile(d.records);
    TallyOfLogFile(d.records);
    NoRecords();
    match d.told
    case None =>
    case Some(t) =>
      DumpReadsBack(id, d.records, t);
      SatIsThere(d.records, t);
  }

  lemma {:induction false} NoRecords()
    ensures LogFile([]) == [] && RecordLines([]) == []
  {
  }

  lemma {:induction false} SatIsThere(records: seq<Record>, t: Telemetry)
    requires LastWith(records, SAT) == SatLine(t)
    ensures records != []
  {
    SatLineReadsBack(t);
  }

  function ReportedAll(r: SatRecord, ds: seq<DumpedLog>): SatRecord {
    if ds == [] then r else Reported(ReportedAll(r, ds[..|ds| - 1]), ds[|ds| - 1])
  }

  function Files(ds: seq<DumpedLog>): seq<string> {
    if ds == [] then [] else Files(ds[..|ds| - 1]) + [ds[|ds| - 1].file]
  }

  /** The messages of several dumps, one after the other. */
  function AllDumps(id: int32, port: int32, ds: seq<DumpedLog>): seq<Message> {
    if ds == [] then []
    else AllDumps(id, port, ds[..|ds| - 1]) + DumpOf(id, port, ds[|ds| - 1].file, ds[|ds| - 1].garbage)
  }

  predicate AllSound(ds: seq<DumpedLog>) { forall k :: 0 <= k < |ds| ==> ds[k].Sound() }

  /** Complete dumps below the cap are reassembled into their files, one by one. */
  lemma {:induction false} DumpsReassemble(id: int32, port: int32, ds: seq<DumpedLog>)
    requires AllSound(ds)
    ensures Chunks(AllDumps(id, port, ds))
    ensures Assemble([], AllDumps(id, port, ds)) == Assembly(Files(ds), [])
  {
    hide DumpOf, Assemble, DumpedLog.Sound;
    if ds == [] {
      NothingAssembled([]);
    } else {
      var init, d := ds[..|ds| - 1], ds[|ds| - 1];
      DumpsReassemble(id, port, init);
      SoundIsShort(d);
      DumpReassembles([], id, port, d.file, d.garbage);
      assert [] + d.file == d.file;
      AssembleTwice([], AllDumps(id, port, init), DumpOf(id, port, d.file, d.garbage));
    }
  }

  lemma {:induction false} SoundIsShort(d: DumpedLog)
    requires d.Sound()
    ensures |d.file| < 102400
  {
  }

  lemma {:induction false} DumpsAreReported(r: SatRecord, id: int, ds: seq<DumpedLog>)
    requires AllSound(ds)
    ensures Dumped(r, id, Files(ds)) == ReportedAll(r, ds)
  {
    hide DumpedLog.Sound, DataDecoder, Terminals.Updated, Reported;
    if ds != [] {
      var init, d := ds[..|ds| - 1], ds[|ds| - 1];
      DumpsAreReported(r, id, init);
      DumpIsReported(ReportedAll(r, init), id, d);
      assert Files(ds)[..|Files(ds)| - 1] == Files(init);
    }
  }

  /** End to end, for any number of dumps: a satellite's logs, each of fewer than 102400 bytes, are dumped,
      and their messages arrive in order among whatever else happens at ground control. Then its reassembly
      buffer is empty again, and its record, once the outputs queued are consumed, is what it was to be
      before, with each dump reported on it in turn. */
  lemma {:induction false} DumpsEndToEnd(w: World, es: seq<Event>, id: int32, port: int32, ds: seq<DumpedLog>)
    requires Valid(w, es) && id as int in w.shown && BufferOf(w.gc.buffer, id) == []
    requires forall i :: 0 <= i < |es| && es[i].Received? ==> Acceptable(es[i].m)
    requires FilesFrom(es, id) == AllDumps(id, port, ds) && AllSound(ds)
    ensures BufferOf(Run(w, es).gc.buffer, id) == [] && id as int in Run(w, es).shown
    ensures Pending(Run(w, es), id) == ReportedAll(Pending(w, id), ds)
  {
    hide Assemble, Dumped, Settled, AllDumps, AllSound, ReportedAll, Files;
    RunAssembles(w, es, id);
    DumpsReassemble(id, port, ds);
    DumpsAreReported(Pending(w, id), id, ds);
  }

  /** For one dump with telemetry: once the output queue is drained the terminal shows the coordinates of the
      last telemetry record in the log, totals raised by its sent and received records, and the log extended
      by its lines. */
  lemma {:induction false} TelemetryEndToEnd(w: World, es: seq<Event>, id: int32, port: int32,
                                             records: seq<Record>, file: Bytes, garbage: nat -> Block, t: Telemetry)
    requires Valid(w, es) && id as int in w.shown && BufferOf(w.gc.buffer, id) == []
    requires forall i :: 0 <= i < |es| && es[i].Received? ==> Acceptable(es[i].m)
    requires FilesFrom(es, id) == DumpOf(id, port, file, garbage)
    requires (forall i :: 0 <= i < |records| ==> records[i].Valid()) && LastWith(records, SAT) == SatLine(t)
    requires file == LogFile(records) && |file| < 102400
    ensures var w', r := Run(w, es), Pending(w, id);
            && BufferOf(w'.gc.buffer, id) == []
            && id as int in w'.shown
            && (w'.gc.outputs == [] ==>
                  w'.shown[id as int].(alive := true) ==
                    SatRecord(Number(t.x, 6), Number(t.y, 6), Number(t.z, 6),
                              Number(t.vx, 6), Number(t.vy, 6), Number(t.vz, 6),
                              r.packetsReceived + CountWith(records, RECEIVED),
                              r.packetsSent + CountWith(records, SENT),
                              true, r.log + RecordLines(records)))
  {
    hide Settled, DumpOf, SatLine, LastWith, CountWith, RecordLines, LogFile;
    var d := DumpedLog(records, file, garbage, Some(t));
    OneOfThem(id, port, d, Pending(w, id));
    DumpsEndToEnd(w, es, id, port, [d]);
    if Run(w, es).gc.outputs == [] {
      SettledNothing(Run(w, es).shown[id as int], id);
    }
  }

  lemma {:induction false} OneOfThem(id: int32, port: int32, d: DumpedLog, r: SatRecord)
    ensures AllDumps(id, port, [d]) == DumpOf(id, port, d.file, d.garbage) && ReportedAll(r, [d]) == Reported(r, d)
  {
    hide DumpOf, Reported;
    assert [d][..0] == [];
    assert AllDumps(id, port, [d][..0]) == [] && ReportedAll(r, [d][..0]) == r;
    assert [] + DumpOf(id, port, d.file, d.garbage) == DumpOf(id, port, d.file, d.garbage);
  }

  // ---------------------------------------------------------------- totals of the dumps

  function TotalWith(ds: seq<DumpedLog>, prefix: string): nat {
    if ds == [] then 0
    else
      var d := ds[|ds| - 1];
      TotalWith(ds[..|ds| - 1], prefix) + (if d.told.Some? then CountWith(d.records, prefix) else 0)
  }

  function AllLines(ds: seq<DumpedLog>): seq<string> {
    if ds == [] then [] else AllLines(ds[..|ds| - 1]) + RecordLines(ds[|ds| - 1].records)
  }

  /** The totals are raised by the records of the dumps that had telemetry; those of a dump without any are
      not counted, though its lines are logged. */
  lemma {:induction false} TotalsOfDumps(r: SatRecord, ds: seq<DumpedLog>)
    ensures var r' := ReportedAll(r, ds);
            && r'.packetsReceived == r.packetsReceived + TotalWith(ds, RECEIVED)
            && r'.packetsSent == r.packetsSent + TotalWith(ds, SENT)
            && r'.log == r.log + AllLines(ds)
  {
    hide RecordLines, CountWith, Reported;
    if ds == [] {
      assert r.log + [] == r.log;
    } else {
      var init, d := ds[..|ds| - 1], ds[|ds| - 1];
      TotalsOfDumps(r, init);
      ReportAdds(ReportedAll(r, init), d);
      assert (r.log + AllLines(init)) + RecordLines(d.records) == r.log + (AllLines(init) + RecordLines(d.records));
    }
  }

  lemma {:induction false} ReportAdds(r: SatRecord, d: DumpedLog)
    ensures var r' := Reported(r, d);
            && r'.packetsReceived == r.packetsReceived + (if d.told.Some? then CountWith(d.records, RECEIVED) else 0)
            && r'.packetsSent == r.packetsSent + (if d.told.Some? then CountWith(d.records, SENT) else 0)
            && r'.log == r.log + RecordLines(d.records)
  {
    hide RecordLines, CountWith;
  }

  function Deliveries(ms: seq<Message>, s: Surroundings): seq<Event> {
    if ms == [] then [] else [Event.Received(ms[0], s)] + Deliveries(ms[1..], s)
  }

  /** These theorems apply whenever a satellite is connected: its dump can be delivered as it is. */
  lemma {:induction false} DumpCanArrive(w: World, id: int32, port: int32, file: Bytes, garbage: nat -> Block,
                                         s: Surroundings)
    requires id > 0 && port > 0 && id as int in w.gc.conns && w.gc.conns[id as int].Open()
    ensures var es := Deliveries(DumpOf(id, port, file, garbage), s);
            && Valid(w, es)
            && (forall i :: 0 <= i < |es| && es[i].Received? ==> Acceptable(es[i].m))
            && FilesFrom(es, id) == DumpOf(id, port, file, garbage)
  {
    var ms := DumpOf(id, port, file, garbage);
    forall k | 0 <= k < |ms| ensures ChunkFrom(ms[k], id, port) {
      assert ms[k] == ChunkMessage(id, port, PieceAt(file, k), garbage(k));
    }
    ChunksCanArrive(w, id, port, ms, s);
  }

  predicate ChunkFrom(m: Message, id: int32, port: int32) {
    m.FileMsg? && Acceptable(m) && m.senderId == id && m.senderPort == port && m.size == Message.FILE_MSG_SIZE
  }

  lemma {:induction false} ChunksCanArrive(w: World, id: int32, port: int32, ms: seq<Message>, s: Surroundings)
    requires id > 0 && id as int in w.gc.conns && w.gc.conns[id as int].Open()
    requires forall k :: 0 <= k < |ms| ==> ChunkFrom(ms[k], id, port)
    ensures var es := Deliveries(ms, s);
            && Valid(w, es)
            && (forall i :: 0 <= i < |es| && es[i].Received? ==> Acceptable(es[i].m))
            && FilesFrom(es, id) == ms
    decreases |ms|
  {
    hide DataDecoder;
    if ms != [] {
      var e := Event.Received(ms[0], s);
      assert ChunkFrom(ms[0], id, port);
      var w' := Apply(w, e);
      FileDumpPushes(Meet(w.gc, GC_PORT, ms[0], s), ms[0]);
      ChunksCanArrive(w', id, port, ms[1..], s);
      var es := Deliveries(ms, s);
      assert es[1..] == Deliveries(ms[1..], s);
      assert forall i :: 1 <= i < |es| ==> es[i] == es[1..][i - 1];
    }
  }
}
