/** The terminal's satellite records and its two loops: output consumer and command input. */
module Terminals {
  import opened Wrappers
  import opened Numbers
  import opened TextLines
  import opened MessageQueues
  import opened Parsers

  /** A satellite's record; log is what its logger queue was given. */
  datatype SatRecord = SatRecord(
    x: Number, y: Number, z: Number, vx: Number, vy: Number, vz: Number,
    packetsReceived: nat, packetsSent: nat, alive: bool, log: seq<string>)

  function FreshRecord(): SatRecord {
    SatRecord(ZERO, ZERO, ZERO, ZERO, ZERO, ZERO, 0, 0, true, [])
  }

  /** What one output message does to the record of its satellite. */
  function Updated(r: SatRecord, msg: SatOutput): SatRecord {
    var logged := if msg.chunks != [] then r.(log := r.log + Lines(msg.chunks)) else r;
    var dumped :=
      if msg.dump_msg == 1 then
        logged.(x := msg.x, y := msg.y, z := msg.z, vx := msg.vx, vy := msg.vy, vz := msg.vz,
                packetsReceived := logged.packetsReceived + msg.packetsReceived,
                packetsSent := logged.packetsSent + msg.packetsSent)
      else logged;
    dumped.(alive := msg.alive)
  }

  class SatelliteData {
    const id: int
    var x: Number
    var y: Number
    var z: Number
    var vx: Number
    var vy: Number
    var vz: Number
    var packetsReceived: nat
    var packetsSent: nat
    var alive: bool
    const loggerQueue: MessageQueue<string>

    function View(): SatRecord
      reads this, loggerQueue
    {
      SatRecord(x, y, z, vx, vy, vz, packetsReceived, packetsSent, alive, loggerQueue.messageQueue)
    }

    constructor (id: int)
      ensures View() == FreshRecord() && this.id == id && fresh(loggerQueue)
      ensures x == y == z == vx == vy == vz == ZERO && packetsReceived == packetsSent == 0 && alive
      ensures loggerQueue.messageQueue == []
    {
      this.id := id;
      x, y, z, vx, vy, vz := ZERO, ZERO, ZERO, ZERO, ZERO, ZERO;
      packetsReceived, packetsSent, alive := 0, 0, true;
      loggerQueue := new MessageQueue<string>();
    }

    method UpdateVals(newx: Number, newy: Number, newz: Number, newvx: Number, newvy: Number, newvz: Number)
      modifies this
      ensures View() == old(View()).(x := newx, y := newy, z := newz, vx := newvx, vy := newvy, vz := newvz)
    {
      x, y, z := newx, newy, newz;
      vx, vy, vz := newvx, newvy, newvz;
    }

    method UpdatePackets(received: nat, sent: nat)
      modifies this
      ensures View() == old(View()).(packetsReceived := old(packetsReceived) + received,
                                     packetsSent := old(packetsSent) + sent)
    {
      packetsReceived := packetsReceived + received;
      packetsSent := packetsSent + sent;
    }

    method MarkAlive(b: bool)
      modifies this
      ensures View() == old(View()).(alive := b)
    {
      alive := b;
    }

    /** What the terminal's output thread does with a message about this satellite. */
    method Handle(msg: SatOutput)
      modifies this, loggerQueue
      ensures View() == Updated(old(View()), msg)
    {
      hide Lines;
      if msg.chunks != [] {
        LogData(msg.chunks);
      }
      if msg.dump_msg == 1 {
        UpdateVals(msg.x, msg.y, msg.z, msg.vx, msg.vy, msg.vz);
        UpdatePackets(msg.packetsReceived, msg.packetsSent);
      }
      MarkAlive(msg.alive);
    }

    /** Pushes exactly the newline-terminated lines the dump parser scans, in order. */
    method LogData(lines: string)
      modifies loggerQueue
      ensures View() == old(View()).(log := old(View()).log + Lines(lines))
    {
      var line: string := [];
      for i := 0 to |lines|
        invariant line == Tail(lines[..i])
        invariant loggerQueue.messageQueue == old(loggerQueue.messageQueue) + Lines(lines[..i])
      {
        OneMore(lines[..i], lines[i]);
        assert lines[..i + 1] == lines[..i] + [lines[i]];
        if lines[i] == '\n' {
          loggerQueue.PushBack(line);
          line := [];
        } else {
          line := line + [lines[i]];
        }
      }
      assert lines[..|lines|] == lines;
    }
  }

  /** A dump without telemetry that scans leaves coordinates and totals alone: its lines are logged and the
      satellite counts as alive. */
  lemma {:induction false} DamagedDumpOnlyLogs(r: SatRecord, id: int, chunk: string)
    requires chunk != [] && !(LastSat(chunk) != [] && |Sscanf(SAT_FORMAT, LastSat(chunk))| == 7)
    ensures Updated(r, DataDecoder(id, chunk, true)) == r.(log := r.log + Lines(chunk), alive := true)
  {
    hide DataDecoder, LastSat, Sscanf, Lines;
    ReportsTelemetryExactly(id, chunk, true);
  }

  type Records = map<int, SatRecord>

  /** What the terminal shows after one output message; messages about unknown satellites are dropped. */
  function Shown(records: Records, msg: SatOutput): Records {
    if msg.id in records then records[msg.id := Updated(records[msg.id], msg)] else records
  }

  datatype Entered = Quit | BadFormat | NoSuchSatellite(com: CommandInput) | Queued(com: CommandInput)

  class Terminal {
    var sats: map<int, SatelliteData>
    var running: bool
    const outputQueue: MessageQueue<SatOutput>
    const inputQueue: MessageQueue<CommandInput>

    ghost predicate Valid()
      reads this, sats.Values
    {
      forall i, j :: i in sats && j in sats && i != j ==>
        sats[i] != sats[j] && sats[i].loggerQueue != sats[j].loggerQueue
    }

    ghost function Queues(): set<MessageQueue<string>>
      reads this, sats.Values
    {
      set s <- sats.Values :: s.loggerQueue
    }

    function View(): Records
      reads this, sats.Values, Queues()
    {
      map i | i in sats :: sats[i].View()
    }

    constructor (outputQueue: MessageQueue<SatOutput>, inputQueue: MessageQueue<CommandInput>)
      ensures Valid() && View() == map[] && running
      ensures this.outputQueue == outputQueue && this.inputQueue == inputQueue
    {
      this.outputQueue, this.inputQueue := outputQueue, inputQueue;
      sats, running := map[], true;
    }

    /** The body of the output consumer, between pop and the next test of the running flag. */
    method HandleOutput(msg: SatOutput)
      requires Valid()
      modifies sats.Values, Queues()
      ensures sats == old(sats) && Valid()
      ensures View() == Shown(old(View()), msg)
    {
      hide Updated;
      if msg.id !in sats {
        return;
      }
      var sat := sats[msg.id];
      sat.Handle(msg);
      forall i <- sats | i != msg.id ensures sats[i].View() == old(sats[i].View()) {
        assert unchanged(sats[i]) && unchanged(sats[i].loggerQueue);
      }
    }

    /** The user presses enter: quit, or a command that is checked, parsed and queued; misfit is what the
        host makes of an id beyond the range of int. */
    method Enter(input: string, misfit: int) returns (r: Entered)
      requires Valid()
      requires (outputQueue as object) != inputQueue
      modifies this`running, outputQueue, inputQueue
      ensures r.Quit? <==> input == "quit"
      ensures !r.Quit? ==> (r.BadFormat? <==> !CheckRegex(input))
      ensures r.Queued? || r.NoSuchSatellite? ==>
                CommandDecoder(input, misfit) == Some(r.com) && (r.Queued? <==> r.com.id in sats)
      ensures inputQueue.messageQueue == old(inputQueue.messageQueue) + (if r.Queued? then [r.com] else [])
      ensures outputQueue.messageQueue == old(outputQueue.messageQueue)
      ensures r.Quit? ==> !running && outputQueue.stopped && inputQueue.stopped
      ensures !r.Quit? ==> running == old(running) && outputQueue.stopped == old(outputQueue.stopped)
                           && inputQueue.stopped == old(inputQueue.stopped)
    {
      hide CheckRegex, CommandDecoder;
      if input == "quit" {
        running := false;
        outputQueue.Shutdown();
        inputQueue.Shutdown();
        return Quit;
      }
      if !CheckRegex(input) {
        return BadFormat;
      }
      AcceptedCommandsParse(input, misfit);
      var com := CommandDecoder(input, misfit).value;
      if com.id !in sats {
        return NoSuchSatellite(com);
      }
      inputQueue.PushBack(com);
      r := Queued(com);
    }
  }

  // ---------------------------------------------------------------- totals over a run

  function ShownAll(records: Records, msgs: seq<SatOutput>): Records {
    if msgs == [] then records else Shown(ShownAll(records, msgs[..|msgs| - 1]), msgs[|msgs| - 1])
  }

  /** The outputs about one satellite. */
  function About(id: int, msgs: seq<SatOutput>): seq<SatOutput> {
    if msgs == [] then []
    else About(id, msgs[..|msgs| - 1]) + (if msgs[|msgs| - 1].id == id then [msgs[|msgs| - 1]] else [])
  }

  function ReceivedIn(msgs: seq<SatOutput>): nat {
    if msgs == [] then 0
    else
      var init, m := msgs[..|msgs| - 1], msgs[|msgs| - 1];
      ReceivedIn(init) + (if m.dump_msg == 1 then m.packetsReceived else 0)
  }

  function SentIn(msgs: seq<SatOutput>): nat {
    if msgs == [] then 0
    else SentIn(msgs[..|msgs| - 1]) + (if msgs[|msgs| - 1].dump_msg == 1 then msgs[|msgs| - 1].packetsSent else 0)
  }

  function LoggedIn(msgs: seq<SatOutput>): seq<string> {
    if msgs == [] then [] else LoggedIn(msgs[..|msgs| - 1]) + Lines(msgs[|msgs| - 1].chunks)
  }

  lemma {:induction false} NoLines()
    ensures Lines([]) == []
  {
  }

  /** Over any sequence of outputs, a satellite's totals are the sums over its parsed dumps and its log is
      the lines of all its dumps; other satellites' outputs change nothing, and no satellite is added. */
  lemma {:induction false} TotalsOverARun(records: Records, msgs: seq<SatOutput>, id: int)
    requires id in records
    ensures ShownAll(records, msgs).Keys == records.Keys
    ensures var r, r' := records[id], ShownAll(records, msgs)[id];
            && r'.packetsReceived == r.packetsReceived + ReceivedIn(About(id, msgs))
            && r'.packetsSent == r.packetsSent + SentIn(About(id, msgs))
            && r'.log == r.log + LoggedIn(About(id, msgs))
            && r'.alive == (if About(id, msgs) == [] then r.alive else About(id, msgs)[|About(id, msgs)| - 1].alive)
  {
    hide Lines, ReceivedIn, SentIn, LoggedIn;
    if msgs == [] {
      SumsOfNothing();
    } else {
      var init, m := msgs[..|msgs| - 1], msgs[|msgs| - 1];
      TotalsOverARun(records, init, id);
      assert About(id, msgs) == About(id, init) + (if m.id == id then [m] else []);
      if m.id == id {
        SumsSnoc(About(id, init), m);
        if m.chunks == [] {
          NoLines();
        }
      } else {
        assert About(id, msgs) == About(id, init);
      }
    }
  }

  lemma {:induction false} SumsOfNothing()
    ensures ReceivedIn([]) == 0 && SentIn([]) == 0 && LoggedIn([]) == []
  {
  }

  lemma {:induction false} SumsSnoc(msgs: seq<SatOutput>, m: SatOutput)
    ensures ReceivedIn(msgs + [m]) == ReceivedIn(msgs) + (if m.dump_msg == 1 then m.packetsReceived else 0)
    ensures SentIn(msgs + [m]) == SentIn(msgs) + (if m.dump_msg == 1 then m.packetsSent else 0)
    ensures LoggedIn(msgs + [m]) == LoggedIn(msgs) + Lines(m.chunks)
  {
    assert (msgs + [m])[..|msgs|] == msgs;
  }
}
