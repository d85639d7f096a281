/** The parser of ground control: dumps and status updates, and operator commands. */
module Parsers {
  import opened Wrappers
  import opened Numbers
  import opened TextLines

  /** What the terminal is told about a satellite. dump_msg is 1 for a parsed dump, else -1. */
  datatype SatOutput = SatOutput(
    id: int, x: Number, y: Number, z: Number, vx: Number, vy: Number, vz: Number,
    packetsSent: nat, packetsReceived: nat, dump_msg: int, alive: bool, chunks: string)

  datatype CommandInput = CommandInput(
    id: int, x: Number, y: Number, z: Number, vx: Number, vy: Number, vz: Number)

  const SEPARATOR := "] : "
  const SAT := "SAT "
  const RECEIVED := "[NETWORK] Message received from "
  const SENT := "[NETWORK] Sent message to "

  /** "SAT %d POS %lf %lf %lf VEL %lf %lf %lf" */
  const SAT_FORMAT: seq<Item> :=
    [Word("SAT"), Int, Word("POS"), Double, Double, Double, Word("VEL"), Double, Double, Double]

  /** "%d %lf %lf %lf %lf %lf %lf" */
  const COMMAND_FORMAT: seq<Item> := [Int, Double, Double, Double, Double, Double, Double]

  /** A default-initialised output. */
  function Blank(id: int): SatOutput {
    SatOutput(id, ZERO, ZERO, ZERO, ZERO, ZERO, ZERO, 0, 0, -1, true, [])
  }

  /** An update of the alive status only. */
  function Status(id: int, alive: bool): SatOutput {
    Blank(id).(alive := alive)
  }

  /** The part of a log line behind the first separator. */
  function BodyOf(line: string): Option<string> {
    if SEPARATOR <= line then Some(line[|SEPARATOR|..])
    else if line == [] then None
    else BodyOf(line[1..])
  }

  /** The parser's running state: the last SAT line and the two counters. */
  datatype Tally = Tally(data: string, received: nat, sent: nat)

  function Absorb(t: Tally, line: string): Tally {
    match BodyOf(line)
    case None => t
    case Some(body) =>
      if SAT <= body then t.(data := body)
      else if RECEIVED <= body then t.(received := t.received + 1)
      else if SENT <= body then t.(sent := t.sent + 1)
      else t
  }

  function TallyOf(lines: seq<string>): Tally {
    if lines == [] then Tally([], 0, 0) else Absorb(TallyOf(lines[..|lines| - 1]), lines[|lines| - 1])
  }

  /** The output made from a tally of the dump's lines. */
  function Summary(id: int, chunk: string, t: Tally, alive: bool): SatOutput {
    var out := Blank(id).(chunks := chunk, packetsReceived := t.received, packetsSent := t.sent);
    var n := if t.data == [] then [] else Sscanf(SAT_FORMAT, t.data);
    if |n| != 7 then out
    else out.(x := n[1], y := n[2], z := n[3], vx := n[4], vy := n[5], vz := n[6], dump_msg := 1, alive := alive)
  }

  function DataDecoder(id: int, chunk: string, alive: bool): SatOutput {
    if chunk == [] then Status(id, alive) else Summary(id, chunk, TallyOf(Lines(chunk)), alive)
  }

  /** The body of the last SAT line of a dump, if there is one. */
  function LastSat(chunk: string): string {
    TallyOf(Lines(chunk)).data
  }

  /** An output reports telemetry exactly if the last SAT line of its dump scans to seven numbers; then it
      carries the last six in order, and otherwise none. */
  lemma {:induction false} ReportsTelemetryExactly(id: int, chunk: string, alive: bool)
    ensures var out, n := DataDecoder(id, chunk, alive), Sscanf(SAT_FORMAT, LastSat(chunk));
            && out.id == id && out.chunks == chunk
            && (out.dump_msg == 1 <==> LastSat(chunk) != [] && |n| == 7)
            && (if out.dump_msg == 1
                then [out.x, out.y, out.z, out.vx, out.vy, out.vz] == n[1..] && out.alive == alive
                else out.dump_msg == -1 && out.x == out.y == out.z == out.vx == out.vy == out.vz == ZERO
                     && out.alive == (alive || chunk != []))
  {
    hide Sscanf, Absorb;
    assert chunk == [] ==> Lines(chunk) == [];
  }

  lemma {:induction false} TallyOfNothing()
    ensures TallyOf(Lines([])) == Tally([], 0, 0) && Tail([]) == []
  {
  }

  /** One more character of a dump: what the loop below does with it. */
  lemma {:induction false} TallyOneMore(s: string, c: char)
    ensures Tail(s + [c]) == if c == '\n' then [] else Tail(s) + [c]
    ensures TallyOf(Lines(s + [c])) == if c == '\n' then Absorb(TallyOf(Lines(s)), Tail(s)) else TallyOf(Lines(s))
  {
    hide Lines, Tail, Absorb;
    OneMore(s, c);
    if c == '\n' {
      assert (Lines(s) + [Tail(s)])[..|Lines(s)|] == Lines(s);
    }
  }

  /** dataDecoder as it runs: one pass over the characters. */
  method DecodeData(id: int, chunk: string, alive: bool) returns (out: SatOutput)
    ensures out == DataDecoder(id, chunk, alive)
  {
    hide Lines, Tail, TallyOf, BodyOf, Sscanf;
    TallyOfNothing();
    out := Blank(id);
    if chunk == [] {
      out := out.(alive := alive);
      return;
    }
    out := out.(chunks := chunk);
    var line: string, data: string := [], [];
    for i := 0 to |chunk|
      invariant line == Tail(chunk[..i])
      invariant Tally(data, out.packetsReceived, out.packetsSent) == TallyOf(Lines(chunk[..i]))
      invariant out == Blank(id).(chunks := chunk, packetsReceived := out.packetsReceived,
                                  packetsSent := out.packetsSent)
    {
      var c := chunk[i];
      assert chunk[..i + 1] == chunk[..i] + [c];
      TallyOneMore(chunk[..i], c);
      if c == '\n' {
        var body := BodyOf(line);
        if body == None {
          line := [];
          continue;
        }
        var substring := body.value;
        if SAT <= substring {
          data := substring;
        } else if RECEIVED <= substring {
          out := out.(packetsReceived := out.packetsReceived + 1);
        } else if SENT <= substring {
          out := out.(packetsSent := out.packetsSent + 1);
        }
        line := [];
      } else {
        line := line + [c];
      }
    }
    assert chunk[..|chunk|] == chunk;
    if data != [] {
      var parsed := Sscanf(SAT_FORMAT, data);
      if |parsed| == 7 {
        out := out.(x := parsed[1], y := parsed[2], z := parsed[3], vx := parsed[4], vy := parsed[5], vz := parsed[6],
                    dump_msg := 1, alive := alive);
      }
    }
  }

  /** The id of a command: the number that was read, as a 32-bit int if it fits one; misfit is what the
      host makes of a number that does not. Then it becomes an unsigned int. */
  function IdFrom(n: Number, misfit: int): int {
    if n.Number? && -0x8000_0000 <= n.mantissa < 0x8000_0000 then n.mantissa % 0x1_0000_0000
    else misfit % 0x1_0000_0000
  }

  /** So it is an unsigned 32-bit number, the one read modulo 2^32 if that fits an int. */
  lemma {:induction false} IdIsUnsigned(k: int, misfit: int)
    ensures 0 <= IdFrom(Number(k, 0), misfit) < 0x1_0000_0000
    ensures 0 <= k < 0x8000_0000 ==> IdFrom(Number(k, 0), misfit) == k
    ensures -0x8000_0000 <= k < 0 ==> IdFrom(Number(k, 0), misfit) == k + 0x1_0000_0000
    ensures 0 <= misfit < 0x1_0000_0000 && (k < -0x8000_0000 || k >= 0x8000_0000) ==>
              IdFrom(Number(k, 0), misfit) == misfit
  {
  }

  /** commandDecoder; None where the source returns a struct it never filled in. */
  function CommandDecoder(command: string, misfit: int): Option<CommandInput> {
    var n := Sscanf(COMMAND_FORMAT, command);
    if |n| != 7 then None
    else Some(CommandInput(IdFrom(n[0], misfit), n[1], n[2], n[3], n[4], n[5], n[6]))
  }

  // ---------------------------------------------------------------- log records

  /** A log record as the logger writes it: time stamp and body. */
  datatype Record = Record(stamp: string, body: string) {
    predicate Valid() { ']' !in stamp && Plain(stamp) && Plain(body) }

    function Line(): string { "[" + stamp + SEPARATOR + body }
  }

  /** The log file holding some records. */
  function LogFile(records: seq<Record>): string {
    Join(RecordLines(records))
  }

  function RecordLines(records: seq<Record>): seq<string> {
    seq(|records|, i requires 0 <= i < |records| => records[i].Line())
  }

  function CountWith(records: seq<Record>, prefix: string): nat {
    if records == [] then 0
    else CountWith(records[..|records| - 1], prefix) + (if prefix <= records[|records| - 1].body then 1 else 0)
  }

  function LastWith(records: seq<Record>, prefix: string): string {
    if records == [] then []
    else if prefix <= records[|records| - 1].body then records[|records| - 1].body
    else LastWith(records[..|records| - 1], prefix)
  }

  /** A satellite's telemetry: id and coordinates in millionths. */
  datatype Telemetry = Telemetry(id: nat, x: int, y: int, z: int, vx: int, vy: int, vz: int)

  /** The line a satellite logs about itself. */
  function SatLine(s: Telemetry): string {
    "SAT " + Print(s.id) + " POS " + Triple(s.x, s.y, s.z) + " VEL " + Triple(s.vx, s.vy, s.vz)
  }

  function Triple(x: int, y: int, z: int): string {
    PrintDouble(x) + " " + PrintDouble(y) + " " + PrintDouble(z)
  }

  lemma {:induction false} BodyBehindStamp(stamp: string, body: string)
    requires ']' !in stamp
    ensures BodyOf(stamp + SEPARATOR + body) == Some(body)
  {
    var line := stamp + SEPARATOR + body;
    if stamp == [] {
      assert line == SEPARATOR + body;
    } else {
      assert line[0] == stamp[0];
      assert line[1..] == stamp[1..] + SEPARATOR + body;
      BodyBehindStamp(stamp[1..], body);
    }
  }

  lemma {:induction false} BodyOfRecord(r: Record)
    requires r.Valid()
    ensures BodyOf(r.Line()) == Some(r.body)
  {
    BodyBehindStamp("[" + r.stamp, r.body);
  }

  /** The three prefixes the parser looks for exclude each other. */
  lemma {:induction false} PrefixesDiffer(body: string)
    ensures !(SAT <= body && RECEIVED <= body) && !(SAT <= body && SENT <= body) && !(RECEIVED <= body && SENT <= body)
  {
    assert SAT[0] == 'S' && RECEIVED[0] == '[' && SENT[0] == '[';
    assert RECEIVED[10] == 'M' && SENT[10] == 'S';
  }

  /** The parser's tally of log lines, in terms of the records they came from. */
  lemma {:induction false} TallyOfRecords(records: seq<Record>)
    requires forall i :: 0 <= i < |records| ==> records[i].Valid()
    ensures TallyOf(RecordLines(records)) ==
              Tally(LastWith(records, SAT), CountWith(records, RECEIVED), CountWith(records, SENT))
  {
    if records != [] {
      var init, r := records[..|records| - 1], records[|records| - 1];
      TallyOfRecords(init);
      assert RecordLines(records)[..|records| - 1] == RecordLines(init);
      BodyOfRecord(r);
      PrefixesDiffer(r.body);
    }
  }

  lemma {:induction false} LinesOfLogFile(records: seq<Record>)
    requires forall i :: 0 <= i < |records| ==> records[i].Valid()
    ensures Lines(LogFile(records)) == RecordLines(records)
  {
    forall i | 0 <= i < |records| ensures Plain(RecordLines(records)[i]) {
      assert '\n' !in SEPARATOR;
    }
    JoinThenSplit(RecordLines(records), []);
    assert LogFile(records) + [] == LogFile(records);
  }

  // ---------------------------------------------------------------- the SAT line

  /** Three numbers in front of a sample. */
  lemma {:induction false} TripleInFront(a: Field, b: Field, c: Field, t: Sample) returns (r: Sample)
    requires t.Sound() && a.Valid() && b.Valid() && c.Valid()
    ensures r.Sound()
    ensures r.format == [Double] + ([Double] + ([Double] + t.format))
    ensures r.values == [a.Value()] + ([b.Value()] + ([c.Value()] + t.values))
    ensures r.text == (a.Text() + " " + b.Text() + " " + c.Text()) + t.rest && r.rest == " " + r.text
  {
    var z := Extend(Decimal(c), t);
    var y := Extend(Decimal(b), z);
    r := Extend(Decimal(a), y);
    TripleText(a.Text(), b.Text(), c.Text(), t.rest);
  }

  lemma {:induction false} TripleText(a: string, b: string, c: string, rest: string)
    ensures a + (" " + (b + (" " + (c + rest)))) == (a + " " + b + " " + c) + rest
  {
    assert b + (" " + (c + rest)) == b + " " + c + rest;
  }

  /** "SAT id POS" in front of a sample. */
  lemma {:induction false} SatHead(id: Field, t: Sample) returns (r: Sample)
    requires t.Sound() && t.rest == " " + t.text && id.Valid() && id.fraction == []
    ensures r.Sound()
    ensures r.format == [Word("SAT")] + ([Int] + ([Word("POS")] + t.format))
    ensures r.values == [] + ([id.Value()] + ([] + t.values))
    ensures r.text == "SAT" + (" " + (id.Text() + (" " + ("POS" + (" " + t.text)))))
  {
    var pos := Extend(Literal("POS"), t);
    var number := Extend(Whole(id), pos);
    r := Extend(Literal("SAT"), number);
  }

  /** A SAT line in terms of the seven numbers in it. */
  lemma {:induction false} SatSample(id: Field, x: Field, y: Field, z: Field, vx: Field, vy: Field, vz: Field)
    requires id.Valid() && id.fraction == []
    requires x.Valid() && y.Valid() && z.Valid() && vx.Valid() && vy.Valid() && vz.Valid()
    ensures Sscanf(SAT_FORMAT,
                   "SAT " + id.Text() + " POS " + (x.Text() + " " + y.Text() + " " + z.Text())
                   + " VEL " + (vx.Text() + " " + vy.Text() + " " + vz.Text())) ==
              [id.Value(), x.Value(), y.Value(), z.Value(), vx.Value(), vy.Value(), vz.Value()]
  {
    var end := Nothing();
    var velocity := TripleInFront(vx, vy, vz, end);
    var vel := Extend(Literal("VEL"), velocity);
    var position := TripleInFront(x, y, z, vel);
    var line := SatHead(id, position);
    SampleScans(line);
    SatLineText(id.Text(), x.Text() + " " + y.Text() + " " + z.Text(), vx.Text() + " " + vy.Text() + " " + vz.Text());
    SatFormatInOrder();
    ValuesInOrder(id.Value(), x.Value(), y.Value(), z.Value(), vx.Value(), vy.Value(), vz.Value());
  }

  lemma {:induction false} SatFormatInOrder()
    ensures [Word("SAT")] + ([Int] + ([Word("POS")] + ([Double] + ([Double] + ([Double] +
              ([Word("VEL")] + ([Double] + ([Double] + ([Double] + []))))))))) == SAT_FORMAT
  {
    assert [Word("VEL")] + ([Double] + ([Double] + ([Double] + []))) == [Word("VEL"), Double, Double, Double];
  }

  lemma {:induction false} ValuesInOrder(i: Number, a: Number, b: Number, c: Number, d: Number, e: Number, f: Number)
    ensures [] + ([i] + ([] + ([a] + ([b] + ([c] + ([] + ([d] + ([e] + ([f] + []))))))))) == [i, a, b, c, d, e, f]
  {
    assert [] + ([d] + ([e] + ([f] + []))) == [d, e, f];
  }

  /** The parser reads back exactly the numbers a satellite printed about itself. */
  lemma {:induction false} SatLineReadsBack(s: Telemetry)
    ensures Sscanf(SAT_FORMAT, SatLine(s)) ==
              [Number(s.id, 0), Number(s.x, 6), Number(s.y, 6), Number(s.z, 6),
               Number(s.vx, 6), Number(s.vy, 6), Number(s.vz, 6)]
    ensures SAT <= SatLine(s)
  {
    PrintDoubleReadsBack(s.x);
    PrintDoubleReadsBack(s.y);
    PrintDoubleReadsBack(s.z);
    PrintDoubleReadsBack(s.vx);
    PrintDoubleReadsBack(s.vy);
    PrintDoubleReadsBack(s.vz);
    var id := IdField(s.id);
    SatSample(id, DoubleField(s.x), DoubleField(s.y), DoubleField(s.z),
              DoubleField(s.vx), DoubleField(s.vy), DoubleField(s.vz));
  }

  lemma {:induction false} IdField(n: nat) returns (f: Field)
    ensures f.Valid() && f.fraction == [] && f.Text() == Print(n) && f.Value() == Number(n, 0)
  {
    PrintIsDigits(n);
    f := Field(false, Print(n), "");
    assert Print(n) + [] == Print(n);
  }

  lemma {:induction false} SatLineText(i: string, p: string, v: string)
    ensures "SAT" + (" " + (i + (" " + ("POS" + (" " + (p + (" " + ("VEL" + (" " + (v + [])))))))))) ==
              "SAT " + i + " POS " + p + " VEL " + v
  {
    assert " " + ("VEL" + (" " + (v + []))) == " VEL " + v;
    assert " " + ("POS" + (" " + (p + (" VEL " + v)))) == " POS " + p + " VEL " + v;
    assert "SAT" + (" " + (i + (" POS " + p + " VEL " + v))) == "SAT " + i + " POS " + p + " VEL " + v;
  }

  lemma {:induction false} DecodedFromTally(id: int, chunk: string, t: Tally, n: seq<Number>, alive: bool)
    requires chunk != [] && TallyOf(Lines(chunk)) == t && t.data != []
    requires Sscanf(SAT_FORMAT, t.data) == n && |n| == 7
    ensures DataDecoder(id, chunk, alive) ==
              SatOutput(id, n[1], n[2], n[3], n[4], n[5], n[6], t.sent, t.received, 1, alive, chunk)
  {
  }

  /** What the parser's pass over a log file accumulates, in terms of the records in the file. */
  lemma {:induction false} TallyOfLogFile(records: seq<Record>)
    requires forall i :: 0 <= i < |records| ==> records[i].Valid()
    ensures TallyOf(Lines(LogFile(records))) ==
              Tally(LastWith(records, SAT), CountWith(records, RECEIVED), CountWith(records, SENT))
    ensures records != [] ==> LogFile(records) != []
  {
    LinesOfLogFile(records);
    TallyOfRecords(records);
    assert |Lines(LogFile(records))| == |records|;
  }

  /** Log printer and dump parser undo each other: of a log file with a SAT record in it, the parser
      reports the coordinates of the last one, counts the received and the sent records, and hands the
      file on unchanged. */
  lemma {:induction false} DumpReadsBack(id: int, records: seq<Record>, s: Telemetry)
    requires forall i :: 0 <= i < |records| ==> records[i].Valid()
    requires LastWith(records, SAT) == SatLine(s)
    ensures DataDecoder(id, LogFile(records), true) ==
              SatOutput(id, Number(s.x, 6), Number(s.y, 6), Number(s.z, 6),
                        Number(s.vx, 6), Number(s.vy, 6), Number(s.vz, 6),
                        CountWith(records, SENT), CountWith(records, RECEIVED), 1, true, LogFile(records))
  {
    hide DataDecoder, LogFile, CountWith, SatLine, Sscanf, Lines, TallyOf, Record.Valid;
    var t := Tally(LastWith(records, SAT), CountWith(records, RECEIVED), CountWith(records, SENT));
    TallyOfLogFile(records);
    SatLineReadsBack(s);
    var n := Sscanf(SAT_FORMAT, t.data);
    DecodedFromTally(id, LogFile(records), t, n, true);
  }

  // ---------------------------------------------------------------- operator commands

  /** (\.\d+)? : the fractional digits, if a point with digits follows, and the rest. */
  function TakeFraction(tail: string): (r: (string, string))
    ensures AllDigits(r.0) && tail == Field(false, "", r.0).Point() + r.1
  {
    if tail != [] && tail[0] == '.' && DigitCount(tail[1..]) > 0 then
      var n := DigitCount(tail[1..]);
      assert tail == "." + tail[1..][..n] + tail[1..][n..];
      (tail[1..][..n], tail[1..][n..])
    else ([], tail)
  }

  /** One number of the command pattern, -?\d+(\.\d+)?, and what follows it. */
  function TakeField(s: string): Option<(Field, string)> {
    var negative := s != [] && s[0] == '-';
    var body := if negative then s[1..] else s;
    var n := DigitCount(body);
    var (fraction, rest) := TakeFraction(body[n..]);
    if n == 0 then None else Some((Field(negative, body[..n], fraction), rest))
  }

  /** k numbers with single blanks between them and nothing around them. */
  function TakeFields(s: string, k: nat): Option<seq<Field>>
    requires k > 0
    decreases k
  {
    match TakeField(s)
    case None => None
    case Some((f, rest)) =>
      if k == 1 then (if rest == [] then Some([f]) else None)
      else if rest == [] || rest[0] != ' ' then None
      else match TakeFields(rest[1..], k - 1)
        case None => None
        case Some(fs) => Some([f] + fs)
  }

  /** checkRegex: seven such numbers, the first without sign and fraction. */
  predicate CheckRegex(input: string) {
    var fs := TakeFields(input, 7);
    fs.Some? && |fs.value| > 0 && !fs.value[0].negative && fs.value[0].fraction == []
  }

  /** Numbers with single blanks between them. */
  function Spaced(fs: seq<Field>): string {
    if fs == [] then [] else fs[0].Text() + (if |fs| == 1 then [] else " " + Spaced(fs[1..]))
  }

  predicate AllValid(fs: seq<Field>) { forall i :: 0 <= i < |fs| ==> fs[i].Valid() }

  lemma {:induction false} TakeFieldSound(s: string)
    requires TakeField(s).Some?
    ensures TakeField(s).value.0.Valid() && s == TakeField(s).value.0.Text() + TakeField(s).value.1
  {
    hide DigitCount, TakeFraction, Field.Point;
    var negative := s != [] && s[0] == '-';
    var body := if negative then s[1..] else s;
    var n := DigitCount(body);
    var fraction, rest := TakeFraction(body[n..]).0, TakeFraction(body[n..]).1;
    var f := Field(negative, body[..n], fraction);
    assert f.Point() + rest == body[n..] by { PointOnly(f); }
    Cut(body, n);
    assert s == (if negative then "-" else "") + body;
    Glue(if negative then "-" else "", body[..n], f.Point(), rest);
  }

  /** The text of the fraction depends on the fraction only. */
  lemma {:induction false} PointOnly(f: Field)
    ensures f.Point() == Field(false, "", f.fraction).Point()
  {
  }

  lemma {:induction false} Cut(s: string, n: nat)
    requires n <= |s|
    ensures s == s[..n] + s[n..]
  {
  }

  lemma {:induction false} Glue(sign: string, whole: string, point: string, rest: string)
    ensures sign + (whole + (point + rest)) == sign + whole + point + rest
  {
    Regroup(sign, whole, point + rest);
    Regroup(sign + whole, point, rest);
  }

  lemma {:induction false} TakeFieldComplete(f: Field, rest: string)
    requires f.Valid() && EndsNumber(rest)
    ensures TakeField(f.Text() + rest) == Some((f, rest))
  {
    TextStart(f, rest);
    ScanFractionReadsText(f, rest);
    DigitCountOfDigits(f.whole, f.Point() + rest);
    TakeFractionComplete(f, rest);
    TakeFieldParts(f.Text() + rest, f, f.Point() + rest, rest);
  }

  lemma {:induction false} TakeFractionComplete(f: Field, rest: string)
    requires f.Valid() && EndsNumber(rest)
    ensures TakeFraction(f.Point() + rest) == (f.fraction, rest)
  {
    if f.fraction == [] {
      assert "" + rest == rest;
    } else {
      assert (("." + f.fraction) + rest)[1..] == f.fraction + rest;
      DigitCountOfDigits(f.fraction, rest);
    }
  }

  lemma {:induction false} TakeFieldParts(s: string, f: Field, tail: string, rest: string)
    requires f.Valid() && s != [] && (s[0] == '-' <==> f.negative)
    requires (if f.negative then s[1..] else s) == f.whole + tail
    requires DigitCount(f.whole + tail) == |f.whole|
    requires (f.whole + tail)[..|f.whole|] == f.whole && (f.whole + tail)[|f.whole|..] == tail
    requires TakeFraction(tail) == (f.fraction, rest)
    ensures TakeField(s) == Some((f, rest))
  {
  }

  lemma {:induction false} SpacedInFront(f: Field, fs: seq<Field>)
    ensures Spaced([f] + fs) == f.Text() + (if fs == [] then [] else " " + Spaced(fs))
  {
    assert ([f] + fs)[1..] == fs;
  }

  lemma {:induction false} TakeFieldsStep(s: string, k: nat, f: Field, rest: string)
    requires k > 1 && TakeField(s) == Some((f, rest)) && rest != [] && rest[0] == ' '
    ensures TakeFields(s, k) == (match TakeFields(rest[1..], k - 1) case None => None case Some(fs) => Some([f] + fs))
  {
  }

  lemma {:induction false} TakeFieldsSound(s: string, k: nat)
    requires k > 0 && TakeFields(s, k).Some?
    ensures var fs := TakeFields(s, k).value;
            |fs| == k && AllValid(fs) && s == Spaced(fs)
    decreases k
  {
    hide TakeField;
    TakeFieldSound(s);
    var (f, rest) := TakeField(s).value;
    if k == 1 {
      SpacedInFront(f, []);
      assert [f] + [] == [f];
    } else {
      TakeFieldsSound(rest[1..], k - 1);
      TakeFieldsStep(s, k, f, rest);
      SpacedInFront(f, TakeFields(rest[1..], k - 1).value);
      assert rest == " " + rest[1..];
    }
  }

  lemma {:induction false} TakeFieldsComplete(fs: seq<Field>)
    requires fs != [] && AllValid(fs)
    ensures TakeFields(Spaced(fs), |fs|) == Some(fs)
  {
    hide TakeField, Spaced;
    var rest := fs[1..];
    assert fs == [fs[0]] + rest;
    SpacedInFront(fs[0], rest);
    var tail := if rest == [] then [] else " " + Spaced(rest);
    TakeFieldComplete(fs[0], tail);
    if rest != [] {
      TakeFieldsComplete(rest);
      TakeFieldsStep(Spaced(fs), |fs|, fs[0], tail);
      assert tail[1..] == Spaced(rest);
    } else {
      assert fs == [fs[0]];
      assert TakeField(Spaced(fs)) == Some((fs[0], []));
    }
  }

  /** The command pattern accepts exactly the texts of seven decimal numbers with single blanks between
      them, the first of them an unsigned integer. */
  lemma {:induction false} PatternLanguage(input: string)
    ensures CheckRegex(input) <==>
              exists fs: seq<Field> :: |fs| == 7 && AllValid(fs) && !fs[0].negative && fs[0].fraction == []
                                       && input == Spaced(fs)
  {
    if CheckRegex(input) {
      TakeFieldsSound(input, 7);
    }
    forall fs: seq<Field> | |fs| == 7 && AllValid(fs) && input == Spaced(fs)
      ensures TakeFields(input, 7) == Some(fs)
    {
      TakeFieldsComplete(fs);
    }
  }

  function Doubles(k: nat): seq<Item> { seq(k, _ => Double) }

  function FieldValues(fs: seq<Field>): seq<Number>
    requires AllValid(fs)
  {
    seq(|fs|, i requires 0 <= i < |fs| => fs[i].Value())
  }

  lemma {:induction false} SkipsOneBlank(s: string)
    requires SkipSpaces(s) == s
    ensures SkipSpaces(" " + s) == s
  {
    assert (" " + s)[1..] == s;
  }

  lemma {:induction false} SpacedStart(fs: seq<Field>)
    requires fs != [] && AllValid(fs)
    ensures SkipSpaces(Spaced(fs)) == Spaced(fs) && SkipSpaces(" " + Spaced(fs)) == Spaced(fs)
  {
    TextStart(fs[0], if |fs| == 1 then [] else " " + Spaced(fs[1..]));
    SkipsOneBlank(Spaced(fs));
  }

  /** Blank-separated numbers, scanned one by one. */
  lemma {:induction false} SpacedScans(fs: seq<Field>)
    requires fs != [] && AllValid(fs)
    ensures Sscanf(Doubles(|fs|), Spaced(fs)) == FieldValues(fs)
  {
    hide Sscanf, Spaced, ScanDouble, SkipSpaces, Field.Valid, Field.Value, Field.Text;
    var f, rest := fs[0], fs[1..];
    assert fs == [f] + rest;
    SpacedInFront(f, rest);
    var tail := if rest == [] then [] else " " + Spaced(rest);
    ScanDoubleReadsText(f, tail);
    SscanfStep(Double, Doubles(|rest|), f.Text() + tail, [f.Value()], tail);
    assert Doubles(|fs|) == [Double] + Doubles(|rest|);
    assert FieldValues(fs) == [f.Value()] + FieldValues(rest);
    if rest != [] {
      SpacedStart(rest);
      SpacedScans(rest);
    } else {
      SscanfNothing(SkipSpaces(tail));
      assert f.Text() + tail == Spaced(fs);
    }
  }

  lemma {:induction false} SscanfNothing(s: string)
    ensures Sscanf([], s) == []
  {
  }

  /** Every accepted command is fully parsed: its id to the number the text denotes exactly if that is
      below 2^31 or the host's result happens to be it, and its six further fields to the numbers their
      texts denote. No partly filled command is ever handed on. */
  lemma {:induction false} AcceptedCommandsParse(input: string, misfit: int)
    ensures CheckRegex(input) ==>
              var fs := TakeFields(input, 7).value;
              && |fs| == 7 && AllValid(fs)
              && CommandDecoder(input, misfit).Some?
              && var com := CommandDecoder(input, misfit).value;
              && com == CommandInput(com.id, fs[1].Value(), fs[2].Value(), fs[3].Value(),
                                     fs[4].Value(), fs[5].Value(), fs[6].Value())
              && (com.id == ValueOf(fs[0].whole) <==>
                    ValueOf(fs[0].whole) < 0x8000_0000 || ValueOf(fs[0].whole) == misfit % 0x1_0000_0000)
  {
    hide CheckRegex, CommandDecoder, TakeFields, ValueOf;
    if CheckRegex(input) {
      AcceptedFieldsParse(input, misfit);
    }
  }

  lemma {:induction false} AcceptedFieldsParse(input: string, misfit: int)
    requires CheckRegex(input)
    ensures var fs := TakeFields(input, 7).value;
            && |fs| == 7 && AllValid(fs)
            && CommandDecoder(input, misfit) ==
                 Some(CommandInput(IdFrom(Number(ValueOf(fs[0].whole), 0), misfit), fs[1].Value(), fs[2].Value(),
                                   fs[3].Value(), fs[4].Value(), fs[5].Value(), fs[6].Value()))
  {
    hide Sscanf, Spaced, ScanInt, TakeFields, ValueOf;
    TakeFieldsSound(input, 7);
    var fs := TakeFields(input, 7).value;
    var id, rest := fs[0], fs[1..];
    assert fs == [id] + rest;
    SpacedInFront(id, rest);
    SpacedScans(rest);
    SpacedStart(rest);
    ScanIntReadsText(id, " " + Spaced(rest));
    SscanfStep(Int, Doubles(6), input, [id.Value()], " " + Spaced(rest));
    assert [Int] + Doubles(6) == COMMAND_FORMAT;
    assert id.whole + [] == id.whole;
    assert [id.Value()] + FieldValues(rest) ==
      [fs[0].Value(), fs[1].Value(), fs[2].Value(), fs[3].Value(), fs[4].Value(), fs[5].Value(), fs[6].Value()];
  }
}
