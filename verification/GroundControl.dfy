/** Ground control as a whole: listener, update thread and terminal over any run. */
module GroundControls {
  import opened Config
  import opened Messages
  import opened Parsers
  import opened Connections
  import opened GCConnectionHandlers
  import opened Receivers
  import Terminals
  import FD = FailureDetectors

  /** gc.outputs is the content of the output queue; shown is what the terminal holds. */
  datatype World = World(gc: Gc, shown: Terminals.Records)

  /** One listener iteration, one update pass within a span of time, or one output consumed. */
  datatype Event =
    | Received(m: Message, s: Surroundings)
    | Updated(order: seq<int>, ticks: map<int, Tick>, begin: nat, end: nat)
    | Consumed

  /** A line of the configuration file, with what connecting to that satellite met. */
  datatype Entry = Entry(id: int32, ip: string, port: int32, arrival: Arrival)

  /** connectToSatellites. */
  function Start(config: seq<Entry>): World {
    if config == [] then World(Gc(map[], map[], []), map[])
    else
      var w, c := Start(config[..|config| - 1]), config[|config| - 1];
      World(w.gc.(conns := Added(w.gc.conns, c.port, c.ip, c.id, GC_PORT, c.arrival)),
            if c.id in w.shown then w.shown else w.shown[c.id := Terminals.FreshRecord()])
  }

  predicate Enabled(w: World, e: Event) {
    match e
    case Received(m, s) => Acceptable(m) && Listen(w.gc, GC_PORT, m, s).Listened?
    case Updated(order, ticks, _, _) => Visits(order, w.gc.conns) && forall id <- order :: id in ticks
    case Consumed => w.gc.outputs != []
  }

  function Apply(w: World, e: Event): World
    requires Enabled(w, e)
  {
    match e
    case Received(m, s) => w.(gc := Listen(w.gc, GC_PORT, m, s).gc)
    case Updated(order, ticks, _, _) =>
      var p := Pass(w.gc.conns, order, ticks);
      w.(gc := w.gc.(conns := p.conns, outputs := w.gc.outputs + p.notices))
    case Consumed =>
      World(w.gc.(outputs := w.gc.outputs[1..]), Terminals.Shown(w.shown, w.gc.outputs[0]))
  }

  predicate Valid(w: World, es: seq<Event>)
    decreases es
  {
    es == [] || (Enabled(w, es[0]) && Valid(Apply(w, es[0]), es[1..]))
  }

  function Run(w: World, es: seq<Event>): World
    requires Valid(w, es)
    decreases es
  {
    if es == [] then w else Run(Apply(w, es[0]), es[1..])
  }

  // ---------------------------------------------------------------- the terminal and the detector

  /** The alive flag of a satellite once these outputs are consumed. */
  function LastAlive(flag: bool, id: int, outs: seq<SatOutput>): bool {
    if outs == [] then flag
    else if outs[|outs| - 1].id == id then outs[|outs| - 1].alive
    else LastAlive(flag, id, outs[..|outs| - 1])
  }

  predicate Alive(conns: Conns, id: int) {
    id in conns ==> !conns[id].Dead()
  }

  ghost predicate Agrees(w: World) {
    forall id <- w.shown :: LastAlive(w.shown[id].alive, id, w.gc.outputs) == Alive(w.gc.conns, id)
  }

  lemma {:induction false} LastAliveSnoc(flag: bool, id: int, outs: seq<SatOutput>, o: SatOutput)
    ensures LastAlive(flag, id, outs + [o]) == if o.id == id then o.alive else LastAlive(flag, id, outs)
  {
    assert (outs + [o])[..|outs|] == outs;
  }

  lemma {:induction false} LastAliveFront(flag: bool, id: int, outs: seq<SatOutput>)
    requires outs != []
    ensures LastAlive(flag, id, outs) == LastAlive(if outs[0].id == id then outs[0].alive else flag, id, outs[1..])
  {
    var init, o := outs[..|outs| - 1], outs[|outs| - 1];
    if |outs| > 1 {
      LastAliveFront(flag, id, init);
      assert outs[1..] == init[1..] + [o];
      LastAliveSnoc(if outs[0].id == id then outs[0].alive else flag, id, init[1..], o);
    }
  }

  lemma {:induction false} PassNotices(conns: Conns, order: seq<int>, ticks: map<int, Tick>,
                                       flag: bool, id: int, outs: seq<SatOutput>)
    requires forall i <- order :: i in conns && i in ticks
    requires forall i, j :: 0 <= i < j < |order| ==> order[i] != order[j]
    ensures LastAlive(flag, id, outs + Pass(conns, order, ticks).notices) ==
              (LastAlive(flag, id, outs) && !(id in order && EntryDies(conns[id], ticks[id])))
  {
    hide Pass, UpdateEntry, EntryDies;
    if order == [] {
      PassNothing(conns, ticks);
      assert outs + [] == outs;
    } else {
      var init, last := order[..|order| - 1], order[|order| - 1];
      assert order == init + [last] && last !in init;
      PassNotices(conns, init, ticks, flag, id, outs);
      PassEntries(conns, init, ticks);
      PassSnoc(conns, init, last, ticks);
      var n := Pass(conns, init, ticks).notices;
      if EntryDies(conns[last], ticks[last]) {
        LastAliveSnoc(flag, id, outs + n, Status(last, false));
        assert outs + (n + [Status(last, false)]) == (outs + n) + [Status(last, false)];
      } else {
        assert n + [] == n;
      }
    }
  }

  lemma {:induction false} DumpSaysAlive(id: int, chunk: string)
    ensures DataDecoder(id, chunk, true).id == id && DataDecoder(id, chunk, true).alive
  {
    hide TallyOf;
  }

  /** All of them say that the sender is alive. */
  lemma {:induction false} ListenPushes(gc: Gc, m: Message, s: Surroundings)
    requires Acceptable(m) && Listen(gc, GC_PORT, m, s).Listened?
    ensures Listen(gc, GC_PORT, m, s).gc.outputs == gc.outputs + Pushes(gc, m)
    ensures forall o <- Pushes(gc, m) :: o.id == m.senderId as int && o.alive
  {
    hide DataDecoder, FileDump, Heard, Added, AddSends, SatSends, SendAborts;
    var met := Meet(gc, GC_PORT, m, s);
    var status: seq<SatOutput> := if m.senderId in gc.conns then [Status(m.senderId, true)] else [];
    assert gc.outputs + [] == gc.outputs && status + [] == status;
    assert met.outputs == gc.outputs + status;
    if m.FileMsg? {
      FileDumpPushes(met, m);
      DumpSaysAlive(m.senderId, BufferOf(gc.buffer, m.senderId) + Payload(m));
      assert (gc.outputs + status) + DumpPushes(gc, m) == gc.outputs + (status + DumpPushes(gc, m));
    }
  }

  lemma {:induction false} MeetingKeepsAgreement(w: World, m: Message, s: Surroundings)
    requires Agrees(w)
    ensures Agrees(w.(gc := Meet(w.gc, GC_PORT, m, s)))
  {
    forall id <- w.shown
      ensures LastAlive(w.shown[id].alive, id, Meet(w.gc, GC_PORT, m, s).outputs) ==
                Alive(Meet(w.gc, GC_PORT, m, s).conns, id)
    {
      LastAliveSnoc(w.shown[id].alive, id, w.gc.outputs, Status(m.senderId, true));
    }
  }

  lemma {:induction false} DumpKeepsAgreement(w: World, m: Message)
    requires Agrees(w) && m.FileMsg? && Acceptable(m) && Alive(w.gc.conns, m.senderId)
    ensures Agrees(w.(gc := FileDump(w.gc, m)))
  {
    hide DataDecoder, FileDump;
    var chunk := BufferOf(w.gc.buffer, m.senderId) + Payload(m);
    DumpSaysAlive(m.senderId, chunk);
    FileDumpPushes(w.gc, m);
    assert w.gc.outputs + [] == w.gc.outputs;
    forall id <- w.shown
      ensures LastAlive(w.shown[id].alive, id, FileDump(w.gc, m).outputs) == Alive(w.gc.conns, id)
    {
      LastAliveSnoc(w.shown[id].alive, id, w.gc.outputs, DataDecoder(m.senderId, chunk, true));
    }
  }

  lemma {:induction false} ReceivedKeepsAgreement(w: World, m: Message, s: Surroundings)
    requires Agrees(w) && Enabled(w, Received(m, s))
    ensures Agrees(Apply(w, Received(m, s)))
  {
    hide Agrees, FileDump;
    MeetingKeepsAgreement(w, m, s);
    if m.FileMsg? {
      DumpKeepsAgreement(w.(gc := Meet(w.gc, GC_PORT, m, s)), m);
    }
  }

  lemma {:induction false} UpdateKeepsAgreement(w: World, e: Event)
    requires Agrees(w) && e.Updated? && Enabled(w, e)
    ensures Agrees(Apply(w, e))
  {
    hide Pass;
    PassEntries(w.gc.conns, e.order, e.ticks);
    forall id <- w.shown
      ensures LastAlive(w.shown[id].alive, id, Apply(w, e).gc.outputs) == Alive(Apply(w, e).gc.conns, id)
    {
      PassNotices(w.gc.conns, e.order, e.ticks, w.shown[id].alive, id, w.gc.outputs);
    }
  }

  lemma {:induction false} StepKeepsAgreement(w: World, e: Event)
    requires Agrees(w) && Enabled(w, e)
    ensures Agrees(Apply(w, e))
  {
    match e
    case Received(m, s) => ReceivedKeepsAgreement(w, m, s);
    case Updated(_, _, _, _) => UpdateKeepsAgreement(w, e);
    case Consumed =>
      forall id <- w.shown
        ensures LastAlive(Apply(w, e).shown[id].alive, id, Apply(w, e).gc.outputs) == Alive(w.gc.conns, id)
      {
        LastAliveFront(w.shown[id].alive, id, w.gc.outputs);
      }
  }

  lemma {:induction false} RunKeepsAgreement(w: World, es: seq<Event>)
    requires Agrees(w) && Valid(w, es)
    ensures Agrees(Run(w, es))
    decreases es
  {
    if es != [] {
      StepKeepsAgreement(w, es[0]);
      RunKeepsAgreement(Apply(w, es[0]), es[1..]);
    }
  }

  lemma {:induction false} StartAgrees(config: seq<Entry>)
    ensures Agrees(Start(config)) && Start(config).gc.outputs == []
    ensures forall id <- Start(config).gc.conns :: !Start(config).gc.conns[id].Dead()
  {
    if config != [] {
      StartAgrees(config[..|config| - 1]);
    }
  }

  /** The terminal agrees with the failure detector: over every run of messages, timeouts, retries, deaths
      and revivals, whenever the output queue is drained the flag shown for a satellite says exactly
      whether its connection is dead. */
  lemma {:induction false} TerminalAgrees(config: seq<Entry>, es: seq<Event>)
    requires Valid(Start(config), es)
    ensures var w := Run(Start(config), es);
            w.gc.outputs == [] ==> forall id <- w.shown :: w.shown[id].alive == Alive(w.gc.conns, id)
  {
    StartAgrees(config);
    RunKeepsAgreement(Start(config), es);
  }

  // ---------------------------------------------------------------- the gap after a timeout

  /** A satellite that speaks again before the first retry after its timeout is marked connected while
      its socket is closed, and answering it fails an assertion: ground control goes down. */
  lemma {:induction false} ReturningTooSoonCrashes(w: World, e: Event, m: Message, s: Surroundings)
    requires e.Updated? && Enabled(w, e) && Acceptable(m) && m.senderId > 0 && Handled(m)
    requires m.senderId in w.gc.conns
    requires var c := w.gc.conns[m.senderId]; c.state == CONNECTED && c.TimedOut(e.ticks[m.senderId].first)
    ensures var gc := Apply(w, e).gc;
            && Listen(gc, GC_PORT, m, s).Crashed?
            && m.senderId in Meet(gc, GC_PORT, m, s).conns
            && Meet(gc, GC_PORT, m, s).conns[m.senderId].state == CONNECTED
            && !Meet(gc, GC_PORT, m, s).conns[m.senderId].Open()
  {
    PassEntries(w.gc.conns, e.order, e.ticks);
  }

  lemma {:induction false} StartOfOne(c: Entry)
    ensures Start([c]).gc == Gc(map[c.id as int := New(c.id, c.port, c.ip, GC_PORT, c.arrival.beat, c.arrival.reconnect)
                                                     .Connect(c.arrival.dial)], map[], [])
  {
    assert [c][..0] == [];
    assert Start([c][..0]) == World(Gc(map[], map[], []), map[]);
  }

  lemma {:induction false} RunOfTwo(w: World, a: Event, b: Event)
    requires Enabled(w, a) && Enabled(Apply(w, a), b)
    ensures Valid(w, [a, b]) && Run(w, [a, b]) == Apply(Apply(w, a), b)
  {
    hide Enabled, Apply;
    assert [a, b][1..] == [b] && [b][1..] == [];
    var v := Apply(Apply(w, a), b);
    assert Valid(v, []) && Run(v, []) == v;
    assert Valid(Apply(w, a), [b]) && Run(Apply(w, a), [b]) == Apply(Apply(w, a), b);
  }

  const SOCKET := Dial(3, true)
  const SATELLITE := Entry(1, "127.0.0.1", 5000, Arrival(0, 0, SOCKET))
  const BEAT := Heartbeat(Message.HEARTBEAT_SIZE, 1, 5000, true)

  function BeatAt(now: nat): Event {
    Received(BEAT, Surroundings("127.0.0.1", Arrival(now, now, SOCKET), now))
  }

  function PassAt(now: nat): Event {
    Updated([1], map[1 := Tick(now, now, SOCKET)], now, now)
  }

  /** And such a message does come: one configured satellite is heard at 1, the pass at 30 drops it, and its
      heartbeat at 31 ends the process. */
  lemma {:induction false} GapIsReached()
    ensures Valid(Start([SATELLITE]), [BeatAt(1), PassAt(30)])
    ensures Clocked(0, [BeatAt(1), PassAt(30)], 30)
    ensures Listen(Run(Start([SATELLITE]), [BeatAt(1), PassAt(30)]).gc, GC_PORT, BEAT, BeatAt(31).s).Crashed?
  {
    hide Run, Valid, Start, Pass;
    var w := Start([SATELLITE]);
    StartOfOne(SATELLITE);
    assert Enabled(w, BeatAt(1));
    var w' := Apply(w, BeatAt(1));
    assert w'.gc.conns.Keys == {1} && w'.gc.conns[1].state == CONNECTED && w'.gc.conns[1].lastHeartbeat == 1;
    assert Enabled(w', PassAt(30));
    RunOfTwo(w, BeatAt(1), PassAt(30));
    assert [BeatAt(1), PassAt(30)][1..] == [PassAt(30)] && [PassAt(30)][1..] == [];
    assert Clocked(30, [], 30) && Clocked(1, [PassAt(30)], 30);
    ReturningTooSoonCrashes(w', PassAt(30), BEAT, BeatAt(31).s);
  }

  // ---------------------------------------------------------------- silence, in a run of ground control

  /** The clock reads of a run, from one instant to another, never run backwards. */
  ghost predicate Clocked(from: nat, es: seq<Event>, now: nat)
    decreases es
  {
    if es == [] then from <= now
    else match es[0]
      case Received(_, s) =>
        from <= s.arrival.beat <= s.arrival.reconnect <= s.beat && Clocked(s.beat, es[1..], now)
      case Updated(order, ticks, begin, end) =>
        from <= begin <= end && Clocked(end, es[1..], now)
        && forall id <- ticks :: begin <= ticks[id].first <= ticks[id].second <= end
      case Consumed => Clocked(from, es[1..], now)
  }

  function Senders(es: seq<Event>): set<int>
    decreases es
  {
    if es == [] then {} else (if es[0].Received? then {es[0].m.senderId as int} else {}) + Senders(es[1..])
  }

  /** Every connection is as silent as its retry counter says; heard is the set of satellites that ever
      sent a message. */
  ghost predicate AllAged(w: World, heard: set<int>, now: nat) {
    forall id <- w.gc.conns :: FD.Aged(w.gc.conns[id], id in heard, now)
  }

  function EndOf(e: Event, from: nat): nat {
    match e
    case Received(_, s) => s.beat
    case Updated(_, _, _, end) => end
    case Consumed => from
  }

  lemma {:induction false} StepKeepsAllAged(w: World, e: Event, heard: set<int>, from: nat, now: nat)
    requires AllAged(w, heard, from) && Enabled(w, e) && Clocked(from, [e], now)
    ensures AllAged(Apply(w, e), heard + Senders([e]), EndOf(e, from))
    ensures forall id <- w.gc.conns ::
              id in Apply(w, e).gc.conns && Apply(w, e).gc.conns[id].lastHeartbeat >= w.gc.conns[id].lastHeartbeat
    ensures e.Received? ==>
              e.m.senderId in Apply(w, e).gc.conns && Apply(w, e).gc.conns[e.m.senderId].lastHeartbeat == e.s.beat
  {
    var w' := Apply(w, e);
    if e.Updated? {
      PassEntries(w.gc.conns, e.order, e.ticks);
      forall id <- w.gc.conns
        ensures FD.Aged(w'.gc.conns[id], id in heard, e.end)
        ensures w'.gc.conns[id].lastHeartbeat >= w.gc.conns[id].lastHeartbeat
      {
        FD.StepKeepsAged(w.gc.conns[id], FD.Visit(e.ticks[id]), id in heard, from, e.end);
      }
    } else if e.Received? {
      ReceivedAges(w, e, heard, from);
    }
  }

  lemma {:induction false} ReceivedAges(w: World, e: Event, heard: set<int>, from: nat)
    requires e.Received? && AllAged(w, heard, from) && Enabled(w, e)
    requires from <= e.s.arrival.beat <= e.s.arrival.reconnect <= e.s.beat
    ensures AllAged(Apply(w, e), heard + {e.m.senderId as int}, e.s.beat)
    ensures Apply(w, e).gc.conns.Keys == w.gc.conns.Keys + {e.m.senderId as int}
    ensures forall id <- w.gc.conns ::
              id in Apply(w, e).gc.conns && Apply(w, e).gc.conns[id].lastHeartbeat >= w.gc.conns[id].lastHeartbeat
    ensures Apply(w, e).gc.conns[e.m.senderId].lastHeartbeat == e.s.beat
  {
    hide FileDump, FD.Aged;
    var met, id := Meet(w.gc, GC_PORT, e.m, e.s), e.m.senderId;
    assert Apply(w, e).gc.conns == met.conns by { FileDumpPushes(met, e.m); }
    if id in w.gc.conns {
      FD.StepKeepsAged(w.gc.conns[id], FD.Contact(e.s.beat), id in heard, from, e.s.beat);
    } else {
      var c := New(id, e.m.senderPort, e.s.ip, GC_PORT, e.s.arrival.beat, e.s.arrival.reconnect)
                 .Connect(e.s.arrival.dial);
      FD.NewIsAged(c, e.s.arrival.reconnect);
      FD.StepKeepsAged(c, FD.Contact(e.s.beat), false, e.s.arrival.reconnect, e.s.beat);
    }
    forall other <- w.gc.conns | other != id ensures FD.Aged(w.gc.conns[other], other in heard, e.s.beat) {
      FD.LaterIsAged(w.gc.conns[other], other in heard, from, e.s.beat);
    }
  }

  lemma {:induction false} RunKeepsAllAged(w: World, es: seq<Event>, heard: set<int>, from: nat, now: nat)
    requires AllAged(w, heard, from) && Valid(w, es) && Clocked(from, es, now)
    ensures from <= now && AllAged(Run(w, es), heard + Senders(es), now)
    ensures forall id <- w.gc.conns ::
              id in Run(w, es).gc.conns && Run(w, es).gc.conns[id].lastHeartbeat >= w.gc.conns[id].lastHeartbeat
    ensures forall i :: 0 <= i < |es| && es[i].Received? ==>
              es[i].m.senderId in Senders(es) && es[i].m.senderId in Run(w, es).gc.conns
              && es[i].s.beat <= Run(w, es).gc.conns[es[i].m.senderId].lastHeartbeat
    decreases es
  {
    hide FD.Aged, Listen, Pass;
    if es != [] {
      var e, rest := es[0], es[1..];
      assert [e][1..] == [];
      StepKeepsAllAged(w, e, heard, from, EndOf(e, from));
      RunKeepsAllAged(Apply(w, e), rest, heard + Senders([e]), EndOf(e, from), now);
      assert heard + Senders([e]) + Senders(rest) == heard + Senders(es);
      assert forall i :: 1 <= i < |es| ==> es[i] == rest[i - 1];
    } else {
      forall id <- w.gc.conns ensures FD.Aged(w.gc.conns[id], id in heard, now) {
        FD.LaterIsAged(w.gc.conns[id], id in heard, from, now);
      }
      assert heard + {} == heard;
    }
  }

  /** Death is never premature, in any run of ground control: a satellite whose connection is dead has
      sent nothing for at least 131 seconds. */
  lemma {:induction false} DeadMeansSilent(config: seq<Entry>, es: seq<Event>, from: nat, now: nat, id: int)
    requires Valid(Start(config), es) && Clocked(from, es, now)
    requires forall i :: 0 <= i < |config| ==> config[i].arrival.beat <= config[i].arrival.reconnect <= from
    requires var conns := Run(Start(config), es).gc.conns; id in conns && conns[id].Dead()
    ensures forall i :: 0 <= i < |es| && es[i].Received? && es[i].m.senderId == id ==> now - es[i].s.beat >= 131
  {
    StartIsAged(config, from);
    RunKeepsAllAged(Start(config), es, {}, from, now);
  }

  lemma {:induction false} StartIsAged(config: seq<Entry>, from: nat)
    requires forall i :: 0 <= i < |config| ==> config[i].arrival.beat <= config[i].arrival.reconnect <= from
    ensures AllAged(Start(config), {}, from)
  {
    if config != [] {
      StartIsAged(config[..|config| - 1], from);
    }
  }
}
