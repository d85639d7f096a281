/** The terminal and the failure detector when a listener iteration is not one step: update passes and
    consumed outputs may come between the heartbeat it notes and the outputs it pushes. */
module Interleavings {
  import opened Config
  import opened Messages
  import opened Parsers
  import opened Connections
  import opened GCConnectionHandlers
  import opened Receivers
  import opened GroundControls
  import FD = FailureDetectors

  /** pending is what the listener still has to push for the message it is handling, which came from who
      and was noted at time since. */
  datatype Fine = Fine(w: World, pending: seq<SatOutput>, who: int, since: nat)

  /** Other is an update pass or a consumed output. */
  datatype FineEvent = Begin(m: Message, s: Surroundings) | Push | Other(e: Event)

  predicate Able(f: Fine, e: FineEvent) {
    match e
    case Begin(m, s) => f.pending == [] && Enabled(f.w, Received(m, s))
    case Push => f.pending != []
    case Other(o) => !o.Received? && Enabled(f.w, o)
  }

  function Do(f: Fine, e: FineEvent): Fine
    requires Able(f, e)
  {
    match e
    case Begin(m, s) =>
      var gc := Apply(f.w, Received(m, s)).gc;
      Fine(f.w.(gc := gc.(outputs := f.w.gc.outputs)), Pushes(f.w.gc, m), m.senderId, s.beat)
    case Push => f.(w := f.w.(gc := f.w.gc.(outputs := f.w.gc.outputs + [f.pending[0]])), pending := f.pending[1..])
    case Other(o) => f.(w := Apply(f.w, o))
  }

  predicate FineRun(f: Fine, es: seq<FineEvent>)
    decreases es
  {
    es == [] || (Able(f, es[0]) && FineRun(Do(f, es[0]), es[1..]))
  }

  function After(f: Fine, es: seq<FineEvent>): Fine
    requires FineRun(f, es)
    decreases es
  {
    if es == [] then f else After(Do(f, es[0]), es[1..])
  }

  /** The clock does not run backwards, and no update pass ends 131 seconds or more after the message the
      listener is still handling was noted. */
  ghost predicate Prompt(f: Fine, es: seq<FineEvent>, from: nat)
    requires FineRun(f, es)
    decreases es
  {
    es == [] ||
    match es[0]
    case Begin(_, s) => from <= s.arrival.beat <= s.arrival.reconnect <= s.beat && Prompt(Do(f, es[0]), es[1..], s.beat)
    case Push => Prompt(Do(f, es[0]), es[1..], from)
    case Other(o) =>
      if o.Updated? then
        && from <= o.begin <= o.end
        && (forall id <- o.ticks :: o.begin <= o.ticks[id].first <= o.ticks[id].second <= o.end)
        && (f.pending != [] ==> o.end < f.since + 131)
        && Prompt(Do(f, es[0]), es[1..], o.end)
      else
        Prompt(Do(f, es[0]), es[1..], from)
  }

  /** The world as it will be once the listener has pushed what it owes. */
  function Owed(f: Fine): World {
    f.w.(gc := f.w.gc.(outputs := f.w.gc.outputs + f.pending))
  }

  ghost predicate Inv(f: Fine, heard: set<int>, now: nat) {
    && Agrees(Owed(f)) && AllAged(f.w, heard, now)
    && (f.pending != [] ==>
          && f.who in f.w.gc.conns && f.who in heard && f.since <= f.w.gc.conns[f.who].lastHeartbeat
          && !f.w.gc.conns[f.who].Dead()
          && forall o <- f.pending :: o.id == f.who && o.alive)
  }

  lemma {:induction false} BeginKeepsInv(f: Fine, m: Message, s: Surroundings, heard: set<int>, from: nat)
    requires Inv(f, heard, from) && Able(f, Begin(m, s))
    requires from <= s.arrival.beat <= s.arrival.reconnect <= s.beat
    ensures Inv(Do(f, Begin(m, s)), heard + {m.senderId as int}, s.beat)
  {
    hide Listen, Pushes, FD.Aged;
    assert f.w.gc.outputs + [] == f.w.gc.outputs;
    assert Owed(f) == f.w;
    ReceivedKeepsAgreement(f.w, m, s);
    ReceivedAges(f.w, Received(m, s), heard, from);
    ListenPushes(f.w.gc, m, s);
    var g := Do(f, Begin(m, s));
    assert Owed(g) == Apply(f.w, Received(m, s));
    SenderIsAlive(f.w.gc, m, s);
  }

  lemma {:induction false} SenderIsAlive(gc: Gc, m: Message, s: Surroundings)
    requires Acceptable(m) && Listen(gc, GC_PORT, m, s).Listened?
    ensures m.senderId in Listen(gc, GC_PORT, m, s).gc.conns
    ensures !Listen(gc, GC_PORT, m, s).gc.conns[m.senderId].Dead()
  {
    hide FileDump;
    FileDumpPushes(Meet(gc, GC_PORT, m, s), m);
  }

  lemma {:induction false} LastAliveOfPending(flag: bool, id: int, outs: seq<SatOutput>, pending: seq<SatOutput>,
                                              who: int)
    requires forall o <- pending :: o.id == who && o.alive
    ensures LastAlive(flag, id, outs + pending) ==
              if id == who && pending != [] then true else LastAlive(flag, id, outs)
  {
    if pending == [] {
      assert outs + pending == outs;
    } else {
      var init, o := pending[..|pending| - 1], pending[|pending| - 1];
      LastAliveOfPending(flag, id, outs, init, who);
      assert outs + pending == (outs + init) + [o];
      LastAliveSnoc(flag, id, outs + init, o);
    }
  }

  /** No update pass kills the satellite whose message is being handled: it would have had to be silent for
      131 seconds. */
  lemma {:induction false} PendingStaysAlive(f: Fine, e: Event, heard: set<int>, from: nat)
    requires Inv(f, heard, from) && f.pending != [] && e.Updated? && Enabled(f.w, e)
    requires from <= e.begin && e.end < f.since + 131
    requires forall id <- e.ticks :: e.begin <= e.ticks[id].first <= e.ticks[id].second <= e.end
    ensures !EntryDies(f.w.gc.conns[f.who], e.ticks[f.who]) && !UpdateEntry(f.w.gc.conns[f.who], e.ticks[f.who]).Dead()
  {
    var c, tick := f.w.gc.conns[f.who], e.ticks[f.who];
    FD.StepKeepsAged(c, FD.Visit(tick), true, from, e.end);
  }

  lemma {:induction false} UpdateKeepsInv(f: Fine, e: Event, heard: set<int>, from: nat)
    requires Inv(f, heard, from) && e.Updated? && Enabled(f.w, e) && from <= e.begin <= e.end
    requires f.pending != [] ==> e.end < f.since + 131
    requires forall id <- e.ticks :: e.begin <= e.ticks[id].first <= e.ticks[id].second <= e.end
    ensures Inv(Do(f, Other(e)), heard, e.end)
  {
    hide Pass, FD.Aged, UpdateEntry, EntryDies;
    var g := Do(f, Other(e));
    assert [e][1..] == [];
    StepKeepsAllAged(f.w, e, heard, from, e.end);
    assert heard + Senders([e]) == heard;
    PassEntries(f.w.gc.conns, e.order, e.ticks);
    if f.pending != [] {
      PendingStaysAlive(f, e, heard, from);
    }
    forall id <- g.w.shown ensures LastAlive(g.w.shown[id].alive, id, Owed(g).gc.outputs) == Alive(g.w.gc.conns, id) {
      var flag := f.w.shown[id].alive;
      var notices := Pass(f.w.gc.conns, e.order, e.ticks).notices;
      LastAliveOfPending(flag, id, f.w.gc.outputs, f.pending, f.who);
      LastAliveOfPending(flag, id, f.w.gc.outputs + notices, f.pending, f.who);
      PassNotices(f.w.gc.conns, e.order, e.ticks, flag, id, f.w.gc.outputs);
      assert Owed(f).gc.outputs == f.w.gc.outputs + f.pending;
      DeathIsNoticed(f.w.gc.conns, e, id);
    }
  }

  lemma {:induction false} DeathIsNoticed(conns: Conns, e: Event, id: int)
    requires e.Updated? && Visits(e.order, conns) && forall i <- e.order :: i in e.ticks
    ensures id in conns ==>
              UpdateEntry(conns[id], e.ticks[id]).Dead() == (conns[id].Dead() || EntryDies(conns[id], e.ticks[id]))
              || conns[id].state == CONNECTED
    ensures id in conns && conns[id].state == CONNECTED ==>
              UpdateEntry(conns[id], e.ticks[id]).Dead() == conns[id].Dead() && !EntryDies(conns[id], e.ticks[id])
  {
  }

  lemma {:induction false} OtherKeepsInv(f: Fine, e: FineEvent, heard: set<int>, from: nat)
    requires Inv(f, heard, from) && Able(f, e) && (e.Push? || e == Other(Event.Consumed))
    ensures Inv(Do(f, e), heard, from)
  {
    hide FD.Aged;
    var g := Do(f, e);
    if e.Push? {
      assert Owed(g).gc.outputs == Owed(f).gc.outputs;
    } else {
      var outs := f.w.gc.outputs + f.pending;
      assert outs[1..] == g.w.gc.outputs + g.pending;
      forall id <- g.w.shown ensures LastAlive(g.w.shown[id].alive, id, Owed(g).gc.outputs) == Alive(g.w.gc.conns, id) {
        LastAliveFront(f.w.shown[id].alive, id, outs);
      }
    }
  }

  lemma {:induction false} FineRunKeepsInv(f: Fine, es: seq<FineEvent>, heard: set<int>, from: nat)
    returns (heard': set<int>, now: nat)
    requires Inv(f, heard, from) && FineRun(f, es) && Prompt(f, es, from)
    ensures Inv(After(f, es), heard', now)
    decreases es
  {
    hide Inv, Do;
    heard', now := heard, from;
    if es != [] {
      match es[0]
      case Begin(m, s) =>
        BeginKeepsInv(f, m, s, heard, from);
        heard', now := FineRunKeepsInv(Do(f, es[0]), es[1..], heard + {m.senderId as int}, s.beat);
      case Push =>
        OtherKeepsInv(f, es[0], heard, from);
        heard', now := FineRunKeepsInv(Do(f, es[0]), es[1..], heard, from);
      case Other(o) =>
        if o.Updated? {
          UpdateKeepsInv(f, o, heard, from);
          heard', now := FineRunKeepsInv(Do(f, es[0]), es[1..], heard, o.end);
        } else {
          assert o == Event.Consumed by { NotReceived(f, o); }
          OtherKeepsInv(f, es[0], heard, from);
          heard', now := FineRunKeepsInv(Do(f, es[0]), es[1..], heard, from);
        }
    }
  }

  lemma {:induction false} NotReceived(f: Fine, o: Event)
    requires Able(f, Other(o)) && !o.Updated?
    ensures o == Event.Consumed
  {
  }

  /** The terminal agrees with the failure detector even if listener iterations are not atomic, provided
      none of them takes 131 seconds: whenever the listener is between messages and the output queue is
      drained, the flag shown for a satellite says exactly whether its connection is dead. */
  lemma {:induction false} TerminalAgreesInterleaved(config: seq<Entry>, es: seq<FineEvent>, from: nat)
    requires FineRun(Fine(Start(config), [], 0, 0), es) && Prompt(Fine(Start(config), [], 0, 0), es, from)
    requires forall i :: 0 <= i < |config| ==> config[i].arrival.beat <= config[i].arrival.reconnect <= from
    ensures var f := After(Fine(Start(config), [], 0, 0), es);
            f.pending == [] && f.w.gc.outputs == [] ==>
              forall id <- f.w.shown :: f.w.shown[id].alive == Alive(f.w.gc.conns, id)
  {
    var start := Fine(Start(config), [], 0, 0);
    StartAgrees(config);
    StartIsAged(config, from);
    assert Owed(start) == start.w;
    var heard, now := FineRunKeepsInv(start, es, {}, from);
  }
}
