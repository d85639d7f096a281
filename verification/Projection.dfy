/** One connection in a run of ground control: what the failure detector proves of a connection by itself
    holds in every run, and of the outputs that are really pushed. */
module Projections {
  import opened Config
  import opened Parsers
  import opened Connections
  import opened GCConnectionHandlers
  import opened Receivers
  import opened GroundControls
  import FD = FailureDetectors

  /** What an event is for one satellite's connection. */
  function Touch(e: Event, id: int): seq<FD.Event> {
    match e
    case Received(m, s) => if m.senderId == id then [FD.Contact(s.beat)] else []
    case Updated(_, ticks, _, _) => if id in ticks then [FD.Visit(ticks[id])] else []
    case Consumed => []
  }

  function Touches(es: seq<Event>, id: int): seq<FD.Event>
    decreases es
  {
    if es == [] then [] else Touch(es[0], id) + Touches(es[1..], id)
  }

  /** The outputs an event pushes. */
  function Pushed(w: World, e: Event): seq<SatOutput>
    requires Enabled(w, e)
  {
    match e
    case Received(m, _) => Pushes(w.gc, m)
    case Updated(order, ticks, _, _) => Pass(w.gc.conns, order, ticks).notices
    case Consumed => []
  }

  /** The outputs saying that a satellite is dead. */
  function DeadIn(outs: seq<SatOutput>, id: int): nat {
    if outs == [] then 0
    else
      var o := outs[|outs| - 1];
      DeadIn(outs[..|outs| - 1], id) + (if o.id == id && !o.alive then 1 else 0)
  }

  /** How many of them a run pushes. */
  function DeadNotices(w: World, es: seq<Event>, id: int): nat
    requires Valid(w, es)
    decreases es
  {
    if es == [] then 0 else DeadIn(Pushed(w, es[0]), id) + DeadNotices(Apply(w, es[0]), es[1..], id)
  }

  lemma {:induction false} DeadInSnoc(outs: seq<SatOutput>, o: SatOutput, id: int)
    ensures DeadIn(outs + [o], id) == DeadIn(outs, id) + (if o.id == id && !o.alive then 1 else 0)
  {
    assert (outs + [o])[..|outs|] == outs;
  }

  lemma {:induction false} NobodyDead(outs: seq<SatOutput>, id: int)
    requires forall o <- outs :: o.alive
    ensures DeadIn(outs, id) == 0
  {
    if outs != [] {
      NobodyDead(outs[..|outs| - 1], id);
    }
  }

  lemma {:induction false} DeadInPass(conns: Conns, order: seq<int>, ticks: map<int, Tick>, id: int)
    requires forall i <- order :: i in conns && i in ticks
    requires forall i, j :: 0 <= i < j < |order| ==> order[i] != order[j]
    ensures DeadIn(Pass(conns, order, ticks).notices, id) ==
              if id in order && EntryDies(conns[id], ticks[id]) then 1 else 0
  {
    hide Pass, UpdateEntry, EntryDies;
    if order == [] {
      PassNothing(conns, ticks);
    } else {
      var init, last := order[..|order| - 1], order[|order| - 1];
      assert order == init + [last] && last !in init;
      DeadInPass(conns, init, ticks, id);
      PassEntries(conns, init, ticks);
      PassSnoc(conns, init, last, ticks);
      var notices := Pass(conns, init, ticks).notices;
      DeadInSnoc(notices, Status(last, false), id);
      assert notices + [] == notices;
    }
  }

  /** The outputs of an event are what it adds to the queue. */
  lemma {:induction false} PushedIsAdded(w: World, e: Event)
    requires Enabled(w, e)
    ensures !e.Consumed? ==> Apply(w, e).gc.outputs == w.gc.outputs + Pushed(w, e)
    ensures e.Received? ==> forall o <- Pushed(w, e) :: o.alive && o.id == e.m.senderId as int
  {
    if e.Received? {
      ListenPushes(w.gc, e.m, e.s);
    }
  }

  lemma {:induction false} OneTouch(c: Conn, e: FD.Event)
    ensures FD.Run(c, []) == c && FD.Notices(c, []) == 0
    ensures FD.Run(c, [e]) == FD.Step(c, e)
    ensures FD.Notices(c, [e]) == if e.Visit? && EntryDies(c, e.tick) then 1 else 0
  {
    assert [e][..0] == [];
    assert FD.Run(c, [e][..0]) == c;
  }

  lemma {:induction false} StepProjects(w: World, e: Event, id: int)
    requires Enabled(w, e) && id in w.gc.conns
    ensures id in Apply(w, e).gc.conns
    ensures Apply(w, e).gc.conns[id] == FD.Run(w.gc.conns[id], Touch(e, id))
    ensures DeadIn(Pushed(w, e), id) == FD.Notices(w.gc.conns[id], Touch(e, id))
  {
    hide FD.Run, FD.Notices, DeadIn, Pass, FileDump, UpdateEntry, EntryDies;
    var c := w.gc.conns[id];
    match e
    case Received(m, s) =>
      OneTouch(c, FD.Contact(s.beat));
      PushedIsAdded(w, e);
      NobodyDead(Pushed(w, e), id);
      FileDumpPushes(Meet(w.gc, GC_PORT, m, s), m);
    case Updated(order, ticks, _, _) =>
      OneTouch(c, FD.Visit(ticks[id]));
      PassEntries(w.gc.conns, order, ticks);
      DeadInPass(w.gc.conns, order, ticks, id);
    case Consumed =>
      OneTouch(c, FD.Contact(0));
      NobodyDead([], id);
  }

  /** A satellite's connection in a run is the connection alone under the events that touch it, and the dead
      notices pushed about it are those of that run. */
  lemma {:induction false} RunProjects(w: World, es: seq<Event>, id: int)
    requires Valid(w, es) && id in w.gc.conns
    ensures id in Run(w, es).gc.conns
    ensures Run(w, es).gc.conns[id] == FD.Run(w.gc.conns[id], Touches(es, id))
    ensures DeadNotices(w, es, id) == FD.Notices(w.gc.conns[id], Touches(es, id))
    decreases es
  {
    hide FD.Run, FD.Notices, Enabled, Apply, Pushed, Touch;
    if es == [] {
      OneTouch(w.gc.conns[id], FD.Contact(0));
    } else {
      StepProjects(w, es[0], id);
      RunProjects(Apply(w, es[0]), es[1..], id);
      FD.RunTwice(w.gc.conns[id], Touch(es[0], id), Touches(es[1..], id));
    }
  }

  // ---------------------------------------------------------------- the failure detector, in every run

  predicate SilentIn(es: seq<Event>, id: int) {
    forall i :: 0 <= i < |es| && es[i].Received? ==> es[i].m.senderId as int != id
  }

  lemma {:induction false} SilenceProjects(es: seq<Event>, id: int)
    requires SilentIn(es, id)
    ensures forall j :: 0 <= j < |Touches(es, id)| ==> Touches(es, id)[j].Visit?
    decreases es
  {
    if es != [] {
      assert forall i :: 0 <= i < |es| - 1 ==> es[1..][i] == es[i + 1];
      SilenceProjects(es[1..], id);
    }
  }

  /** No dead notice is pushed about a satellite heard from within 20 seconds of every pass. */
  lemma {:induction false} NobodySuspected(w: World, es: seq<Event>, id: int)
    requires Valid(w, es) && id in w.gc.conns
    requires w.gc.conns[id].state == CONNECTED && w.gc.conns[id].retryCounter == 0
    requires FD.Regular(w.gc.conns[id], Touches(es, id))
    ensures DeadNotices(w, es, id) == 0 && id in Run(w, es).gc.conns
    ensures var c := Run(w, es).gc.conns[id];
            c.state == CONNECTED && c.retryCounter == 0 && c.satSocket == w.gc.conns[id].satSocket
  {
    hide FD.Run, FD.Notices, FD.Regular, Touches;
    RunProjects(w, es, id);
    FD.NoFalseSuspicion(w.gc.conns[id], Touches(es, id));
  }

  /** While a satellite is silent its death is announced by one output, pushed when it happens; otherwise
      no such output is pushed. */
  lemma {:induction false} OneDeathOneNotice(w: World, es: seq<Event>, id: int)
    requires Valid(w, es) && id in w.gc.conns && w.gc.conns[id].retryCounter <= MAX_RECONNECT_ATTEMPTS + 1
    requires SilentIn(es, id)
    ensures id in Run(w, es).gc.conns
    ensures var before, after := w.gc.conns[id].Dead(), Run(w, es).gc.conns[id].Dead();
            DeadNotices(w, es, id) == (if after && !before then 1 else 0) && (before ==> after)
  {
    hide FD.Run, FD.Notices, Touches;
    RunProjects(w, es, id);
    SilenceProjects(es, id);
    FD.DeathIsAnnouncedOnce(w.gc.conns[id], Touches(es, id));
  }

  /** A satellite silent since its disconnect at d is dead, and announced once, when passes at most g seconds
      apart have gone on until d + 11 * (10 + g). */
  lemma {:induction false} DeadInTime(w: World, es: seq<Event>, id: int, d: nat, g: nat)
    requires Valid(w, es) && id in w.gc.conns
    requires var c := w.gc.conns[id]; c.state == DISCONNECTED && c.retryCounter == 0 && c.lastReconnect == d
    requires SilentIn(es, id) && FD.Paced(d, Touches(es, id), g)
    requires FD.LastTime(d, Touches(es, id)) >= d + 11 * (10 + g)
    ensures id in Run(w, es).gc.conns && Run(w, es).gc.conns[id].Dead() && DeadNotices(w, es, id) == 1
  {
    hide FD.Run, FD.Notices, FD.Paced, FD.LastTime, Touches;
    RunProjects(w, es, id);
    FD.DeathIsBounded(w.gc.conns[id], Touches(es, id), d, g);
    OneDeathOneNotice(w, es, id);
  }

  /** Satellites send no commands, so each of their messages is answered: that the run goes on says that
      the answer found an open socket. */
  lemma {:induction false} GoingOnMeansAnswered(w: World, es: seq<Event>, id: int)
    requires Valid(w, es) && id in w.gc.conns
    requires forall i :: 0 <= i < |es| && es[i].Received? ==> Handled(es[i].m)
    ensures FD.Answered(w.gc.conns[id], Touches(es, id))
    decreases |es|
  {
    hide FD.Run, FD.Notices, FD.Answered, Apply, Enabled;
    if es == [] {
      NothingAnswered(w.gc.conns[id]);
    } else {
      var init, e := es[..|es| - 1], es[|es| - 1];
      assert es == init + [e];
      ValidPrefix(w, init, e);
      assert forall i :: 0 <= i < |init| ==> es[i] == init[i];
      GoingOnMeansAnswered(w, init, id);
      RunProjects(w, init, id);
      TouchesSnoc(init, e, id);
      AnsweredSnoc(w, init, e, id);
    }
  }

  lemma {:induction false} NothingAnswered(c: Conn)
    ensures FD.Answered(c, [])
  {
  }

  lemma {:induction false} ValidPrefix(w: World, es: seq<Event>, e: Event)
    requires Valid(w, es + [e])
    ensures Valid(w, es) && Enabled(Run(w, es), e)
    decreases es
  {
    hide Enabled, Apply;
    if es != [] {
      assert (es + [e])[0] == es[0] && (es + [e])[1..] == es[1..] + [e];
      ValidPrefix(Apply(w, es[0]), es[1..], e);
    }
  }

  lemma {:induction false} TouchesSnoc(es: seq<Event>, e: Event, id: int)
    ensures Touches(es + [e], id) == Touches(es, id) + Touch(e, id)
    decreases es
  {
    hide Touch;
    if es == [] {
      assert es + [e] == [e] && [e][1..] == [];
      assert Touch(e, id) + [] == [] + Touch(e, id);
    } else {
      assert (es + [e])[0] == es[0] && (es + [e])[1..] == es[1..] + [e];
      TouchesSnoc(es[1..], e, id);
      assert Touch(es[0], id) + (Touches(es[1..], id) + Touch(e, id)) == Touches(es, id) + Touch(e, id);
    }
  }

  lemma {:induction false} AnsweredSnoc(w: World, init: seq<Event>, e: Event, id: int)
    requires id in w.gc.conns && FD.Answered(w.gc.conns[id], Touches(init, id)) && Valid(w, init)
    requires id in Run(w, init).gc.conns && Run(w, init).gc.conns[id] == FD.Run(w.gc.conns[id], Touches(init, id))
    requires Enabled(Run(w, init), e) && (e.Received? ==> Handled(e.m))
    ensures FD.Answered(w.gc.conns[id], Touches(init, id) + Touch(e, id))
  {
    hide FD.Run, Touches, Run, FileDump;
    var ts := Touches(init, id);
    if Touch(e, id) == [] {
      assert ts + Touch(e, id) == ts;
    } else {
      assert (ts + Touch(e, id))[..|ts|] == ts;
    }
  }

  /** In every run that goes on, without commands from satellites, a connection's socket is closed exactly if
      it was closed at the start, by a timeout, or by an attempt that got no descriptor, and no attempt has
      been made since. */
  lemma {:induction false} SocketsAreClosedExactly(w: World, es: seq<Event>, id: int)
    requires Valid(w, es) && id in w.gc.conns && w.gc.conns[id].state == DISCONNECTED
    requires forall i :: 0 <= i < |es| && es[i].Received? ==> Handled(es[i].m)
    ensures id in Run(w, es).gc.conns
    ensures var c, ts := w.gc.conns[id], Touches(es, id);
            !Run(w, es).gc.conns[id].Open() <==>
              (!c.Open() && FD.Quiet(c, ts)) || exists i :: 0 <= i < |ts| && FD.ClosedAt(c, ts, i)
  {
    hide FD.Run, FD.Notices, FD.Answered, FD.Quiet, FD.ClosedAt, Touches;
    RunProjects(w, es, id);
    GoingOnMeansAnswered(w, es, id);
    FD.SocketIsClosedExactly(w.gc.conns[id], Touches(es, id));
  }
}
