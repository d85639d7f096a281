/** Ground control in a run of the constellation: what is proved of it by itself holds there. */
module GroundProjections {
  import opened GCConnectionHandlers
  import opened Receivers
  import opened ConnectionHandlers
  import opened NetworkManagers
  import opened Constellations
  import opened Handshakes
  import opened Conducts
  import GC = GroundControls
  import Terminals

  /** What an event is for ground control. The time a pass begins and ends is when its clock reads were made. */
  function Projected(sys: System, e: Event, begin: nat, end: nat): seq<GC.Event>
    requires CanHappen(sys, e)
  {
    match e
    case Delivery(i, w) => if sys.flight[i].to == 0 then [GC.Received(sys.flight[i].msg, w.gc)] else []
    case GroundPass(order, ticks) => [GC.Updated(order, ticks, begin, end)]
    case _ => []
  }

  /** spans tells when the passes began and ended. */
  ghost function AllProjected(sys: System, es: seq<Event>, spans: nat -> (nat, nat)): seq<GC.Event>
    requires AnyRun(sys, es)
    decreases es
  {
    if es == [] then []
    else
      Projected(sys, es[0], spans(0).0, spans(0).1) + AllProjected(Next(sys, es[0]), es[1..], (n: nat) => spans(n + 1))
  }

  lemma {:induction false} RunOfNothing(w: GC.World)
    ensures GC.Valid(w, []) && GC.Run(w, []) == w
  {
  }

  lemma {:induction false} RunOfOne(w: GC.World, e: GC.Event)
    requires GC.Enabled(w, e)
    ensures GC.Valid(w, [e]) && GC.Run(w, [e]) == GC.Apply(w, e)
  {
    hide GC.Enabled, GC.Apply;
    assert [e][1..] == [];
    RunOfNothing(GC.Apply(w, e));
  }

  lemma {:induction false} RunInTwo(w: GC.World, a: seq<GC.Event>, b: seq<GC.Event>)
    requires GC.Valid(w, a) && GC.Valid(GC.Run(w, a), b)
    ensures GC.Valid(w, a + b) && GC.Run(w, a + b) == GC.Run(GC.Run(w, a), b)
    decreases a
  {
    hide GC.Enabled, GC.Apply;
    if a == [] {
      assert a + b == b;
    } else {
      assert (a + b)[0] == a[0] && (a + b)[1..] == a[1..] + b;
      RunInTwo(GC.Apply(w, a[0]), a[1..], b);
    }
  }

  /** An event that ground control survives and that is no line of its configuration does to it what its
      projection does. */
  lemma {:induction false} StepProjects(sys: System, e: Event, shown: Terminals.Records, begin: nat, end: nat)
    requires Proper(sys) && CanHappen(sys, e) && !e.GroundMeets? && 0 in Next(sys, e).up
    ensures var w, es := GC.World(sys.gc, shown), Projected(sys, e, begin, end);
            GC.Valid(w, es) && GC.Run(w, es) == GC.World(Next(sys, e).gc, shown)
  {
    hide Listen, Pass, PeerPass, Accept, Without, Proper, AddPeerSends, AddedPeer, SatSends, DumpSends, BroadcastSends,
         GC.Run, GC.Valid;
    var w := GC.World(sys.gc, shown);
    StepFailsGround(sys, e);
    RunOfNothing(w);
    match e
    case Delivery(i, word) =>
      if sys.flight[i].to == 0 {
        RunOfOne(w, GC.Received(sys.flight[i].msg, word.gc));
      }
    case GroundPass(order, ticks) => RunOfOne(w, GC.Updated(order, ticks, begin, end));
    case SatPass(_, _, _) =>
    case Broadcast(_, _) =>
    case Dump(_, _) =>
    case Written(_, _) =>
    case Order(_, _) =>
    case SatMeets(_, _, _, _, _) =>
    case Loss(_) =>
  }

  /** Once it is configured and as long as it stays up, ground control goes through a run of its own in every
      run of the constellation: connections, buffers and outputs are those of that run, so that all that is
      proved of its runs holds here. */
  lemma {:induction false} RunProjects(sys: System, es: seq<Event>, shown: Terminals.Records, spans: nat -> (nat, nat))
    requires Proper(sys) && AnyRun(sys, es) && 0 in EndOf(sys, es).up
    requires forall e <- es :: !e.GroundMeets?
    ensures var w, ges := GC.World(sys.gc, shown), AllProjected(sys, es, spans);
            GC.Valid(w, ges) && GC.Run(w, ges) == GC.World(EndOf(sys, es).gc, shown)
    decreases es
  {
    hide Proper, Next, CanHappen, Projected, GC.Run, GC.Valid;
    var w := GC.World(sys.gc, shown);
    if es == [] {
      RunOfNothing(w);
    } else {
      var e, sys', rest := es[0], Next(sys, es[0]), es[1..];
      var later := (n: nat) => spans(n + 1);
      NobodyComesBack(sys', rest);
      StepProjects(sys, e, shown, spans(0).0, spans(0).1);
      StepIsProper(sys, e);
      RunProjects(sys', rest, shown, later);
      RunInTwo(w, Projected(sys, e, spans(0).0, spans(0).1), AllProjected(sys', rest, later));
    }
  }
}
