/** A consumer thread's loop around pop, and the quit sequence that ends it: the terminal's output
    thread, the command sender and the loggers all have this shape. */
module ConsumerLoops {
  import opened MessageQueues

  /** Where the consumer is. Between Testing and Calling it read the running flag; Waiting is inside
      pop's wait; Holding has popped x but not yet read the flag again (genuine records whether x came
      out of the queue); Acting has seen the flag up and is about to act on x;
      Exited has left the loop, dropping what it had popped, if anything. */
  datatype Phase<T> = Testing | Calling | Waiting | Holding(x: T, genuine: bool) | Acting(x: T)
    | Exited(left: seq<T>)

  /** The quitting thread: flag lowered, then stop flag set, then everyone notified. */
  datatype Quitting = Serving | FlagDown | StopSet | Finished

  /** Producers are the threads numbered 2 and up. */
  const CONSUMER: nat := 0
  const QUITTER: nat := 1

  datatype Program<T> = Program(
    running: bool, monitor: Monitor<T>, consumer: Phase<T>, quitter: Quitting, acted: seq<T>)

  datatype Move<T> =
    | Produce(e: Event<T>)   // a producer's append or notify
    | Look                   // the consumer reads the running flag, before or after its pop
    | Pop(blank: T)          // the consumer enters pop, or re-checks after a wake-up
    | Wake                   // the consumer wakes spuriously
    | Act                    // the consumer handles the element
    | Quit                   // the quitting thread's next step

  function Launch<T>(): Program<T> {
    Program(true, Start(), Testing, Serving, [])
  }

  /** The step of pop the consumer is at. */
  function PopEvent<T>(p: Program<T>): Event<T> {
    if p.consumer.Waiting? then Recheck(CONSUMER) else Enter(CONSUMER)
  }

  predicate Enabled<T>(p: Program<T>, mv: Move<T>) {
    match mv
    case Produce(e) => (e.Append? || e.NotifyOne?) && e.t >= 2 && MessageQueues.Enabled(p.monitor, e)
    case Look => p.consumer.Testing? || p.consumer.Holding?
    case Pop(_) => (p.consumer.Calling? || p.consumer.Waiting?) && MessageQueues.Enabled(p.monitor, PopEvent(p))
    case Wake => p.consumer.Waiting? && CONSUMER in p.monitor.blocked
    case Act => p.consumer.Acting?
    case Quit =>
      match p.quitter
      case Serving => true
      case FlagDown => p.monitor.Idle(QUITTER)
      case StopSet => QUITTER in p.monitor.stopping
      case Finished => false
  }

  function Apply<T>(p: Program<T>, mv: Move<T>): Program<T>
    requires Enabled(p, mv)
  {
    match mv
    case Produce(e) => p.(monitor := MessageQueues.Apply(p.monitor, e))
    case Look =>
      if !p.running then p.(consumer := Exited(InHand(p.consumer)))
      else if p.consumer.Testing? then p.(consumer := Calling)
      else p.(consumer := Acting(p.consumer.x))
    case Pop(blank) =>
      var m := MessageQueues.Apply(p.monitor, PopEvent(p));
      p.(monitor := m,
         consumer := if CONSUMER in m.blocked then Waiting
                     else Holding(p.monitor.cell.Result(blank), !p.monitor.cell.stopped))
    case Wake => p.(monitor := MessageQueues.Apply(p.monitor, SpuriousWake(CONSUMER)))
    case Act => p.(consumer := Testing, acted := p.acted + [p.consumer.x])
    case Quit =>
      match p.quitter
      case Serving => p.(running := false, quitter := FlagDown)
      case FlagDown => p.(monitor := MessageQueues.Apply(p.monitor, SetStopped(QUITTER)), quitter := StopSet)
      case StopSet => p.(monitor := MessageQueues.Apply(p.monitor, NotifyAll(QUITTER)), quitter := Finished)
  }

  /** The genuine element taken but not acted on. */
  function InHand<T>(c: Phase<T>): seq<T> {
    match c
    case Holding(x, genuine) => if genuine then [x] else []
    case Acting(x) => [x]
    case Exited(left) => left
    case _ => []
  }

  ghost predicate Inv<T>(p: Program<T>) {
    var m := p.monitor;
    && MessageQueues.Inv(m)
    && (p.quitter != Serving ==> !p.running)
    && (m.cell.stopped <==> p.quitter == StopSet || p.quitter == Finished)
    && m.stopping == (if p.quitter == StopSet then {QUITTER} else {})
    && (CONSUMER in m.blocked + m.woken <==> p.consumer.Waiting?)
    && m.blocked + m.woken <= {CONSUMER}
    && CONSUMER !in m.notifying && QUITTER !in m.notifying
    && (p.consumer.Holding? && !p.consumer.genuine ==> m.cell.stopped)
    && (p.consumer.Exited? ==> !p.running && |p.consumer.left| <= 1)
    && m.delivered == p.acted + InHand(p.consumer)
  }

  predicate Valid<T>(p: Program<T>, mvs: seq<Move<T>>)
    decreases mvs
  {
    mvs == [] || (Enabled(p, mvs[0]) && Valid(Apply(p, mvs[0]), mvs[1..]))
  }

  function Run<T>(p: Program<T>, mvs: seq<Move<T>>): Program<T>
    requires Valid(p, mvs)
    decreases mvs
  {
    if mvs == [] then p else Run(Apply(p, mvs[0]), mvs[1..])
  }

  lemma {:induction false} MonitorStep<T>(m: Monitor<T>, e: Event<T>)
    requires MessageQueues.Inv(m) && MessageQueues.Enabled(m, e)
    ensures MessageQueues.Inv(MessageQueues.Apply(m, e))
  {
    StepKeepsOrder(m, e);
    StepKeepsCover(m, e);
  }

  lemma {:induction false} ProduceKeepsInv<T>(p: Program<T>, e: Event<T>)
    requires Inv(p) && Enabled(p, Produce(e))
    ensures Inv(Apply(p, Produce(e)))
  {
    MonitorStep(p.monitor, e);
  }

  lemma {:induction false} PopKeepsInv<T>(p: Program<T>, blank: T)
    requires Inv(p) && Enabled(p, Pop(blank))
    ensures Inv(Apply(p, Pop(blank)))
  {
    hide MessageQueues.Apply;
    MonitorStep(p.monitor, PopEvent(p));
    if p.monitor.cell.Ready() {
      PopTakes(p, blank);
    } else {
      PopWaits(p, blank);
    }
  }

  lemma {:induction false} PopTakes<T>(p: Program<T>, blank: T)
    requires Inv(p) && Enabled(p, Pop(blank)) && p.monitor.cell.Ready()
    requires MessageQueues.Inv(Apply(p, Pop(blank)).monitor)
    ensures Inv(Apply(p, Pop(blank)))
  {
    PopMoves(p.monitor, PopEvent(p));
    hide MessageQueues.Inv, MessageQueues.Apply;
    var q, m := Apply(p, Pop(blank)), p.monitor;
    assert q.monitor.blocked == {} && q.consumer == Holding(m.cell.Result(blank), !m.cell.stopped);
    assert InHand(p.consumer) == [] && p.acted + [] == p.acted == m.delivered;
    assert InHand(q.consumer) == if m.cell.stopped then [] else [m.cell.queue[0]];
  }

  lemma {:induction false} PopWaits<T>(p: Program<T>, blank: T)
    requires Inv(p) && Enabled(p, Pop(blank)) && !p.monitor.cell.Ready()
    requires MessageQueues.Inv(Apply(p, Pop(blank)).monitor)
    ensures Inv(Apply(p, Pop(blank)))
  {
    PopMoves(p.monitor, PopEvent(p));
    hide MessageQueues.Inv, MessageQueues.Apply;
    assert p.monitor.delivered + [] == p.monitor.delivered;
    assert Apply(p, Pop(blank)).consumer == Waiting;
  }

  /** A test of pop's predicate touches the consumer's own phase only. */
  lemma {:induction false} PopMoves<T>(m: Monitor<T>, e: Event<T>)
    requires e == Enter(CONSUMER) || e == Recheck(CONSUMER)
    requires MessageQueues.Enabled(m, e) && m.blocked !! m.woken && m.blocked + m.woken <= {CONSUMER}
    ensures var m' := MessageQueues.Apply(m, e);
            && m'.stopping == m.stopping && m'.notifying == m.notifying && m'.woken == {}
            && m'.cell.stopped == m.cell.stopped
            && m'.blocked == (if m.cell.Ready() then {} else {CONSUMER})
            && m'.delivered == m.delivered + (if m.cell.Ready() && !m.cell.stopped then [m.cell.queue[0]] else [])
  {
    assert m.woken - {CONSUMER} == {};
  }

  lemma {:induction false} QuitKeepsInv<T>(p: Program<T>)
    requires Inv(p) && Enabled(p, Quit)
    ensures Inv(Apply(p, Quit))
  {
    hide MessageQueues.Inv;
    if p.quitter == FlagDown {
      MonitorStep(p.monitor, SetStopped(QUITTER));
    } else if p.quitter == StopSet {
      MonitorStep(p.monitor, NotifyAll(QUITTER));
    }
  }

  lemma {:induction false} WakeKeepsInv<T>(p: Program<T>)
    requires Inv(p) && Enabled(p, Wake)
    ensures Inv(Apply(p, Wake))
  {
    MonitorStep(p.monitor, SpuriousWake(CONSUMER));
  }

  lemma {:induction false} StepKeepsInv<T>(p: Program<T>, mv: Move<T>)
    requires Inv(p) && Enabled(p, mv)
    ensures Inv(Apply(p, mv))
  {
    hide MessageQueues.Inv, MessageQueues.Apply, MessageQueues.Enabled;
    match mv
    case Produce(e) => ProduceKeepsInv(p, e);
    case Look =>
    case Pop(blank) => PopKeepsInv(p, blank);
    case Wake => WakeKeepsInv(p);
    case Act => assert p.acted + InHand(p.consumer) + [] == p.acted + [p.consumer.x];
    case Quit => QuitKeepsInv(p);
  }

  lemma {:induction false} RunKeepsInv<T>(p: Program<T>, mvs: seq<Move<T>>)
    requires Inv(p) && Valid(p, mvs)
    ensures Inv(Run(p, mvs))
    decreases mvs
  {
    if mvs != [] {
      StepKeepsInv(p, mvs[0]);
      RunKeepsInv(Apply(p, mvs[0]), mvs[1..]);
    }
  }

  /** Shutdown fabricates no work: in every run, what the consumer acted on, what it holds or dropped
      (one element at most) and what is still queued make up exactly what was pushed, in order. So the
      acted-on elements are a prefix of the pushed ones; pop's blank element is never acted on. */
  lemma {:induction false} ActsOnAPrefix<T>(mvs: seq<Move<T>>)
    requires Valid(Launch(), mvs)
    ensures var p := Run(Launch<T>(), mvs);
            && p.acted + InHand(p.consumer) + p.monitor.cell.queue == p.monitor.pushed
            && p.acted <= p.monitor.pushed
            && |InHand(p.consumer)| <= 1
  {
    RunKeepsInv(Launch<T>(), mvs);
    var p := Run(Launch<T>(), mvs);
    assert p.monitor.pushed == p.acted + (InHand(p.consumer) + p.monitor.cell.queue);
  }

  /** Every pop of a run is given the same blank, as the program's are. */
  predicate PopsWith<T(==)>(mvs: seq<Move<T>>, blank: T) {
    forall i :: 0 <= i < |mvs| && mvs[i].Pop? ==> mvs[i].blank == blank
  }

  lemma {:induction false} PopHolds<T>(p: Program<T>, blank: T)
    requires Inv(p) && Enabled(p, Pop(blank))
    ensures var q := Apply(p, Pop(blank));
            && q.monitor.cell.stopped == p.monitor.cell.stopped
            && (q.consumer.Holding? ==>
                  if p.monitor.cell.stopped
                  then !q.consumer.genuine && q.consumer.x == blank && q.monitor.cell == p.monitor.cell
                  else q.consumer.genuine && [q.consumer.x] + q.monitor.cell.queue == p.monitor.cell.queue)
  {
  }

  lemma {:induction false} StepHoldsBlank<T>(p: Program<T>, mv: Move<T>, blank: T)
    requires Inv(p) && Enabled(p, mv) && (mv.Pop? ==> mv.blank == blank)
    requires p.consumer.Holding? && !p.consumer.genuine ==> p.consumer.x == blank
    ensures var c := Apply(p, mv).consumer; c.Holding? && !c.genuine ==> c.x == blank
  {
    hide Inv;
    if mv.Pop? {
      PopHolds(p, blank);
    }
  }

  /** What a consumer holds that never was in the queue is pop's blank element. */
  lemma {:induction false} HoldsTheBlank<T>(p: Program<T>, mvs: seq<Move<T>>, blank: T)
    requires Inv(p) && Valid(p, mvs) && PopsWith(mvs, blank)
    requires p.consumer.Holding? && !p.consumer.genuine ==> p.consumer.x == blank
    ensures var c := Run(p, mvs).consumer; c.Holding? && !c.genuine ==> c.x == blank
    decreases mvs
  {
    hide Inv, Enabled, Apply;
    if mvs != [] {
      StepKeepsInv(p, mvs[0]);
      StepHoldsBlank(p, mvs[0], blank);
      assert forall i :: 0 <= i < |mvs| - 1 ==> mvs[1..][i] == mvs[i + 1];
      HoldsTheBlank(Apply(p, mvs[0]), mvs[1..], blank);
    }
  }

  predicate OfConsumer<T>(mv: Move<T>) {
    mv.Look? || mv.Pop? || mv.Wake? || mv.Act?
  }

  function ConsumerMoves<T>(mvs: seq<Move<T>>): nat {
    if mvs == [] then 0 else (if OfConsumer(mvs[0]) then 1 else 0) + ConsumerMoves(mvs[1..])
  }

  /** How many steps from leaving the loop the consumer is once the quit sequence is over. */
  function Remaining<T>(c: Phase<T>): nat {
    match c
    case Exited(_) => 0
    case Testing => 1
    case Holding(_, _) => 1
    case _ => 2
  }

  lemma {:induction false} InvMeansNotStuck<T>(p: Program<T>, blank: T)
    requires Inv(p)
    ensures p.quitter != Finished ==> Enabled(p, Quit)
    ensures p.quitter == Finished && !p.consumer.Exited? ==>
              Enabled(p, Look) || Enabled(p, Pop(blank)) || Enabled(p, Act)
  {
    if p.quitter == Finished {
      assert p.monitor.blocked == {} && p.monitor.cell.Ready();
    }
  }

  /** Nobody waits forever on the quit path: the quitting thread can always take its next step, and
      once it has finished, a consumer that has not exited can always take one too. */
  lemma {:induction false} NeverStuck<T>(mvs: seq<Move<T>>, blank: T)
    requires Valid(Launch(), mvs)
    ensures var p := Run(Launch<T>(), mvs);
            && (p.quitter != Finished ==> Enabled(p, Quit))
            && (p.quitter == Finished && !p.consumer.Exited? ==>
                  Enabled(p, Look) || Enabled(p, Pop(blank)) || Enabled(p, Act))
  {
    assert Inv(Launch<T>());
    hide Enabled, Apply, Inv;
    RunKeepsInv(Launch<T>(), mvs);
    InvMeansNotStuck(Run(Launch<T>(), mvs), blank);
  }

  /** Once the quit sequence is over the consumer takes at most two more steps of its own, whatever the
      others do and however often it is woken spuriously; taking both means it has exited. */
  lemma {:induction false} ExitsInTwoSteps<T>(p: Program<T>, mvs: seq<Move<T>>)
    requires Inv(p) && p.quitter == Finished && Valid(p, mvs)
    ensures ConsumerMoves(mvs) + Remaining(Run(p, mvs).consumer) <= Remaining(p.consumer) <= 2
    decreases mvs
  {
    if mvs != [] {
      StepKeepsInv(p, mvs[0]);
      ExitsInTwoSteps(Apply(p, mvs[0]), mvs[1..]);
    }
  }
}
