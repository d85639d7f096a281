/** The thread-safe queue: its fields and critical sections, and the monitor they form. */
module MessageQueues {

  /** What the mutex protects: the queued elements and the stop flag. */
  datatype Cell<T> = Cell(queue: seq<T>, stopped: bool) {
    /** The predicate pop waits for. */
    predicate Ready() { queue != [] || stopped }

    /** What a pop that got past its wait returns: a blank element once stopped, else the front. */
    function Result(blank: T): T
      requires Ready()
    {
      if stopped then blank else queue[0]
    }

    /** What such a pop leaves behind. */
    function Rest(): Cell<T>
      requires Ready()
    {
      if stopped then this else this.(queue := queue[1..])
    }
  }

  /** The queue object. Each method body is one critical section; who waits and who is
      notified is the subject of the monitor below. */
  class MessageQueue<T> {
    var messageQueue: seq<T>
    var stopped: bool

    function View(): Cell<T>
      reads this
    {
      Cell(messageQueue, stopped)
    }

    constructor ()
      ensures View() == Cell([], false)
    {
      messageQueue, stopped := [], false;
    }

    method Shutdown()
      modifies this
      ensures View() == old(View()).(stopped := true)
    {
      stopped := true;
    }

    /** The part of pop after the wait; the wait is over exactly when the cell is ready. A stopped queue gives
        out nothing any more, whatever it holds. */
    method Pop(blank: T) returns (element: T)
      requires View().Ready()
      modifies this
      ensures element == old(View()).Result(blank) && View() == old(View()).Rest()
      ensures stopped == old(stopped)
      ensures old(stopped) ==> element == blank && messageQueue == old(messageQueue)
      ensures !old(stopped) ==> [element] + messageQueue == old(messageQueue)
    {
      if stopped {
        return blank;
      }
      element := messageQueue[0];
      messageQueue := messageQueue[1..];
    }

    method PushBack(message: T)
      modifies this
      ensures View() == Cell(old(messageQueue) + [message], old(stopped))
    {
      messageQueue := messageQueue + [message];
    }
  }

  /** The queue with any number of threads in the middle of a call.
      blocked: waiting on the condition variable; woken: signalled or spuriously woken, yet to
      re-check under the lock; notifying: appended and unlocked, notify_one still to come;
      stopping: stop flag set and unlocked, notify_all still to come.
      pushed and delivered record the elements appended and the genuine elements taken. */
  datatype Monitor<T> = Monitor(
    cell: Cell<T>,
    blocked: set<nat>, woken: set<nat>, notifying: set<nat>, stopping: set<nat>,
    pushed: seq<T>, delivered: seq<T>)
  {
    predicate Idle(t: nat) {
      t !in blocked && t !in woken && t !in notifying && t !in stopping
    }
  }

  datatype Event<T> =
    | Append(t: nat, x: T)           // pushBack up to its unlock
    | NotifyOne(t: nat, lucky: nat)  // notify_one: lucky is the waiter it wakes, if any waits
    | Enter(t: nat)                  // pop takes the lock and tests its predicate
    | SpuriousWake(t: nat)
    | Recheck(t: nat)                // a woken thread takes the lock again and tests
    | SetStopped(t: nat)             // shutdown up to its unlock
    | NotifyAll(t: nat)

  function Start<T>(): Monitor<T> {
    Monitor(Cell([], false), {}, {}, {}, {}, [], [])
  }

  predicate Enabled<T>(m: Monitor<T>, e: Event<T>) {
    match e
    case Append(t, _) => m.Idle(t)
    case NotifyOne(t, lucky) => t in m.notifying && (m.blocked != {} ==> lucky in m.blocked)
    case Enter(t) => m.Idle(t)
    case SpuriousWake(t) => t in m.blocked
    case Recheck(t) => t in m.woken
    case SetStopped(t) => m.Idle(t)
    case NotifyAll(t) => t in m.stopping
  }

  /** One test of pop's predicate under the lock: leave with an element, or block. */
  function Test<T>(m: Monitor<T>, t: nat): Monitor<T> {
    if !m.cell.Ready() then m.(blocked := m.blocked + {t})
    else if m.cell.stopped then m
    else m.(cell := m.cell.Rest(), delivered := m.delivered + [m.cell.queue[0]])
  }

  function Apply<T>(m: Monitor<T>, e: Event<T>): Monitor<T>
    requires Enabled(m, e)
  {
    match e
    case Append(t, x) =>
      m.(cell := m.cell.(queue := m.cell.queue + [x]), notifying := m.notifying + {t}, pushed := m.pushed + [x])
    case NotifyOne(t, lucky) =>
      var m' := m.(notifying := m.notifying - {t});
      if m.blocked == {} then m' else m'.(blocked := m.blocked - {lucky}, woken := m.woken + {lucky})
    case Enter(t) => Test(m, t)
    case SpuriousWake(t) => m.(blocked := m.blocked - {t}, woken := m.woken + {t})
    case Recheck(t) => Test(m.(woken := m.woken - {t}), t)
    case SetStopped(t) => m.(cell := m.cell.(stopped := true), stopping := m.stopping + {t})
    case NotifyAll(t) =>
      m.(stopping := m.stopping - {t}, woken := m.woken + m.blocked, blocked := {})
  }

  /** es is a run from m: each event is enabled in the state the earlier ones lead to. */
  predicate Valid<T>(m: Monitor<T>, es: seq<Event<T>>)
    decreases es
  {
    es == [] || (Enabled(m, es[0]) && Valid(Apply(m, es[0]), es[1..]))
  }

  function Run<T>(m: Monitor<T>, es: seq<Event<T>>): Monitor<T>
    requires Valid(m, es)
    decreases es
  {
    if es == [] then m else Run(Apply(m, es[0]), es[1..])
  }

  /** Each thread is in one phase of one call, and nothing is lost, doubled or reordered. */
  ghost predicate Orderly<T>(m: Monitor<T>) {
    && m.blocked !! m.woken
    && m.notifying !! m.blocked + m.woken
    && m.stopping !! m.blocked + m.woken
    && m.delivered + m.cell.queue == m.pushed
  }

  /** The counting invariant behind "no lost wake-up". */
  ghost predicate Covered<T>(m: Monitor<T>) {
    && (!m.cell.stopped ==> m.stopping == {})
    && (!m.cell.stopped && m.blocked != {} ==> |m.cell.queue| <= |m.notifying| + |m.woken|)
    && (m.cell.stopped && m.blocked != {} ==> m.stopping != {})
  }

  ghost predicate Inv<T>(m: Monitor<T>) {
    Orderly(m) && Covered(m)
  }

  lemma {:induction false} StepKeepsOrder<T>(m: Monitor<T>, e: Event<T>)
    requires Orderly(m) && Enabled(m, e)
    ensures Orderly(Apply(m, e))
  {
    match e
    case Append(t, x) =>
      assert m.delivered + (m.cell.queue + [x]) == m.pushed + [x];
    case Enter(t) => TestKeepsOrder(m, t);
    case Recheck(t) => TestKeepsOrder(m.(woken := m.woken - {t}), t);
    case NotifyOne(t, lucky) =>
    case SpuriousWake(t) =>
    case SetStopped(t) =>
    case NotifyAll(t) =>
  }

  lemma {:induction false} TestKeepsOrder<T>(m: Monitor<T>, t: nat)
    requires Orderly(m) && m.Idle(t)
    ensures Orderly(Test(m, t))
  {
    if m.cell.queue != [] {
      assert m.delivered + [m.cell.queue[0]] + m.cell.queue[1..] == m.pushed;
    }
  }

  lemma {:induction false} StepKeepsCover<T>(m: Monitor<T>, e: Event<T>)
    requires Inv(m) && Enabled(m, e)
    ensures Covered(Apply(m, e))
  {
    match e
    case Append(t, x) => assert |m.notifying + {t}| == |m.notifying| + 1;
    case NotifyOne(t, lucky) => NotifyKeepsCover(m, t, lucky);
    case Enter(t) =>
    case SpuriousWake(t) => assert |m.woken + {t}| == |m.woken| + 1;
    case Recheck(t) => RecheckKeepsCover(m, t);
    case SetStopped(t) => assert t in m.stopping + {t};
    case NotifyAll(t) =>
  }

  /** A notify that finds a waiter turns its promise into a woken thread. */
  lemma {:induction false} NotifyKeepsCover<T>(m: Monitor<T>, t: nat, lucky: nat)
    requires Inv(m) && Enabled(m, NotifyOne(t, lucky))
    ensures Covered(Apply(m, NotifyOne(t, lucky)))
  {
    assert |m.notifying - {t}| == |m.notifying| - 1;
    if m.blocked != {} {
      assert |m.woken + {lucky}| == |m.woken| + 1;
    }
  }

  /** A woken thread that finds an element uses up both itself and the element. */
  lemma {:induction false} RecheckKeepsCover<T>(m: Monitor<T>, t: nat)
    requires Inv(m) && Enabled(m, Recheck(t))
    ensures Covered(Apply(m, Recheck(t)))
  {
    assert |m.woken - {t}| == |m.woken| - 1;
  }

  lemma {:induction false} RunKeepsInv<T>(m: Monitor<T>, es: seq<Event<T>>)
    requires Inv(m) && Valid(m, es)
    ensures Inv(Run(m, es))
    decreases es
  {
    if es != [] {
      StepKeepsOrder(m, es[0]);
      StepKeepsCover(m, es[0]);
      RunKeepsInv(Apply(m, es[0]), es[1..]);
    }
  }

  /** No lost wake-up, over every run of any number of threads: while a consumer is blocked, every
      queued element is covered by a pending notify or by a woken consumer, and after a shutdown a
      notify_all is still to come. When nothing is pending, whoever is blocked has nothing to take. */
  lemma {:induction false} NoLostWakeup<T>(es: seq<Event<T>>)
    requires Valid(Start(), es)
    ensures var m := Run(Start(), es);
            && (m.blocked != {} && !m.cell.stopped ==> |m.cell.queue| <= |m.notifying| + |m.woken|)
            && (m.blocked != {} && m.cell.stopped ==> m.stopping != {})
            && (m.blocked != {} && m.notifying == m.woken == m.stopping == {} ==> !m.cell.Ready())
  {
    RunKeepsInv(Start(), es);
  }

  /** Elements come out in the order they went in, none twice and none invented. */
  lemma {:induction false} FirstInFirstOut<T>(es: seq<Event<T>>)
    requires Valid(Start(), es)
    ensures var m := Run(Start(), es); m.delivered + m.cell.queue == m.pushed
  {
    RunKeepsInv(Start(), es);
  }

  /** Once a notify_all has run, nobody is blocked, then or at any later point of the run. */
  lemma {:induction false} NobodyBlockedAfterNotifyAll<T>(m: Monitor<T>, es: seq<Event<T>>, i: nat)
    requires Inv(m) && Valid(m, es) && i < |es| && es[i].NotifyAll?
    ensures Run(m, es).blocked == {} && Run(m, es).cell.stopped
    decreases es
  {
    StepKeepsOrder(m, es[0]);
    StepKeepsCover(m, es[0]);
    if i == 0 {
      StoppedStaysUnblocked(Apply(m, es[0]), es[1..]);
    } else {
      NobodyBlockedAfterNotifyAll(Apply(m, es[0]), es[1..], i - 1);
    }
  }

  lemma {:induction false} StoppedStaysUnblocked<T>(m: Monitor<T>, es: seq<Event<T>>)
    requires Valid(m, es) && m.cell.stopped && m.blocked == {}
    ensures Run(m, es).blocked == {} && Run(m, es).cell.stopped
    decreases es
  {
    if es != [] {
      StoppedStaysUnblocked(Apply(m, es[0]), es[1..]);
    }
  }
}
