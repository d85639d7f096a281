/** Timeouts, retries and deaths of one ground control connection over whole runs. */
module FailureDetectors {
  import opened Config
  import opened Connections
  import opened GCConnectionHandlers

  /** What happens to a connection: an update pass visits it, or a message from its satellite arrives. */
  datatype Event = Visit(tick: Tick) | Contact(now: nat)

  function Step(c: Conn, e: Event): Conn {
    match e
    case Visit(tick) => UpdateEntry(c, tick)
    case Contact(now) => c.Beat(now).MarkConnected()
  }

  function Run(c: Conn, es: seq<Event>): Conn {
    if es == [] then c else Step(Run(c, es[..|es| - 1]), es[|es| - 1])
  }

  function Begins(e: Event): nat { if e.Visit? then e.tick.first else e.now }
  function Ends(e: Event): nat { if e.Visit? then e.tick.second else e.now }

  /** The clock never runs backwards: not inside an event, and not from one to the next. */
  predicate Timed(start: nat, es: seq<Event>, now: nat) {
    if es == [] then start <= now
    else Timed(start, es[..|es| - 1], Begins(es[|es| - 1])) && Begins(es[|es| - 1]) <= Ends(es[|es| - 1]) <= now
  }

  predicate Heard(es: seq<Event>) {
    exists i :: 0 <= i < |es| && es[i].Contact?
  }

  /** The dead notices the passes of a run push about the connection. */
  function Notices(c: Conn, es: seq<Event>): nat {
    if es == [] then 0
    else
      var e := es[|es| - 1];
      Notices(c, es[..|es| - 1]) + (if e.Visit? && EntryDies(Run(c, es[..|es| - 1]), e.tick) then 1 else 0)
  }

  // ---------------------------------------------------------------- how long silence lasts

  /** While disconnected, each counted retry stands for ten more seconds without a message. */
  ghost predicate Aged(c: Conn, heard: bool, now: nat) {
    && c.lastHeartbeat <= now && c.lastReconnect <= now
    && (c.state == CONNECTED ==> heard && c.retryCounter == 0)
    && (c.state == DISCONNECTED ==>
          var silence := c.lastHeartbeat + (if heard then TIMEOUT_THRESHOLD + 1 else 0);
          && c.retryCounter <= MAX_RECONNECT_ATTEMPTS + 1
          && (!c.Dead() ==> c.lastReconnect >= silence + RECONNECT_INTERVAL * c.retryCounter)
          && (c.Dead() ==> now >= silence + RECONNECT_INTERVAL * (MAX_RECONNECT_ATTEMPTS + 1)))
  }

  lemma {:induction false} StepKeepsAged(c: Conn, e: Event, heard: bool, before: nat, now: nat)
    requires Aged(c, heard, before) && before <= Begins(e) <= Ends(e) <= now
    ensures Aged(Step(c, e), heard || e.Contact?, now)
    ensures Step(c, e).lastHeartbeat >= c.lastHeartbeat
  {
  }

  lemma {:induction false} NewIsAged(c: Conn, now: nat)
    requires c.state == DISCONNECTED && c.retryCounter == 0 && c.lastHeartbeat <= c.lastReconnect <= now
    ensures Aged(c, false, now)
  {
  }

  lemma {:induction false} LaterIsAged(c: Conn, heard: bool, before: nat, now: nat)
    requires Aged(c, heard, before) && before <= now
    ensures Aged(c, heard, now)
  {
  }

  lemma {:induction false} RunIsAged(c: Conn, es: seq<Event>, start: nat, now: nat)
    requires Timed(start, es, now)
    requires c.state == DISCONNECTED && c.retryCounter == 0 && c.lastHeartbeat <= c.lastReconnect <= start
    ensures Aged(Run(c, es), Heard(es), now)
    ensures Run(c, es).lastHeartbeat >= c.lastHeartbeat
    ensures forall i :: 0 <= i < |es| && es[i].Contact? ==> es[i].now <= Run(c, es).lastHeartbeat
  {
    if es != [] {
      var init, e := es[..|es| - 1], es[|es| - 1];
      RunIsAged(c, init, start, Begins(e));
      StepKeepsAged(Run(c, init), e, Heard(init), Begins(e), now);
      assert forall i :: 0 <= i < |init| ==> init[i] == es[i];
      assert Heard(es) <==> Heard(init) || e.Contact? by {
        if Heard(init) {
          var i :| 0 <= i < |init| && init[i].Contact?;
          assert es[i].Contact?;
        }
      }
    }
  }

  /** Death is never premature: in every run with a clock that does not run backwards, a connection that
      is dead has been silent for at least 110 seconds since it was created, and for at least 131 seconds
      since every message that ever arrived on it. */
  lemma {:induction false} DeathIsNeverPremature(c: Conn, es: seq<Event>, start: nat, now: nat)
    requires Timed(start, es, now)
    requires c.state == DISCONNECTED && c.retryCounter == 0 && c.lastHeartbeat <= c.lastReconnect <= start
    requires Run(c, es).Dead()
    ensures now - c.lastHeartbeat >= 110
    ensures forall i :: 0 <= i < |es| && es[i].Contact? ==> now - es[i].now >= 131
  {
    RunIsAged(c, es, start, now);
    assert forall i :: 0 <= i < |es| && es[i].Contact? ==> Heard(es);
  }

  /** In every run, whatever the clock does, the retry counter never passes 11, and a connected entry has
      it at zero. */
  lemma {:induction false} RetriesAreBounded(c: Conn, es: seq<Event>)
    requires c.retryCounter <= MAX_RECONNECT_ATTEMPTS + 1 && (c.state == CONNECTED ==> c.retryCounter == 0)
    ensures Run(c, es).retryCounter <= MAX_RECONNECT_ATTEMPTS + 1
    ensures Run(c, es).state == CONNECTED ==> Run(c, es).retryCounter == 0
  {
    if es != [] {
      RetriesAreBounded(c, es[..|es| - 1]);
    }
  }

  // ---------------------------------------------------------------- no false suspicion

  /** Every visit of a pass comes within 20 seconds of the last message. */
  predicate Regular(c: Conn, es: seq<Event>) {
    if es == [] then true
    else
      var init, e := es[..|es| - 1], es[|es| - 1];
      Regular(c, init) && (e.Visit? ==> e.tick.first <= Run(c, init).lastHeartbeat + 20)
  }

  /** A satellite heard from regularly is never suspected: its connection stays connected on the same
      socket, no retry is counted and no dead notice is pushed. */
  lemma {:induction false} NoFalseSuspicion(c: Conn, es: seq<Event>)
    requires c.state == CONNECTED && c.retryCounter == 0 && Regular(c, es)
    ensures Run(c, es) == c.(lastHeartbeat := Run(c, es).lastHeartbeat)
    ensures Notices(c, es) == 0
  {
    if es != [] {
      NoFalseSuspicion(c, es[..|es| - 1]);
    }
  }

  // ---------------------------------------------------------------- death announced once

  /** Between two messages a death is announced exactly once, by the pass in which it happens, and a
      connection never comes back to life by itself. */
  lemma {:induction false} DeathIsAnnouncedOnce(c: Conn, es: seq<Event>)
    requires c.retryCounter <= MAX_RECONNECT_ATTEMPTS + 1
    requires forall i :: 0 <= i < |es| ==> es[i].Visit?
    ensures Notices(c, es) == (if Run(c, es).Dead() && !c.Dead() then 1 else 0)
    ensures c.Dead() ==> Run(c, es).Dead()
    ensures Run(c, es).retryCounter <= MAX_RECONNECT_ATTEMPTS + 1
  {
    if es != [] {
      DeathIsAnnouncedOnce(c, es[..|es| - 1]);
    }
  }

  // ---------------------------------------------------------------- two runs in a row

  lemma {:induction false} RunTwice(c: Conn, a: seq<Event>, b: seq<Event>)
    ensures Run(c, a + b) == Run(Run(c, a), b)
    ensures Notices(c, a + b) == Notices(c, a) + Notices(Run(c, a), b)
    decreases |b|
  {
    if b == [] {
      assert a + b == a;
    } else {
      RunTwice(c, a, b[..|b| - 1]);
      assert (a + b)[..|a + b| - 1] == a + b[..|b| - 1];
    }
  }

  // ---------------------------------------------------------------- how late death can be

  /** When the last event began, or from if there was none. */
  function LastTime(from: nat, es: seq<Event>): nat {
    if es == [] then from else Begins(es[|es| - 1])
  }

  /** Passes at most g seconds apart, the first at most g after from: g covers the time from one visit's
      first clock read to the next visit's second one. */
  predicate Paced(from: nat, es: seq<Event>, g: nat) {
    if es == [] then true
    else
      var init, e := es[..|es| - 1], es[|es| - 1];
      && Paced(from, init, g) && e.Visit?
      && LastTime(from, init) <= e.tick.first <= e.tick.second <= LastTime(from, init) + g
  }

  lemma {:induction false} PacedVisits(from: nat, es: seq<Event>, g: nat)
    requires Paced(from, es, g)
    ensures forall i :: 0 <= i < |es| ==> es[i].Visit?
  {
    if es != [] {
      PacedVisits(from, es[..|es| - 1], g);
      assert forall i :: 0 <= i < |es| - 1 ==> es[i] == es[..|es| - 1][i];
    }
  }

  /** Until death each counted retry stands for at most 10 + g seconds, and the next is never overdue. */
  lemma {:induction false} DeadlineAhead(c: Conn, es: seq<Event>, d: nat, g: nat)
    requires c.state == DISCONNECTED && c.retryCounter == 0 && c.lastReconnect == d && Paced(d, es, g)
    ensures var r := Run(c, es);
            && r.state == DISCONNECTED
            && (!r.Dead() ==> r.lastReconnect <= d + r.retryCounter * (RECONNECT_INTERVAL + g))
            && (!r.Dead() ==> LastTime(d, es) < r.lastReconnect + RECONNECT_INTERVAL)
  {
    if es != [] {
      var r, period := Run(c, es[..|es| - 1]), RECONNECT_INTERVAL + g;
      DeadlineAhead(c, es[..|es| - 1], d, g);
      assert (r.retryCounter + 1) * period == r.retryCounter * period + period;
    }
  }

  /** Death is bounded: if passes are at most g seconds apart and nothing arrives after the disconnect at
      time d, the connection is dead by d + 11 * (10 + g). */
  lemma {:induction false} DeathIsBounded(c: Conn, es: seq<Event>, d: nat, g: nat)
    requires c.state == DISCONNECTED && c.retryCounter == 0 && c.lastReconnect == d
    requires Paced(d, es, g) && LastTime(d, es) >= d + 11 * (10 + g)
    ensures Run(c, es).Dead()
  {
    hide Run, Paced, LastTime;
    DeadlineAhead(c, es, d, g);
    var r := Run(c, es);
    if !r.Dead() {
      TenPeriods(r.retryCounter, RECONNECT_INTERVAL + g);
    }
  }

  lemma {:induction false} TenPeriods(k: nat, period: nat)
    requires k <= 10
    ensures k * period <= 10 * period
  {
  }

  // ---------------------------------------------------------------- how the retries are spaced

  /** Whether this visit of a pass dials. */
  predicate Dials(c: Conn, tick: Tick) {
    EntryRetried(c) && c.Due(tick.first) && c.retryCounter < MAX_RECONNECT_ATTEMPTS
  }

  /** When the run dialled, in order: the times reconnect notes. */
  function DialTimes(c: Conn, es: seq<Event>): seq<nat> {
    if es == [] then []
    else
      var init, e := es[..|es| - 1], es[|es| - 1];
      DialTimes(c, init) + (if e.Visit? && Dials(Run(c, init), e.tick) then [e.tick.second] else [])
  }

  /** In every run, messages included, two attempts are at least ten seconds apart. */
  lemma {:induction false} AttemptsAreSpaced(c: Conn, es: seq<Event>, start: nat, now: nat)
    requires Timed(start, es, now) && c.lastReconnect <= start
    ensures var ts := DialTimes(c, es);
            && (forall i :: 0 <= i < |ts| - 1 ==> ts[i] + 10 <= ts[i + 1])
            && (ts != [] ==> ts[|ts| - 1] <= Run(c, es).lastReconnect)
            && Run(c, es).lastReconnect <= now
  {
    if es != [] {
      var init, e := es[..|es| - 1], es[|es| - 1];
      AttemptsAreSpaced(c, init, start, Begins(e));
    }
  }

  /** Whether this visit drops a connected entry for being silent. */
  predicate Drops(c: Conn, tick: Tick) {
    c.state == CONNECTED && tick.first > c.lastHeartbeat + 20
  }

  /** After a drop no visit sends anything or changes the entry before ten seconds have passed. */
  lemma {:induction false} NoEarlyRetry(c: Conn, drop: Tick, tick: Tick)
    requires Drops(c, drop) && c.retryCounter == 0 && tick.first < drop.second + 10
    ensures var d := UpdateEntry(c, drop);
            && d == c.(satSocket := d.satSocket, state := DISCONNECTED, lastReconnect := drop.second) && !d.Open()
            && UpdateEntry(d, tick) == d && EntrySends(d, tick) == [] && !EntryDies(d, tick)
  {
  }

  /** The disconnect and the attempts of a silent run. */
  function Times(c: Conn, es: seq<Event>): seq<int> {
    [c.lastReconnect] + DialTimes(c, es)
  }

  /** The interval is fixed: with passes at most g seconds apart every attempt, whichever it is, comes at
      least ten and less than 10 + g seconds after the one before it, the first after the disconnect. There
      are as many attempts as counted retries, but at most ten. */
  lemma {:induction false} RetryIntervalIsFixed(c: Conn, es: seq<Event>, d: nat, g: nat)
    requires c.state == DISCONNECTED && c.retryCounter == 0 && c.lastReconnect == d && Paced(d, es, g)
    ensures var ts, r := Times(c, es), Run(c, es);
            && (forall i :: 0 <= i < |ts| - 1 ==> ts[i] + 10 <= ts[i + 1] < ts[i] + 10 + g)
            && ts[|ts| - 1] == r.lastReconnect
            && |ts| - 1 == (if r.Dead() then 10 else r.retryCounter)
            && r.retryCounter <= 11
  {
    DeadlineAhead(c, es, d, g);
    if es != [] {
      var init := es[..|es| - 1];
      RetryIntervalIsFixed(c, init, d, g);
      DeadlineAhead(c, init, d, g);
      if Times(c, es) != Times(c, init) {
        assert Times(c, es) == Times(c, init) + [es[|es| - 1].tick.second];
      }
    }
  }

  /** Exponential backoff: each wait is at least twice the one before it. */
  predicate BacksOff(ts: seq<int>) {
    forall i :: 0 <= i < |ts| - 2 ==> ts[i + 2] - ts[i + 1] >= 2 * (ts[i + 1] - ts[i])
  }

  /** There is no backoff: with passes at most ten seconds apart, and the program makes one a second, the
      waits double only as long as there is no second one, that is until the second retry. */
  lemma {:induction false} NoBackoff(c: Conn, es: seq<Event>, d: nat, g: nat)
    requires c.state == DISCONNECTED && c.retryCounter == 0 && c.lastReconnect == d && Paced(d, es, g) && g <= 10
    ensures BacksOff(Times(c, es)) <==> Run(c, es).retryCounter <= 1
  {
    RetryIntervalIsFixed(c, es, d, g);
    var ts := Times(c, es);
    if |ts| > 2 {
      assert ts[2] - ts[1] < 20 <= 2 * (ts[1] - ts[0]);
      assert !BacksOff(ts) by {
        assert ts[0 + 2] - ts[0 + 1] < 2 * (ts[0 + 1] - ts[0]);
      }
    }
  }

  /** A pass every second from time d on. */
  function EverySecond(d: nat, n: nat, dial: Dial): seq<Event> {
    seq(n, k requires 0 <= k => Visit(Tick(d + k + 1, d + k + 1, dial)))
  }

  /** d + 10, d + 20 and so on, k times. */
  function Tens(d: nat, k: nat): seq<nat> {
    seq(k, i requires 0 <= i => d + 10 * (i + 1))
  }

  lemma {:induction false} NextTen(d: nat, k: nat)
    ensures Tens(d, k + 1) == Tens(d, k) + [d + 10 * (k + 1)]
  {
  }

  /** r seconds after the k-th of attempts that were made every ten seconds. */
  predicate OnSchedule(c: Conn, es: seq<Event>, d: nat, k: nat, r: nat) {
    && Paced(d, es, 1) && LastTime(d, es) == d + 10 * k + r
    && DialTimes(c, es) == Tens(d, k)
    && Run(c, es).retryCounter == k && Run(c, es).state == DISCONNECTED && Run(c, es).lastReconnect == d + 10 * k
  }

  lemma {:induction false} NextSecond(c: Conn, es: seq<Event>, d: nat, k: nat, r: nat, dial: Dial)
    requires OnSchedule(c, es, d, k, r) && k <= 10 && r < 10 && (r == 9 ==> k < 10)
    ensures var now := d + 10 * k + r + 1;
            var es' := es + [Visit(Tick(now, now, dial))];
            if r == 9 then OnSchedule(c, es', d, k + 1, 0) else OnSchedule(c, es', d, k, r + 1)
  {
    hide Dials, Step, Tens, Paced, LastTime, DialTimes, Run;
    var now := d + 10 * k + r + 1;
    OneMoreVisit(c, es, Tick(now, now, dial), d, 1);
    OneSecondLater(Run(c, es), d, k, r, dial);
    if r == 9 {
      NextTen(d, k);
    }
  }

  /** For instance, with a pass every second the waits do not grow at all: after 10 * k + r seconds the
      attempts were 10, 20 and so on until 10 * k seconds after the disconnect, and all ten are made. */
  lemma {:induction false} EveryTenSeconds(c: Conn, d: nat, k: nat, r: nat, dial: Dial)
    requires c.state == DISCONNECTED && c.retryCounter == 0 && c.lastReconnect == d && k <= 10 && r < 10
    ensures OnSchedule(c, EverySecond(d, 10 * k + r, dial), d, k, r)
    decreases 10 * k + r
  {
    hide OnSchedule, EverySecond;
    if k == 0 && r == 0 {
      NoSecondYet(c, d, dial);
    } else {
      OneMoreSecond(d, 10 * k + r, dial);
      if r > 0 {
        EveryTenSeconds(c, d, k, r - 1, dial);
        NextSecond(c, EverySecond(d, 10 * k + (r - 1), dial), d, k, r - 1, dial);
      } else {
        EveryTenSeconds(c, d, k - 1, 9, dial);
        NextSecond(c, EverySecond(d, 10 * (k - 1) + 9, dial), d, k - 1, 9, dial);
      }
    }
  }

  lemma {:induction false} NoSecondYet(c: Conn, d: nat, dial: Dial)
    requires c.state == DISCONNECTED && c.retryCounter == 0 && c.lastReconnect == d
    ensures OnSchedule(c, EverySecond(d, 0, dial), d, 0, 0)
  {
    hide EntryDies, Dials;
    assert EverySecond(d, 0, dial) == [];
    assert Tens(d, 0) == [] && Run(c, []) == c && DialTimes(c, []) == [] && LastTime(d, []) == d && Paced(d, [], 1);
  }

  lemma {:induction false} OneMoreSecond(d: nat, n: nat, dial: Dial)
    requires n > 0
    ensures EverySecond(d, n, dial) == EverySecond(d, n - 1, dial) + [Visit(Tick(d + n, d + n, dial))]
  {
  }

  lemma {:induction false} OneMoreVisit(c: Conn, init: seq<Event>, tick: Tick, d: nat, g: nat)
    ensures var es := init + [Visit(tick)];
            && Run(c, es) == Step(Run(c, init), Visit(tick)) && LastTime(d, es) == tick.first
            && DialTimes(c, es) == (if Dials(Run(c, init), tick) then DialTimes(c, init) + [tick.second]
                                    else DialTimes(c, init))
            && (Paced(d, es, g) <==>
                  Paced(d, init, g) && LastTime(d, init) <= tick.first <= tick.second <= LastTime(d, init) + g)
  {
    hide Step, Dials;
    assert (init + [Visit(tick)])[..|init|] == init;
    assert DialTimes(c, init) + [] == DialTimes(c, init);
  }

  lemma {:induction false} OneSecondLater(c: Conn, d: nat, k: nat, r: nat, dial: Dial)
    requires k <= 10 && r < 10 && (r == 9 ==> k < 10) && c.state == DISCONNECTED
    requires c.retryCounter == k && c.lastReconnect == d + 10 * k
    ensures var now := d + 10 * k + r + 1;
            var tick := Tick(now, now, dial);
            && (Dials(c, tick) <==> r == 9)
            && Step(c, Visit(tick)).state == DISCONNECTED
            && Step(c, Visit(tick)).retryCounter == (if r == 9 then k + 1 else k)
            && Step(c, Visit(tick)).lastReconnect == (if r == 9 then now else d + 10 * k)
  {
  }

  // ---------------------------------------------------------------- when the socket is closed

  /** Every message that arrives finds the socket open: the answer to it would fail an assertion
      otherwise. */
  predicate Answered(c: Conn, es: seq<Event>) {
    if es == [] then true
    else
      var init, e := es[..|es| - 1], es[|es| - 1];
      Answered(c, init) && (e.Contact? ==> Run(c, init).Open())
  }

  /** Nothing is heard, and no retry is due before the attempts are used up. */
  ghost predicate Quiet(c: Conn, es: seq<Event>) {
    forall j :: 0 <= j < |es| ==>
      es[j].Visit? && (c.retryCounter < MAX_RECONNECT_ATTEMPTS ==> !c.Due(es[j].tick.first))
  }

  /** This event drops a connection that was silent, or dials and gets no descriptor. */
  predicate Closes(c: Conn, e: Event) {
    e.Visit? && if c.state == CONNECTED then c.TimedOut(e.tick.first) else Dials(c, e.tick) && e.tick.dial.fd < 0
  }

  /** The i-th event closed the socket, and no retry has been made since. */
  ghost predicate ClosedAt(c: Conn, es: seq<Event>, i: nat)
    requires i < |es|
  {
    Closes(Run(c, es[..i]), es[i]) && Quiet(Run(c, es[..i + 1]), es[i + 1..])
  }

  /** A quiet run leaves a disconnected entry alone, but for the last step of an exhausted counter. */
  lemma {:induction false} QuietStands(c: Conn, es: seq<Event>)
    requires c.state == DISCONNECTED && Quiet(c, es)
    ensures Run(c, es).(retryCounter := c.retryCounter) == c
    ensures if c.retryCounter < MAX_RECONNECT_ATTEMPTS then Run(c, es) == c
            else Run(c, es).retryCounter >= MAX_RECONNECT_ATTEMPTS
  {
    if es != [] {
      QuietStands(c, es[..|es| - 1]);
    }
  }

  lemma {:induction false} QuietSnoc(c: Conn, es: seq<Event>, e: Event)
    requires c.state == DISCONNECTED
    ensures Quiet(c, es + [e]) <==>
              Quiet(c, es) && e.Visit? && !Dials(Run(c, es), e.tick)
  {
    assert forall j :: 0 <= j < |es| ==> (es + [e])[j] == es[j];
    assert (es + [e])[|es|] == e;
    if Quiet(c, es) {
      QuietStands(c, es);
    }
  }

  lemma {:induction false} ClosesMeansClosed(c: Conn, e: Event)
    requires Closes(c, e)
    ensures !Step(c, e).Open() && Step(c, e).state == DISCONNECTED
  {
  }

  /** Whether an earlier event still closes the socket after one more. */
  lemma {:induction false} ClosedEarlier(c: Conn, init: seq<Event>, e: Event, i: nat)
    requires i < |init|
    ensures ClosedAt(c, init + [e], i) <==> ClosedAt(c, init, i) && e.Visit? && !Dials(Run(c, init), e.tick)
  {
    var es := init + [e];
    assert es[..i] == init[..i] && es[..i + 1] == init[..i + 1] && es[i + 1..] == init[i + 1..] + [e];
    assert init[..i + 1][..i] == init[..i];
    assert init[..i + 1] + init[i + 1..] == init;
    RunTwice(c, init[..i + 1], init[i + 1..]);
    if Closes(Run(c, init[..i]), init[i]) {
      ClosesMeansClosed(Run(c, init[..i]), init[i]);
      QuietSnoc(Run(c, init[..i + 1]), init[i + 1..], e);
    }
  }

  lemma {:induction false} ClosedLast(c: Conn, init: seq<Event>, e: Event)
    ensures ClosedAt(c, init + [e], |init|) <==> Closes(Run(c, init), e)
  {
    assert (init + [e])[..|init|] == init && (init + [e])[|init| + 1..] == [];
  }

  /** In every run whose messages are answered the socket is closed exactly if it was closed at the start,
      by a timeout, or by an attempt that got no descriptor, and no attempt has been made since; so in such
      a run a connected entry has an open socket, but only because a message in that gap ends the process. */
  lemma {:induction false} SocketIsClosedExactly(c: Conn, es: seq<Event>)
    requires c.state == DISCONNECTED && Answered(c, es)
    ensures !Run(c, es).Open() <==>
              (!c.Open() && Quiet(c, es)) || exists i :: 0 <= i < |es| && ClosedAt(c, es, i)
    ensures !Run(c, es).Open() ==> Run(c, es).state == DISCONNECTED
  {
    if es != [] {
      var init, e := es[..|es| - 1], es[|es| - 1];
      assert es == init + [e];
      SocketIsClosedExactly(c, init);
      forall i: nat | i < |init|
        ensures ClosedAt(c, es, i) <==> ClosedAt(c, init, i) && e.Visit? && !Dials(Run(c, init), e.tick)
      {
        ClosedEarlier(c, init, e, i);
      }
      ClosedLast(c, init, e);
      QuietSnoc(c, init, e);
      OneStepOfTheSocket(Run(c, init), e);
    }
  }

  lemma {:induction false} OneStepOfTheSocket(c: Conn, e: Event)
    ensures !c.Open() && c.state == DISCONNECTED ==>
              (Step(c, e).Open() <==> e.Visit? && Dials(c, e.tick) && e.tick.dial.fd >= 0)
    ensures c.Open() ==> (!Step(c, e).Open() <==> Closes(c, e))
    ensures !Step(c, e).Open() && (e.Visit? || c.Open()) && (c.Open() || c.state == DISCONNECTED) ==>
              Step(c, e).state == DISCONNECTED
  {
  }
}
