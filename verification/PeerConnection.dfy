/** A satellite's connection to a peer: another satellite, or ground control under id 0. */
module PeerConnections {
  import opened Config
  import opened Messages
  import opened Connections

  datatype PeerState = UP | CONNECTING | DOWN

  /** The clock reads of one visit by an update pass, in order, and connect's answers. */
  datatype PeerTick = PeerTick(first: nat, second: nat, third: nat, dial: Dial)

  datatype Peer = Peer(
    peerId: int32, satId: int32, ip: string, port: int32, listeningPort: int32,
    peerSocket: int, state: PeerState, lastHeartbeat: nat, lastReconnect: nat, retryCounter: nat)
  {
    predicate Open() { peerSocket >= 0 }

    function Connect(dial: Dial, now: nat): Peer {
      var c := this.(peerSocket := dial.fd);
      if dial.fd < 0 then c
      else if !dial.resolved then c.(lastHeartbeat := now)
      else c.(lastHeartbeat := now, state := CONNECTING)
    }

    function Greeting(dial: Dial): seq<Message> {
      if dial.Works() then [Heartbeat(Message.HEARTBEAT_SIZE, satId, listeningPort, true)] else []
    }

    function Disconnect(now: nat): Peer {
      this.(peerSocket := if Open() then -1 else peerSocket, state := DOWN, lastReconnect := now)
    }

    /** sendto on a closed socket only logs an error. */
    function Sends(m: Message): seq<Message> {
      if Open() then [m] else []
    }

    function Beat(now: nat): Peer {
      this.(lastHeartbeat := now)
    }

    function MarkConnected(): Peer {
      this.(state := UP, retryCounter := 0)
    }

    predicate TimedOut(now: nat) {
      now - lastHeartbeat > TIMEOUT_THRESHOLD
    }

    predicate Due(now: nat) {
      now - lastReconnect >= RECONNECT_INTERVAL
    }

    /** Whether this call of reconnect really dials. */
    predicate Attempts(tick: PeerTick) {
      Due(tick.first) && retryCounter < MAX_RECONNECT_ATTEMPTS
    }

    function Reconnect(tick: PeerTick): Peer {
      if !Due(tick.first) then this
      else
        var c := this.(retryCounter := retryCounter + 1);
        if c.retryCounter > MAX_RECONNECT_ATTEMPTS then c
        else c.(lastReconnect := tick.first).Disconnect(tick.second).Connect(tick.dial, tick.third)
    }

    function ReconnectSends(tick: PeerTick): seq<Message> {
      if Attempts(tick) then Greeting(tick.dial) else []
    }
  }

  function NewPeer(peerId: int32, ip: string, port: int32, satId: int32, listeningPort: int32, beat: nat,
                   reconnect: nat): Peer {
    Peer(peerId, satId, ip, port, listeningPort, -1, DOWN, beat, reconnect, 0)
  }

  class PeerConnection {
    const peerId: int32
    const satId: int32
    const ip: string
    const port: int32
    const listeningPort: int32
    var peerSocket: int
    var state: PeerState
    var lastHeartbeat: nat
    var lastReconnect: nat
    var retryCounter: nat

    function View(): Peer
      reads this
    {
      Peer(peerId, satId, ip, port, listeningPort, peerSocket, state, lastHeartbeat, lastReconnect, retryCounter)
    }

    constructor (peerId: int32, ip: string, port: int32, satId: int32, listeningPort: int32, beat: nat, reconnect: nat)
      ensures View() == NewPeer(peerId, ip, port, satId, listeningPort, beat, reconnect)
    {
      this.peerId, this.satId, this.ip, this.port, this.listeningPort := peerId, satId, ip, port, listeningPort;
      peerSocket, state, lastHeartbeat, lastReconnect, retryCounter := -1, DOWN, beat, reconnect, 0;
    }

    method Connect(dial: Dial, now: nat) returns (sent: seq<Message>)
      modifies this
      ensures View() == old(View()).Connect(dial, now) && sent == old(View()).Greeting(dial)
    {
      sent := [];
      peerSocket := dial.fd;
      if peerSocket < 0 {
        return;
      }
      lastHeartbeat := now;
      if !dial.resolved {
        return;
      }
      sent := SendMessage(Heartbeat(Message.HEARTBEAT_SIZE, satId, listeningPort, true));
      state := CONNECTING;
    }

    method Disconnect(now: nat)
      modifies this
      ensures View() == old(View()).Disconnect(now)
    {
      if peerSocket >= 0 {
        peerSocket := -1;
      }
      state := DOWN;
      lastReconnect := now;
    }

    method SendMessage(message: Message) returns (sent: seq<Message>)
      ensures sent == View().Sends(message)
    {
      sent := if peerSocket >= 0 then [message] else [];
    }

    method Beat(now: nat)
      modifies this
      ensures View() == old(View()).Beat(now)
    {
      lastHeartbeat := now;
    }

    method Reconnect(tick: PeerTick) returns (sent: seq<Message>)
      modifies this
      ensures View() == old(View()).Reconnect(tick) && sent == old(View()).ReconnectSends(tick)
    {
      sent := [];
      var curTime := tick.first;
      if curTime - lastReconnect < RECONNECT_INTERVAL {
        return;
      }
      retryCounter := retryCounter + 1;
      if retryCounter > MAX_RECONNECT_ATTEMPTS {
        return;
      }
      lastReconnect := curTime;
      Disconnect(tick.second);
      sent := Connect(tick.dial, tick.third);
    }

    method IsTimedOut(now: nat) returns (b: bool)
      requires state == UP
      ensures b == View().TimedOut(now)
    {
      b := now - lastHeartbeat > TIMEOUT_THRESHOLD;
    }

    method MarkConnected()
      modifies this
      ensures View() == old(View()).MarkConnected()
    {
      state := UP;
      retryCounter := 0;
    }
  }

  // ---------------------------------------------------------------- runs of one connection

  /** One entry's share of an update pass. */
  function UpdatePeer(c: Peer, tick: PeerTick): Peer {
    if c.state == UP && c.TimedOut(tick.first) then c.Disconnect(tick.second)
    else if c.state == DOWN || c.state == CONNECTING then c.Reconnect(tick)
    else c
  }

  predicate Dials(c: Peer, tick: PeerTick) {
    c.state != UP && c.Attempts(tick)
  }

  function UpdateSends(c: Peer, tick: PeerTick): seq<Message> {
    if c.state != UP then c.ReconnectSends(tick) else []
  }

  /** A peer's share of a pass sends one heartbeat, exactly if it counts a retry within the limit and the
      dial works; it is connecting then, and down after a dial that does not work. */
  lemma {:induction false} RetrySendsHeartbeat(c: Peer, tick: PeerTick)
    ensures c.retryCounter < UpdatePeer(c, tick).retryCounter <= 10 ==>
              UpdatePeer(c, tick).state == if tick.dial.fd >= 0 && tick.dial.resolved then CONNECTING else DOWN
    ensures UpdateSends(c, tick) ==
              if c.retryCounter < UpdatePeer(c, tick).retryCounter <= 10 && tick.dial.fd >= 0 && tick.dial.resolved
              then [Heartbeat(Message.HEARTBEAT_SIZE, c.satId, c.listeningPort, true)] else []
  {
  }

  datatype PeerEvent = Visit(tick: PeerTick) | Contact(now: nat)

  function Step(c: Peer, e: PeerEvent): Peer {
    match e
    case Visit(tick) => UpdatePeer(c, tick)
    case Contact(now) => c.Beat(now).MarkConnected()
  }

  function Run(c: Peer, es: seq<PeerEvent>): Peer {
    if es == [] then c else Step(Run(c, es[..|es| - 1]), es[|es| - 1])
  }

  /** When the run dialled, in order. */
  function DialTimes(c: Peer, es: seq<PeerEvent>): seq<nat> {
    if es == [] then []
    else
      var init, e := es[..|es| - 1], es[|es| - 1];
      DialTimes(c, init) + (if e.Visit? && Dials(Run(c, init), e.tick) then [e.tick.first] else [])
  }

  function Begins(e: PeerEvent): nat { if e.Visit? then e.tick.first else e.now }
  function Ends(e: PeerEvent): nat { if e.Visit? then e.tick.third else e.now }

  /** The clock never runs backwards. */
  predicate Timed(start: nat, es: seq<PeerEvent>, now: nat) {
    if es == [] then start <= now
    else
      var e := es[|es| - 1];
      && Timed(start, es[..|es| - 1], Begins(e)) && Begins(e) <= Ends(e) <= now
      && (e.Visit? ==> e.tick.first <= e.tick.second <= e.tick.third)
  }

  function Capped(n: nat): nat { if n < MAX_RECONNECT_ATTEMPTS then n else MAX_RECONNECT_ATTEMPTS }

  /** Satellite retry discipline, attempts: between two messages from the peer at most ten attempts are
      made, as many as the capped retry counter has grown by, however long the silence lasts. */
  lemma {:induction false} AtMostTenAttempts(c: Peer, es: seq<PeerEvent>)
    requires forall i :: 0 <= i < |es| ==> es[i].Visit?
    ensures |DialTimes(c, es)| == Capped(Run(c, es).retryCounter) - Capped(c.retryCounter)
    ensures |DialTimes(c, es)| <= 10
  {
    if es != [] {
      AtMostTenAttempts(c, es[..|es| - 1]);
    }
  }

  /** Satellite retry discipline, spacing: over any run, messages included, two attempts are at least ten
      seconds apart. */
  lemma {:induction false} AttemptsAreSpaced(c: Peer, es: seq<PeerEvent>, start: nat, now: nat)
    requires Timed(start, es, now) && c.lastReconnect <= start
    ensures var ts := DialTimes(c, es);
            && (forall i :: 0 <= i < |ts| - 1 ==> ts[i] + 10 <= ts[i + 1])
            && (ts != [] ==> ts[|ts| - 1] <= Run(c, es).lastReconnect)
            && Run(c, es).lastReconnect <= now
  {
    if es != [] {
      var init, e := es[..|es| - 1], es[|es| - 1];
      AttemptsAreSpaced(c, init, start, Begins(e));
      VisitMovesForward(Run(c, init), e, Begins(e), now);
    }
  }

  /** A step leaves the last reconnect time or moves it past the step's own start; a step that dials comes
      ten seconds after the last reconnect. */
  lemma {:induction false} VisitMovesForward(p: Peer, e: PeerEvent, before: nat, now: nat)
    requires p.lastReconnect <= before <= Begins(e) <= Ends(e) <= now
    requires e.Visit? ==> e.tick.first <= e.tick.second <= e.tick.third
    ensures p.lastReconnect <= Step(p, e).lastReconnect <= now
    ensures e.Visit? && Dials(p, e.tick) ==> p.lastReconnect + 10 <= e.tick.first <= Step(p, e).lastReconnect
  {
  }

  /** Whether this visit drops a connected peer for being silent. */
  predicate Drops(c: Peer, tick: PeerTick) {
    c.state == UP && tick.first > c.lastHeartbeat + 20
  }

  /** After a drop no visit sends anything or changes the peer before ten seconds have passed. */
  lemma {:induction false} NoEarlyRetry(c: Peer, drop: PeerTick, tick: PeerTick)
    requires Drops(c, drop) && tick.first < drop.second + 10
    ensures var p := UpdatePeer(c, drop);
            && p == c.(peerSocket := p.peerSocket, state := DOWN, lastReconnect := drop.second) && !p.Open()
            && UpdatePeer(p, tick) == p && UpdateSends(p, tick) == []
  {
  }

  /** When a run dropped the peer or dialled it, in order: the times disconnect notes. */
  function Marks(c: Peer, es: seq<PeerEvent>): seq<nat> {
    if es == [] then []
    else
      var init, e := es[..|es| - 1], es[|es| - 1];
      Marks(c, init) +
      (if e.Visit? && (Drops(Run(c, init), e.tick) || Dials(Run(c, init), e.tick)) then [e.tick.second] else [])
  }

  /** Over any run, messages included, drops and attempts are at least ten seconds apart from each other: so
      is the first attempt from the drop before it. */
  lemma {:induction false} DropsAndAttemptsAreSpaced(c: Peer, es: seq<PeerEvent>, start: nat, now: nat)
    requires Timed(start, es, now) && c.lastReconnect <= start
    ensures var ms, r := Marks(c, es), Run(c, es);
            && (forall i :: 0 <= i < |ms| - 1 ==> ms[i] + 10 <= ms[i + 1])
            && (ms != [] ==> ms[|ms| - 1] == r.lastReconnect)
            && (ms != [] && r.state == UP ==> r.lastReconnect <= r.lastHeartbeat)
            && r.lastReconnect <= now
  {
    if es != [] {
      var init, e := es[..|es| - 1], es[|es| - 1];
      DropsAndAttemptsAreSpaced(c, init, start, Begins(e));
      OneMoreMark(Run(c, init), e, Begins(e), now);
    }
  }

  lemma {:induction false} OneMoreMark(p: Peer, e: PeerEvent, before: nat, now: nat)
    requires p.lastReconnect <= before <= Begins(e) <= Ends(e) <= now
    requires e.Visit? ==> e.tick.first <= e.tick.second <= e.tick.third
    ensures var q := Step(p, e);
            && q.lastReconnect <= now
            && (if e.Visit? && (Drops(p, e.tick) || Dials(p, e.tick))
                then q.lastReconnect == e.tick.second && q.state != UP else q.lastReconnect == p.lastReconnect)
            && (e.Visit? && Dials(p, e.tick) ==> p.lastReconnect + 10 <= e.tick.second)
            && (e.Visit? && Drops(p, e.tick) ==> p.lastHeartbeat + 20 < e.tick.second)
            && (q.state == UP ==>
                  if e.Contact? then q.lastHeartbeat >= before else p.state == UP && q.lastHeartbeat == p.lastHeartbeat)
  {
  }

  // ---------------------------------------------------------------- how soon the attempts come

  /** When the last event began, or from if there was none. */
  function LastTime(from: nat, es: seq<PeerEvent>): nat {
    if es == [] then from else Begins(es[|es| - 1])
  }

  /** Passes at most g seconds apart, clock reads within one included. */
  predicate Paced(from: nat, es: seq<PeerEvent>, g: nat) {
    if es == [] then true
    else
      var init, e := es[..|es| - 1], es[|es| - 1];
      && Paced(from, init, g) && e.Visit?
      && LastTime(from, init) <= e.tick.first <= e.tick.second <= LastTime(from, init) + g
  }

  lemma {:induction false} NeverOverdue(c: Peer, es: seq<PeerEvent>, d: nat, g: nat)
    requires c.state != UP && c.retryCounter == 0 && c.lastReconnect == d && Paced(d, es, g)
    ensures var r := Run(c, es);
            && r.state != UP
            && (r.retryCounter <= 10 ==> LastTime(d, es) < r.lastReconnect + 10)
  {
    if es != [] {
      NeverOverdue(c, es[..|es| - 1], d, g);
    }
  }

  /** The drop and the attempts of a silent run. */
  function Times(c: Peer, es: seq<PeerEvent>): seq<int> {
    [c.lastReconnect] + Marks(c, es)
  }

  /** With passes at most g seconds apart every attempt, whichever it is, comes at least ten and less than
      10 + g seconds after the one before it, the first after the drop; there are as many as counted
      retries, up to ten. */
  lemma {:induction false} RetryIntervalIsFixed(c: Peer, es: seq<PeerEvent>, d: nat, g: nat)
    requires c.state != UP && c.retryCounter == 0 && c.lastReconnect == d && Paced(d, es, g)
    ensures var ts, r := Times(c, es), Run(c, es);
            && (forall i :: 0 <= i < |ts| - 1 ==> ts[i] + 10 <= ts[i + 1] < ts[i] + 10 + g)
            && ts[|ts| - 1] == r.lastReconnect
            && |ts| - 1 == Capped(r.retryCounter)
  {
    if es != [] {
      var init, e := es[..|es| - 1], es[|es| - 1];
      RetryIntervalIsFixed(c, init, d, g);
      NeverOverdue(c, init, d, g);
      SilentVisit(Run(c, init), e.tick, LastTime(d, init), g);
      hide Paced, LastTime, Drops, Dials, Step;
      if Dials(Run(c, init), e.tick) {
        assert Times(c, es) == Times(c, init) + [e.tick.second];
      } else {
        assert Times(c, es) == Times(c, init) + [];
      }
    }
  }

  lemma {:induction false} SilentVisit(p: Peer, tick: PeerTick, last: nat, g: nat)
    requires p.state != UP && last <= tick.first <= tick.second <= last + g
    requires p.retryCounter <= 10 ==> last < p.lastReconnect + 10
    ensures var q := Step(p, Visit(tick));
            && !Drops(p, tick) && q.state != UP
            && (if Dials(p, tick)
                then && q.lastReconnect == tick.second && p.lastReconnect + 10 <= tick.second < p.lastReconnect + 10 + g
                     && Capped(q.retryCounter) == Capped(p.retryCounter) + 1
                else q.lastReconnect == p.lastReconnect && Capped(q.retryCounter) == Capped(p.retryCounter))
  {
  }

  /** A connected peer has its counter at zero; and if no dial fails, a positive counter means that the
      socket is open again. */
  lemma {:induction false} RetriedMeansOpen(c: Peer, es: seq<PeerEvent>)
    requires c.retryCounter == 0
    ensures Run(c, es).state == UP ==> Run(c, es).retryCounter == 0
    ensures (forall i :: 0 <= i < |es| && es[i].Visit? ==> es[i].tick.dial.Works()) ==>
              Run(c, es).retryCounter > 0 ==> Run(c, es).Open()
  {
    if es != [] {
      var init := es[..|es| - 1];
      RetriedMeansOpen(c, init);
      assert forall i :: 0 <= i < |init| ==> init[i] == es[i];
    }
  }

  /** Every visit of a pass comes within 20 seconds of the last message. */
  predicate Regular(c: Peer, es: seq<PeerEvent>) {
    if es == [] then true
    else
      var init, e := es[..|es| - 1], es[|es| - 1];
      Regular(c, init) && (e.Visit? ==> e.tick.first <= Run(c, init).lastHeartbeat + 20)
  }

  /** A peer heard from regularly is never suspected: it stays connected on the same socket, and is not
      dialled again. */
  lemma {:induction false} NoFalseSuspicion(c: Peer, es: seq<PeerEvent>)
    requires c.state == UP && c.retryCounter == 0 && Regular(c, es)
    ensures Run(c, es) == c.(lastHeartbeat := Run(c, es).lastHeartbeat)
    ensures DialTimes(c, es) == []
  {
    if es != [] {
      NoFalseSuspicion(c, es[..|es| - 1]);
    }
  }

  // ---------------------------------------------------------------- the retry counter

  /** How many visits of a run find the peer not connected and a retry due. */
  function DueVisits(c: Peer, es: seq<PeerEvent>): nat {
    if es == [] then 0
    else
      var init, e := es[..|es| - 1], es[|es| - 1];
      DueVisits(c, init) + (if e.Visit? && Run(c, init).state != UP && Run(c, init).Due(e.tick.first) then 1 else 0)
  }

  /** Without a message the retry counter grows by one with every visit that is due, past the limit as
      well. */
  lemma {:induction false} CounterCountsDueVisits(c: Peer, es: seq<PeerEvent>)
    requires forall i :: 0 <= i < |es| ==> es[i].Visit?
    ensures Run(c, es).retryCounter == c.retryCounter + DueVisits(c, es)
  {
    if es != [] {
      CounterCountsDueVisits(c, es[..|es| - 1]);
    }
  }

  /** It stays within n exactly when at most n less its first value are due. */
  lemma {:induction false} CounterStaysWithin(c: Peer, es: seq<PeerEvent>, n: nat)
    requires forall i :: 0 <= i < |es| ==> es[i].Visit?
    ensures Run(c, es).retryCounter <= n <==> DueVisits(c, es) <= n - c.retryCounter
  {
    CounterCountsDueVisits(c, es);
  }

  /** Passes over a silent peer: the first comes 21 seconds after its last message, then one every ten
      seconds. */
  function SilentVisits(heard: nat, n: nat, dial: Dial): seq<PeerEvent> {
    seq(n + 1, k requires 0 <= k =>
      var now := heard + 21 + 10 * k;
      Visit(PeerTick(now, now, now, dial)))
  }

  /** So no bound holds: whatever n is, a connected peer that falls silent reaches it, for instance 11. */
  lemma {:induction false} CounterPassesEveryBound(c: Peer, n: nat, dial: Dial)
    requires c.state == UP && c.retryCounter == 0
    ensures var es := SilentVisits(c.lastHeartbeat, n, dial);
            && (forall i :: 0 <= i < |es| ==> es[i].Visit?)
            && Timed(c.lastHeartbeat, es, c.lastHeartbeat + 21 + 10 * n)
            && Run(c, es).retryCounter == n
            && Run(c, es).state != UP && Run(c, es).lastReconnect <= c.lastHeartbeat + 21 + 10 * n
  {
    var es := SilentVisits(c.lastHeartbeat, n, dial);
    if n == 0 {
      assert es[..0] == [];
    } else {
      CounterPassesEveryBound(c, n - 1, dial);
      assert es[..n] == SilentVisits(c.lastHeartbeat, n - 1, dial);
    }
  }

  // ---------------------------------------------------------------- when the socket is closed

  lemma {:induction false} RunTwice(c: Peer, a: seq<PeerEvent>, b: seq<PeerEvent>)
    ensures Run(c, a + b) == Run(Run(c, a), b)
    decreases |b|
  {
    if b == [] {
      assert a + b == a;
    } else {
      RunTwice(c, a, b[..|b| - 1]);
      assert (a + b)[..|a + b| - 1] == a + b[..|b| - 1];
    }
  }

  /** This event dials. */
  predicate Redials(c: Peer, e: PeerEvent) {
    e.Visit? && Dials(c, e.tick)
  }

  /** This event drops a connected peer that was silent, or dials and gets no descriptor. */
  predicate Closes(c: Peer, e: PeerEvent) {
    e.Visit? && if c.state == UP then c.TimedOut(e.tick.first) else Dials(c, e.tick) && e.tick.dial.fd < 0
  }

  /** The i-th event closed the socket, and none since has closed it again or dialled. */
  ghost predicate LastClosed(c: Peer, es: seq<PeerEvent>, i: nat)
    requires i < |es|
  {
    && Closes(Run(c, es[..i]), es[i])
    && forall k :: i < k < |es| ==> !Closes(Run(c, es[..k]), es[k]) && !Redials(Run(c, es[..k]), es[k])
  }

  predicate HeardAfter(es: seq<PeerEvent>, i: nat) {
    exists j :: i < j < |es| && es[j].Contact?
  }

  ghost predicate NeverRedials(c: Peer, es: seq<PeerEvent>) {
    forall k :: 0 <= k < |es| ==> !Redials(Run(c, es[..k]), es[k])
  }

  lemma {:induction false} LastClosedSnoc(c: Peer, init: seq<PeerEvent>, e: PeerEvent, i: nat)
    requires i < |init|
    ensures LastClosed(c, init + [e], i) <==>
              LastClosed(c, init, i) && !Closes(Run(c, init), e) && !Redials(Run(c, init), e)
    ensures HeardAfter(init + [e], i) <==> HeardAfter(init, i) || e.Contact?
  {
    var es := init + [e];
    assert es[|init|] == e && es[..|init|] == init;
    assert forall k :: 0 <= k < |init| ==> es[..k] == init[..k] && es[k] == init[k];
    if HeardAfter(init, i) {
      var j :| i < j < |init| && init[j].Contact?;
      assert es[j].Contact?;
    }
  }

  lemma {:induction false} LastClosedHere(c: Peer, init: seq<PeerEvent>, e: PeerEvent)
    ensures LastClosed(c, init + [e], |init|) <==> Closes(Run(c, init), e)
    ensures !HeardAfter(init + [e], |init|)
    ensures NeverRedials(c, init + [e]) <==> NeverRedials(c, init) && !Redials(Run(c, init), e)
  {
    var es := init + [e];
    assert es[|init|] == e && es[..|init|] == init;
    assert forall k :: 0 <= k < |init| ==> es[..k] == init[..k] && es[k] == init[k];
  }

  lemma {:induction false} OneStepOfTheSocket(p: Peer, e: PeerEvent)
    ensures Closes(p, e) ==> !Step(p, e).Open() && Step(p, e).state != UP
    ensures !Closes(p, e) && Redials(p, e) ==> Step(p, e).Open()
    ensures !Closes(p, e) && !Redials(p, e) ==>
              Step(p, e).peerSocket == p.peerSocket && (Step(p, e).state == UP <==> p.state == UP || e.Contact?)
  {
  }

  /** In every run the socket is closed exactly if it was closed at the start or by a timeout or by an
      attempt that got no descriptor, and no attempt has been made since. "Connected implies an open
      socket" then fails exactly if a message has come since, too: it marks the peer connected, and a
      connected peer is not dialled. */
  lemma {:induction false} SocketIsClosedExactly(c: Peer, es: seq<PeerEvent>)
    ensures !Run(c, es).Open() <==>
              (!c.Open() && NeverRedials(c, es)) || exists i :: 0 <= i < |es| && LastClosed(c, es, i)
    ensures forall i :: 0 <= i < |es| && LastClosed(c, es, i) ==> (Run(c, es).state == UP <==> HeardAfter(es, i))
  {
    if es != [] {
      var init, e := es[..|es| - 1], es[|es| - 1];
      assert es == init + [e];
      hide LastClosed, HeardAfter, Closes, Redials, NeverRedials, Step;
      SocketIsClosedExactly(c, init);
      forall i: nat | i < |init|
        ensures LastClosed(c, es, i) <==>
                  LastClosed(c, init, i) && !Closes(Run(c, init), e) && !Redials(Run(c, init), e)
        ensures HeardAfter(es, i) <==> HeardAfter(init, i) || e.Contact?
      {
        LastClosedSnoc(c, init, e, i);
      }
      LastClosedHere(c, init, e);
      OneStepOfTheSocket(Run(c, init), e);
    }
  }

  /** And so it stays: a peer that is dropped and then heard is connected with a closed socket, and while it
      is heard within 20 seconds of every pass, nothing is sent to it and it is never dialled again. */
  lemma {:induction false} HeardTooSoonStaysMute(c: Peer, tick: PeerTick, now: nat, es: seq<PeerEvent>, m: Message)
    requires c.state == UP && c.TimedOut(tick.first)
    requires Regular(Step(Step(c, Visit(tick)), Contact(now)), es)
    ensures var p := Step(Step(c, Visit(tick)), Contact(now));
            && Run(p, es).state == UP && !Run(p, es).Open()
            && Run(p, es).Sends(m) == [] && DialTimes(p, es) == []
  {
    NoFalseSuspicion(Step(Step(c, Visit(tick)), Contact(now)), es);
  }
}
