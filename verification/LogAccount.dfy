/** Where the bytes of a satellite's log go, in any run of the constellation. */
module LogAccounts {
  import opened Config
  import opened Messages
  import opened Connections
  import opened GCConnectionHandlers
  import opened Receivers
  import opened ConnectionHandlers
  import opened Satellites
  import opened NetworkManagers
  import opened Constellations
  import opened Handshakes
  import opened Conducts
  import opened Acknowledgements

  /** A dump sends at most 102400 bytes and truncates the file whatever it sent: the rest is cut, and all of
      it goes unsent without a connected, open socket to ground control. An ACK empties what it finds. */
  datatype Fate = Sent | Cut | Unsent | Emptied

  datatype Portion = Portion(text: Bytes, fate: Fate)

  /** How much of a log a dump's messages carry. */
  function Carried(log: Bytes): nat {
    if |log| < 102400 then |log| else 102400
  }

  /** What leaves a satellite's log in an event. */
  function Leaving(sys: System, e: Event, a: int): seq<Portion>
    requires CanHappen(sys, e) && a in sys.sats
  {
    var log := sys.sats[a].log;
    if Empties(sys, e, a) then [Portion(log, Emptied)]
    else if !Dumps(sys, e, a) then []
    else if Reachable(sys.sats[a].peers, 0) then [Portion(log[..Carried(log)], Sent), Portion(log[Carried(log)..], Cut)]
    else [Portion(log, Unsent)]
  }

  function Text(ps: seq<Portion>): Bytes {
    if ps == [] then [] else ps[0].text + Text(ps[1..])
  }

  function Surviving(ps: seq<Portion>): seq<Portion> {
    if ps == [] then [] else (if ps[0].fate.Sent? then [ps[0]] else []) + Surviving(ps[1..])
  }

  /** The satellites stay, so that a run can be followed for one of them. */
  lemma {:induction false} StepAccounts(sys: System, e: Event, a: int)
    requires Proper(sys) && CanHappen(sys, e) && a in sys.sats
    ensures a in Next(sys, e).sats
    ensures sys.sats[a].log + WrittenBy(e, a) == Text(Leaving(sys, e, a)) + Next(sys, e).sats[a].log
  {
    hide Next, Proper, CanHappen;
    StepAndWaiting(sys, e, a);
    var log := sys.sats[a].log;
    TextOfTwo(Portion(log[..Carried(log)], Sent), Portion(log[Carried(log)..], Cut));
    TextOfOne(Portion(log, Unsent));
    TextOfOne(Portion(log, Emptied));
    assert log[..Carried(log)] + log[Carried(log)..] == log;
    assert log + [] == log;
    assert [] + (log + WrittenBy(e, a)) == log + WrittenBy(e, a);
  }

  lemma {:induction false} TextOfOne(p: Portion)
    ensures Text([p]) == p.text
  {
    assert [p][1..] == [];
  }

  lemma {:induction false} TextOfTwo(p: Portion, q: Portion)
    ensures Text([p, q]) == p.text + q.text
  {
    assert [p, q][1..] == [q];
    TextOfOne(q);
  }

  lemma {:induction false} DumpSendsAll(sat: Sat, ms: seq<Message>)
    ensures DumpSends(sat, ms) == if Reachable(sat.peers, 0) then AddressAll(0, ms) else []
  {
    if ms != [] {
      DumpSendsAll(sat, ms[..|ms| - 1]);
    }
  }

  /** What is accounted for as sent is what the dump's messages carry: they are put in flight in order, and
      their payloads are the sent portion. */
  lemma {:induction false} SentIsInFlight(sys: System, a: int, garbage: nat -> Block)
    requires a in sys.sats && 0 in sys.sats[a].peers
    ensures var sat := sys.sats[a];
            var ms := DumpOf(sat.id, sat.port, sat.log, garbage);
            && Chunks(ms) && Payloads(ms) == sat.log[..Carried(sat.log)]
            && Next(sys, Dump(a, garbage)).flight ==
                 sys.flight + (if Reachable(sat.peers, 0) then AddressAll(0, ms) else [])
  {
    hide DumpOf, DumpSends;
    var sat := sys.sats[a];
    ChunkingIsExact(sat.id, sat.port, sat.log, garbage);
    DumpSendsAll(sat, DumpOf(sat.id, sat.port, sat.log, garbage));
  }

  // ---------------------------------------------------------------- whole runs

  ghost function AllLeaving(sys: System, es: seq<Event>, a: int): seq<Portion>
    requires AnyRun(sys, es)
    decreases es
  {
    if es == [] || a !in sys.sats then []
    else Leaving(sys, es[0], a) + AllLeaving(Next(sys, es[0]), es[1..], a)
  }

  function AllWritten(es: seq<Event>, a: int): Bytes
    decreases es
  {
    if es == [] then [] else WrittenBy(es[0], a) + AllWritten(es[1..], a)
  }

  lemma {:induction false} TextOfSum(ps: seq<Portion>, qs: seq<Portion>)
    ensures Text(ps + qs) == Text(ps) + Text(qs)
  {
    if ps == [] {
      assert ps + qs == qs;
    } else {
      assert (ps + qs)[1..] == ps[1..] + qs;
      TextOfSum(ps[1..], qs);
    }
  }

  lemma {:induction false} Exchange(log: Bytes, w: Bytes, t: Bytes, log': Bytes, ws: Bytes, ts: Bytes, end: Bytes)
    requires log + w == t + log' && log' + ws == ts + end
    ensures log + (w + ws) == (t + ts) + end
  {
    assert log + (w + ws) == (log + w) + ws == t + (log' + ws);
  }

  /** The account of a log: in every run, what it held and what was written make up, in order, what left it
      and what it still holds. */
  lemma {:induction false} LogIsAccountedFor(sys: System, es: seq<Event>, a: int)
    requires Proper(sys) && AnyRun(sys, es) && a in sys.sats
    ensures a in EndOf(sys, es).sats
    ensures sys.sats[a].log + AllWritten(es, a) == Text(AllLeaving(sys, es, a)) + EndOf(sys, es).sats[a].log
    decreases es
  {
    hide Proper, Next, CanHappen, Leaving, WrittenBy, Text;
    if es == [] {
      NoText();
      assert sys.sats[a].log + [] == [] + sys.sats[a].log;
    } else {
      var e, rest, sys' := es[0], es[1..], Next(sys, es[0]);
      StepAccounts(sys, e, a);
      StepIsProper(sys, e);
      LogIsAccountedFor(sys', rest, a);
      TextOfSum(Leaving(sys, e, a), AllLeaving(sys', rest, a));
      Exchange(sys.sats[a].log, WrittenBy(e, a), Text(Leaving(sys, e, a)), sys'.sats[a].log,
               AllWritten(rest, a), Text(AllLeaving(sys', rest, a)), EndOf(sys', rest).sats[a].log);
    }
  }

  lemma {:induction false} NoText()
    ensures Text([]) == []
  {
  }

  /** The portions that survive are all there was exactly if the others are empty. */
  lemma {:induction false} LengthOfSurviving(ps: seq<Portion>)
    ensures |Text(Surviving(ps))| <= |Text(ps)|
    ensures |Text(Surviving(ps))| == |Text(ps)| <==> forall p <- ps :: p.fate.Sent? || p.text == []
    ensures (forall p <- ps :: p.fate.Sent? || p.text == []) ==> Text(Surviving(ps)) == Text(ps)
  {
    if ps != [] {
      var p, rest := ps[0], ps[1..];
      LengthOfSurviving(rest);
      assert ps == [p] + rest;
      TextOfSum(if p.fate.Sent? then [p] else [], Surviving(rest));
      TextOfOne(p);
      assert forall q <- ps :: q == p || q in rest;
    }
  }

  /** An ACK finds the satellite waiting and its log not empty. */
  predicate LosesToAck(sys: System, e: Event, a: int)
    requires CanHappen(sys, e)
  {
    Empties(sys, e, a) && sys.sats[a].log != []
  }

  /** Or a dump finds more than 102400 bytes, or anything at all and no connected, open socket. */
  predicate Loses(sys: System, e: Event, a: int)
    requires CanHappen(sys, e)
  {
    || LosesToAck(sys, e, a)
    || (Dumps(sys, e, a) &&
        (|sys.sats[a].log| > 102400 || (sys.sats[a].log != [] && !Reachable(sys.sats[a].peers, 0))))
  }

  lemma {:induction false} LeavingIsLost(sys: System, e: Event, a: int)
    requires CanHappen(sys, e) && a in sys.sats
    ensures Loses(sys, e, a) <==> exists p <- Leaving(sys, e, a) :: !p.fate.Sent? && p.text != []
    ensures LosesToAck(sys, e, a) <==> exists p <- Leaving(sys, e, a) :: p.fate.Emptied? && p.text != []
  {
    hide CanHappen, Reachable, Empties, Dumps;
    var log := sys.sats[a].log;
    if Empties(sys, e, a) {
      assert Portion(log, Emptied) in Leaving(sys, e, a);
    } else if Dumps(sys, e, a) {
      if Reachable(sys.sats[a].peers, 0) {
        assert Portion(log[Carried(log)..], Cut) in Leaving(sys, e, a);
      } else {
        assert Portion(log, Unsent) in Leaving(sys, e, a);
      }
    }
  }

  /** What leaves a log during a run is lost in part, or to an ACK, exactly if one of its events does that. */
  lemma {:induction false} LostAtSomeEvent(sys: System, es: seq<Event>, a: int)
    requires Proper(sys) && AnyRun(sys, es) && a in sys.sats
    ensures (exists p <- AllLeaving(sys, es, a) :: !p.fate.Sent? && p.text != []) <==>
              exists i :: 0 <= i < |es| && Loses(StateAt(sys, es, i), es[i], a)
    ensures (exists p <- AllLeaving(sys, es, a) :: p.fate.Emptied? && p.text != []) <==>
              exists i :: 0 <= i < |es| && LosesToAck(StateAt(sys, es, i), es[i], a)
    decreases es
  {
    hide Proper, Next, CanHappen, Leaving, Loses, LosesToAck;
    if es != [] {
      var e, rest, sys' := es[0], es[1..], Next(sys, es[0]);
      StepAccounts(sys, e, a);
      StepIsProper(sys, e);
      LostAtSomeEvent(sys', rest, a);
      LeavingIsLost(sys, e, a);
      assert AllLeaving(sys, es, a) == Leaving(sys, e, a) + AllLeaving(sys', rest, a);
      assert StateAt(sys, es, 0) == sys;
      assert forall i :: 1 <= i < |es| ==> StateAt(sys, es, i) == StateAt(sys', rest, i - 1) && es[i] == rest[i - 1];
      assert forall i :: 0 <= i < |rest| ==> StateAt(sys', rest, i) == StateAt(sys, es, i + 1) && rest[i] == es[i + 1];
    }
  }

  /** Nothing logged is lost before it is sent, so that what was sent and what is still there are all that
      was ever in the log, exactly if every dump finds at most 102400 bytes and, unless the log is empty, a
      connected, open socket to ground control, and every ACK that finds the satellite waiting finds an
      empty log. */
  lemma {:induction false} NothingLostExactly(sys: System, es: seq<Event>, a: int)
    requires Proper(sys) && AnyRun(sys, es) && a in sys.sats
    ensures a in EndOf(sys, es).sats
    ensures var leaving := AllLeaving(sys, es, a);
            Text(Surviving(leaving)) + EndOf(sys, es).sats[a].log == sys.sats[a].log + AllWritten(es, a) <==>
              forall i :: 0 <= i < |es| ==> !Loses(StateAt(sys, es, i), es[i], a)
  {
    hide Proper, AllLeaving, Text, Surviving, EndOf, AnyRun, Loses;
    LogIsAccountedFor(sys, es, a);
    LengthOfSurviving(AllLeaving(sys, es, a));
    LostAtSomeEvent(sys, es, a);
  }

  /** Records are lost to an ACK exactly if one arrives while the satellite is waiting and its log is not
      empty. */
  lemma {:induction false} LostToAckExactly(sys: System, es: seq<Event>, a: int)
    requires Proper(sys) && AnyRun(sys, es) && a in sys.sats
    ensures (exists p <- AllLeaving(sys, es, a) :: p.fate.Emptied? && p.text != []) <==>
              exists i :: 0 <= i < |es| && LosesToAck(StateAt(sys, es, i), es[i], a)
  {
    hide Proper, LosesToAck;
    LostAtSomeEvent(sys, es, a);
  }

  // ---------------------------------------------------------------- a run that loses a record

  const SOCKET := Dial(3, true)
  const WEATHER := Weather(Surroundings("127.0.0.1", Arrival(0, 0, SOCKET), 0),
                           SatSurroundings("127.0.0.1", PeerArrival(0, 0, 0, 0, SOCKET), 0))

  function FirstDay(motion: Motion, log: Bytes): System {
    System({0, 1}, Gc(map[], map[], []), map[1 := Sat(1, 5000, map[], false, motion, log)], [])
  }

  /** One satellite meets ground control, which greets it and acknowledges it; before that ACK arrives the
      satellite dumps its log and writes another record. */
  function BadDay(garbage: nat -> Block, record: Bytes): seq<Event> {
    [SatMeets(1, 0, GC_PORT, "127.0.0.1", WEATHER.sat.arrival), Delivery(0, WEATHER), Dump(1, garbage),
     Written(1, record), Delivery(1, WEATHER)]
  }

  /** The first meeting puts the satellite's greeting in flight. */
  lemma {:induction false} Morning(motion: Motion, log: Bytes)
    ensures var s := FirstDay(motion, log);
            var meet := SatMeets(1, 0, GC_PORT, "127.0.0.1", WEATHER.sat.arrival);
            && Proper(s) && Initial(s) && CanHappen(s, meet)
            && Next(s, meet).flight == [Packet(0, HeartbeatFrom(1, 5000))]
            && Next(s, meet).up == {0, 1} && Next(s, meet).gc == s.gc
            && Next(s, meet).sats.Keys == {1} && 0 in Next(s, meet).sats[1].peers
  {
  }

  /** Ground control answers it with a greeting and an ACK. */
  lemma {:induction false} Noon(s: System)
    requires Proper(s) && s.flight == [Packet(0, HeartbeatFrom(1, 5000))]
    requires s.up == {0, 1} && s.gc == Gc(map[], map[], [])
    requires s.sats.Keys == {1} && 0 in s.sats[1].peers
    ensures CanHappen(s, Delivery(0, WEATHER))
    ensures var s' := Next(s, Delivery(0, WEATHER));
            && s'.flight == [Packet(1, GROUND_GREETING), Packet(1, GROUND_ACK)]
            && s'.up == {0, 1} && s'.sats == s.sats
  {
    hide Listen;
    GroundFailsExactly(s, 0, WEATHER);
    EveryReportIsAcknowledged(s, 0, WEATHER);
    assert Without(s.flight, 0) == [];
  }

  /** The satellite's dump finds it, and the ACK that is still on its way takes the record. */
  lemma {:induction false} Evening(s: System, garbage: nat -> Block, record: Bytes)
    requires Proper(s) && s.flight == [Packet(1, GROUND_GREETING), Packet(1, GROUND_ACK)]
    requires s.up == {0, 1} && s.sats.Keys == {1} && 0 in s.sats[1].peers && record != []
    ensures var es := [Dump(1, garbage), Written(1, record), Delivery(1, WEATHER)];
            && AnyRun(s, es)
            && LosesToAck(StateAt(s, es, 2), es[2], 1)
  {
    hide Deliver, DumpOf, DumpSends;
    StaleAckEmptiesLog(s, 1, garbage, record, 1, WEATHER);
    var es := [Dump(1, garbage), Written(1, record), Delivery(1, WEATHER)];
    var s1 := Next(s, es[0]);
    var s2 := Next(s1, es[1]);
    assert es[1..] == [es[1], es[2]] && [es[1], es[2]][1..] == [es[2]] && [es[2]][1..] == [];
    assert CanHappen(s2, es[2]) && AnyRun(s2, [es[2]]);
    assert AnyRun(s1, [es[1], es[2]]);
    assert StateAt(s2, [es[2]], 0) == s2;
    assert StateAt(s1, [es[1], es[2]], 1) == s2;
    assert StateAt(s, es, 2) == s2;
    assert s2.flight[1] == s.flight[1];
  }

  /** So records are lost in runs from the very start, whatever is logged: nobody fails, no message is
      lost, and ground control never receives the record. */
  lemma {:induction false} RecordsAreLost(motion: Motion, log: Bytes, garbage: nat -> Block, record: Bytes)
    requires record != []
    ensures var s, es := FirstDay(motion, log), BadDay(garbage, record);
            && Initial(s) && Proper(s) && AnyRun(s, es)
            && LosesToAck(StateAt(s, es, 4), es[4], 1)
  {
    hide Next, CanHappen, Proper, LosesToAck, Initial;
    var s, es := FirstDay(motion, log), BadDay(garbage, record);
    Morning(motion, log);
    StepIsProper(s, es[0]);
    var s1 := Next(s, es[0]);
    Noon(s1);
    StepIsProper(s1, es[1]);
    var s2 := Next(s1, es[1]);
    Evening(s2, garbage, record);
    assert es[1..][1..] == [Dump(1, garbage), Written(1, record), Delivery(1, WEATHER)];
    assert AnyRun(s1, es[1..]) && StateAt(s1, es[1..], 3) == StateAt(s2, es[1..][1..], 2);
  }
}
