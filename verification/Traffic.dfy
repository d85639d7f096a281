/** Keeping count of the messages of one kind in the network. */
module Traffics {
  import opened Messages
  import opened Constellations

  /** The file messages of a satellite, or the commands on their way to one. */
  datatype Kind = FileFrom(a: int) | CommandTo(a: int) {
    predicate Has(p: Packet) {
      match this
      case FileFrom(a) => p.msg.FileMsg? && p.msg.senderId as int == a
      case CommandTo(a) => p.msg.Command? && p.to == a
    }
  }

  function PacketsOf(ps: seq<Packet>, k: Kind): multiset<Packet> {
    if ps == [] then multiset{} else PacketsOf(ps[..|ps| - 1], k) + PacketOf(ps[|ps| - 1], k)
  }

  function PacketOf(p: Packet, k: Kind): multiset<Packet> {
    if k.Has(p) then multiset{p} else multiset{}
  }

  lemma {:induction false} NoneOf(ps: seq<Packet>, k: Kind)
    requires forall p <- ps :: !k.Has(p)
    ensures PacketsOf(ps, k) == multiset{}
  {
    if ps != [] {
      NoneOf(ps[..|ps| - 1], k);
    }
  }

  lemma {:induction false} AllOf(ps: seq<Packet>, k: Kind)
    requires forall p <- ps :: k.Has(p)
    ensures PacketsOf(ps, k) == multiset(ps)
  {
    if ps != [] {
      AllOf(ps[..|ps| - 1], k);
      assert ps == ps[..|ps| - 1] + [ps[|ps| - 1]];
    }
  }

  lemma {:induction false} PacketsOfSum(ps: seq<Packet>, qs: seq<Packet>, k: Kind)
    ensures PacketsOf(ps + qs, k) == PacketsOf(ps, k) + PacketsOf(qs, k)
    decreases |qs|
  {
    PacketsOfNothing(k);
    hide PacketsOf, PacketOf;
    if qs == [] {
      assert ps + qs == ps;
    } else {
      var init, last := qs[..|qs| - 1], qs[|qs| - 1];
      PacketsOfSum(ps, init, k);
      PacketsOfSnoc(ps + init, last, k);
      PacketsOfSnoc(init, last, k);
      assert qs == init + [last];
      assert ps + (init + [last]) == (ps + init) + [last];
      Regrouped(PacketsOf(ps, k), PacketsOf(init, k), PacketOf(last, k));
    }
  }

  lemma {:induction false} PacketsOfNothing(k: Kind)
    ensures PacketsOf([], k) == multiset{}
  {
  }

  lemma {:induction false} PacketsOfSnoc(ps: seq<Packet>, p: Packet, k: Kind)
    ensures PacketsOf(ps + [p], k) == PacketsOf(ps, k) + PacketOf(p, k)
  {
    assert (ps + [p])[..|ps|] == ps;
  }

  lemma {:induction false} Regrouped(x: multiset<Packet>, y: multiset<Packet>, z: multiset<Packet>)
    ensures (x + y) + z == x + (y + z)
  {
  }

  lemma {:induction false} PacketsOfOne(p: Packet, k: Kind)
    ensures PacketsOf([p], k) == PacketOf(p, k)
  {
    assert [p][..0] == [];
  }

  lemma {:induction false} PacketsWithout(flight: seq<Packet>, i: nat, k: Kind)
    requires i < |flight|
    ensures PacketsOf(flight, k) ==
              PacketsOf(Without(flight, i), k) + PacketOf(flight[i], k)
  {
    hide PacketsOf, PacketOf;
    var before, one, after := flight[..i], [flight[i]], flight[i + 1..];
    PacketsOfSum(before, one + after, k);
    PacketsOfSum(one, after, k);
    PacketsOfSum(before, after, k);
    PacketsOfOne(flight[i], k);
    assert flight == before + (one + after);
    Swap(PacketsOf(before, k), PacketsOf(one, k), PacketsOf(after, k));
  }

  lemma {:induction false} Swap(x: multiset<Packet>, y: multiset<Packet>, z: multiset<Packet>)
    ensures x + (y + z) == (x + z) + y
  {
  }

  /** Nothing about a kind happens when the flight only grows by other messages. */
  lemma {:induction false} OnlyOthers(sys: System, sys': System, sent: seq<Packet>, k: Kind)
    requires sys'.flight == sys.flight + sent && forall p <- sent :: !k.Has(p)
    ensures PacketsOf(sys'.flight, k) == PacketsOf(sys.flight, k)
  {
    PacketsOfSum(sys.flight, sent, k);
    NoneOf(sent, k);
  }

  lemma {:induction false} Add(f: multiset<Packet>, d: multiset<Packet>, f': multiset<Packet>, r: multiset<Packet>,
                               l: multiset<Packet>, ds: multiset<Packet>, rs: multiset<Packet>, ls: multiset<Packet>,
                               end: multiset<Packet>)
    requires f + d == f' + r + l && f' + ds == rs + ls + end
    ensures f + (d + ds) == (r + rs) + (l + ls) + end
  {
    forall p: Packet ensures (f + (d + ds))[p] == ((r + rs) + (l + ls) + end)[p] {
      assert (f + d)[p] == (f' + r + l)[p] && (f' + ds)[p] == (rs + ls + end)[p];
    }
  }

  lemma {:induction false} Part(d: multiset<Packet>, r: multiset<Packet>, others: multiset<Packet>)
    requires multiset{} + d == r + others
    ensures r <= d
  {
    assert d == r + others;
  }
}
