/** The retry outbox of src/gd_udp/gd_udp.rs as a value: one entry per message id and packet number. */
module Outbox {
  import opened Packets

  const MAX_ATTEMPTS: nat := 10

  datatype Entry = Entry(sent: set<SocketAddr>, acked: set<SocketAddr>, packet: Packet, attempts: nat)
  {
    /** The retain condition of maintain. */
    predicate Live() {
      sent != acked && attempts < MAX_ATTEMPTS
    }

    function Missing(): set<SocketAddr> {
      sent - acked
    }

    /** Acknowledged by all destinations and by somebody else besides. */
    predicate Overacked() {
      sent < acked
    }

    function Resent(): Entry {
      this.(attempts := attempts + |Missing()|)
    }
  }

  lemma NothingMissing(e: Entry)
    ensures e.Missing() == {} <==> e.sent <= e.acked
  {
    if e.Missing() == {} {
      forall a | a in e.sent ensures a in e.acked { assert a !in e.Missing(); }
    }
  }

  datatype Slot = Slot(id: InnerKey, n: nat)

  type Outbox = map<Slot, Entry>

  function SlotOf(p: Packet): Slot {
    Slot(p.id, p.n)
  }

  /** The packet stored under an id and number has that id and number. */
  predicate Keyed(o: Outbox) {
    forall k :: k in o ==> k == SlotOf(o[k].packet)
  }

  function Sent(o: Outbox, peer: SocketAddr, packet: Packet): Outbox {
    var k := SlotOf(packet);
    o[k := if k in o then o[k].(sent := o[k].sent + {peer}, attempts := o[k].attempts + 1)
           else Entry({peer}, {}, packet, 1)]
  }

  function Acked(o: Outbox, k: Slot, src: SocketAddr): Outbox {
    if k in o then o[k := o[k].(acked := o[k].acked + {src})] else o
  }

  function Maintained(o: Outbox): Outbox {
    map k | k in o && o[k].Live() :: o[k].Resent()
  }

  function Copies(peers: set<SocketAddr>, packet: Packet): set<(SocketAddr, Packet)> {
    set a | a in peers :: (a, packet)
  }

  /** The datagrams that resending the live entries among keys puts on the wire. */
  function Resends(o: Outbox, keys: set<Slot>): set<(SocketAddr, Packet)> {
    set k, a | k in keys && k in o && o[k].Live() && a in o[k].Missing() :: (a, o[k].packet)
  }

  // ---------- what maintain keeps, drops and counts ----------

  /** An entry goes exactly when every destination has acknowledged and nobody else has, or the
      attempts are used up; none is created. */
  lemma DropsExactly(o: Outbox, k: Slot)
    requires k in o
    ensures k !in Maintained(o) <==> o[k].sent == o[k].acked || o[k].attempts >= MAX_ATTEMPTS
    ensures Maintained(o).Keys <= o.Keys
  {
  }

  lemma {:induction false} CopiesSize(peers: set<SocketAddr>, packet: Packet)
    ensures |Copies(peers, packet)| == |peers|
  {
    if peers != {} {
      var a :| a in peers;
      CopiesSize(peers - {a}, packet);
      assert Copies(peers, packet) == Copies(peers - {a}, packet) + {(a, packet)};
    }
  }

  /** The datagrams of a round: each packet that is neither settled nor spent, to each address it was
      sent to that has not acknowledged it. */
  lemma ResendsAre(o: Outbox, peer: SocketAddr, packet: Packet)
    requires Keyed(o)
    ensures (peer, packet) in Resends(o, o.Keys)
       <==> var k := Slot(packet.id, packet.n);
            && k in o && o[k].packet == packet
            && o[k].sent != o[k].acked && o[k].attempts < 10
            && peer in o[k].sent && peer !in o[k].acked
  {
    if (peer, packet) in Resends(o, o.Keys) {
      var k, a :| k in o && o[k].Live() && a in o[k].Missing() && (a, o[k].packet) == (peer, packet);
      assert k == Slot(packet.id, packet.n);
    }
  }

  /** Sending enters the address and counts one attempt; what has been acknowledged stays. */
  lemma SentIs(o: Outbox, peer: SocketAddr, packet: Packet)
    ensures var t, k := Sent(o, peer, packet), Slot(packet.id, packet.n);
            && k in t && t == o[k := t[k]]
            && t[k].sent == (if k in o then o[k].sent else {}) + {peer}
            && t[k].acked == (if k in o then o[k].acked else {})
            && t[k].packet == (if k in o then o[k].packet else packet)
            && t[k].attempts == (if k in o then o[k].attempts else 0) + 1
  {}

  /** Conservation: the attempts of a survivor grow by the number of datagrams sent for its slot,
      and nothing else about it changes. */
  lemma ResendsAreCounted(o: Outbox, k: Slot)
    requires Keyed(o) && k in Maintained(o)
    ensures var datagrams := set d | d in Resends(o, o.Keys) && SlotOf(d.1) == k;
            Maintained(o)[k] == o[k].(attempts := o[k].attempts + |datagrams|)
  {
    var datagrams := set d | d in Resends(o, o.Keys) && SlotOf(d.1) == k;
    CopiesSize(o[k].Missing(), o[k].packet);
    assert datagrams == Copies(o[k].Missing(), o[k].packet);
  }

  /** What maintain leaves as it is: exactly the outboxes of which every entry is over-acknowledged
      with attempts to spare. */
  lemma FixedPoints(o: Outbox)
    ensures Maintained(o) == o <==> forall k :: k in o ==> o[k].Overacked() && o[k].attempts < MAX_ATTEMPTS
  {
    if Maintained(o) == o {
      forall k | k in o ensures o[k].Overacked() && o[k].attempts < MAX_ATTEMPTS {
        assert k in Maintained(o) && Maintained(o)[k] == o[k].Resent();
        assert |o[k].Missing()| == 0;
        NothingMissing(o[k]);
      }
    } else if forall k :: k in o ==> o[k].Overacked() && o[k].attempts < MAX_ATTEMPTS {
      forall k | k in o ensures k in Maintained(o) && Maintained(o)[k] == o[k] {
        assert o[k].Missing() == {};
      }
      assert false;
    }
  }

  // ---------- draining ----------

  datatype Act = Tick | Receipt(slot: Slot, src: SocketAddr)

  function Apply(o: Outbox, act: Act): Outbox {
    match act
    case Tick => Maintained(o)
    case Receipt(k, src) => Acked(o, k, src)
  }

  function Run(o: Outbox, acts: seq<Act>): Outbox {
    if acts == [] then o else Run(Apply(o, acts[0]), acts[1..])
  }

  function Ticks(acts: seq<Act>): nat {
    if acts == [] then 0 else (if acts[0].Tick? then 1 else 0) + Ticks(acts[1..])
  }

  /** After enough rounds to bring the attempts to j, an entry has them or is over-acknowledged;
      beyond the limit only the latter remain. */
  predicate Advanced(o: Outbox, j: nat) {
    forall k :: k in o ==> (j <= MAX_ATTEMPTS && o[k].attempts >= j) || o[k].Overacked()
  }

  lemma TickAdvances(o: Outbox, j: nat)
    requires Advanced(o, j)
    ensures Advanced(Maintained(o), j + 1)
  {
    forall k | k in Maintained(o)
      ensures (j + 1 <= MAX_ATTEMPTS && Maintained(o)[k].attempts >= j + 1) || Maintained(o)[k].Overacked()
    {
      NothingMissing(o[k]);
    }
  }

  lemma {:induction false} RunAdvances(o: Outbox, acts: seq<Act>, j: nat)
    requires Advanced(o, j)
    ensures Advanced(Run(o, acts), j + Ticks(acts))
  {
    if acts != [] {
      if acts[0].Tick? {
        TickAdvances(o, j);
        RunAdvances(Maintained(o), acts[1..], j + 1);
      } else {
        assert Advanced(Apply(o, acts[0]), j);
        RunAdvances(Apply(o, acts[0]), acts[1..], j);
      }
    }
  }

  /** Ten rounds, with receipts from anyone in between and no new sends, leave only entries that
      have been over-acknowledged. */
  lemma TenRounds(o: Outbox, acts: seq<Act>)
    requires forall k :: k in o ==> o[k].attempts >= 1
    requires Ticks(acts) >= MAX_ATTEMPTS
    ensures forall k :: k in Run(o, acts) ==> Run(o, acts)[k].Overacked()
  {
    RunAdvances(o, acts, 1);
  }

  /** Acknowledgements come from destinations. */
  predicate AcksWithin(o: Outbox, acts: seq<Act>) {
    && (forall k :: k in o ==> o[k].acked <= o[k].sent)
    && (forall i :: 0 <= i < |acts| && acts[i].Receipt? && acts[i].slot in o ==> acts[i].src in o[acts[i].slot].sent)
  }

  lemma {:induction false} RunKeepsWithin(o: Outbox, acts: seq<Act>)
    requires AcksWithin(o, acts)
    ensures forall k :: k in Run(o, acts) ==> Run(o, acts)[k].acked <= Run(o, acts)[k].sent
  {
    if acts != [] {
      var next := Apply(o, acts[0]);
      assert AcksWithin(next, acts[1..]) by {
        forall i | 0 <= i < |acts[1..]| && acts[1..][i].Receipt? && acts[1..][i].slot in next
          ensures acts[1..][i].src in next[acts[1..][i].slot].sent
        {
          assert acts[1..][i] == acts[i + 1];
        }
      }
      RunKeepsWithin(next, acts[1..]);
    }
  }

  /** So when receipts come from destinations only, the outbox drains in ten rounds. */
  lemma Drains(o: Outbox, acts: seq<Act>)
    requires forall k :: k in o ==> o[k].attempts >= 1
    requires AcksWithin(o, acts) && Ticks(acts) >= MAX_ATTEMPTS
    ensures Run(o, acts) == map[]
  {
    TenRounds(o, acts);
    RunKeepsWithin(o, acts);
    assert Run(o, acts).Keys == {};
  }

  function Rounds(count: nat): seq<Act> {
    seq(count, i => Tick)
  }

  lemma {:induction false} RoundsTicks(count: nat)
    ensures Ticks(Rounds(count)) == count
  {
    if count > 0 {
      RoundsTicks(count - 1);
      assert Rounds(count)[1..] == Rounds(count - 1);
    }
  }

  lemma {:induction false} OverackedStays(o: Outbox, k: Slot, count: nat)
    requires k in o && o[k].Overacked() && o[k].attempts < MAX_ATTEMPTS
    ensures k in Run(o, Rounds(count)) && Run(o, Rounds(count))[k] == o[k]
  {
    if count > 0 {
      assert Rounds(count)[1..] == Rounds(count - 1);
      assert o[k].Missing() == {};
      OverackedStays(Maintained(o), k, count - 1);
    }
  }

  lemma {:induction false} RunCreatesNothing(o: Outbox, count: nat)
    ensures Run(o, Rounds(count)).Keys <= o.Keys
    ensures forall k :: k in Run(o, Rounds(count)) ==>
              o[k].sent == Run(o, Rounds(count))[k].sent && o[k].acked == Run(o, Rounds(count))[k].acked
              && o[k].attempts <= Run(o, Rounds(count))[k].attempts
  {
    if count > 0 {
      assert Rounds(count)[1..] == Rounds(count - 1);
      RunCreatesNothing(Maintained(o), count - 1);
    }
  }

  /** Without further receipts, ten or more rounds empty the outbox if and only if no entry was
      over-acknowledged with attempts to spare: such an entry is never resent and never dropped. */
  lemma DrainsIff(o: Outbox, count: nat)
    requires forall k :: k in o ==> o[k].attempts >= 1
    requires count >= MAX_ATTEMPTS
    ensures Run(o, Rounds(count)) == map[]
       <==> forall k :: k in o ==> !(o[k].Overacked() && o[k].attempts < MAX_ATTEMPTS)
  {
    RoundsTicks(count);
    TenRounds(o, Rounds(count));
    RunCreatesNothing(o, count);
    forall k | k in o && o[k].Overacked() && o[k].attempts < MAX_ATTEMPTS
      ensures k in Run(o, Rounds(count))
    {
      OverackedStays(o, k, count);
    }
    if k :| k in Run(o, Rounds(count)) {
      assert o[k].Overacked();
      if o[k].attempts >= MAX_ATTEMPTS {
        SpentIsDropped(o, k, count);
      }
    }
  }

  lemma SpentIsDropped(o: Outbox, k: Slot, count: nat)
    requires k in o && o[k].attempts >= MAX_ATTEMPTS && count > 0
    ensures k !in Run(o, Rounds(count))
  {
    assert Rounds(count)[1..] == Rounds(count - 1);
    RunCreatesNothing(Maintained(o), count - 1);
  }

  // ---------- the survivors of any run ----------

  /** Who has acknowledged slot k by the time of the j-th act. */
  function AckedBy(e: Entry, k: Slot, acts: seq<Act>, j: nat): set<SocketAddr>
    requires j <= |acts|
  {
    if j == 0 then e.acked
    else AckedBy(e, k, acts, j - 1) +
         if acts[j - 1].Receipt? && acts[j - 1].slot == k then {acts[j - 1].src} else {}
  }

  /** The attempts made by then, if the entry is still there: each round resends to those missing. */
  function Spent(e: Entry, k: Slot, acts: seq<Act>, j: nat): nat
    requires j <= |acts|
  {
    if j == 0 then e.attempts
    else Spent(e, k, acts, j - 1) + if acts[j - 1].Tick? then |e.sent - AckedBy(e, k, acts, j - 1)| else 0
  }

  /** The j-th act does not drop the entry. */
  predicate Spares(e: Entry, k: Slot, acts: seq<Act>, j: nat)
    requires j < |acts|
  {
    acts[j].Tick? ==> AckedBy(e, k, acts, j) != e.sent && Spent(e, k, acts, j) < MAX_ATTEMPTS
  }

  lemma {:induction false} RunAppend(o: Outbox, acts: seq<Act>, act: Act)
    ensures Run(o, acts + [act]) == Apply(Run(o, acts), act)
  {
    if acts == [] {
      assert ([] + [act])[1..] == [];
    } else {
      assert (acts + [act])[1..] == acts[1..] + [act];
      RunAppend(Apply(o, acts[0]), acts[1..], act);
    }
  }

  /** What becomes of an entry in any run of rounds and receipts: it is there as long as every round
      has spared it, and then its acknowledgements and attempts are those counted. */
  lemma {:induction false} EntryAfter(o: Outbox, acts: seq<Act>, k: Slot, j: nat)
    requires k in o && j <= |acts|
    ensures k in Run(o, acts[..j]) <==> forall i :: 0 <= i < j ==> Spares(o[k], k, acts, i)
    ensures k in Run(o, acts[..j]) ==>
              Run(o, acts[..j])[k] == o[k].(acked := AckedBy(o[k], k, acts, j), attempts := Spent(o[k], k, acts, j))
  {
    if j == 0 {
      assert acts[..0] == [];
    } else {
      EntryAfter(o, acts, k, j - 1);
      assert acts[..j] == acts[..j - 1] + [acts[j - 1]];
      RunAppend(o, acts[..j - 1], acts[j - 1]);
      OneAct(Run(o, acts[..j - 1]), o, acts, k, j - 1);
    }
  }

  lemma OneAct(mid: Outbox, o: Outbox, acts: seq<Act>, k: Slot, i: nat)
    requires k in o && i < |acts|
    requires k in mid ==> mid[k] == o[k].(acked := AckedBy(o[k], k, acts, i), attempts := Spent(o[k], k, acts, i))
    ensures k in Apply(mid, acts[i]) <==> k in mid && Spares(o[k], k, acts, i)
    ensures k in Apply(mid, acts[i]) ==>
              Apply(mid, acts[i])[k]
              == o[k].(acked := AckedBy(o[k], k, acts, i + 1), attempts := Spent(o[k], k, acts, i + 1))
  {
  }

  lemma {:induction false} SpentGrows(e: Entry, k: Slot, acts: seq<Act>, i: nat, j: nat)
    requires i <= j <= |acts|
    ensures AckedBy(e, k, acts, i) <= AckedBy(e, k, acts, j) && Spent(e, k, acts, i) <= Spent(e, k, acts, j)
    ensures e.sent <= AckedBy(e, k, acts, i) ==> Spent(e, k, acts, j) == Spent(e, k, acts, i)
  {
    if i < j {
      SpentGrows(e, k, acts, i, j - 1);
      if e.sent <= AckedBy(e, k, acts, i) {
        assert e.sent - AckedBy(e, k, acts, j - 1) == {};
      }
    }
  }

  lemma TicksUpTo(acts: seq<Act>, j: nat)
    requires 1 <= j <= |acts|
    ensures Ticks(acts[..j]) == Ticks(acts[..j - 1]) + if acts[j - 1].Tick? then 1 else 0
  {
    assert acts[..j] == acts[..j - 1] + [acts[j - 1]];
    TicksAppend(acts[..j - 1], acts[j - 1]);
  }

  lemma {:induction false} TicksAppend(acts: seq<Act>, act: Act)
    ensures Ticks(acts + [act]) == Ticks(acts) + if act.Tick? then 1 else 0
  {
    if acts == [] {
      assert ([] + [act])[1..] == [];
    } else {
      assert (acts + [act])[1..] == acts[1..] + [act];
      TicksAppend(acts[1..], act);
    }
  }

  lemma {:induction false} EveryTickSpends(e: Entry, k: Slot, acts: seq<Act>, j: nat)
    requires j <= |acts|
    requires forall i :: 0 <= i < j && acts[i].Tick? ==> !(e.sent <= AckedBy(e, k, acts, i))
    ensures Spent(e, k, acts, j) >= e.attempts + Ticks(acts[..j])
  {
    if j > 0 {
      EveryTickSpends(e, k, acts, j - 1);
      TicksUpTo(acts, j);
      if acts[j - 1].Tick? {
        assert e.sent - AckedBy(e, k, acts, j - 1) != {} by {
          var a :| a in e.sent && a !in AckedBy(e, k, acts, j - 1);
          assert a in e.sent - AckedBy(e, k, acts, j - 1);
        }
      }
    }
  }

  lemma NeverCoveredIsDropped(e: Entry, k: Slot, acts: seq<Act>)
    requires e.attempts >= 1 && Ticks(acts) >= MAX_ATTEMPTS
    requires forall j :: 0 <= j < |acts| && acts[j].Tick? ==> !(e.sent <= AckedBy(e, k, acts, j))
    ensures exists j :: 0 <= j < |acts| && !Spares(e, k, acts, j)
  {
    assert acts[..|acts|] == acts;
    var last := LastTick(acts, |acts|);
    EveryTickSpends(e, k, acts, last);
    assert !Spares(e, k, acts, last);
  }

  /** A round that finds the entry over-acknowledged with attempts to spare. */
  predicate FindsOveracked(e: Entry, k: Slot, acts: seq<Act>, j: nat)
    requires j < |acts|
  {
    acts[j].Tick? && e.sent < AckedBy(e, k, acts, j) && Spent(e, k, acts, j) < MAX_ATTEMPTS
  }

  predicate FindsSettled(e: Entry, k: Slot, acts: seq<Act>, j: nat)
    requires j < |acts|
  {
    acts[j].Tick? && e.sent == AckedBy(e, k, acts, j)
  }

  /** The exact survivors of any run with more than nine rounds, whoever acknowledges in between:
      those that some round finds over-acknowledged with attempts to spare, and none finds settled. */
  lemma SurvivesIff(o: Outbox, acts: seq<Act>, k: Slot)
    requires k in o && o[k].attempts >= 1 && Ticks(acts) >= MAX_ATTEMPTS
    ensures k in Run(o, acts) <==>
              && (exists j :: 0 <= j < |acts| && FindsOveracked(o[k], k, acts, j))
              && (forall j :: 0 <= j < |acts| ==> !FindsSettled(o[k], k, acts, j))
  {
    var e := o[k];
    EntryAfter(o, acts, k, |acts|);
    assert acts[..|acts|] == acts;
    if k in Run(o, acts) {
      if forall j :: 0 <= j < |acts| && acts[j].Tick? ==> !(e.sent <= AckedBy(e, k, acts, j)) {
        NeverCoveredIsDropped(e, k, acts);
      } else {
        var j :| 0 <= j < |acts| && acts[j].Tick? && e.sent <= AckedBy(e, k, acts, j);
        assert Spares(e, k, acts, j);
        assert FindsOveracked(e, k, acts, j);
      }
      forall j | 0 <= j < |acts| ensures !FindsSettled(e, k, acts, j) { assert Spares(e, k, acts, j); }
    } else if j :| 0 <= j < |acts| && FindsOveracked(e, k, acts, j) {
      var i :| 0 <= i < |acts| && !Spares(e, k, acts, i);
      if i <= j { SpentGrows(e, k, acts, i, j); } else { SpentGrows(e, k, acts, j, i); }
      assert FindsSettled(e, k, acts, i);
    }
  }

  lemma {:induction false} LastTick(acts: seq<Act>, j: nat) returns (last: nat)
    requires j <= |acts| && Ticks(acts[..j]) >= 1
    ensures last < j && acts[last].Tick? && Ticks(acts[..last]) == Ticks(acts[..j]) - 1
  {
    TicksUpTo(acts, j);
    if acts[j - 1].Tick? {
      last := j - 1;
    } else {
      last := LastTick(acts, j - 1);
    }
  }

  /** Over-acknowledgement does happen: whoever else acknowledges a packet sent to one peer, before the
      next round, leaves an entry that no number of rounds removes. */
  lemma OverackedArises(p: Packet, a: SocketAddr, b: SocketAddr, count: nat)
    requires a != b
    ensures var o := Run(Sent(map[], a, p), [Receipt(SlotOf(p), a), Receipt(SlotOf(p), b)]);
            && SlotOf(p) in o && o[SlotOf(p)] == Entry({a}, {a, b}, p, 1)
            && Run(o, Rounds(count)) == o
  {
    var k := SlotOf(p);
    var acts := [Receipt(k, a), Receipt(k, b)];
    var first, second := Entry({a}, {}, p, 1), Entry({a}, {a}, p, 1);
    var o: Outbox := map[k := Entry({a}, {a, b}, p, 1)];
    assert first.acked + {a} == {a} && second.acked + {b} == {a, b};
    assert Sent(map[], a, p) == map[k := first];
    assert Acked(map[k := first], k, a) == map[k := second];
    assert Acked(map[k := second], k, b) == o;
    assert acts[1..] == [Receipt(k, b)] && acts[1..][1..] == [];
    assert Run(map[k := first], acts) == Run(map[k := second], acts[1..]) == Run(o, []) == o;
    assert o[k].sent < o[k].acked by { assert b in o[k].acked; }
    RestingStays(o, count);
  }

  lemma {:induction false} RestingStays(o: Outbox, count: nat)
    requires forall k :: k in o ==> o[k].Overacked() && o[k].attempts < MAX_ATTEMPTS
    ensures Run(o, Rounds(count)) == o
  {
    if count > 0 {
      FixedPoints(o);
      assert Rounds(count)[1..] == Rounds(count - 1);
      RestingStays(o, count - 1);
    }
  }
}
