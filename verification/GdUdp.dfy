/** The GDUdp object of src/gd_udp/gd_udp.rs: its outbox is a map of maps, changed in place. */
module GdUdp {
  import opened Packets
  import opened Outbox

  /** Milliseconds between two rounds. */
  const MAINTENANCE: nat := 300

  type Nested = map<InnerKey, map<nat, Entry>>

  /** The nested table read as one table. */
  function Flat(o: Nested): Outbox {
    map id, n | id in o && n in o[id] :: Slot(id, n) := o[id][n]
  }

  function Kept(m: map<nat, Entry>): map<nat, Entry> {
    map n | n in m && m[n].Live() :: m[n]
  }

  /** The two nested retain calls. */
  function Retained(o: Nested): Nested {
    map id | id in o && Kept(o[id]) != map[] :: Kept(o[id])
  }

  /** The live entries when those in done have been resent. */
  function Progress(o: Outbox, done: set<Slot>): Outbox {
    map k | k in o && o[k].Live() :: if k in done then o[k].Resent() else o[k]
  }

  lemma FlatRetained(o: Nested)
    ensures Flat(Retained(o)) == Progress(Flat(o), {})
  {
    var a, b := Flat(Retained(o)), Progress(Flat(o), {});
    hide *;
    forall k ensures (k in a <==> k in b) && (k in a ==> a[k] == b[k]) {
      RetainedAt(o, k);
    }
  }

  lemma RetainedAt(o: Nested, k: Slot)
    ensures k in Flat(Retained(o)) <==> k in Progress(Flat(o), {})
    ensures k in Flat(Retained(o)) ==> Flat(Retained(o))[k] == Progress(Flat(o), {})[k]
  {
    if k in Progress(Flat(o), {}) {
      assert k.n in Kept(o[k.id]);
    }
  }

  /** Storing an entry, with a new inner map for a new id. */
  function Put(o: Nested, id: InnerKey, n: nat, e: Entry): Nested {
    var inner: map<nat, Entry> := if id in o then o[id] else map[];
    var updated: map<nat, Entry> := inner[n := e];
    o[id := updated]
  }

  ghost predicate NoEmpty(o: Nested) {
    forall id :: id in o ==> o[id] != map[]
  }

  lemma FlatPut(o: Nested, id: InnerKey, n: nat, e: Entry)
    ensures Flat(Put(o, id, n, e)) == Flat(o)[Slot(id, n) := e]
    ensures NoEmpty(o) ==> NoEmpty(Put(o, id, n, e))
  {
    var a, b := Put(o, id, n, e), Flat(o)[Slot(id, n) := e];
    assert a[id][n] == e;
    hide Flat, Put, NoEmpty;
    forall k ensures k in Flat(a) <==> k in b {
      PutMember(o, id, n, e, k);
    }
    forall k | k in b ensures Flat(a)[k] == b[k] {
      PutMember(o, id, n, e, k);
    }
  }

  lemma PutMember(o: Nested, id: InnerKey, n: nat, e: Entry, k: Slot)
    ensures k in Flat(Put(o, id, n, e)) <==> k in Flat(o) || k == Slot(id, n)
    ensures k in Flat(Put(o, id, n, e)) ==> Flat(Put(o, id, n, e))[k] == if k == Slot(id, n) then e else Flat(o)[k]
  {
  }

  lemma FlatMember(o: Nested, id: InnerKey, n: nat)
    ensures Slot(id, n) in Flat(o) <==> id in o && n in o[id]
    ensures Slot(id, n) in Flat(o) ==> Flat(o)[Slot(id, n)] == o[id][n]
  {
  }

  lemma SumExtends<T>(w: multiset<T>, a: multiset<T>, x: multiset<T>, b: multiset<T>)
    requires b == a + x
    ensures w + b == (w + a) + x
  {
  }

  /** One more resend of a known entry counts one more attempt and changes nothing else. */
  lemma SentAgain(o: Outbox, e: Entry, done: set<SocketAddr>, peer: SocketAddr)
    requires peer in e.sent && peer !in done
    ensures Sent(o[SlotOf(e.packet) := e.(attempts := e.attempts + |done|)], peer, e.packet)
         == o[SlotOf(e.packet) := e.(attempts := e.attempts + |done + {peer}|)]
    ensures multiset(Copies(done + {peer}, e.packet)) == multiset(Copies(done, e.packet)) + multiset{(peer, e.packet)}
  {
    assert e.sent + {peer} == e.sent;
    assert Copies(done + {peer}, e.packet) == Copies(done, e.packet) + {(peer, e.packet)};
  }

  lemma NoneResent(o: Outbox, e: Entry, done: set<SocketAddr>, w: multiset<(SocketAddr, Packet)>)
    requires SlotOf(e.packet) in o && o[SlotOf(e.packet)] == e && done == {}
    ensures o == o[SlotOf(e.packet) := e.(attempts := e.attempts + |done|)]
    ensures w == w + multiset(Copies(done, e.packet))
  {
    assert Copies(done, e.packet) == {};
  }

  lemma AllResent(o: Outbox, e: Entry, done: set<SocketAddr>)
    requires done == e.Missing()
    ensures o[SlotOf(e.packet) := e.(attempts := e.attempts + |done|)] == o[SlotOf(e.packet) := e.Resent()]
    ensures multiset(Copies(done, e.packet)) == multiset(Copies(e.Missing(), e.packet))
  {
  }

  lemma NoneProgressed(o: Outbox, done: set<Slot>, w: multiset<(SocketAddr, Packet)>)
    requires done == {}
    ensures w == w + multiset(Resends(o, done))
  {
    assert Resends(o, done) == {};
  }

  lemma ProgressStep(o: Outbox, done: set<Slot>, k: Slot)
    requires Keyed(o) && k in Progress(o, {}) && k !in done
    ensures k in o && k in Progress(o, done) && Progress(o, done)[k] == o[k] == Progress(o, {})[k]
    ensures SlotOf(o[k].packet) == k && o[k].Live()
    ensures Progress(o, done)[k := o[k].Resent()] == Progress(o, done + {k})
  {
  }

  lemma AllProgressed(o: Outbox, done: set<Slot>)
    requires done == Progress(o, {}).Keys
    ensures Progress(o, done) == Maintained(o)
    ensures Resends(o, done) == Resends(o, o.Keys)
  {
  }

  lemma ResendsExtend(o: Outbox, done: set<Slot>, k: Slot)
    requires Keyed(o) && k in o && o[k].Live() && k !in done
    ensures multiset(Resends(o, done + {k}))
         == multiset(Resends(o, done)) + multiset(Copies(o[k].Missing(), o[k].packet))
  {
    var a, b := Resends(o, done), Copies(o[k].Missing(), o[k].packet);
    assert Resends(o, done + {k}) == a + b;
    assert a !! b;
  }

  /** A socket, as the record of the datagrams handed to it. */
  class UdpSocket {
    var wire: multiset<(SocketAddr, Packet)>

    constructor ()
      ensures wire == multiset{}
    {
      wire := multiset{};
    }

    method SendTo(packet: Packet, peer: SocketAddr)
      modifies this
      ensures wire == old(wire) + multiset{(peer, packet)}
    {
      wire := wire + multiset{(peer, packet)};
    }
  }

  class GDUdp {
    const addr: SocketAddr
    var outbox: Nested
    var timer: nat

    ghost predicate Valid()
      reads this
    {
      && Keyed(Contents())
      && NoEmpty(outbox)
    }

    ghost function Contents(): Outbox
      reads this
    {
      Flat(outbox)
    }

    constructor (addr: SocketAddr, now: nat)
      ensures Valid() && Contents() == map[]
      ensures this.addr == addr && timer == now
    {
      this.addr := addr;
      outbox := map[];
      timer := now;
    }

    method SendReliable(peer: SocketAddr, packet: Packet, sock: UdpSocket)
      requires Valid()
      modifies this`outbox, sock
      ensures Valid()
      ensures Contents() == Sent(old(Contents()), peer, packet)
      ensures var o, t, k := old(Contents()), Contents(), Slot(packet.id, packet.n);
              && k in t && t == o[k := t[k]]
              && t[k].sent == (if k in o then o[k].sent else {}) + {peer}
              && t[k].acked == (if k in o then o[k].acked else {})
              && t[k].packet == (if k in o then o[k].packet else packet)
              && t[k].attempts == (if k in o then o[k].attempts else 0) + 1
      ensures sock.wire == old(sock.wire) + multiset{(peer, packet)}
    {
      SentIs(Contents(), peer, packet);
      hide Flat, Put, NoEmpty;
      FlatMember(outbox, packet.id, packet.n);
      var e := Entry({peer}, {}, packet, 1);
      if packet.id in outbox && packet.n in outbox[packet.id] {
        e := outbox[packet.id][packet.n];
        e := e.(sent := e.sent + {peer}, attempts := e.attempts + 1);
      }
      FlatPut(outbox, packet.id, packet.n, e);
      outbox := Put(outbox, packet.id, packet.n, e);
      sock.SendTo(packet, peer);
    }

    method ProcessAck(id: InnerKey, packetNumber: nat, src: SocketAddr)
      requires Valid()
      modifies this`outbox
      ensures Valid()
      ensures Contents() == Acked(old(Contents()), Slot(id, packetNumber), src)
      ensures var o, k := old(Contents()), Slot(id, packetNumber);
              Contents() == if k in o then o[k := o[k].(acked := o[k].acked + {src})] else o
    {
      hide Flat, Put, NoEmpty;
      FlatMember(outbox, id, packetNumber);
      if id in outbox && packetNumber in outbox[id] {
        var e := outbox[id][packetNumber];
        e := e.(acked := e.acked + {src});
        FlatPut(outbox, id, packetNumber, e);
        outbox := Put(outbox, id, packetNumber, e);
      }
    }

    /** The resend loop for one entry of the cloned outbox. */
    method ResendEntry(e: Entry, sock: UdpSocket)
      requires Valid() && SlotOf(e.packet) in Contents() && Contents()[SlotOf(e.packet)] == e
      modifies this`outbox, sock
      ensures Valid()
      ensures Contents() == old(Contents())[SlotOf(e.packet) := e.Resent()]
      ensures sock.wire == old(sock.wire) + multiset(Copies(e.Missing(), e.packet))
    {
      hide Flat, Sent, Copies, Keyed, NoEmpty;
      var resend := e.Missing();
      ghost var done: set<SocketAddr> := {};
      NoneResent(Contents(), e, done, sock.wire);
      while resend != {}
        invariant Valid() && resend !! done && resend + done == e.Missing()
        invariant Contents() == old(Contents())[SlotOf(e.packet) := e.(attempts := e.attempts + |done|)]
        invariant sock.wire == old(sock.wire) + multiset(Copies(done, e.packet))
        decreases resend
      {
        var peer :| peer in resend;
        SentAgain(old(Contents()), e, done, peer);
        SumExtends(old(sock.wire), multiset(Copies(done, e.packet)), multiset{(peer, e.packet)},
                   multiset(Copies(done + {peer}, e.packet)));
        SendReliable(peer, e.packet, sock);
        resend, done := resend - {peer}, done + {peer};
      }
      AllResent(old(Contents()), e, done);
    }

    /** The retain calls of maintain. */
    method DropFinished()
      requires Valid()
      modifies this`outbox
      ensures Valid()
      ensures Contents() == Progress(old(Contents()), {})
    {
      FlatRetained(outbox);
      outbox := Retained(outbox);
    }

    /** maintain: drop what is finished, then resend what is missing, in whatever order the tables
        are iterated. */
    method Maintain(sock: UdpSocket)
      requires Valid()
      modifies this`outbox, sock
      ensures Valid()
      ensures Contents() == Maintained(old(Contents()))
      ensures sock.wire == old(sock.wire) + multiset(Resends(old(Contents()), old(Contents()).Keys))
    {
      hide Flat, Resends, Copies, NoEmpty, Maintained, Progress, Entry.Resent, Entry.Missing, SlotOf;
      ghost var before := Contents();
      DropFinished();
      var snapshot := Flat(outbox);
      var todo := snapshot.Keys;
      ghost var done: set<Slot> := {};
      NoneProgressed(before, done, sock.wire);
      while todo != {}
        invariant Valid() && todo !! done && todo + done == snapshot.Keys
        invariant Contents() == Progress(before, done)
        invariant sock.wire == old(sock.wire) + multiset(Resends(before, done))
        decreases todo
      {
        var k :| k in todo;
        ProgressStep(before, done, k);
        ResendsExtend(before, done, k);
        SumExtends(old(sock.wire), multiset(Resends(before, done)),
                   multiset(Copies(before[k].Missing(), before[k].packet)), multiset(Resends(before, done + {k})));
        if snapshot[k].attempts < MAX_ATTEMPTS {
          ResendEntry(snapshot[k], sock);
        }
        todo, done := todo - {k}, done + {k};
      }
      AllProgressed(before, done);
    }

    method CheckTimeElapsed(sock: UdpSocket, now: nat, later: nat)
      requires Valid() && timer <= now <= later
      modifies this, sock
      ensures Valid()
      ensures if now - old(timer) >= MAINTENANCE
              then Contents() == Maintained(old(Contents())) && timer == later
                   && sock.wire == old(sock.wire) + multiset(Resends(old(Contents()), old(Contents()).Keys))
              else unchanged(this) && unchanged(sock)
    {
      if now - timer >= MAINTENANCE {
        Maintain(sock);
        timer := later;
      }
    }
  }
}
