/** Every action of the network keeps the invariant. */
module NetworkInvariant {
  import opened Bytes
  import opened Packets
  import opened Reassembly
  import opened Outbox
  import opened Handler
  import opened Transport
  import opened Network

  lemma NodeGrows(c: Config, s: Sys, t: Sys, a: SocketAddr, node: Node)
    requires Grows(s, t) && NodeOk(c, s, a, node)
    ensures NodeOk(c, t, a, node)
  {
    forall i | 0 <= i < |node.om| ensures AckMessageTrue(c, t, node.om[i].1) {
      AckGrows(c, s, t, node.om[i].1);
    }
    forall k | k in node.outbox ensures EntryOk(c, t, a, k, node.outbox[k]) {
      EntryGrows(c, s, t, a, k, node.outbox[k]);
    }
    forall p | p in node.history.Set() ensures ArrivalOk(c, t, a, p) {
      OriginGrows(s, t, p);
    }
    forall i | 0 <= i < |node.handled| ensures HandledOk(c, t, a, node.handled[i].0, node.handled[i].1) {
      HandledGrows(c, s, t, a, node.handled[i].0, node.handled[i].1);
    }
  }

  /** What remains to be checked of a step: the nodes that changed, the new letters, the new datagrams. */
  lemma InvFrom(c: Config, s: Sys, t: Sys)
    requires Inv(c, s) && Grows(s, t) && t.nodes.Keys == s.nodes.Keys
    requires forall b :: b in t.nodes ==> t.nodes[b] == s.nodes[b] || NodeOk(c, t, b, t.nodes[b])
    requires forall id :: id in t.letters && id !in s.letters ==> LetterOk(c, t, t.letters[id])
    requires forall d :: d in t.net ==> d in s.net || DatagramOk(c, t, d)
    ensures Inv(c, t)
  {
    forall id | id in t.letters ensures LetterOk(c, t, t.letters[id]) {
      if id in s.letters { AckGrows(c, s, t, s.letters[id].message); }
    }
    forall d | d in t.net ensures DatagramOk(c, t, d) {
      if d in s.net && !DatagramOk(c, t, d) { OriginGrows(s, t, d.packet); }
    }
    forall b | b in t.nodes ensures NodeOk(c, t, b, t.nodes[b]) {
      if t.nodes[b] == s.nodes[b] { NodeGrows(c, s, t, b, s.nodes[b]); }
    }
  }

  /** The same for a step of one node. */
  lemma InvAt(c: Config, s: Sys, t: Sys, a: SocketAddr)
    requires Inv(c, s) && Grows(s, t)
    requires a in s.nodes && a in t.nodes && t.nodes == s.nodes[a := t.nodes[a]]
    requires NodeOk(c, t, a, t.nodes[a])
    requires forall id :: id in t.letters && id !in s.letters ==> LetterOk(c, t, t.letters[id])
    requires forall d :: d in t.net ==> d in s.net || DatagramOk(c, t, d)
    ensures Inv(c, t)
  {
    hide NodeOk, LetterOk, DatagramOk, Grows;
    InvFrom(c, s, t);
  }

  lemma SameHistories(s: Sys, t: Sys, a: SocketAddr)
    requires a in s.nodes && a in t.nodes && t.nodes == s.nodes[a := t.nodes[a]]
    requires t.nodes[a].history == s.nodes[a].history
    requires forall id :: id in s.letters ==> id in t.letters && t.letters[id] == s.letters[id]
    ensures Grows(s, t)
  {
    hide History.Seen;
  }

  lemma SameNodes(s: Sys, t: Sys)
    requires t.nodes == s.nodes && t.letters == s.letters
    ensures Grows(s, t)
  {
    hide History.Seen;
  }

  lemma InitInv(c: Config)
    ensures Inv(c, Init(c))
  {
  }

  lemma SubmitInv(c: Config, s: Sys, act: Action)
    requires Inv(c, s) && act.Submit? && Enabled(c, s, act)
    ensures Inv(c, Next(c, s, act))
  {
    var t, a, node := Next(c, s, act), act.a, s.nodes[act.a];
    SameHistories(s, t, a);
    NodeGrows(c, s, t, a, node);
    var after := node.(om := node.om + [(act.dst, act.message)]);
    assert t.nodes == s.nodes[a := after] && t.letters == s.letters && t.net == s.net;
    assert NodeOk(c, t, a, after) by {
      assert AckMessageTrue(c, t, act.message);
      hide EntryOk, AckMessageTrue, AckTrue, ArrivalOk, HandledOk, PendingAfter;
    }
    hide *;
    InvAt(c, s, t, a);
  }

  // ---------- outgoing_msg ----------

  lemma BurstOk(c: Config, t: Sys, l: Letter, id: InnerKey, d: Datagram)
    requires id in t.letters && t.letters[id] == l
    requires d in OnWire(c, l.from, Burst(l.to, l.origin, id))
    ensures DatagramOk(c, t, d) && d.packet.id == id
  {
    BurstLists(l.to, l.origin, id, l.origin.Count(), (d.dst, d.packet));
    hide Burst, BurstOf, NumPackets;
  }

  lemma FirstEntryOk(c: Config, t: Sys, l: Letter, id: InnerKey, n: nat)
    requires id in t.letters && t.letters[id] == l && l.origin.ret == 1 && 1 <= n <= l.origin.Count()
    ensures EntryOk(c, t, l.from, Slot(id, n), FirstEntry(l.to, l.origin, id, n))
  {
    hide NumPackets, Origin.Count;
  }

  lemma NewEntryOk(c: Config, t: Sys, l: Letter, id: InnerKey, k: Slot)
    requires id in t.letters && t.letters[id] == l && l.origin.ret == 1
    requires k in NewEntries(l.to, l.origin, id, l.origin.Count())
    ensures EntryOk(c, t, l.from, k, NewEntries(l.to, l.origin, id, l.origin.Count())[k])
  {
    NewEntriesListed(l.to, l.origin, id, l.origin.Count());
    FirstEntryOk(c, t, l, id, k.n);
    hide *;
  }

  lemma OutgoingOutbox(c: Config, s: Sys, t: Sys, a: SocketAddr, id: InnerKey, l: Letter)
    requires a in s.nodes && NodeOk(c, s, a, s.nodes[a]) && Grows(s, t)
    requires id !in s.letters && id in t.letters && t.letters[id] == l && l.from == a && l.origin.ret == 1
    ensures var o := SentAll(s.nodes[a].outbox, l.to, l.origin.Packets(id), l.origin.Count());
            forall k :: k in o ==> EntryOk(c, t, a, k, o[k])
  {
    var before, count := s.nodes[a].outbox, l.origin.Count();
    var o := SentAll(before, l.to, l.origin.Packets(id), count);
    forall k | k in before ensures k.id != id { assert EntryOk(c, s, a, k, before[k]); }
    SentAllFresh(before, l.to, l.origin, id, count);
    forall k | k in o ensures EntryOk(c, t, a, k, o[k]) {
      if k in NewEntries(l.to, l.origin, id, count) {
        NewEntryOk(c, t, l, id, k);
      } else {
        EntryGrows(c, s, t, a, k, before[k]);
      }
    }
  }

  lemma OutgoingInv(c: Config, s: Sys, a: SocketAddr, id: InnerKey)
    requires Inv(c, s) && Enabled(c, s, Outgoing(a, id))
    ensures Inv(c, Next(c, s, Outgoing(a, id)))
  {
    var t := Next(c, s, Outgoing(a, id));
    var l := OutgoingEffect(c, s, a, id);
    assert a in c.nodes && NodeOk(c, s, a, s.nodes[a]) by { hide Next, NodeOk, DatagramOk, LetterOk; }
    hide Next, Enabled, Inv, NodeOk, LetterOk, DatagramOk, Grows, LetterFor, OutgoingNode, OnWire, Burst;
    SameHistories(s, t, a);
    OutgoingNodeOk(c, s, t, a, id, l);
    forall d | d in t.net ensures d in s.net || DatagramOk(c, t, d) {
      if d !in s.net { BurstOk(c, t, l, id, d); }
    }
    InvAt(c, s, t, a);
  }

  lemma OutgoingNodeOk(c: Config, s: Sys, t: Sys, a: SocketAddr, id: InnerKey, l: Letter)
    requires a in s.nodes && a in c.nodes && NodeOk(c, s, a, s.nodes[a]) && Grows(s, t) && s.nodes[a].om != []
    requires l == LetterFor(c, a, s.nodes[a].om[0].0, s.nodes[a].om[0].1)
    requires id in t.letters && t.letters[id] == l && id !in s.letters
    ensures NodeOk(c, t, a, OutgoingNode(s.nodes[a], l, id))
    ensures LetterOk(c, t, l)
  {
    var node := s.nodes[a];
    NodeGrows(c, s, t, a, node);
    assert AckMessageTrue(c, t, node.om[0].1);
    assert l.message == node.om[0].1 && l.from == a && LetterOk(c, t, l);
    var o := OutgoingNode(node, l, id).outbox;
    assert forall k :: k in o ==> EntryOk(c, t, a, k, o[k]) by {
      if l.message.head == Ack {
        assert o == node.outbox;
      } else {
        assert o == SentAll(node.outbox, l.to, l.origin.Packets(id), l.origin.Count());
        OutgoingOutbox(c, s, t, a, id, l);
      }
    }
    assert OutgoingNode(node, l, id) == node.(om := node.om[1..], outbox := o);
    hide OutgoingNode, LetterOk, EntryOk;
    WithOutbox(c, t, a, node, o);
  }

  lemma WithOutbox(c: Config, s: Sys, a: SocketAddr, node: Node, o: Outbox)
    requires NodeOk(c, s, a, node) && node.om != []
    requires forall k :: k in o ==> EntryOk(c, s, a, k, o[k])
    ensures NodeOk(c, s, a, node.(om := node.om[1..], outbox := o))
  {
    hide EntryOk, AckMessageTrue, AckTrue, ArrivalOk, HandledOk, PendingAfter;
  }

  // ---------- recv_msg ----------

  /** A packet that reaches its destination hands on exactly the message of its letter, once
      complete, and never panics. */
  lemma ReceiveOutcome(c: Config, s: Sys, x: SocketAddr, node: Node, p: Packet)
    requires c.codec.RoundTrips()
    requires NodeOk(c, s, x, node) && ArrivalOk(c, s, x, p) && LetterOk(c, s, s.letters[p.id])
    ensures var outcome, l := Insert(node.pending, p).1, s.letters[p.id];
            && outcome != Panic
            && (outcome.Deliver? <==> Then(node.history, p).Seen(p.id) == Numbers(l.origin.Count()))
            && Handed(c.codec, outcome) == if outcome.Deliver? then Some(l.message) else None
  {
    HonestAll(node.history, s.Origins());
    HonestAll(Then(node.history, p), s.Origins());
    DeliversWhenComplete(node.history, p, s.Origins());
  }

  lemma ReceiveGrows(c: Config, s: Sys, d: Datagram)
    requires Enabled(c, s, Receive(d))
    ensures Grows(s, Next(c, s, Receive(d)))
    ensures d.packet.n in Next(c, s, Receive(d)).SeenAt(c.owner(d.from, d.dst), d.packet.id)
  {
    hide Insert, AcksFor, RouteOf, Handed;
  }

  /** The acknowledgement that a receipt-requesting packet causes is true. */
  lemma AckForTrue(c: Config, t: Sys, x: SocketAddr, p: Packet)
    requires c.codec.RoundTrips() && ArrivalOk(c, t, x, p) && p.n in t.SeenAt(x, p.id)
    ensures AckMessageTrue(c, t, c.codec.AckFor(p, x))
  {
    hide PacketAt, Origin.Count;
  }

  /** What is handed on is the letter's message, with the route it deserves. */
  lemma HandedTrue(c: Config, t: Sys, x: SocketAddr, p: Packet, l: Letter)
    requires ArrivalOk(c, t, x, p) && t.letters[p.id] == l && AckMessageTrue(c, t, l.message)
    ensures t.SeenAt(x, p.id) == Numbers(l.origin.Count()) ==> HandledOk(c, t, x, p.id, l.message)
    ensures var route := RouteOf(c.codec, l.message);
            route.ToOutbox? ==> AckTrue(c, t, route.ack)
  {
    hide PacketAt, Origin.Count, Numbers;
  }

  lemma ReceiveNodeOk(c: Config, s: Sys, t: Sys, x: SocketAddr, node: Node, d: Datagram)
    requires c.codec.RoundTrips()
    requires Grows(s, t) && x in t.nodes && t.nodes[x] == ReceiveNode(c, x, node, d)
    requires NodeOk(c, s, x, node) && ArrivalOk(c, s, x, d.packet) && LetterOk(c, s, s.letters[d.packet.id])
    ensures NodeOk(c, t, x, t.nodes[x])
  {
    var p, l := d.packet, s.letters[d.packet.id];
    var handed := Handed(c.codec, Insert(node.pending, p).1);
    NodeGrows(c, s, t, x, node);
    ReceiveOutcome(c, s, x, node, p);
    AckGrows(c, s, t, l.message);
    assert ArrivalOk(c, t, x, p) by { OriginGrows(s, t, p); }
    assert t.SeenAt(x, p.id) == Then(node.history, p).Seen(p.id) && p.n in t.SeenAt(x, p.id);
    AckForTrue(c, t, x, p);
    HandedTrue(c, t, x, p, l);
    assert handed.Some? ==> handed.value == l.message && HandledOk(c, t, x, p.id, l.message);
    assert Insert(node.pending, p).0 == PendingAfter(Then(node.history, p));
    AfterReceive(c, t, x, node, d, handed);
  }

  /** The receiving node, given what is known of the packet and of the message handed on. */
  lemma AfterReceive(c: Config, t: Sys, x: SocketAddr, node: Node, d: Datagram, handed: Option<Message>)
    requires NodeOk(c, t, x, node) && ArrivalOk(c, t, x, d.packet)
    requires handed == Handed(c.codec, Insert(node.pending, d.packet).1)
    requires Insert(node.pending, d.packet).0 == PendingAfter(Then(node.history, d.packet))
    requires AckMessageTrue(c, t, c.codec.AckFor(d.packet, x))
    requires handed.Some? ==>
               && HandledOk(c, t, x, d.packet.id, handed.value)
               && var route := RouteOf(c.codec, handed.value);
                  route.ToOutbox? ==> AckTrue(c, t, route.ack)
    ensures NodeOk(c, t, x, ReceiveNode(c, x, node, d))
  {
    hide EntryOk, ArrivalOk, HandledOk, AckTrue, AckMessageTrue, Insert, PendingAfter, RouteOf, Handed, Codec.AckFor;
  }

  lemma ReceiveInv(c: Config, s: Sys, d: Datagram)
    requires c.codec.RoundTrips() && Inv(c, s) && Enabled(c, s, Receive(d))
    ensures Inv(c, Next(c, s, Receive(d)))
  {
    var t, x := Next(c, s, Receive(d)), c.owner(d.from, d.dst);
    ReceiveGrows(c, s, d);
    assert DatagramOk(c, s, d) && ArrivalOk(c, s, x, d.packet);
    assert t.nodes == s.nodes[x := ReceiveNode(c, x, s.nodes[x], d)] && t.letters == s.letters;
    ReceiveNodeOk(c, s, t, x, s.nodes[x], d);
    assert t.net == s.net - multiset{d};
    hide *;
    InvAt(c, s, t, x);
  }

  // ---------- acknowledgements and rounds ----------

  lemma TakeAckInv(c: Config, s: Sys, a: SocketAddr)
    requires Inv(c, s) && Enabled(c, s, TakeAck(a))
    ensures Inv(c, Next(c, s, TakeAck(a)))
  {
    var t, node := Next(c, s, TakeAck(a)), s.nodes[a];
    assert t.nodes == s.nodes[a := TakeAckNode(node)] && t.letters == s.letters && t.net == s.net;
    SameHistories(s, t, a);
    TakeAckNodeOk(c, s, t, a, node);
    hide *;
    InvAt(c, s, t, a);
  }

  lemma TakeAckNodeOk(c: Config, s: Sys, t: Sys, a: SocketAddr, node: Node)
    requires NodeOk(c, s, a, node) && Grows(s, t) && node.ia != []
    ensures NodeOk(c, t, a, TakeAckNode(node))
  {
    NodeGrows(c, s, t, a, node);
    var ack := node.ia[0];
    var k := Slot(ack.packetId, ack.packetNumber);
    assert AckTrue(c, t, ack);
    if k in node.outbox {
      AckedOk(c, t, a, k, node.outbox[k], ack);
    }
    hide EntryOk, AckMessageTrue, AckTrue, ArrivalOk, HandledOk, PendingAfter;
  }

  lemma AckedOk(c: Config, s: Sys, a: SocketAddr, k: Slot, e: Entry, ack: AckMessage)
    requires EntryOk(c, s, a, k, e) && AckTrue(c, s, ack) && k == Slot(ack.packetId, ack.packetNumber)
    ensures EntryOk(c, s, a, k, e.(acked := e.acked + {ack.src}))
  {
    hide FromOrigin;
  }

  /** The survivor of a round, whose one destination is missing at most once. */
  lemma ResentOk(c: Config, s: Sys, a: SocketAddr, k: Slot, e: Entry)
    requires EntryOk(c, s, a, k, e) && e.Live()
    ensures EntryOk(c, s, a, k, e.Resent())
    ensures |e.Missing()| <= 1 && e.Missing() <= {s.letters[k.id].to}
  {
    assert e.Missing() <= e.sent == {s.letters[k.id].to};
    if e.Missing() != {} { assert e.Missing() == e.sent; }
    hide FromOrigin;
  }

  lemma ResendOk(c: Config, s: Sys, a: SocketAddr, o: Outbox, d: Datagram)
    requires forall k :: k in o ==> EntryOk(c, s, a, k, o[k])
    requires d in OnWire(c, a, Resends(o, o.Keys))
    ensures DatagramOk(c, s, d)
  {
    var k :| k in o && o[k].Live() && d.dst in o[k].Missing()
             && d == Datagram(a, c.visible(a, d.dst), d.dst, o[k].packet);
    ResentOk(c, s, a, k, o[k]);
    hide FromOrigin;
  }

  lemma RoundInv(c: Config, s: Sys, a: SocketAddr)
    requires Inv(c, s) && Enabled(c, s, Round(a))
    ensures Inv(c, Next(c, s, Round(a)))
  {
    var t, node := Next(c, s, Round(a)), s.nodes[a];
    RoundEffect(c, s, a);
    assert NodeOk(c, s, a, node) by { hide Next, NodeOk, DatagramOk, LetterOk; }
    hide Next, Enabled, Inv, NodeOk, LetterOk, DatagramOk, Grows, OnWire, Resends, Maintained;
    SameHistories(s, t, a);
    RoundNodeOk(c, s, t, a, node);
    forall d | d in t.net ensures d in s.net || DatagramOk(c, t, d) {
      if d !in s.net { RoundDatagram(c, s, t, a, node, d); }
    }
    InvAt(c, s, t, a);
  }

  lemma RoundDatagram(c: Config, s: Sys, t: Sys, a: SocketAddr, node: Node, d: Datagram)
    requires NodeOk(c, s, a, node) && Grows(s, t)
    requires d in OnWire(c, a, Resends(node.outbox, node.outbox.Keys))
    ensures DatagramOk(c, t, d)
  {
    NodeGrows(c, s, t, a, node);
    ResendOk(c, t, a, node.outbox, d);
  }

  lemma RoundNodeOk(c: Config, s: Sys, t: Sys, a: SocketAddr, node: Node)
    requires NodeOk(c, s, a, node) && Grows(s, t)
    ensures NodeOk(c, t, a, node.(outbox := Maintained(node.outbox)))
  {
    NodeGrows(c, s, t, a, node);
    forall k | k in Maintained(node.outbox) ensures EntryOk(c, t, a, k, Maintained(node.outbox)[k]) {
      ResentOk(c, t, a, k, node.outbox[k]);
    }
    hide EntryOk, AckMessageTrue, AckTrue, ArrivalOk, HandledOk, PendingAfter, Maintained;
  }

  lemma MediumInv(c: Config, s: Sys, t: Sys)
    requires Inv(c, s) && t.nodes == s.nodes && t.letters == s.letters
    requires forall d :: d in t.net ==> d in s.net
    ensures Inv(c, t)
  {
    SameNodes(s, t);
    hide *;
    InvFrom(c, s, t);
  }

  lemma LoseInv(c: Config, s: Sys, d: Datagram)
    requires Inv(c, s) && Enabled(c, s, Lose(d))
    ensures Inv(c, Next(c, s, Lose(d)))
  {
    hide Inv, ReceiveNode, OutgoingNode, TakeAckNode, LetterFor, Transmit, OnWire, Burst, Maintained, Resends;
    var t := s.(net := s.net - multiset{d});
    assert Next(c, s, Lose(d)) == t;
    hide *;
    MediumInv(c, s, t);
  }

  lemma DuplicateInv(c: Config, s: Sys, d: Datagram)
    requires Inv(c, s) && Enabled(c, s, Duplicate(d))
    ensures Inv(c, Next(c, s, Duplicate(d)))
  {
    hide Inv, ReceiveNode, OutgoingNode, TakeAckNode, LetterFor, Transmit, OnWire, Burst, Maintained, Resends;
    var t := s.(net := s.net + multiset{d});
    assert Next(c, s, Duplicate(d)) == t && d in s.net;
    hide *;
    MediumInv(c, s, t);
  }

  lemma NextInv(c: Config, s: Sys, act: Action)
    requires c.codec.RoundTrips() && Inv(c, s) && Enabled(c, s, act)
    ensures Inv(c, Next(c, s, act))
  {
    hide Inv, Enabled, Next;
    match act
    case Submit(_, _, _) => SubmitInv(c, s, act);
    case Outgoing(a, id) => OutgoingInv(c, s, a, id);
    case Receive(d) => ReceiveInv(c, s, d);
    case TakeAck(a) => TakeAckInv(c, s, a);
    case Round(a) => RoundInv(c, s, a);
    case Lose(d) => LoseInv(c, s, d);
    case Duplicate(d) => DuplicateInv(c, s, d);
  }

  lemma {:induction false} RunInv(c: Config, s: Sys, t: Trace)
    requires c.codec.RoundTrips() && Inv(c, s) && ExecFrom(c, s, t).Some?
    ensures Inv(c, ExecFrom(c, s, t).value)
  {
    hide Inv, Next, Enabled;
    if t.Do? {
      RunInv(c, s, t.before);
      NextInv(c, ExecFrom(c, s, t.before).value, t.act);
    }
  }

  lemma ReachableInv(c: Config, t: Trace)
    requires c.codec.RoundTrips() && Exec(c, t).Some?
    ensures Inv(c, Exec(c, t).value)
  {
    InitInv(c);
    RunInv(c, Init(c), t);
  }
}
