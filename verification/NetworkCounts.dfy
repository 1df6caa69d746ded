/** How often things are sent and delivered, over every run of the network. */
module NetworkCounts {
  import opened Bytes
  import opened Packets
  import opened Reassembly
  import opened Outbox
  import opened Handler
  import opened Transport
  import opened Network
  import opened NetworkInvariant

  /** The datagram that carries the packet of an entry. */
  function Carrier(c: Config, s: Sys, e: Entry): Datagram
    requires e.packet.id in s.letters
  {
    var l := s.letters[e.packet.id];
    Datagram(l.from, c.visible(l.from, l.to), l.to, e.packet)
  }

  /** The most often a packet is put on the wire. */
  function Cap(ret: byte): nat {
    if ret == RETURN_RECEIPT then MAX_ATTEMPTS else 1
  }

  ghost predicate SentOk(c: Config, s: Sys) {
    forall d :: d in s.sent ==> DatagramOk(c, s, d) && s.sent[d] <= Cap(d.packet.ret)
  }

  /** Conservation: the attempts of an entry are the transmissions of its packet. */
  predicate CountedAt(c: Config, s: Sys, o: Outbox) {
    forall k :: k in o ==> o[k].packet.id in s.letters && s.sent[Carrier(c, s, o[k])] == o[k].attempts
  }

  ghost predicate Counted(c: Config, s: Sys) {
    SentOk(c, s) && forall a :: a in s.nodes ==> CountedAt(c, s, s.nodes[a].outbox)
  }

  // ---------- sending ----------

  lemma FreshNotSent(c: Config, s: Sys, d: Datagram)
    requires SentOk(c, s) && d.packet.id !in s.letters
    ensures s.sent[d] == 0
  {
    assert d !in s.sent;
  }

  lemma SentOkGrows(c: Config, s: Sys, t: Sys)
    requires SentOk(c, s) && Grows(s, t)
    requires forall d :: d in t.sent ==>
               (d in s.sent && t.sent[d] == s.sent[d]) || (DatagramOk(c, t, d) && t.sent[d] <= Cap(d.packet.ret))
    ensures SentOk(c, t)
  {
    forall d | d in t.sent ensures DatagramOk(c, t, d) && t.sent[d] <= Cap(d.packet.ret) {
      if d in s.sent && !DatagramOk(c, t, d) { OriginGrows(s, t, d.packet); }
    }
  }

  lemma CountedUnchanged(c: Config, s: Sys, t: Sys, o: Outbox)
    requires CountedAt(c, s, o) && Grows(s, t)
    requires forall k :: k in o ==> t.sent[Carrier(c, t, o[k])] == s.sent[Carrier(c, t, o[k])]
    ensures CountedAt(c, t, o)
  {
  }

  lemma BurstOnce(c: Config, t: Sys, s: Sys, l: Letter, id: InnerKey, d: Datagram)
    requires SentOk(c, s) && id !in s.letters && t.letters == s.letters[id := l]
    requires t.sent == s.sent + multiset(OnWire(c, l.from, Burst(l.to, l.origin, id)))
    requires d in OnWire(c, l.from, Burst(l.to, l.origin, id))
    ensures DatagramOk(c, t, d) && d.packet.id == id && t.sent[d] == 1
  {
    BurstOk(c, t, l, id, d);
    FreshNotSent(c, s, d);
  }

  lemma FirstCounted(c: Config, s: Sys, t: Sys, l: Letter, id: InnerKey, n: nat)
    requires SentOk(c, s) && id !in s.letters && t.letters == s.letters[id := l] && 1 <= n <= l.origin.Count()
    requires t.sent == s.sent + multiset(OnWire(c, l.from, Burst(l.to, l.origin, id)))
    ensures var e := FirstEntry(l.to, l.origin, id, n);
            e.packet.id == id && t.sent[Carrier(c, t, e)] == 1 == e.attempts
  {
    var e := FirstEntry(l.to, l.origin, id, n);
    BurstLists(l.to, l.origin, id, l.origin.Count(), (l.to, e.packet));
    assert (l.to, e.packet) in Burst(l.to, l.origin, id);
    assert Carrier(c, t, e) in OnWire(c, l.from, Burst(l.to, l.origin, id));
    BurstOnce(c, t, s, l, id, Carrier(c, t, e));
  }

  lemma CountedFrom(c: Config, s: Sys, t: Sys, a: SocketAddr, after: Node)
    requires t.nodes == s.nodes[a := after] && SentOk(c, t) && CountedAt(c, t, after.outbox)
    requires forall b :: b in s.nodes && b != a ==> CountedAt(c, t, s.nodes[b].outbox)
    ensures Counted(c, t)
  {
    hide SentOk, CountedAt;
  }

  lemma OutgoingSent(c: Config, s: Sys, t: Sys, l: Letter, id: InnerKey)
    requires SentOk(c, s) && Grows(s, t) && id !in s.letters && t.letters == s.letters[id := l]
    requires t.sent == s.sent + multiset(OnWire(c, l.from, Burst(l.to, l.origin, id)))
    ensures SentOk(c, t)
  {
    forall d | d in t.sent
      ensures (d in s.sent && t.sent[d] == s.sent[d]) || (DatagramOk(c, t, d) && t.sent[d] <= Cap(d.packet.ret))
    {
      if d in OnWire(c, l.from, Burst(l.to, l.origin, id)) { BurstOnce(c, t, s, l, id, d); }
    }
    hide DatagramOk, Grows, OnWire, Burst, Cap;
    SentOkGrows(c, s, t);
  }

  lemma OutgoingCounts(c: Config, s: Sys, a: SocketAddr, id: InnerKey)
    requires Inv(c, s) && Counted(c, s) && Enabled(c, s, Outgoing(a, id))
    ensures Counted(c, Next(c, s, Outgoing(a, id)))
  {
    var t, node := Next(c, s, Outgoing(a, id)), s.nodes[a];
    var l := OutgoingEffect(c, s, a, id);
    assert NodeOk(c, s, a, node) && SentOk(c, s) by { hide Next, NodeOk, DatagramOk, LetterOk; }
    hide *;
    OutgoingCountsFrom(c, s, t, a, id, l, node);
  }

  lemma OutgoingCountsFrom(c: Config, s: Sys, t: Sys, a: SocketAddr, id: InnerKey, l: Letter, node: Node)
    requires Counted(c, s) && OutgoingStep(c, s, t, a, id, l) && node == s.nodes[a]
    requires NodeOk(c, s, a, node) && SentOk(c, s)
    ensures Counted(c, t)
  {
    hide SentOk, CountedAt, NodeOk, Grows, LetterFor, OutgoingNode, OnWire, Burst;
    SameHistories(s, t, a);
    OutgoingSent(c, s, t, l, id);
    forall b | b in s.nodes ensures CountedAt(c, t, s.nodes[b].outbox) {
      OldCounted(c, s, t, l, id, s.nodes[b].outbox);
    }
    OutgoingCounted(c, s, t, l, id, node);
    CountedFrom(c, s, t, a, OutgoingNode(node, l, id));
  }

  lemma OldCounted(c: Config, s: Sys, t: Sys, l: Letter, id: InnerKey, o: Outbox)
    requires SentOk(c, s) && CountedAt(c, s, o) && Grows(s, t) && id !in s.letters && t.letters == s.letters[id := l]
    requires t.sent == s.sent + multiset(OnWire(c, l.from, Burst(l.to, l.origin, id)))
    ensures CountedAt(c, t, o)
  {
    forall k | k in o ensures t.sent[Carrier(c, t, o[k])] == s.sent[Carrier(c, t, o[k])] {
      if Carrier(c, t, o[k]) in OnWire(c, l.from, Burst(l.to, l.origin, id)) {
        BurstOnce(c, t, s, l, id, Carrier(c, t, o[k]));
      }
    }
    CountedUnchanged(c, s, t, o);
  }

  lemma OutgoingCounted(c: Config, s: Sys, t: Sys, l: Letter, id: InnerKey, node: Node)
    requires SentOk(c, s) && NodeOk(c, s, l.from, node)
    requires id !in s.letters && t.letters == s.letters[id := l] && CountedAt(c, t, node.outbox)
    requires t.sent == s.sent + multiset(OnWire(c, l.from, Burst(l.to, l.origin, id)))
    requires node.om != []
    ensures CountedAt(c, t, OutgoingNode(node, l, id).outbox)
  {
    if l.message.head == Ack { return; }
    var count, before := l.origin.Count(), node.outbox;
    forall k | k in before ensures k.id != id { assert EntryOk(c, s, l.from, k, before[k]); }
    SentAllFresh(before, l.to, l.origin, id, count);
    NewEntriesListed(l.to, l.origin, id, count);
    var o := SentAll(before, l.to, l.origin.Packets(id), count);
    forall k | k in o ensures o[k].packet.id in t.letters && t.sent[Carrier(c, t, o[k])] == o[k].attempts {
      if k in NewEntries(l.to, l.origin, id, count) { FirstCounted(c, s, t, l, id, k.n); }
    }
  }

  /** A round resends the packet of a surviving entry once or not at all. */
  lemma ResentOnce(c: Config, s: Sys, a: SocketAddr, o: Outbox, k: Slot)
    requires forall j :: j in o ==> EntryOk(c, s, a, j, o[j])
    requires k in o
    ensures o[k].packet.id in s.letters
    ensures multiset(OnWire(c, a, Resends(o, o.Keys)))[Carrier(c, s, o[k])]
         == if o[k].Live() then |o[k].Missing()| else 0
  {
    var e, to := o[k], s.letters[k.id].to;
    var d := Carrier(c, s, e);
    assert EntryOk(c, s, a, k, e) && d == Datagram(a, c.visible(a, to), to, e.packet);
    assert d in OnWire(c, a, Resends(o, o.Keys)) <==> (to, e.packet) in Resends(o, o.Keys);
    if (to, e.packet) in Resends(o, o.Keys) {
      var j :| j in o && o[j].Live() && to in o[j].Missing() && o[j].packet == e.packet;
      assert EntryOk(c, s, a, j, o[j]) && j == k;
    }
    if e.Live() {
      ResentOk(c, s, a, k, e);
      assert to in e.Missing() ==> e.Missing() == {to};
      assert to !in e.Missing() ==> e.Missing() == {};
    }
  }

  /** A resent datagram carries the packet of a live entry of this node. */
  lemma ResendOrigin(c: Config, s: Sys, a: SocketAddr, o: Outbox, d: Datagram) returns (k: Slot)
    requires forall j :: j in o ==> EntryOk(c, s, a, j, o[j])
    requires d in OnWire(c, a, Resends(o, o.Keys))
    ensures k in o && o[k].Live() && o[k].packet.id in s.letters && d == Carrier(c, s, o[k])
    ensures o[k].packet.ret == RETURN_RECEIPT && s.letters[o[k].packet.id].from == a
  {
    k :| k in o && o[k].Live() && d.dst in o[k].Missing() && d == Datagram(a, c.visible(a, d.dst), d.dst, o[k].packet);
    assert EntryOk(c, s, a, k, o[k]);
    ResentOk(c, s, a, k, o[k]);
  }

  lemma RoundSent(c: Config, s: Sys, t: Sys, a: SocketAddr, node: Node)
    requires SentOk(c, s) && CountedAt(c, s, node.outbox) && NodeOk(c, s, a, node) && Grows(s, t)
    requires t.letters == s.letters
    requires t.sent == s.sent + multiset(OnWire(c, a, Resends(node.outbox, node.outbox.Keys)))
    ensures SentOk(c, t)
  {
    forall d | d in t.sent
      ensures (d in s.sent && t.sent[d] == s.sent[d]) || (DatagramOk(c, t, d) && t.sent[d] <= Cap(d.packet.ret))
    {
      if d in OnWire(c, a, Resends(node.outbox, node.outbox.Keys)) {
        var k := ResendOrigin(c, s, a, node.outbox, d);
        RoundDatagram(c, s, t, a, node, d);
      }
    }
    hide DatagramOk, Grows, OnWire, Resends, NodeOk, CountedAt;
    SentOkGrows(c, s, t);
  }

  lemma RoundCounted(c: Config, s: Sys, t: Sys, a: SocketAddr, node: Node)
    requires CountedAt(c, s, node.outbox) && NodeOk(c, s, a, node) && t.letters == s.letters
    requires t.sent == s.sent + multiset(OnWire(c, a, Resends(node.outbox, node.outbox.Keys)))
    ensures CountedAt(c, t, Maintained(node.outbox))
  {
    var o := node.outbox;
    forall k | k in Maintained(o)
      ensures o[k].packet.id in t.letters && t.sent[Carrier(c, t, Maintained(o)[k])] == Maintained(o)[k].attempts
    {
      assert forall j :: j in o ==> EntryOk(c, s, a, j, o[j]) by { hide EntryOk; }
      hide NodeOk, OnWire, Resends, EntryOk;
      ResentOnce(c, s, a, o, k);
    }
  }

  lemma RoundCounts(c: Config, s: Sys, a: SocketAddr)
    requires Inv(c, s) && Counted(c, s) && Enabled(c, s, Network.Round(a))
    ensures Counted(c, Next(c, s, Network.Round(a)))
  {
    var t, node := Next(c, s, Network.Round(a)), s.nodes[a];
    RoundEffect(c, s, a);
    assert forall b :: b in s.nodes ==> NodeOk(c, s, b, s.nodes[b]) by { hide Next, NodeOk, DatagramOk, LetterOk; }
    hide Next, Enabled, Inv, SentOk, CountedAt, NodeOk, Grows, OnWire, Resends, Maintained;
    SameHistories(s, t, a);
    RoundSent(c, s, t, a, node);
    RoundCounted(c, s, t, a, node);
    forall b | b in s.nodes && b != a ensures CountedAt(c, t, s.nodes[b].outbox) {
      OthersCounted(c, s, t, a, b);
    }
    CountedFrom(c, s, t, a, node.(outbox := Maintained(node.outbox)));
  }

  lemma OthersCounted(c: Config, s: Sys, t: Sys, a: SocketAddr, b: SocketAddr)
    requires a in s.nodes && b in s.nodes && a != b
    requires NodeOk(c, s, b, s.nodes[b]) && CountedAt(c, s, s.nodes[b].outbox)
    requires t.letters == s.letters
    requires t.sent == s.sent + multiset(OnWire(c, a, Resends(s.nodes[a].outbox, s.nodes[a].outbox.Keys)))
    ensures CountedAt(c, t, s.nodes[b].outbox)
  {
    var o := s.nodes[b].outbox;
    forall k | k in o ensures t.sent[Carrier(c, t, o[k])] == s.sent[Carrier(c, s, o[k])] {
      assert EntryOk(c, s, b, k, o[k]) && Carrier(c, s, o[k]).from == b;
    }
  }

  lemma SentOkSame(c: Config, s: Sys, t: Sys)
    requires SentOk(c, s) && t.letters == s.letters && t.sent == s.sent
    ensures SentOk(c, t)
  {
    assert s.Origins() == t.Origins();
    hide FromOrigin;
  }

  lemma QuietCountedAt(c: Config, s: Sys, t: Sys, o: Outbox, p: Outbox)
    requires t.letters == s.letters && t.sent == s.sent && CountedAt(c, s, o)
    requires forall k :: k in p ==> k in o && p[k].packet == o[k].packet && p[k].attempts == o[k].attempts
    ensures CountedAt(c, t, p)
  {
  }

  lemma QuietCounts(c: Config, s: Sys, act: Action)
    requires Counted(c, s) && Enabled(c, s, act) && !act.Outgoing? && !act.Round?
    ensures Counted(c, Next(c, s, act))
  {
    var t := Next(c, s, act);
    QuietShape(c, s, act);
    hide Next, Enabled, CountedAt, SentOk;
    SentOkSame(c, s, t);
    forall b | b in t.nodes ensures CountedAt(c, t, t.nodes[b].outbox) {
      QuietOutbox(c, s, act, b);
      QuietCountedAt(c, s, t, s.nodes[b].outbox, t.nodes[b].outbox);
    }
  }

  lemma QuietShape(c: Config, s: Sys, act: Action)
    requires Enabled(c, s, act) && !act.Outgoing? && !act.Round?
    ensures var t := Next(c, s, act);
            t.letters == s.letters && t.sent == s.sent && t.nodes.Keys == s.nodes.Keys
  {
    hide ReceiveNode;
  }

  lemma QuietOutbox(c: Config, s: Sys, act: Action, b: SocketAddr)
    requires Enabled(c, s, act) && !act.Outgoing? && !act.Round? && b in s.nodes
    ensures b in Next(c, s, act).nodes
    ensures var o, p := s.nodes[b].outbox, Next(c, s, act).nodes[b].outbox;
            forall k :: k in p ==> k in o && p[k].packet == o[k].packet && p[k].attempts == o[k].attempts
  {
    hide Insert, Handed, RouteOf, AcksFor;
  }

  lemma StepCounts(c: Config, s: Sys, act: Action)
    requires Inv(c, s) && Counted(c, s) && Enabled(c, s, act)
    ensures Counted(c, Next(c, s, act))
  {
    hide Inv, Counted, Enabled, Next;
    match act
    case Outgoing(a, id) => OutgoingCounts(c, s, a, id);
    case Round(a) => RoundCounts(c, s, a);
    case Submit(_, _, _) | Receive(_) | TakeAck(_) | Lose(_) | Duplicate(_) => QuietCounts(c, s, act);
  }

  lemma {:induction false} RunCounts(c: Config, t: Trace)
    requires c.codec.RoundTrips() && Exec(c, t).Some?
    ensures Counted(c, Exec(c, t).value)
  {
    hide Inv, Counted, Enabled, Next;
    if t.Start? {
      assert Counted(c, Init(c)) by { InitCounted(c); }
    } else {
      RunCounts(c, t.before);
      ReachableInv(c, t.before);
      StepCounts(c, Exec(c, t.before).value, t.act);
    }
  }

  lemma InitCounted(c: Config)
    ensures Counted(c, Init(c))
  {
  }

  /** Under fresh ids no packet is ever put on the wire more than ten times, and one that asks for
      no receipt only once; and for a packet still in an outbox the attempts recorded are exactly
      the transmissions made. */
  lemma TransmissionsAreBounded(c: Config, t: Trace)
    requires c.codec.RoundTrips() && Exec(c, t).Some?
    ensures var s := Exec(c, t).value;
            && (forall d :: d in s.sent ==>
                  s.sent[d] <= if d.packet.ret == RETURN_RECEIPT then MAX_ATTEMPTS else 1)
            && (forall a, k :: a in s.nodes && k in s.nodes[a].outbox ==>
                  s.nodes[a].outbox[k].packet.id in s.letters
                  && s.sent[Carrier(c, s, s.nodes[a].outbox[k])] == s.nodes[a].outbox[k].attempts)
  {
    RunCounts(c, t);
    var s := Exec(c, t).value;
    forall a, k | a in s.nodes && k in s.nodes[a].outbox
      ensures s.nodes[a].outbox[k].packet.id in s.letters
      ensures s.sent[Carrier(c, s, s.nodes[a].outbox[k])] == s.nodes[a].outbox[k].attempts
    {
      assert CountedAt(c, s, s.nodes[a].outbox);
    }
  }
}
