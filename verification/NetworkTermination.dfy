/** Transport traffic dies out: from any reachable state, once clients submit nothing more and the
    medium repeats nothing of its own accord, only finitely many steps have an effect. */
module NetworkTermination {
  import opened Bytes
  import opened Packets
  import opened Reassembly
  import opened Outbox
  import opened Handler
  import opened Network
  import opened NetworkInvariant
  import Sums

  // ---------- the measure ----------

  /** Steps an acknowledgement waiting to be sent can still cause: its own sending, and for each of
      its packets an arrival and a record of it. */
  function AckCost(c: Config, m: Message): nat {
    1 + 2 * NumPackets(|c.codec.encode(m)|)
  }

  function Weight(c: Config, d: Datagram): nat {
    2 + if d.packet.ret == RETURN_RECEIPT then AckCost(c, c.codec.AckFor(d.packet, c.owner(d.from, d.dst))) else 0
  }

  ghost function DatagramWeight(c: Config): Datagram -> nat {
    d => Weight(c, d)
  }

  ghost function Pick(peers: set<SocketAddr>): SocketAddr {
    if peers == {} then SocketAddr(0, 0) else var to :| to in peers; to
  }

  ghost function Destination(e: Entry): SocketAddr {
    Pick(e.sent)
  }

  /** The datagram a resend of the entry puts on the wire. */
  ghost function Resend(c: Config, a: SocketAddr, e: Entry): Datagram {
    Datagram(a, c.visible(a, Destination(e)), Destination(e), e.packet)
  }

  function Remaining(e: Entry): nat {
    if e.attempts < MAX_ATTEMPTS then MAX_ATTEMPTS - e.attempts else 0
  }

  ghost function EntryCost(c: Config, a: SocketAddr, e: Entry): nat {
    1 + Times(Remaining(e), 1 + Weight(c, Resend(c, a, e)))
  }

  ghost function EntryWeight(c: Config, a: SocketAddr): (Slot, Entry) -> nat {
    (k: Slot, e: Entry) => EntryCost(c, a, e)
  }

  function QueueCost(c: Config, om: seq<(SocketAddr, Message)>): nat {
    if om == [] then 0 else (if om[0].1.head == Ack then AckCost(c, om[0].1) else 0) + QueueCost(c, om[1..])
  }

  function Clients(om: seq<(SocketAddr, Message)>): nat {
    if om == [] then 0 else (if om[0].1.head == Ack then 0 else 1) + Clients(om[1..])
  }

  ghost function NodeCost(c: Config, a: SocketAddr, node: Node): nat {
    QueueCost(c, node.om) + |node.ia| + Sums.OverMap(node.outbox, EntryWeight(c, a))
  }

  ghost function NodeWeight(c: Config): (SocketAddr, Node) -> nat {
    (a: SocketAddr, node: Node) => NodeCost(c, a, node)
  }

  ghost function ClientWeight(): (SocketAddr, Node) -> nat {
    (a: SocketAddr, node: Node) => Clients(node.om)
  }

  /** Client messages not yet taken by outgoing_msg. */
  ghost function Waiting(s: Sys): nat {
    Sums.OverMap(s.nodes, ClientWeight())
  }

  ghost function Potential(c: Config, s: Sys): nat {
    Sums.OverBag(s.net, DatagramWeight(c)) + Sums.OverMap(s.nodes, NodeWeight(c))
  }

  ghost predicate Decreases(c: Config, s: Sys, t: Sys) {
    Waiting(t) < Waiting(s) || (Waiting(t) == Waiting(s) && Potential(c, t) < Potential(c, s))
  }

  /** What may still happen: all but new client messages, spontaneous copies, and rounds with
      nothing in the outbox. */
  predicate Effective(c: Config, s: Sys, act: Action) {
    && Enabled(c, s, act) && !act.Submit? && !act.Duplicate?
    && (act.Round? ==> s.nodes[act.a].outbox != map[])
  }

  lemma IdleRoundChangesNothing(c: Config, s: Sys, a: SocketAddr)
    requires a in s.nodes && s.nodes[a].outbox == map[]
    ensures Next(c, s, Network.Round(a)) == s
  {
    var t, o := Next(c, s, Network.Round(a)), s.nodes[a].outbox;
    assert Maintained(o) == o && OnWire(c, a, Resends(o, o.Keys)) == {};
    assert t.nodes == s.nodes && t.net == s.net && t.sent == s.sent;
  }

  // ---------- queues ----------

  lemma {:induction false} QueueAppend(c: Config, om: seq<(SocketAddr, Message)>, x: (SocketAddr, Message))
    ensures QueueCost(c, om + [x]) == QueueCost(c, om) + if x.1.head == Ack then AckCost(c, x.1) else 0
    ensures Clients(om + [x]) == Clients(om) + if x.1.head == Ack then 0 else 1
  {
    if om == [] {
    } else {
      QueueAppend(c, om[1..], x);
      assert (om + [x])[1..] == om[1..] + [x];
      hide AckCost;
    }
  }

  /** The effect on the measure of changing one node and the medium. */
  lemma OneNode(c: Config, s: Sys, t: Sys, a: SocketAddr, after: Node)
    requires a in s.nodes && t.nodes == s.nodes[a := after]
    ensures Waiting(t) + Clients(s.nodes[a].om) == Waiting(s) + Clients(after.om)
    ensures Potential(c, t) + NodeCost(c, a, s.nodes[a]) + Sums.OverBag(s.net, DatagramWeight(c))
         == Potential(c, s) + NodeCost(c, a, after) + Sums.OverBag(t.net, DatagramWeight(c))
  {
    Sums.MapUpdate(s.nodes, ClientWeight(), a, after);
    Sums.MapUpdate(s.nodes, NodeWeight(c), a, after);
    hide Clients, NodeCost;
  }

  lemma ReceiveDecreases(c: Config, s: Sys, d: Datagram)
    requires Enabled(c, s, Receive(d))
    ensures Decreases(c, s, Next(c, s, Receive(d)))
  {
    var t, x := Next(c, s, Receive(d)), c.owner(d.from, d.dst);
    var node, after := s.nodes[x], ReceiveNode(c, x, s.nodes[x], d);
    assert t.nodes == s.nodes[x := after] && t.net == s.net - multiset{d} && d in s.net;
    var acks := AcksFor(c.codec, d.packet, x, d.src);
    assert after.om == node.om + acks && after.outbox == node.outbox && |after.ia| <= |node.ia| + 1;
    QueueAppend(c, node.om, (d.src, c.codec.AckFor(d.packet, x)));
    assert node.om + [] == node.om;
    assert QueueCost(c, after.om) + 2 == QueueCost(c, node.om) + Weight(c, d) && Clients(after.om) == Clients(node.om);
    hide Next, Enabled, ReceiveNode, QueueCost, Weight, AckCost, Clients;
    Sums.BagSplit(s.net, DatagramWeight(c), d);
    OneNode(c, s, t, x, after);
  }

  lemma LoseDecreases(c: Config, s: Sys, d: Datagram)
    requires Enabled(c, s, Lose(d))
    ensures Decreases(c, s, Next(c, s, Lose(d)))
  {
    Sums.BagSplit(s.net, DatagramWeight(c), d);
  }

  lemma TakeAckDecreases(c: Config, s: Sys, a: SocketAddr)
    requires Enabled(c, s, TakeAck(a))
    ensures Decreases(c, s, Next(c, s, TakeAck(a)))
  {
    var t, node := Next(c, s, TakeAck(a)), s.nodes[a];
    var after := TakeAckNode(node);
    assert t.nodes == s.nodes[a := after] && t.net == s.net;
    var ack := node.ia[0];
    var k := Slot(ack.packetId, ack.packetNumber);
    assert after.om == node.om && |after.ia| == |node.ia| - 1;
    if k in node.outbox {
      var e := node.outbox[k].(acked := node.outbox[k].acked + {ack.src});
      assert EntryCost(c, a, e) == EntryCost(c, a, node.outbox[k]);
      Sums.MapUpdate(node.outbox, EntryWeight(c, a), k, e);
    }
    hide Next, Enabled, EntryCost, QueueCost, Clients;
    OneNode(c, s, t, a, after);
  }

  // ---------- outgoing_msg ----------

  predicate CarriesPart(c: Config, a: SocketAddr, to: SocketAddr, o: Origin, id: InnerKey, d: Datagram) {
    1 <= d.packet.n <= o.Count() && d == Datagram(a, c.visible(a, to), to, PacketAt(o.bytes, id, o.ret, d.packet.n - 1))
  }

  lemma BurstDatagram(c: Config, a: SocketAddr, to: SocketAddr, o: Origin, id: InnerKey, d: Datagram)
    requires d in OnWire(c, a, Burst(to, o, id))
    ensures CarriesPart(c, a, to, o, id, d) && d.packet.ret == o.ret
  {
    BurstLists(to, o, id, o.Count(), (d.dst, d.packet));
    hide BurstOf, NumPackets;
  }

  lemma BurstCost(c: Config, a: SocketAddr, to: SocketAddr, o: Origin, id: InnerKey)
    requires o.ret != RETURN_RECEIPT
    ensures Sums.OverSet(OnWire(c, a, Burst(to, o, id)), DatagramWeight(c)) <= 2 * o.Count()
  {
    var burst := OnWire(c, a, Burst(to, o, id));
    forall d | d in burst ensures CarriesPart(c, a, to, o, id, d) && DatagramWeight(c)(d) <= 2 {
      BurstDatagram(c, a, to, o, id, d);
    }
    hide PacketAt, OnWire, Burst, Weight, DatagramWeight;
    Sums.SetBound(burst, DatagramWeight(c), 2);
    Sums.InjectionSize(burst, Numbers(o.Count()), (d: Datagram) => d.packet.n);
    assert Times(2, |burst|) == 2 * |burst|;
  }

  lemma OutgoingDecreases(c: Config, s: Sys, a: SocketAddr, id: InnerKey)
    requires Enabled(c, s, Outgoing(a, id))
    ensures Decreases(c, s, Next(c, s, Outgoing(a, id)))
  {
    var t, node := Next(c, s, Outgoing(a, id)), s.nodes[a];
    var l := OutgoingEffect(c, s, a, id);
    var after := OutgoingNode(node, l, id);
    assert after.om == node.om[1..] && after.ia == node.ia && l.message == node.om[0].1;
    if l.message.head == Ack {
      assert l.origin == Origin(c.codec.encode(l.message), 0) && after.outbox == node.outbox;
      assert QueueCost(c, node.om) == 1 + 2 * l.origin.Count() + QueueCost(c, after.om);
      BurstCost(c, a, l.to, l.origin, id);
    }
    assert Clients(node.om) == (if l.message.head == Ack then 0 else 1) + Clients(after.om);
    hide Next, Enabled, OutgoingNode, LetterFor, QueueCost, Clients, OnWire, Burst, Origin.Count;
    OneNode(c, s, t, a, after);
    Sums.BagAdd(s.net, multiset(OnWire(c, a, Burst(l.to, l.origin, id))), DatagramWeight(c));
  }

  // ---------- rounds ----------

  /** A round pays for every datagram it sends, and a step for every entry, out of the entries. */
  lemma {:induction false} RoundPays(c: Config, s: Sys, a: SocketAddr, o: Outbox)
    requires forall k :: k in o ==> EntryOk(c, s, a, k, o[k])
    ensures Sums.OverMap(Maintained(o), EntryWeight(c, a))
          + Sums.OverSet(OnWire(c, a, Resends(o, o.Keys)), DatagramWeight(c)) + |o|
         <= Sums.OverMap(o, EntryWeight(c, a))
    decreases |o|
  {
    if o == map[] {
      assert Maintained(o) == map[] && OnWire(c, a, Resends(o, o.Keys)) == {};
      assert multiset(OnWire(c, a, Resends(o, o.Keys))) == multiset{};
    } else {
      var k :| k in o;
      var rest := o - {k};
      assert rest.Keys == o.Keys - {k} && |rest| == |o| - 1;
      RoundPays(c, s, a, rest);
      EntryPays(c, s, a, k, o[k]);
      assert o[k].Live() ==> DatagramWeight(c)(Resend(c, a, o[k])) == Weight(c, Resend(c, a, o[k]));
      hide Maintained, OnWire, Resends, EntryOk, EntryCost, Weight, Entry.Live, Entry.Resent, Resend;
      Sums.MapSplit(o, EntryWeight(c, a), k);
      if o[k].Live() {
        SurvivorMap(o, k);
        Sums.MapSplit(Maintained(o), EntryWeight(c, a), k);
        SurvivorWire(c, s, a, o, k);
        Sums.SetSingle(Resend(c, a, o[k]), DatagramWeight(c));
        Sums.SetAdd(OnWire(c, a, Resends(rest, rest.Keys)), {Resend(c, a, o[k])}, DatagramWeight(c));
      } else {
        DroppedMap(o, k);
      }
    }
  }

  lemma DroppedMap(o: Outbox, k: Slot)
    requires k in o && !o[k].Live()
    ensures Maintained(o) == Maintained(o - {k}) && Resends(o, o.Keys) == Resends(o - {k}, (o - {k}).Keys)
  {
    forall x | x in Resends(o, o.Keys) ensures x in Resends(o - {k}, (o - {k}).Keys) {
      var j :| j in o && o[j].Live() && x.0 in o[j].Missing() && x.1 == o[j].packet;
      InResends(o - {k}, j, x.0);
    }
  }

  lemma InResends(o: Outbox, k: Slot, a: SocketAddr)
    requires k in o && o[k].Live() && a in o[k].Missing()
    ensures (a, o[k].packet) in Resends(o, o.Keys)
  {
  }

  lemma EntryPays(c: Config, s: Sys, a: SocketAddr, k: Slot, e: Entry)
    requires EntryOk(c, s, a, k, e)
    ensures EntryCost(c, a, e) >= 1
    ensures e.Live() ==> EntryCost(c, a, e.Resent()) + Weight(c, Resend(c, a, e)) + 1 == EntryCost(c, a, e)
  {
    hide Weight, EntryOk;
    if e.Live() {
      OneMissing(c, s, a, k, e);
      var w := 1 + Weight(c, Resend(c, a, e));
      assert Resend(c, a, e.Resent()) == Resend(c, a, e) && Remaining(e) == Remaining(e.Resent()) + 1;
      hide Remaining, Resend, Entry.Resent;
      OneStep(Remaining(e.Resent()), w);
    }
  }

  lemma OneStep(n: nat, w: nat)
    ensures Times(n + 1, w) == Times(n, w) + w
  {
  }

  /** The single destination of a live entry has not acknowledged. */
  lemma OneMissing(c: Config, s: Sys, a: SocketAddr, k: Slot, e: Entry)
    requires EntryOk(c, s, a, k, e) && e.Live()
    ensures e.Missing() == {Destination(e)} && e.sent == {Destination(e)} && |e.Missing()| == 1
  {
    var to := s.letters[k.id].to;
    assert e.sent == {to} && Destination(e) == to;
    assert to in e.acked ==> e.acked == {to};
    assert e.Missing() == {to};
  }

  lemma SurvivorMap(o: Outbox, k: Slot)
    requires k in o && o[k].Live()
    ensures k in Maintained(o) && Maintained(o)[k] == o[k].Resent() && Maintained(o) - {k} == Maintained(o - {k})
  {
  }

  lemma SurvivorWire(c: Config, s: Sys, a: SocketAddr, o: Outbox, k: Slot)
    requires forall j :: j in o ==> EntryOk(c, s, a, j, o[j])
    requires k in o && o[k].Live()
    ensures var rest := o - {k};
            && OnWire(c, a, Resends(o, o.Keys)) == OnWire(c, a, Resends(rest, rest.Keys)) + {Resend(c, a, o[k])}
            && OnWire(c, a, Resends(rest, rest.Keys)) !! {Resend(c, a, o[k])}
  {
    var rest := o - {k};
    OneMissing(c, s, a, k, o[k]);
    var pair := (Destination(o[k]), o[k].packet);
    SurvivorPairs(o, k, Destination(o[k]));
    assert Resend(c, a, o[k]) == Datagram(a, c.visible(a, pair.0), pair.0, pair.1);
    forall d | d in OnWire(c, a, Resends(rest, rest.Keys)) ensures d != Resend(c, a, o[k]) {
      var j :| j in rest && rest[j].Live() && d.packet == rest[j].packet;
      assert EntryOk(c, s, a, j, o[j]) && EntryOk(c, s, a, k, o[k]);
    }
  }

  lemma SurvivorPairs(o: Outbox, k: Slot, to: SocketAddr)
    requires k in o && o[k].Live() && o[k].Missing() == {to}
    ensures Resends(o, o.Keys) == Resends(o - {k}, (o - {k}).Keys) + {(to, o[k].packet)}
  {
    forall x | x in Resends(o, o.Keys) ensures x in Resends(o - {k}, (o - {k}).Keys) + {(to, o[k].packet)} {
      var j :| j in o && o[j].Live() && x.0 in o[j].Missing() && x.1 == o[j].packet;
      if j != k { InResends(o - {k}, j, x.0); }
    }
    InResends(o, k, to);
  }

  lemma RoundDecreases(c: Config, s: Sys, a: SocketAddr)
    requires Inv(c, s) && Enabled(c, s, Network.Round(a)) && s.nodes[a].outbox != map[]
    ensures Decreases(c, s, Next(c, s, Network.Round(a)))
  {
    var o := s.nodes[a].outbox;
    EntriesOk(c, s, a);
    RoundEffect(c, s, a);
    hide *;
    RoundPays(c, s, a, o);
    RoundMeasure(c, s, Next(c, s, Network.Round(a)), a);
  }

  lemma RoundMeasure(c: Config, s: Sys, t: Sys, a: SocketAddr)
    requires RoundStep(c, s, t, a) && s.nodes[a].outbox != map[]
    requires var o := s.nodes[a].outbox;
             Sums.OverMap(Maintained(o), EntryWeight(c, a))
             + Sums.OverSet(OnWire(c, a, Resends(o, o.Keys)), DatagramWeight(c)) + |o|
             <= Sums.OverMap(o, EntryWeight(c, a))
    ensures Decreases(c, s, t)
  {
    var node, o := s.nodes[a], s.nodes[a].outbox;
    hide Maintained, OnWire, Resends, QueueCost, Clients, EntryWeight, DatagramWeight, Sums.OverMap, Sums.OverBag;
    assert |o| > 0;
    OneNode(c, s, t, a, node.(outbox := Maintained(o)));
    Sums.BagAdd(s.net, multiset(OnWire(c, a, Resends(o, o.Keys))), DatagramWeight(c));
  }

  lemma EntriesOk(c: Config, s: Sys, a: SocketAddr)
    requires Inv(c, s) && a in s.nodes
    ensures forall k :: k in s.nodes[a].outbox ==> EntryOk(c, s, a, k, s.nodes[a].outbox[k])
  {
    assert NodeOk(c, s, a, s.nodes[a]);
    hide EntryOk, Inv;
  }

  lemma StepDecreases(c: Config, s: Sys, act: Action)
    requires Inv(c, s) && Effective(c, s, act)
    ensures Decreases(c, s, Next(c, s, act))
  {
    hide Inv, Enabled, Next, Decreases;
    match act
    case Outgoing(a, id) => OutgoingDecreases(c, s, a, id);
    case Receive(d) => ReceiveDecreases(c, s, d);
    case TakeAck(a) => TakeAckDecreases(c, s, a);
    case Round(a) => RoundDecreases(c, s, a);
    case Lose(d) => LoseDecreases(c, s, d);
  }

  /** A round with nothing to send, which any schedule may have at any time. */
  predicate Idle(s: Sys, act: Action) {
    act.Round? && act.a in s.nodes && s.nodes[act.a].outbox == map[]
  }

  /** An infinite schedule by the rules, without new client messages and spontaneous copies. */
  ghost predicate Schedule(c: Config, states: nat -> Sys, acts: nat -> Action) {
    forall i: nat :: Scheduled(c, states, acts, i)
  }

  ghost predicate Scheduled(c: Config, states: nat -> Sys, acts: nat -> Action, i: nat) {
    && Enabled(c, states(i), acts(i)) && !acts(i).Submit? && !acts(i).Duplicate?
    && states(i + 1) == Next(c, states(i), acts(i))
  }

  /** From step i on there are idle rounds only, and nothing changes. */
  ghost predicate RestsFrom(states: nat -> Sys, acts: nat -> Action, i: nat) {
    forall j: nat :: j >= i ==> Idle(states(j), acts(j)) && states(j) == states(i)
  }

  /** Every infinite schedule from a reachable state, with whatever idle rounds in between, comes to a
      point after which it has idle rounds only, and nothing changes any more. */
  lemma TrafficDiesOut(c: Config, t: Trace, states: nat -> Sys, acts: nat -> Action)
    requires c.codec.RoundTrips() && Exec(c, t) == Some(states(0)) && Schedule(c, states, acts)
    ensures exists i: nat :: RestsFrom(states, acts, i)
  {
    ReachableInv(c, t);
    var i := LastEffect(c, states, acts, 0);
  }

  lemma {:induction false} LastEffect(c: Config, states: nat -> Sys, acts: nat -> Action, i: nat) returns (end: nat)
    requires c.codec.RoundTrips() && Inv(c, states(i)) && Schedule(c, states, acts)
    ensures RestsFrom(states, acts, end)
    decreases Waiting(states(i)), Potential(c, states(i))
  {
    hide Inv, Enabled, Next, Waiting, Potential, Idle;
    if k: nat :| k >= i && !Idle(states(k), acts(k)) {
      var first := FirstEffect(states, acts, i, k);
      IdleUntil(c, states, acts, i, first);
      assert Scheduled(c, states, acts, first);
      EffectiveUnlessIdle(c, states(first), acts(first));
      NextInv(c, states(first), acts(first));
      StepDecreases(c, states(first), acts(first));
      end := LastEffect(c, states, acts, first + 1);
    } else {
      end := i;
      forall j: nat | j >= i ensures Idle(states(j), acts(j)) && states(j) == states(i) {
        IdleUntil(c, states, acts, i, j);
      }
    }
  }

  lemma {:induction false} FirstEffect(states: nat -> Sys, acts: nat -> Action, i: nat, k: nat) returns (first: nat)
    requires i <= k && !Idle(states(k), acts(k))
    ensures i <= first <= k && !Idle(states(first), acts(first))
    ensures forall j: nat :: i <= j < first ==> Idle(states(j), acts(j))
    decreases k - i
  {
    hide Idle;
    if Idle(states(i), acts(i)) {
      first := FirstEffect(states, acts, i + 1, k);
    } else {
      first := i;
    }
  }

  lemma {:induction false} IdleUntil(c: Config, states: nat -> Sys, acts: nat -> Action, i: nat, j: nat)
    requires Schedule(c, states, acts) && i <= j
    requires forall k: nat :: i <= k < j ==> Idle(states(k), acts(k))
    ensures states(j) == states(i)
    decreases j - i
  {
    if i < j {
      IdleUntil(c, states, acts, i, j - 1);
      var k: nat := j - 1;
      assert Scheduled(c, states, acts, k) && Idle(states(k), acts(k));
      IdleRoundChangesNothing(c, states(k), acts(k).a);
      hide Next, Enabled;
      assert acts(k) == Network.Round(acts(k).a);
    }
  }

  lemma EffectiveUnlessIdle(c: Config, s: Sys, act: Action)
    requires Enabled(c, s, act) && !act.Submit? && !act.Duplicate? && !Idle(s, act)
    ensures Effective(c, s, act)
  {}
}
