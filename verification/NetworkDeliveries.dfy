/** How often a message is delivered when the medium repeats nothing of its own accord. */
module NetworkDeliveries {
  import opened Bytes
  import opened Packets
  import opened Reassembly
  import opened Outbox
  import opened Transport
  import opened Network
  import opened NetworkInvariant
  import opened NetworkCounts

  predicate NoDuplicates(t: Trace) {
    t.Do? ==> NoDuplicates(t.before) && !t.act.Duplicate?
  }

  function CountIn(h: History, p: Packet): nat {
    if h.Fresh? then 0 else CountIn(h.before, p) + if h.last == p then 1 else 0
  }

  function Arrived(c: Config, s: Sys, d: Datagram): nat {
    if c.owner(d.from, d.dst) in s.nodes then CountIn(s.nodes[c.owner(d.from, d.dst)].history, d.packet) else 0
  }

  /** No more copies are in flight or have arrived than were sent. */
  ghost predicate OnceEach(c: Config, s: Sys) {
    forall d :: DatagramOk(c, s, d) ==> s.net[d] + Arrived(c, s, d) <= s.sent[d]
  }

  lemma {:induction false} CountInSet(h: History, p: Packet)
    ensures CountIn(h, p) > 0 <==> p in h.Set()
  {
    if h.Then? {
      CountInSet(h.before, p);
    }
  }

  /** The packet determines the datagram that carries it. */
  lemma CarrierUnique(c: Config, s: Sys, d: Datagram, e: Datagram)
    requires DatagramOk(c, s, d) && DatagramOk(c, s, e) && d.packet == e.packet
    ensures d == e
  {
  }

  lemma NothingBefore(c: Config, s: Sys, d: Datagram)
    requires Inv(c, s) && d.packet.id !in s.letters
    ensures s.net[d] == 0 && Arrived(c, s, d) == 0
  {
    var x := c.owner(d.from, d.dst);
    if x in s.nodes {
      assert NodeOk(c, s, x, s.nodes[x]);
      CountInSet(s.nodes[x].history, d.packet);
      assert forall p :: p in s.nodes[x].history.Set() ==> ArrivalOk(c, s, x, p);
    }
  }

  /** A step that only transmits. */
  lemma TransmitOnce(c: Config, s: Sys, t: Sys, added: multiset<Datagram>)
    requires Inv(c, s) && OnceEach(c, s) && Grows(s, t)
    requires t.net == s.net + added && t.sent == s.sent + added && t.nodes.Keys == s.nodes.Keys
    requires forall a :: a in s.nodes ==> t.nodes[a].history == s.nodes[a].history
    ensures OnceEach(c, t)
  {
    forall d | DatagramOk(c, t, d) ensures t.net[d] + Arrived(c, t, d) <= t.sent[d] {
      assert Arrived(c, t, d) == Arrived(c, s, d);
      if d.packet.id in s.letters {
        OkBefore(c, s, t, d);
      } else {
        NothingBefore(c, s, d);
      }
    }
  }

  lemma OkBefore(c: Config, s: Sys, t: Sys, d: Datagram)
    requires Grows(s, t) && DatagramOk(c, t, d) && d.packet.id in s.letters
    ensures DatagramOk(c, s, d)
  {
  }

  lemma ReceiveOnce(c: Config, s: Sys, d: Datagram)
    requires Inv(c, s) && OnceEach(c, s) && Enabled(c, s, Receive(d))
    ensures OnceEach(c, Next(c, s, Receive(d)))
  {
    hide Next, Enabled, OnceEach, NodeOk, LetterOk, DatagramOk, ReceiveNode;
    var t, x := Next(c, s, Receive(d)), c.owner(d.from, d.dst);
    ReceiveEffect(c, s, d);
    assert DatagramOk(c, s, d);
    hide *;
    ArrivedOnce(c, s, t, d, ReceiveNode(c, x, s.nodes[x], d));
  }

  lemma ArrivedOnce(c: Config, s: Sys, t: Sys, d: Datagram, after: Node)
    requires OnceEach(c, s) && DatagramOk(c, s, d) && d in s.net && c.owner(d.from, d.dst) in s.nodes
    requires t.letters == s.letters && t.net == s.net - multiset{d} && t.sent == s.sent
    requires t.nodes == s.nodes[c.owner(d.from, d.dst) := after]
    requires after.history == Then(s.nodes[c.owner(d.from, d.dst)].history, d.packet)
    ensures OnceEach(c, t)
  {
    forall e | DatagramOk(c, t, e) ensures t.net[e] + Arrived(c, t, e) <= t.sent[e] {
      SameLettersOk(c, s, t, e);
      if e.packet == d.packet { CarrierUnique(c, s, d, e); }
      hide DatagramOk;
    }
  }

  lemma SameLettersOk(c: Config, s: Sys, t: Sys, d: Datagram)
    requires s.letters == t.letters
    ensures DatagramOk(c, s, d) <==> DatagramOk(c, t, d)
  {
    assert s.Origins() == t.Origins();
    hide FromOrigin;
  }

  lemma OtherOnce(c: Config, s: Sys, t: Sys)
    requires OnceEach(c, s) && t.letters == s.letters && t.net <= s.net && t.sent == s.sent
    requires t.nodes.Keys == s.nodes.Keys
    requires forall a :: a in s.nodes ==> t.nodes[a].history == s.nodes[a].history
    ensures OnceEach(c, t)
  {
    forall d | DatagramOk(c, t, d) ensures t.net[d] + Arrived(c, t, d) <= t.sent[d] {
      SameLettersOk(c, s, t, d);
      hide DatagramOk;
      assert t.net[d] <= s.net[d];
    }
  }

  lemma OtherShape(c: Config, s: Sys, act: Action)
    requires Enabled(c, s, act) && (act.Submit? || act.TakeAck? || act.Lose?)
    ensures var t := Next(c, s, act);
            && t.letters == s.letters && t.net <= s.net && t.sent == s.sent && t.nodes.Keys == s.nodes.Keys
            && forall a :: a in s.nodes ==> t.nodes[a].history == s.nodes[a].history
  {
  }

  lemma OutgoingOnce(c: Config, s: Sys, a: SocketAddr, id: InnerKey)
    requires Inv(c, s) && OnceEach(c, s) && Enabled(c, s, Outgoing(a, id))
    ensures OnceEach(c, Next(c, s, Outgoing(a, id)))
  {
    var t := Next(c, s, Outgoing(a, id));
    var l := OutgoingEffect(c, s, a, id);
    hide *;
    OutgoingOnceFrom(c, s, t, a, id, l);
  }

  lemma OutgoingOnceFrom(c: Config, s: Sys, t: Sys, a: SocketAddr, id: InnerKey, l: Letter)
    requires Inv(c, s) && OnceEach(c, s) && OutgoingStep(c, s, t, a, id, l)
    ensures OnceEach(c, t)
  {
    hide Inv, OnceEach, Grows, LetterFor, OutgoingNode, OnWire, Burst;
    SameHistories(s, t, a);
    TransmitOnce(c, s, t, multiset(OnWire(c, a, Burst(l.to, l.origin, id))));
  }

  lemma RoundOnce(c: Config, s: Sys, a: SocketAddr)
    requires Inv(c, s) && OnceEach(c, s) && Enabled(c, s, Network.Round(a))
    ensures OnceEach(c, Next(c, s, Network.Round(a)))
  {
    var t, o := Next(c, s, Network.Round(a)), s.nodes[a].outbox;
    RoundEffect(c, s, a);
    hide Next, Enabled, Inv, OnceEach, Grows, Maintained, OnWire, Resends;
    SameHistories(s, t, a);
    TransmitOnce(c, s, t, multiset(OnWire(c, a, Resends(o, o.Keys))));
  }

  lemma StepOnce(c: Config, s: Sys, act: Action)
    requires Inv(c, s) && OnceEach(c, s) && Enabled(c, s, act) && !act.Duplicate?
    ensures OnceEach(c, Next(c, s, act))
  {
    hide Inv, OnceEach, Enabled, Next;
    match act
    case Receive(d) => ReceiveOnce(c, s, d);
    case Outgoing(a, id) => OutgoingOnce(c, s, a, id);
    case Round(a) => RoundOnce(c, s, a);
    case Submit(_, _, _) | TakeAck(_) | Lose(_) =>
      OtherShape(c, s, act);
      OtherOnce(c, s, Next(c, s, act));
  }

  lemma {:induction false} RunOnce(c: Config, t: Trace)
    requires c.codec.RoundTrips() && Exec(c, t).Some? && NoDuplicates(t)
    ensures OnceEach(c, Exec(c, t).value)
  {
    if t.Do? {
      hide Inv, OnceEach, Enabled, Next;
      RunOnce(c, t.before);
      ReachableInv(c, t.before);
      StepOnce(c, Exec(c, t.before).value, t.act);
    }
  }

  // ---------- summing over the packets of one message ----------

  /** Arrivals of the first k packets of a message. */
  function Copies(h: History, id: InnerKey, o: Origin, k: nat): nat
    requires k <= o.Count()
  {
    if k == 0 then 0 else Copies(h, id, o, k - 1) + CountIn(h, PacketAt(o.bytes, id, o.ret, k - 1))
  }

  lemma {:induction false} CopiesStep(h: History, p: Packet, id: InnerKey, o: Origin, k: nat)
    requires k <= o.Count() && 1 <= p.n <= o.Count() && p == PacketAt(o.bytes, p.id, o.ret, p.n - 1)
    ensures Copies(Then(h, p), id, o, k) == Copies(h, id, o, k) + if p.id == id && p.n <= k then 1 else 0
  {
    hide PacketAt, NumPackets;
    if k > 0 {
      CopiesStep(h, p, id, o, k - 1);
      PacketIs(p, id, o, k);
    }
  }

  lemma PacketIs(p: Packet, id: InnerKey, o: Origin, n: nat)
    requires 1 <= n <= o.Count() && 1 <= p.n <= o.Count() && p == PacketAt(o.bytes, p.id, o.ret, p.n - 1)
    ensures p == PacketAt(o.bytes, id, o.ret, n - 1) <==> p.id == id && p.n == n
  {
  }

  lemma {:induction false} CopiesOther(h: History, p: Packet, id: InnerKey, o: Origin, k: nat)
    requires k <= o.Count() && p.id != id
    ensures Copies(Then(h, p), id, o, k) == Copies(h, id, o, k)
  {
    hide Copies, CountIn, PacketAt, NumPackets;
    CopiesNext(h, id, o, k);
    CopiesNext(Then(h, p), id, o, k);
    if k > 0 {
      CopiesOther(h, p, id, o, k - 1);
      CountOther(h, p, PacketAt(o.bytes, id, o.ret, k - 1));
    }
  }

  lemma CopiesNext(h: History, id: InnerKey, o: Origin, k: nat)
    requires k <= o.Count()
    ensures k == 0 ==> Copies(h, id, o, k) == 0
    ensures k > 0 ==>
              var q := PacketAt(o.bytes, id, o.ret, k - 1);
              q.id == id && Copies(h, id, o, k) == Copies(h, id, o, k - 1) + CountIn(h, q)
  {
    hide CountIn, NumPackets;
  }

  lemma CountOther(h: History, p: Packet, q: Packet)
    requires p.id != q.id
    ensures CountIn(Then(h, p), q) == CountIn(h, q)
  {}

  /** Every arrival of a message is an arrival of one of its packets. */
  lemma {:induction false} OnlyIsCopies(h: History, id: InnerKey, origins: Origins)
    requires Honest(h, origins) && id in origins
    ensures h.Only(id).Length() == Copies(h, id, origins[id], origins[id].Count())
  {
    var o := origins[id];
    if h.Fresh? {
      CopiesNone(id, o, o.Count());
    } else {
      OnlyIsCopies(h.before, id, origins);
      if h.last.id == id {
        CopiesStep(h.before, h.last, id, o, o.Count());
      } else {
        CopiesOther(h.before, h.last, id, o, o.Count());
      }
    }
  }

  lemma {:induction false} CopiesNone(id: InnerKey, o: Origin, k: nat)
    requires k <= o.Count()
    ensures Copies(Fresh, id, o, k) == 0
  {
    if k > 0 {
      CopiesNone(id, o, k - 1);
    }
  }

  lemma {:induction false} CopiesBounded(h: History, id: InnerKey, o: Origin, k: nat, cap: nat)
    requires k <= o.Count()
    requires forall i :: 0 <= i < k ==> CountIn(h, PacketAt(o.bytes, id, o.ret, i)) <= cap
    ensures Copies(h, id, o, k) <= Times(cap, k)
  {
    if k > 0 {
      CopiesBounded(h, id, o, k - 1, cap);
      assert Times(cap, k) == Times(cap, k - 1) + cap;
      hide PacketAt, NumPackets, Times, CountIn;
    }
  }

  /** The number of times message id was passed to handle_message. */
  function TimesHandled(handled: seq<(InnerKey, Message)>, id: InnerKey): nat {
    if handled == [] then 0
    else TimesHandled(handled[..|handled| - 1], id) + if handled[|handled| - 1].0 == id then 1 else 0
  }

  ghost predicate HandledMatches(s: Sys) {
    forall a, id :: a in s.nodes ==> TimesHandled(s.nodes[a].handled, id) == DeliveryCount(s.nodes[a].history, id)
  }

  lemma ReceiveMatches(c: Config, s: Sys, d: Datagram)
    requires c.codec.RoundTrips() && Inv(c, s) && HandledMatches(s) && Enabled(c, s, Receive(d))
    ensures HandledMatches(Next(c, s, Receive(d)))
  {
    var t, x, p := Next(c, s, Receive(d)), c.owner(d.from, d.dst), d.packet;
    var node, after := s.nodes[x], ReceiveNode(c, x, s.nodes[x], d);
    assert t.nodes == s.nodes[x := after];
    assert DatagramOk(c, s, d) && ArrivalOk(c, s, x, p) && NodeOk(c, s, x, node) && LetterOk(c, s, s.letters[p.id]);
    ReceiveOutcome(c, s, x, node, p);
    assert after.history == Then(node.history, p);
    var delivers := OutcomeOf(node.history, p).Deliver?;
    assert after.handled == if delivers then node.handled + [(p.id, s.letters[p.id].message)] else node.handled;
    hide *;
    NodeMatches(s, x, node, after, p, s.letters[p.id].message);
    OneMatches(s, t, x, after);
  }

  lemma NodeMatches(s: Sys, x: SocketAddr, node: Node, after: Node, p: Packet, m: Message)
    requires HandledMatches(s) && x in s.nodes && s.nodes[x] == node && after.history == Then(node.history, p)
    requires after.handled == if OutcomeOf(node.history, p).Deliver? then node.handled + [(p.id, m)] else node.handled
    ensures forall id :: TimesHandled(after.handled, id) == DeliveryCount(after.history, id)
  {
    hide OutcomeOf;
    forall id ensures TimesHandled(after.handled, id) == DeliveryCount(after.history, id) {
      assert TimesHandled(node.handled, id) == DeliveryCount(node.history, id);
      assert (node.handled + [(p.id, m)])[..|node.handled|] == node.handled;
    }
  }

  lemma OneMatches(s: Sys, t: Sys, x: SocketAddr, after: Node)
    requires HandledMatches(s) && t.nodes == s.nodes[x := after]
    requires forall id :: TimesHandled(after.handled, id) == DeliveryCount(after.history, id)
    ensures HandledMatches(t)
  {
    hide TimesHandled, DeliveryCount;
  }

  lemma OtherHandled(c: Config, s: Sys, act: Action)
    requires Enabled(c, s, act) && !act.Receive?
    ensures var t := Next(c, s, act);
            && t.nodes.Keys == s.nodes.Keys
            && forall a :: a in s.nodes ==>
                 t.nodes[a].handled == s.nodes[a].handled && t.nodes[a].history == s.nodes[a].history
  {
    hide SentAll, Maintained, OnWire, Burst, Resends, LetterFor;
    match act
    case Submit(_, _, _) =>
    case Outgoing(_, _) =>
    case TakeAck(_) =>
    case Round(_) =>
    case Lose(_) =>
    case Duplicate(_) =>
  }

  lemma OtherMatches(c: Config, s: Sys, act: Action)
    requires HandledMatches(s) && Enabled(c, s, act) && !act.Receive?
    ensures HandledMatches(Next(c, s, act))
  {
    OtherHandled(c, s, act);
    hide Next, Enabled, TimesHandled, DeliveryCount;
  }

  lemma {:induction false} RunMatches(c: Config, t: Trace)
    requires c.codec.RoundTrips() && Exec(c, t).Some?
    ensures HandledMatches(Exec(c, t).value)
  {
    if t.Do? {
      hide Inv, HandledMatches, Enabled, Next;
      RunMatches(c, t.before);
      ReachableInv(c, t.before);
      var s := Exec(c, t.before).value;
      if t.act.Receive? { ReceiveMatches(c, s, t.act.d); } else { OtherMatches(c, s, t.act); }
    }
  }

  /** With a medium that repeats nothing, a message of p packets is handled at most 9p + 1 times at
      its destination, an acknowledgement at most once; and it is handled at all exactly when every
      packet has arrived. */
  lemma DeliveriesAreBounded(c: Config, t: Trace, a: SocketAddr, id: InnerKey)
    requires c.codec.RoundTrips() && Exec(c, t).Some? && NoDuplicates(t)
    requires a in c.nodes && id in Exec(c, t).value.letters
    ensures a in Exec(c, t).value.nodes
    ensures var s := Exec(c, t).value;
            var handled, p := TimesHandled(s.nodes[a].handled, id), s.letters[id].origin.Count();
            && handled <= (if s.letters[id].message.head == Ack then 1 else 9 * p + 1)
            && (handled > 0 <==> s.nodes[a].history.Seen(id) == Numbers(p))
  {
    ReachableInv(c, t);
    RunCounts(c, t);
    RunOnce(c, t);
    RunMatches(c, t);
    var s := Exec(c, t).value;
    assert s.nodes.Keys == c.nodes && LetterOk(c, s, s.letters[id]);
    var ack := s.letters[id].message.head == Ack;
    assert s.letters[id].origin.ret == if ack then 0 else 1;
    assert Cap(s.letters[id].origin.ret) == if ack then 1 else 10;
    var p := s.letters[id].origin.Count();
    assert Times(1, p) == p && Times(10, p) == 10 * p;
    hide *;
    HandledBounded(c, s, a, id);
  }

  lemma HandledBounded(c: Config, s: Sys, a: SocketAddr, id: InnerKey)
    requires Inv(c, s) && Counted(c, s) && OnceEach(c, s) && HandledMatches(s) && a in s.nodes && id in s.letters
    ensures var handled, p := TimesHandled(s.nodes[a].handled, id), s.letters[id].origin.Count();
            var cap := Cap(s.letters[id].origin.ret);
            && (handled > 0 ==> handled + p - 1 <= Times(cap, p))
            && (handled > 0 <==> s.nodes[a].history.Seen(id) == Numbers(p))
  {
    var h, o := s.nodes[a].history, s.letters[id].origin;
    assert NodeOk(c, s, a, s.nodes[a]);
    assert forall p :: p in h.Set() ==> ArrivalOk(c, s, a, p);
    HonestAll(h, s.Origins());
    assert id in s.Origins() && s.Origins()[id] == o;
    assert TimesHandled(s.nodes[a].handled, id) == DeliveryCount(h, id);
    hide NodeOk, HandledMatches, Inv, Counted, OnceEach, Sys.Origins, TimesHandled, DeliveryCount, Honest;
    CountBound(h, id, s.Origins());
    OnlyIsCopies(h, id, s.Origins());
    forall i | 0 <= i < o.Count() ensures CountIn(h, PacketAt(o.bytes, id, o.ret, i)) <= Cap(o.ret) {
      ArrivalsBounded(c, s, a, id, i);
    }
    CopiesBounded(h, id, o, o.Count(), Cap(o.ret));
  }

  /** The datagram that carries packet i + 1 of a letter. */
  lemma LetterDatagram(c: Config, s: Sys, id: InnerKey, i: nat) returns (d: Datagram)
    requires id in s.letters && i < s.letters[id].origin.Count()
    ensures var l := s.letters[id];
            && d == Datagram(l.from, c.visible(l.from, l.to), l.to, PacketAt(l.origin.bytes, id, l.origin.ret, i))
            && d.packet.id == id && d.packet.ret == l.origin.ret && DatagramOk(c, s, d)
  {
    var l := s.letters[id];
    d := Datagram(l.from, c.visible(l.from, l.to), l.to, PacketAt(l.origin.bytes, id, l.origin.ret, i));
  }

  lemma ArrivalsBounded(c: Config, s: Sys, a: SocketAddr, id: InnerKey, i: nat)
    requires Inv(c, s) && OnceEach(c, s) && Counted(c, s) && a in s.nodes && id in s.letters
    requires i < s.letters[id].origin.Count()
    ensures var o := s.letters[id].origin;
            CountIn(s.nodes[a].history, PacketAt(o.bytes, id, o.ret, i)) <= Cap(o.ret)
  {
    var h := s.nodes[a].history;
    var d := LetterDatagram(c, s, id, i);
    hide PacketAt, DatagramOk, Origin.Count;
    CountInSet(h, d.packet);
    if d.packet in h.Set() {
      assert NodeOk(c, s, a, s.nodes[a]) by { hide NodeOk, LetterOk; }
      assert ArrivalOk(c, s, a, d.packet) by { hide Inv; }
      assert c.owner(d.from, d.dst) == a by { hide Inv, NodeOk, FromOrigin; }
      hide Inv, NodeOk, ArrivalOk;
      assert s.sent[d] <= Cap(d.packet.ret);
    }
  }
}
