/** A network of nodes, each a transport and a message handler joined by their channels, over a
    medium that loses, repeats and reorders datagrams. */
module Network {
  import opened Bytes
  import opened Packets
  import opened Reassembly
  import opened Outbox
  import opened Handler
  import opened Transport

  /** owner gives the local address of the node that datagrams from one node to an address reach, as the
      loopback addresses are another host's on every host; visible gives the source address seen there. */
  datatype Config = Config(nodes: set<SocketAddr>, owner: (SocketAddr, SocketAddr) -> SocketAddr,
                           visible: (SocketAddr, SocketAddr) -> SocketAddr, codec: Codec)

  datatype Datagram = Datagram(from: SocketAddr, src: SocketAddr, dst: SocketAddr, packet: Packet)

  /** What outgoing_msg took from its channel under an id: the sender, the address it was given, the
      address it was sent to after the loopback rewrite, the message, and its encoding. */
  datatype Letter = Letter(from: SocketAddr, dst: SocketAddr, to: SocketAddr, message: Message, origin: Origin)

  /** om and ia are the channels between handler and transport. history and handled record the
      packets that arrived and the messages passed to handle_message, with their ids. */
  datatype Node = Node(om: seq<(SocketAddr, Message)>, ia: seq<AckMessage>, outbox: Outbox, pending: Pending,
                       history: History, handled: seq<(InnerKey, Message)>)

  /** net holds what is in flight; sent everything ever put on the wire. */
  datatype Sys = Sys(nodes: map<SocketAddr, Node>, net: multiset<Datagram>, sent: multiset<Datagram>,
                     letters: map<InnerKey, Letter>)
  {
    function Origins(): Origins {
      map id | id in letters :: letters[id].origin
    }

    /** The numbers of message id that node a has received. */
    function SeenAt(a: SocketAddr, id: InnerKey): set<nat> {
      if a in nodes then nodes[a].history.Seen(id) else {}
    }
  }

  datatype Action =
    | Submit(a: SocketAddr, dst: SocketAddr, message: Message)
    | Outgoing(a: SocketAddr, id: InnerKey)
    | Receive(d: Datagram)
    | TakeAck(a: SocketAddr)
    | Round(a: SocketAddr)
    | Lose(d: Datagram)
    | Duplicate(d: Datagram)

  function Init(c: Config): Sys {
    Sys(map a | a in c.nodes :: Node([], [], map[], map[], Fresh, []), multiset{}, multiset{}, map[])
  }

  predicate Enabled(c: Config, s: Sys, act: Action) {
    match act
    case Submit(a, dst, m) => a in s.nodes && m.head != Ack
    case Outgoing(a, id) => a in s.nodes && s.nodes[a].om != [] && id !in s.letters
    case Receive(d) => d in s.net && c.owner(d.from, d.dst) in s.nodes
    case TakeAck(a) => a in s.nodes && s.nodes[a].ia != []
    case Round(a) => a in s.nodes
    case Lose(d) => d in s.net
    case Duplicate(d) => d in s.net
  }

  function OnWire(c: Config, a: SocketAddr, pairs: set<(SocketAddr, Packet)>): set<Datagram> {
    set x | x in pairs :: Datagram(a, c.visible(a, x.0), x.0, x.1)
  }

  /** The first k packets of one message, addressed. */
  function BurstOf(to: SocketAddr, o: Origin, id: InnerKey, k: nat): set<(SocketAddr, Packet)>
    requires k <= o.Count()
  {
    if k == 0 then {} else BurstOf(to, o, id, k - 1) + {(to, PacketAt(o.bytes, id, o.ret, k - 1))}
  }

  function Burst(to: SocketAddr, o: Origin, id: InnerKey): set<(SocketAddr, Packet)> {
    BurstOf(to, o, id, o.Count())
  }

  function LetterFor(c: Config, a: SocketAddr, dst: SocketAddr, m: Message): Letter {
    if m.head == Ack then Letter(a, dst, dst, m, Origin(c.codec.encode(m), 0))
    else Letter(a, dst, Rewrite(a, dst), m, Origin(c.codec.encode(m), 1))
  }

  function OutgoingNode(node: Node, l: Letter, id: InnerKey): Node
    requires node.om != []
  {
    var sent := if l.message.head == Ack then node.outbox
                else SentAll(node.outbox, l.to, l.origin.Packets(id), l.origin.Count());
    node.(om := node.om[1..], outbox := sent)
  }

  function ReceiveNode(c: Config, x: SocketAddr, node: Node, d: Datagram): Node {
    var (pending, outcome) := Insert(node.pending, d.packet);
    var handed := Handed(c.codec, outcome);
    var route := if handed.Some? then RouteOf(c.codec, handed.value) else Dropped;
    Node(node.om + AcksFor(c.codec, d.packet, x, d.src),
         if route.ToOutbox? then node.ia + [route.ack] else node.ia,
         node.outbox, pending, Then(node.history, d.packet),
         if handed.Some? then node.handled + [(d.packet.id, handed.value)] else node.handled)
  }

  function TakeAckNode(node: Node): Node
    requires node.ia != []
  {
    var ack := node.ia[0];
    node.(ia := node.ia[1..], outbox := Acked(node.outbox, Slot(ack.packetId, ack.packetNumber), ack.src))
  }

  function Transmit(s: Sys, a: SocketAddr, node: Node, datagrams: set<Datagram>): Sys {
    s.(nodes := s.nodes[a := node], net := s.net + multiset(datagrams), sent := s.sent + multiset(datagrams))
  }

  function Next(c: Config, s: Sys, act: Action): Sys
    requires Enabled(c, s, act)
  {
    match act
    case Submit(a, dst, m) => s.(nodes := s.nodes[a := s.nodes[a].(om := s.nodes[a].om + [(dst, m)])])
    case Outgoing(a, id) =>
      var node := s.nodes[a];
      var l := LetterFor(c, a, node.om[0].0, node.om[0].1);
      Transmit(s, a, OutgoingNode(node, l, id), OnWire(c, a, Burst(l.to, l.origin, id))).(letters := s.letters[id := l])
    case Receive(d) =>
      var x := c.owner(d.from, d.dst);
      s.(nodes := s.nodes[x := ReceiveNode(c, x, s.nodes[x], d)], net := s.net - multiset{d})
    case TakeAck(a) => s.(nodes := s.nodes[a := TakeAckNode(s.nodes[a])])
    case Round(a) =>
      var o := s.nodes[a].outbox;
      Transmit(s, a, s.nodes[a].(outbox := Maintained(o)), OnWire(c, a, Resends(o, o.Keys)))
    case Lose(d) => s.(net := s.net - multiset{d})
    case Duplicate(d) => s.(net := s.net + multiset{d})
  }

  /** A step of outgoing_msg under id, by its effect. */
  ghost predicate OutgoingStep(c: Config, s: Sys, t: Sys, a: SocketAddr, id: InnerKey, l: Letter) {
    && a in s.nodes && s.nodes[a].om != [] && id !in s.letters
    && l.from == a && l == LetterFor(c, a, s.nodes[a].om[0].0, s.nodes[a].om[0].1)
    && t.letters == s.letters[id := l]
    && t.nodes == s.nodes[a := OutgoingNode(s.nodes[a], l, id)]
    && OutgoingNode(s.nodes[a], l, id).history == s.nodes[a].history
    && var burst := multiset(OnWire(c, a, Burst(l.to, l.origin, id)));
       t.net == s.net + burst && t.sent == s.sent + burst
  }

  lemma OutgoingEffect(c: Config, s: Sys, a: SocketAddr, id: InnerKey) returns (l: Letter)
    requires Enabled(c, s, Outgoing(a, id))
    ensures OutgoingStep(c, s, Next(c, s, Outgoing(a, id)), a, id, l)
  {
    l := LetterFor(c, a, s.nodes[a].om[0].0, s.nodes[a].om[0].1);
    hide SentAll, OnWire, Burst;
  }

  lemma {:induction false} BurstLists(to: SocketAddr, o: Origin, id: InnerKey, k: nat, x: (SocketAddr, Packet))
    requires k <= o.Count()
    ensures x in BurstOf(to, o, id, k)
       <==> 1 <= x.1.n <= k && x == (to, PacketAt(o.bytes, id, o.ret, x.1.n - 1))
  {
    if k > 0 {
      BurstLists(to, o, id, k - 1, x);
      assert PacketAt(o.bytes, id, o.ret, k - 1).n == k;
      hide PacketAt, NumPackets;
    }
  }

  /** The datagrams that Transport.OutgoingMsg hands to the socket are those of the burst. */
  lemma {:induction false} AddressedIsBurst(to: SocketAddr, o: Origin, id: InnerKey, count: nat)
    requires count <= o.Count()
    ensures Addressed(to, o.Packets(id), count) == multiset(BurstOf(to, o, id, count))
  {
    assert |o.Packets(id)| == o.Count();
    hide *;
    if count > 0 {
      BurstStep(to, o, id, count);
      AddressedIsBurst(to, o, id, count - 1);
      var last := (to, PacketAt(o.bytes, id, o.ret, count - 1));
      BurstLists(to, o, id, count - 1, last);
      BagInsert(BurstOf(to, o, id, count - 1), last);
    } else {
      NoBurst(to, o, id);
    }
  }

  lemma NoBurst(to: SocketAddr, o: Origin, id: InnerKey)
    ensures Addressed(to, o.Packets(id), 0) == multiset(BurstOf(to, o, id, 0))
  {
    hide Origin.Packets;
  }

  lemma BurstStep(to: SocketAddr, o: Origin, id: InnerKey, count: nat)
    requires 1 <= count <= o.Count() == |o.Packets(id)|
    ensures var last := (to, PacketAt(o.bytes, id, o.ret, count - 1));
            && last.1.n == count
            && BurstOf(to, o, id, count) == BurstOf(to, o, id, count - 1) + {last}
            && Addressed(to, o.Packets(id), count) == Addressed(to, o.Packets(id), count - 1) + multiset{last}
  {
    assert o.Packets(id)[count - 1] == PacketAt(o.bytes, id, o.ret, count - 1);
    hide NumPackets;
  }

  lemma BagInsert<T>(s: set<T>, x: T)
    requires x !in s
    ensures multiset(s + {x}) == multiset(s) + multiset{x}
  {
  }

  /** An arrival, by its effect. */
  lemma ReceiveEffect(c: Config, s: Sys, d: Datagram)
    requires Enabled(c, s, Receive(d))
    ensures var t, x := Next(c, s, Receive(d)), c.owner(d.from, d.dst);
            && d in s.net && x in s.nodes
            && t.letters == s.letters && t.net == s.net - multiset{d} && t.sent == s.sent
            && t.nodes == s.nodes[x := ReceiveNode(c, x, s.nodes[x], d)]
            && ReceiveNode(c, x, s.nodes[x], d).history == Then(s.nodes[x].history, d.packet)
  {
    hide Insert, Handed, RouteOf, AcksFor;
  }

  /** A maintenance round, by its effect. */
  ghost predicate RoundStep(c: Config, s: Sys, t: Sys, a: SocketAddr) {
    && a in s.nodes
    && var o := s.nodes[a].outbox;
    && t.letters == s.letters && t.nodes == s.nodes[a := s.nodes[a].(outbox := Maintained(o))]
    && var resent := multiset(OnWire(c, a, Resends(o, o.Keys)));
       t.net == s.net + resent && t.sent == s.sent + resent
  }

  lemma RoundEffect(c: Config, s: Sys, a: SocketAddr)
    requires Enabled(c, s, Round(a))
    ensures RoundStep(c, s, Next(c, s, Round(a)), a)
  {
    hide Maintained, OnWire, Resends;
  }

  /** A run as the list of its actions, the last one outermost. */
  datatype Trace = Start | Do(before: Trace, act: Action)

  /** The state a run leads to from s, if every action is enabled in turn. */
  function ExecFrom(c: Config, s: Sys, t: Trace): Option<Sys> {
    if t.Start? then Some(s)
    else match ExecFrom(c, s, t.before)
      case Some(mid) => if Enabled(c, mid, t.act) then Some(Next(c, mid, t.act)) else None
      case None => None
  }

  function Exec(c: Config, t: Trace): Option<Sys> {
    ExecFrom(c, Init(c), t)
  }

  lemma Continue(c: Config, t: Trace, act: Action, s: Sys, s': Sys)
    requires Exec(c, t) == Some(s) && Enabled(c, s, act) && Next(c, s, act) == s'
    ensures Exec(c, Do(t, act)) == Some(s')
  {
    hide Next, Enabled;
  }

  // ---------- invariant ----------

  /** An acknowledgement speaks the truth: its source owns the address the message was sent to,
      and has received the packet. */
  predicate AckTrue(c: Config, s: Sys, ack: AckMessage) {
    && ack.packetId in s.letters
    && ack.src == c.owner(s.letters[ack.packetId].from, s.letters[ack.packetId].to)
    && ack.packetNumber in s.SeenAt(ack.src, ack.packetId)
  }

  predicate AckMessageTrue(c: Config, s: Sys, m: Message) {
    m.head == Ack ==>
      var r := c.codec.decodeAck(m.msg);
      r.Some? && AckTrue(c, s, r.value)
  }

  predicate LetterOk(c: Config, s: Sys, l: Letter) {
    && l.from in c.nodes
    && l.origin == Origin(c.codec.encode(l.message), if l.message.head == Ack then 0 else 1)
    && l.to == (if l.message.head == Ack then l.dst else Rewrite(l.from, l.dst))
    && AckMessageTrue(c, s, l.message)
  }

  predicate DatagramOk(c: Config, s: Sys, d: Datagram) {
    && FromOrigin(d.packet, s.Origins())
    && var l := s.letters[d.packet.id];
    && d.dst == l.to && d.from == l.from && d.src == c.visible(l.from, l.to)
  }

  predicate EntryOk(c: Config, s: Sys, a: SocketAddr, k: Slot, e: Entry) {
    && k == SlotOf(e.packet)
    && FromOrigin(e.packet, s.Origins())
    && var l := s.letters[k.id];
    && l.from == a && l.origin.ret == 1
    && e.sent == {l.to}
    && 1 <= e.attempts <= MAX_ATTEMPTS
    && forall x :: x in e.acked ==> x == c.owner(l.from, l.to) && k.n in s.SeenAt(x, k.id)
  }

  predicate ArrivalOk(c: Config, s: Sys, a: SocketAddr, p: Packet) {
    FromOrigin(p, s.Origins()) && c.owner(s.letters[p.id].from, s.letters[p.id].to) == a
  }

  predicate HandledOk(c: Config, s: Sys, a: SocketAddr, id: InnerKey, m: Message) {
    && id in s.letters
    && s.letters[id].message == m
    && c.owner(s.letters[id].from, s.letters[id].to) == a
    && Numbers(s.letters[id].origin.Count()) <= s.SeenAt(a, id)
  }

  predicate NodeOk(c: Config, s: Sys, a: SocketAddr, node: Node) {
    && (forall i :: 0 <= i < |node.om| ==> AckMessageTrue(c, s, node.om[i].1))
    && (forall i :: 0 <= i < |node.ia| ==> AckTrue(c, s, node.ia[i]))
    && (forall k :: k in node.outbox ==> EntryOk(c, s, a, k, node.outbox[k]))
    && (forall p :: p in node.history.Set() ==> ArrivalOk(c, s, a, p))
    && node.pending == PendingAfter(node.history)
    && (forall i :: 0 <= i < |node.handled| ==> HandledOk(c, s, a, node.handled[i].0, node.handled[i].1))
  }

  ghost predicate Inv(c: Config, s: Sys) {
    && s.nodes.Keys == c.nodes
    && (forall id :: id in s.letters ==> LetterOk(c, s, s.letters[id]))
    && (forall d :: d in s.net ==> DatagramOk(c, s, d))
    && (forall a :: a in s.nodes ==> NodeOk(c, s, a, s.nodes[a]))
  }

  // ---------- nothing that was true stops being true ----------

  /** Letters are never withdrawn or changed, and receivers only ever see more. */
  ghost predicate Grows(s: Sys, t: Sys) {
    && (forall id :: id in s.letters ==> id in t.letters && t.letters[id] == s.letters[id])
    && (forall a, id :: s.SeenAt(a, id) <= t.SeenAt(a, id))
  }

  lemma OriginGrows(s: Sys, t: Sys, p: Packet)
    requires Grows(s, t) && FromOrigin(p, s.Origins())
    ensures p.id in s.letters && FromOrigin(p, t.Origins())
  {
    hide PacketAt, Origin.Count;
  }

  lemma AckGrows(c: Config, s: Sys, t: Sys, m: Message)
    requires Grows(s, t) && AckMessageTrue(c, s, m)
    ensures AckMessageTrue(c, t, m)
  {
  }

  lemma EntryGrows(c: Config, s: Sys, t: Sys, a: SocketAddr, k: Slot, e: Entry)
    requires Grows(s, t) && EntryOk(c, s, a, k, e)
    ensures EntryOk(c, t, a, k, e)
  {
    OriginGrows(s, t, e.packet);
    hide FromOrigin;
  }

  lemma HandledGrows(c: Config, s: Sys, t: Sys, a: SocketAddr, id: InnerKey, m: Message)
    requires Grows(s, t) && HandledOk(c, s, a, id, m)
    ensures HandledOk(c, t, a, id, m)
  {
    hide Origin.Count, Numbers;
  }

  lemma {:induction false} HonestAll(h: History, origins: Origins)
    ensures Honest(h, origins) <==> forall p :: p in h.Set() ==> FromOrigin(p, origins)
  {
    hide FromOrigin;
    if h.Then? {
      HonestAll(h.before, origins);
    }
  }
}
