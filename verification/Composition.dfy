/** Discovery over the transport, as one system: what gets through the losses and resends of the transport,
    however often, is what discovery works on, and what discovery sends is what the transport carries. */
module Composition {
  import opened Bytes
  import opened Packets
  import opened Reassembly
  import opened Handler
  import opened Transport
  import opened Network
  import opened NetworkInvariant
  import opened NetworkDeliveries
  import Outbox
  import Discovery
  import Sums
  import Trie

  /** How a node reads the bytes that are routed to discovery. */
  type Reading = seq<byte> -> Option<Discovery.KadMessage>

  function KadOf(c: Config, read: Reading, m: Message): Option<Discovery.KadMessage> {
    match RouteOf(c.codec, m)
    case ToKad(bytes) => read(bytes)
    case _ => None
  }

  /** The nodes and the medium, the discovery peer of each node, and what it has yet to work on. */
  datatype Joint = Joint(sys: Sys, peers: map<SocketAddr, Discovery.Peer>,
                         todo: map<SocketAddr, seq<Discovery.KadMessage>>)

  /** A step of the transport; or the next message is worked on, and what is sent is encoded. */
  datatype Step = Net(act: Action) | Work(a: SocketAddr, answer: seq<Trie.PeerInfo>, wires: seq<Message>)

  /** What a step of the transport passes to discovery at one node. */
  function Passed(c: Config, read: Reading, before: Node, after: Node): seq<Discovery.KadMessage> {
    if |after.handled| <= |before.handled| then []
    else match KadOf(c, read, after.handled[|after.handled| - 1].1)
      case Some(k) => [k]
      case None => []
  }

  function Submitted(om: seq<(SocketAddr, Message)>, sent: seq<Discovery.Out>, wires: seq<Message>)
    : seq<(SocketAddr, Message)>
    requires |sent| == |wires|
  {
    if sent == [] then om
    else Submitted(om, sent[..|sent| - 1], wires[..|sent| - 1]) + [(sent[|sent| - 1].dst, wires[|sent| - 1])]
  }

  ghost predicate NetStep(c: Config, read: Reading, s: Joint, act: Action, t: Joint) {
    && Enabled(c, s.sys, act) && !act.Duplicate?
    && (act.Submit? ==> KadOf(c, read, act.message) == None)
    && t.sys == Next(c, s.sys, act) && t.peers == s.peers
    && t.todo.Keys == s.todo.Keys && t.sys.nodes.Keys == s.sys.nodes.Keys
    && forall a :: a in s.todo && a in s.sys.nodes ==>
         t.todo[a] == s.todo[a] + Passed(c, read, s.sys.nodes[a], t.sys.nodes[a])
  }

  /** The effect of working on the next message. */
  ghost function EffectAt(s: Joint, a: SocketAddr, answer: seq<Trie.PeerInfo>): Discovery.Effect
    requires Busy(s, a)
  {
    Discovery.Handle(s.peers[a].info, s.peers[a].tree.value, s.todo[a][0], answer)
  }

  predicate Busy(s: Joint, a: SocketAddr) {
    a in s.sys.nodes && a in s.peers && s.peers[a].tree.Some? && a in s.todo && s.todo[a] != []
  }

  ghost predicate WorkStep(c: Config, read: Reading, s: Joint, a: SocketAddr, answer: seq<Trie.PeerInfo>,
                           wires: seq<Message>, t: Joint) {
    && Busy(s, a)
    && Discovery.AnswerFits(s.peers[a].info, s.peers[a].tree.value, s.todo[a][0], answer)
    && var e := EffectAt(s, a, answer);
    && |wires| == |e.sent|
    && (forall i :: 0 <= i < |wires| ==> KadOf(c, read, wires[i]) == Some(e.sent[i].msg))
    && t.peers == s.peers[a := s.peers[a].(tree := e.tree)]
    && t.todo == s.todo[a := s.todo[a][1..]]
    && t.sys == s.sys.(nodes := s.sys.nodes[a := s.sys.nodes[a].(om := Submitted(s.sys.nodes[a].om, e.sent, wires))])
  }

  ghost predicate JointStep(c: Config, read: Reading, s: Joint, st: Step, t: Joint) {
    match st
    case Net(act) => NetStep(c, read, s, act, t)
    case Work(a, answer, wires) => WorkStep(c, read, s, a, answer, wires, t)
  }

  // ---------- the measure ----------

  /** What handling a message can still cause. */
  function Worth(c: Config, read: Reading, cap: nat, m: Message): nat {
    match KadOf(c, read, m)
    case Some(k) => Discovery.Weight(cap, k)
    case None => 0
  }

  function QueueWorth(c: Config, read: Reading, cap: nat, om: seq<(SocketAddr, Message)>): nat {
    if om == [] then 0 else Worth(c, read, cap, om[0].1) + QueueWorth(c, read, cap, om[1..])
  }

  function TodoWorth(cap: nat, todo: seq<Discovery.KadMessage>): nat {
    if todo == [] then 0 else Discovery.Weight(cap, todo[0]) + TodoWorth(cap, todo[1..])
  }

  /** How often a letter has been handled at its destination. */
  function HandledAt(c: Config, nodes: map<SocketAddr, Node>, id: InnerKey, l: Letter): nat {
    if c.owner(l.from, l.to) in nodes then TimesHandled(nodes[c.owner(l.from, l.to)].handled, id) else 0
  }

  function Left(cap: nat, n: nat): nat {
    if n <= cap then cap - n else 0
  }

  ghost function LetterWeight(c: Config, read: Reading, cap: nat, nodes: map<SocketAddr, Node>)
    : (InnerKey, Letter) -> nat
  {
    (id: InnerKey, l: Letter) => Times(Left(cap, HandledAt(c, nodes, id, l)), Worth(c, read, cap, l.message))
  }

  ghost function QueueWeight(c: Config, read: Reading, cap: nat): (SocketAddr, Node) -> nat {
    (a: SocketAddr, node: Node) => Times(cap, QueueWorth(c, read, cap, node.om))
  }

  ghost function TodoWeight(cap: nat): (SocketAddr, seq<Discovery.KadMessage>) -> nat {
    (a: SocketAddr, todo: seq<Discovery.KadMessage>) => TodoWorth(cap, todo)
  }

  /** Ids yet unknown, messages waiting to be sent, messages sent that can be handled again, and
      messages handled that have yet to be worked on. */
  ghost function Potential(c: Config, read: Reading, cap: nat, ids: set<Trie.PeerId>, s: Joint): nat {
    Sums.OverMap(s.peers, Discovery.NodePrice(cap, ids)) + Sums.OverMap(s.sys.nodes, QueueWeight(c, read, cap))
    + Sums.OverMap(s.sys.letters, LetterWeight(c, read, cap, s.sys.nodes)) + Sums.OverMap(s.todo, TodoWeight(cap))
  }

  lemma {:induction false} QueueAppend(c: Config, read: Reading, cap: nat, om: seq<(SocketAddr, Message)>,
                                       x: (SocketAddr, Message))
    ensures QueueWorth(c, read, cap, om + [x]) == QueueWorth(c, read, cap, om) + Worth(c, read, cap, x.1)
  {
    hide Worth;
    if om != [] {
      QueueAppend(c, read, cap, om[1..], x);
      assert (om + [x])[1..] == om[1..] + [x];
    }
  }

  lemma {:induction false} TodoAppend(cap: nat, todo: seq<Discovery.KadMessage>, k: Discovery.KadMessage)
    ensures TodoWorth(cap, todo + [k]) == TodoWorth(cap, todo) + Discovery.Weight(cap, k)
  {
    if todo != [] {
      TodoAppend(cap, todo[1..], k);
      assert (todo + [k])[1..] == todo[1..] + [k];
    }
  }

  lemma {:induction false} SubmittedWorth(c: Config, read: Reading, cap: nat, om: seq<(SocketAddr, Message)>,
                                          sent: seq<Discovery.Out>, wires: seq<Message>)
    requires |sent| == |wires| && forall i :: 0 <= i < |wires| ==> KadOf(c, read, wires[i]) == Some(sent[i].msg)
    ensures QueueWorth(c, read, cap, Submitted(om, sent, wires))
         == QueueWorth(c, read, cap, om) + Discovery.Weights(cap, sent)
  {
    hide KadOf, QueueWorth, Discovery.Weight;
    if sent != [] {
      var n := |sent| - 1;
      SubmittedWorth(c, read, cap, om, sent[..n], wires[..n]);
      QueueAppend(c, read, cap, Submitted(om, sent[..n], wires[..n]), (sent[n].dst, wires[n]));
      WeightsAppend(cap, sent[..n], sent[n]);
      assert sent == sent[..n] + [sent[n]];
    }
  }

  lemma {:induction false} WeightsAppend(cap: nat, sent: seq<Discovery.Out>, o: Discovery.Out)
    ensures Discovery.Weights(cap, sent + [o]) == Discovery.Weights(cap, sent) + Discovery.Weight(cap, o.msg)
  {
    hide Discovery.Weight;
    if sent != [] {
      WeightsAppend(cap, sent[1..], o);
      assert (sent + [o])[1..] == sent[1..] + [o];
    }
  }

  // ---------- steps of the transport ----------

  ghost predicate Shaped(c: Config, s: Joint) {
    s.sys.nodes.Keys == c.nodes && s.peers.Keys == c.nodes && s.todo.Keys == c.nodes
  }

  /** No message is handled more often than that. */
  ghost predicate Capped(c: Config, cap: nat, s: Sys) {
    forall id :: id in s.letters ==> HandledAt(c, s.nodes, id, s.letters[id]) <= cap
  }

  /** A node whose step concerns discovery in no way. */
  ghost predicate NodeQuiet(c: Config, read: Reading, cap: nat, b: Node, n: Node) {
    && n.handled == b.handled
    && QueueWorth(c, read, cap, n.om) == QueueWorth(c, read, cap, b.om)
    && forall x :: x in n.om ==> x in b.om || KadOf(c, read, x.1) == None
  }

  ghost predicate Quiet(c: Config, read: Reading, cap: nat, s: Sys, t: Sys) {
    && t.letters == s.letters && t.nodes.Keys == s.nodes.Keys
    && forall a :: a in s.nodes ==> NodeQuiet(c, read, cap, s.nodes[a], t.nodes[a])
  }

  lemma SameQueue(c: Config, read: Reading, cap: nat, b: Node, n: Node)
    requires n.handled == b.handled && n.om == b.om
    ensures NodeQuiet(c, read, cap, b, n)
  {}

  lemma QueueGains(c: Config, read: Reading, cap: nat, b: Node, n: Node, more: seq<(SocketAddr, Message)>)
    requires n.om == b.om + more && |more| <= 1 && forall x :: x in more ==> KadOf(c, read, x.1) == None
    ensures QueueWorth(c, read, cap, n.om) == QueueWorth(c, read, cap, b.om)
    ensures forall x :: x in n.om ==> x in b.om || KadOf(c, read, x.1) == None
  {
    hide KadOf, QueueWorth;
    if more == [] {
      assert n.om == b.om;
    } else {
      assert more == [more[0]] && more[0] in more;
      QueueAppend(c, read, cap, b.om, more[0]);
    }
  }

  lemma QuietStep(c: Config, read: Reading, cap: nat, s: Sys, act: Action)
    requires Enabled(c, s, act) && (act.Submit? || act.TakeAck? || act.Round? || act.Lose?)
    requires act.Submit? ==> KadOf(c, read, act.message) == None
    ensures Quiet(c, read, cap, s, Next(c, s, act))
  {
    var t := Next(c, s, act);
    OtherQueues(c, s, act);
    hide Next, Enabled, KadOf, QueueWorth, NodeQuiet;
    forall a | a in s.nodes ensures NodeQuiet(c, read, cap, s.nodes[a], t.nodes[a]) {
      if act.Submit? && act.a == a {
        QueueGains(c, read, cap, s.nodes[a], t.nodes[a], [(act.dst, act.message)]);
        QuietFrom(c, read, cap, s.nodes[a], t.nodes[a]);
      } else {
        SameQueue(c, read, cap, s.nodes[a], t.nodes[a]);
      }
    }
  }

  lemma QuietFrom(c: Config, read: Reading, cap: nat, b: Node, n: Node)
    requires n.handled == b.handled
    requires QueueWorth(c, read, cap, n.om) == QueueWorth(c, read, cap, b.om)
    requires forall x :: x in n.om ==> x in b.om || KadOf(c, read, x.1) == None
    ensures NodeQuiet(c, read, cap, b, n)
  {}

  lemma OtherQueues(c: Config, s: Sys, act: Action)
    requires Enabled(c, s, act) && (act.Submit? || act.TakeAck? || act.Round? || act.Lose?)
    ensures var t := Next(c, s, act);
            && t.letters == s.letters && t.nodes.Keys == s.nodes.Keys
            && forall a :: a in s.nodes ==>
                 && t.nodes[a].handled == s.nodes[a].handled
                 && t.nodes[a].om == s.nodes[a].om + if act.Submit? && act.a == a then [(act.dst, act.message)] else []
  {
    hide Outbox.Maintained, OnWire, Outbox.Resends, Outbox.Acked;
    match act
    case Submit(_, _, _) =>
    case TakeAck(_) =>
    case Round(_) =>
    case Lose(_) =>
  }

  lemma NothingArrives(c: Config, read: Reading, before: Node, after: Node)
    requires after.handled == before.handled
    ensures Passed(c, read, before, after) == []
  {}

  /** What the letters are worth depends on the nodes by what they have handled only. */
  lemma SameLetterWorth(c: Config, read: Reading, cap: nat, s: Sys, t: Sys, letters: map<InnerKey, Letter>)
    requires t.nodes.Keys == s.nodes.Keys
    requires forall a :: a in s.nodes ==> t.nodes[a].handled == s.nodes[a].handled
    ensures Sums.OverMap(letters, LetterWeight(c, read, cap, t.nodes))
         == Sums.OverMap(letters, LetterWeight(c, read, cap, s.nodes))
  {
    hide Worth, Times, Left, TimesHandled, Sums.OverMap;
    Sums.MapAgree(letters, letters, LetterWeight(c, read, cap, t.nodes), LetterWeight(c, read, cap, s.nodes));
  }

  lemma SameQueueWorth(c: Config, read: Reading, cap: nat, s: Sys, t: Sys)
    requires t.nodes.Keys == s.nodes.Keys
    requires forall a :: a in s.nodes ==>
               QueueWorth(c, read, cap, t.nodes[a].om) == QueueWorth(c, read, cap, s.nodes[a].om)
    ensures Sums.OverMap(t.nodes, QueueWeight(c, read, cap)) == Sums.OverMap(s.nodes, QueueWeight(c, read, cap))
  {
    hide QueueWorth, Times, Sums.OverMap;
    Sums.MapAgree(t.nodes, s.nodes, QueueWeight(c, read, cap), QueueWeight(c, read, cap));
  }

  lemma SameTodo(c: Config, read: Reading, s: Joint, act: Action, t: Joint)
    requires Shaped(c, s) && NetStep(c, read, s, act, t)
    requires forall a :: a in s.sys.nodes ==> t.sys.nodes[a].handled == s.sys.nodes[a].handled
    ensures t.todo == s.todo
  {
    hide KadOf, Next, Enabled, Passed;
    forall a | a in s.todo ensures t.todo[a] == s.todo[a] {
      NothingArrives(c, read, s.sys.nodes[a], t.sys.nodes[a]);
    }
  }

  lemma QuietPays(c: Config, read: Reading, cap: nat, ids: set<Trie.PeerId>, s: Joint, t: Joint)
    requires Quiet(c, read, cap, s.sys, t.sys) && t.peers == s.peers && t.todo == s.todo
    ensures Potential(c, read, cap, ids, t) == Potential(c, read, cap, ids, s)
  {
    hide LetterWeight, QueueWeight, TodoWeight, Sums.OverMap, KadOf, QueueWorth;
    SameLetterWorth(c, read, cap, s.sys, t.sys, s.sys.letters);
    SameQueueWorth(c, read, cap, s.sys, t.sys);
  }

  // ---------- a message leaves its queue ----------

  lemma OutgoingPays(c: Config, read: Reading, cap: nat, ids: set<Trie.PeerId>, s: Joint, t: Joint, a: SocketAddr,
                     id: InnerKey, l: Letter)
    requires OutgoingStep(c, s.sys, t.sys, a, id, l) && t.peers == s.peers && t.todo == s.todo
    ensures Potential(c, read, cap, ids, t) <= Potential(c, read, cap, ids, s)
  {
    OutgoingKeeps(c, s.sys, t.sys, a, id, l);
    hide OutgoingStep, LetterWeight, QueueWeight, TodoWeight, Sums.OverMap;
    SameLetterWorth(c, read, cap, s.sys, t.sys, s.sys.letters);
    NewLetterWorth(c, read, cap, s.sys.letters, t.sys.nodes, id, l);
    TakenFromQueue(c, read, cap, s.sys.nodes, t.sys.nodes, a);
  }

  lemma OutgoingKeeps(c: Config, s: Sys, t: Sys, a: SocketAddr, id: InnerKey, l: Letter)
    requires OutgoingStep(c, s, t, a, id, l)
    ensures a in s.nodes && s.nodes[a].om != [] && id !in s.letters && t.letters == s.letters[id := l]
    ensures l.message == s.nodes[a].om[0].1
    ensures t.nodes.Keys == s.nodes.Keys
    ensures forall b :: b in s.nodes ==>
              && t.nodes[b].handled == s.nodes[b].handled
              && t.nodes[b].om == if b == a then s.nodes[a].om[1..] else s.nodes[b].om
  {
    hide SentAll, OnWire, Burst, Origin.Packets, Origin.Count;
  }

  lemma NewLetterWorth(c: Config, read: Reading, cap: nat, letters: map<InnerKey, Letter>,
                       nodes: map<SocketAddr, Node>, id: InnerKey, l: Letter)
    requires id !in letters
    ensures Sums.OverMap(letters[id := l], LetterWeight(c, read, cap, nodes))
         <= Sums.OverMap(letters, LetterWeight(c, read, cap, nodes)) + Times(cap, Worth(c, read, cap, l.message))
  {
    var w := LetterWeight(c, read, cap, nodes);
    TimesMonotone(Left(cap, HandledAt(c, nodes, id, l)), cap, Worth(c, read, cap, l.message));
    assert w(id, l) <= Times(cap, Worth(c, read, cap, l.message));
    hide *;
    Sums.MapSplit(letters[id := l], w, id);
    assert letters[id := l] - {id} == letters;
  }

  lemma TakenFromQueue(c: Config, read: Reading, cap: nat, nodes: map<SocketAddr, Node>,
                       after: map<SocketAddr, Node>, a: SocketAddr)
    requires a in nodes && after.Keys == nodes.Keys && nodes[a].om != [] && after[a].om == nodes[a].om[1..]
    requires forall b :: b in nodes && b != a ==> after[b].om == nodes[b].om
    ensures Sums.OverMap(after, QueueWeight(c, read, cap)) + Times(cap, Worth(c, read, cap, nodes[a].om[0].1))
         == Sums.OverMap(nodes, QueueWeight(c, read, cap))
  {
    HeadWorth(c, read, cap, nodes[a].om);
    hide Worth, QueueWorth, Times, Sums.OverMap;
    Sums.MapChanged(nodes, after, QueueWeight(c, read, cap), QueueWeight(c, read, cap), a);
  }

  lemma HeadWorth(c: Config, read: Reading, cap: nat, om: seq<(SocketAddr, Message)>)
    requires om != []
    ensures Times(cap, QueueWorth(c, read, cap, om))
         == Times(cap, Worth(c, read, cap, om[0].1)) + Times(cap, QueueWorth(c, read, cap, om[1..]))
  {
    hide *;
    QueueHead(c, read, cap, om);
    Distribute(cap, Worth(c, read, cap, om[0].1), QueueWorth(c, read, cap, om[1..]));
  }

  lemma QueueHead(c: Config, read: Reading, cap: nat, om: seq<(SocketAddr, Message)>)
    requires om != []
    ensures QueueWorth(c, read, cap, om) == Worth(c, read, cap, om[0].1) + QueueWorth(c, read, cap, om[1..])
  {
    hide Worth;
  }

  lemma Distribute(c: nat, a: nat, b: nat)
    ensures Times(c, a + b) == Times(c, a) + Times(c, b)
  {}

  // ---------- a packet arrives ----------

  /** An arrival: acknowledgements are queued, and the message may be handled once more. */
  ghost predicate ArrivalStep(c: Config, read: Reading, cap: nat, s: Sys, t: Sys, x: SocketAddr, id: InnerKey,
                              more: bool) {
    && t.letters == s.letters && t.nodes.Keys == s.nodes.Keys && x in s.nodes
    && (forall a :: a in s.nodes && a != x ==> t.nodes[a] == s.nodes[a])
    && QueueWorth(c, read, cap, t.nodes[x].om) == QueueWorth(c, read, cap, s.nodes[x].om)
    && (forall y :: y in t.nodes[x].om ==> y in s.nodes[x].om || KadOf(c, read, y.1) == None)
    && (more ==> id in s.letters && c.owner(s.letters[id].from, s.letters[id].to) == x)
    && t.nodes[x].handled
       == if more then s.nodes[x].handled + [(id, s.letters[id].message)] else s.nodes[x].handled
  }

  lemma ArrivalEffect(c: Config, read: Reading, cap: nat, s: Sys, d: Datagram) returns (more: bool)
    requires c.codec.RoundTrips() && Inv(c, s) && Enabled(c, s, Receive(d))
    ensures ArrivalStep(c, read, cap, s, Next(c, s, Receive(d)), c.owner(d.from, d.dst), d.packet.id, more)
    ensures d.packet.id in s.letters
    ensures more <==> Next(c, s, Receive(d)).SeenAt(c.owner(d.from, d.dst), d.packet.id)
                      == Numbers(s.letters[d.packet.id].origin.Count())
  {
    var t, x, p := Next(c, s, Receive(d)), c.owner(d.from, d.dst), d.packet;
    ReceiveEffect(c, s, d);
    ArrivingIsOk(c, s, d);
    ArrivedNow(c, s, t, x, d);
    ReceiveOutcome(c, s, x, s.nodes[x], p);
    more := Insert(s.nodes[x].pending, p).1.Deliver?;
    AfterArrival(c, read, s.nodes[x], d, x);
    hide *;
    ArrivalFrom(c, read, cap, s, t, x, d, more);
  }

  lemma ArrivingIsOk(c: Config, s: Sys, d: Datagram)
    requires Inv(c, s) && d in s.net && c.owner(d.from, d.dst) in s.nodes
    ensures var x := c.owner(d.from, d.dst);
            && ArrivalOk(c, s, x, d.packet) && NodeOk(c, s, x, s.nodes[x]) && d.packet.id in s.letters
            && c.owner(s.letters[d.packet.id].from, s.letters[d.packet.id].to) == x
  {
    assert DatagramOk(c, s, d);
    assert LetterOk(c, s, s.letters[d.packet.id]);
    hide NodeOk;
  }

  lemma ArrivedNow(c: Config, s: Sys, t: Sys, x: SocketAddr, d: Datagram)
    requires x in s.nodes && t.nodes == s.nodes[x := ReceiveNode(c, x, s.nodes[x], d)]
    requires ReceiveNode(c, x, s.nodes[x], d).history == Then(s.nodes[x].history, d.packet)
    ensures t.SeenAt(x, d.packet.id) == Then(s.nodes[x].history, d.packet).Seen(d.packet.id)
  {
    hide ReceiveNode;
  }

  lemma ArrivalFrom(c: Config, read: Reading, cap: nat, s: Sys, t: Sys, x: SocketAddr, d: Datagram, more: bool)
    requires x in s.nodes && t.letters == s.letters && t.nodes == s.nodes[x := ReceiveNode(c, x, s.nodes[x], d)]
    requires d.packet.id in s.letters && c.owner(s.letters[d.packet.id].from, s.letters[d.packet.id].to) == x
    requires var node, acks := s.nodes[x], AcksFor(c.codec, d.packet, x, d.src);
             var handed := Handed(c.codec, Insert(node.pending, d.packet).1);
             && |acks| <= 1 && (forall y :: y in acks ==> KadOf(c, read, y.1) == None)
             && ReceiveNode(c, x, node, d).om == node.om + acks
             && ReceiveNode(c, x, node, d).handled
                == (if handed.Some? then node.handled + [(d.packet.id, handed.value)] else node.handled)
             && handed == if more then Some(s.letters[d.packet.id].message) else None
    ensures ArrivalStep(c, read, cap, s, t, x, d.packet.id, more)
  {
    hide KadOf, QueueWorth, ReceiveNode, AcksFor, Handed, Insert;
    QueueGains(c, read, cap, s.nodes[x], t.nodes[x], AcksFor(c.codec, d.packet, x, d.src));
  }

  lemma AfterArrival(c: Config, read: Reading, node: Node, d: Datagram, x: SocketAddr)
    ensures var acks, handed := AcksFor(c.codec, d.packet, x, d.src), Handed(c.codec, Insert(node.pending, d.packet).1);
            && |acks| <= 1 && (forall y :: y in acks ==> KadOf(c, read, y.1) == None)
            && ReceiveNode(c, x, node, d).om == node.om + acks
            && ReceiveNode(c, x, node, d).handled
               == if handed.Some? then node.handled + [(d.packet.id, handed.value)] else node.handled
  {
    hide Insert, Handed;
  }

  lemma ArrivalPays(c: Config, read: Reading, cap: nat, ids: set<Trie.PeerId>, s: Joint, t: Joint, x: SocketAddr,
                    id: InnerKey, more: bool)
    requires Shaped(c, s) && ArrivalStep(c, read, cap, s.sys, t.sys, x, id, more) && Capped(c, cap, t.sys)
    requires t.peers == s.peers && t.todo.Keys == s.todo.Keys
    requires forall a :: a in s.todo ==>
               t.todo[a] == s.todo[a] + Passed(c, read, s.sys.nodes[a], t.sys.nodes[a])
    ensures Potential(c, read, cap, ids, t) <= Potential(c, read, cap, ids, s)
  {
    var m := if more then Worth(c, read, cap, s.sys.letters[id].message) else 0;
    TodoGains(c, read, cap, s, t, x, id, more, m);
    LetterLoses(c, read, cap, s.sys, t.sys, x, id, more, m);
    hide LetterWeight, QueueWeight, TodoWeight, Sums.OverMap, KadOf, QueueWorth, Worth, Capped, Passed;
    SameQueueWorth(c, read, cap, s.sys, t.sys);
  }

  lemma TodoGains(c: Config, read: Reading, cap: nat, s: Joint, t: Joint, x: SocketAddr, id: InnerKey, more: bool,
                  m: nat)
    requires Shaped(c, s) && ArrivalStep(c, read, cap, s.sys, t.sys, x, id, more)
    requires t.todo.Keys == s.todo.Keys
    requires forall a :: a in s.todo ==>
               t.todo[a] == s.todo[a] + Passed(c, read, s.sys.nodes[a], t.sys.nodes[a])
    requires m == if more then Worth(c, read, cap, s.sys.letters[id].message) else 0
    ensures Sums.OverMap(t.todo, TodoWeight(cap)) == Sums.OverMap(s.todo, TodoWeight(cap)) + m
  {
    forall a | a in s.todo && a != x ensures t.todo[a] == s.todo[a] {
      NothingArrives(c, read, s.sys.nodes[a], t.sys.nodes[a]);
    }
    PassedWorth(c, read, cap, s.sys.nodes[x], t.sys.nodes[x], s.todo[x]);
    hide KadOf, QueueWorth, Passed, TodoWorth, Sums.OverMap;
    Sums.MapChanged(s.todo, t.todo, TodoWeight(cap), TodoWeight(cap), x);
  }

  lemma PassedWorth(c: Config, read: Reading, cap: nat, before: Node, after: Node, todo: seq<Discovery.KadMessage>)
    ensures after.handled == before.handled ==>
              TodoWorth(cap, todo + Passed(c, read, before, after)) == TodoWorth(cap, todo)
    ensures forall id, m :: after.handled == before.handled + [(id, m)] ==>
              TodoWorth(cap, todo + Passed(c, read, before, after)) == TodoWorth(cap, todo) + Worth(c, read, cap, m)
  {
    hide KadOf, TodoWorth;
    assert todo + [] == todo;
    if after.handled != [] && KadOf(c, read, after.handled[|after.handled| - 1].1).Some? {
      TodoAppend(cap, todo, KadOf(c, read, after.handled[|after.handled| - 1].1).value);
    }
  }

  lemma LetterLoses(c: Config, read: Reading, cap: nat, s: Sys, t: Sys, x: SocketAddr, id: InnerKey, more: bool, m: nat)
    requires ArrivalStep(c, read, cap, s, t, x, id, more) && Capped(c, cap, t)
    requires m == if more then Worth(c, read, cap, s.letters[id].message) else 0
    ensures Sums.OverMap(t.letters, LetterWeight(c, read, cap, t.nodes)) + m
         == Sums.OverMap(s.letters, LetterWeight(c, read, cap, s.nodes))
  {
    hide KadOf, QueueWorth, Worth, Sums.OverMap, Times, TimesHandled;
    if more {
      forall j | j in s.letters
        ensures HandledAt(c, t.nodes, j, s.letters[j])
             == HandledAt(c, s.nodes, j, s.letters[j]) + if j == id then 1 else 0
      {
        HandledOnceMore(s.nodes[x].handled, id, s.letters[id].message, j);
      }
      var n := HandledAt(c, s.nodes, id, s.letters[id]);
      assert n + 1 <= cap;
      OneLess(cap, n, m);
      Sums.MapChanged(s.letters, t.letters, LetterWeight(c, read, cap, s.nodes), LetterWeight(c, read, cap, t.nodes),
                      id);
    } else {
      SameLetterWorth(c, read, cap, s, t, s.letters);
    }
  }

  lemma HandledOnceMore(handled: seq<(InnerKey, Message)>, id: InnerKey, m: Message, j: InnerKey)
    ensures TimesHandled(handled + [(id, m)], j) == TimesHandled(handled, j) + if j == id then 1 else 0
  {
    assert (handled + [(id, m)])[..|handled|] == handled;
  }

  lemma OneLess(cap: nat, n: nat, w: nat)
    requires n + 1 <= cap
    ensures Times(Left(cap, n + 1), w) + w == Times(Left(cap, n), w)
  {}

  // ---------- discovery works on a message ----------

  ghost predicate KadIn(c: Config, read: Reading, ids: set<Trie.PeerId>, m: Message) {
    KadOf(c, read, m).Some? ==> Discovery.MessageIn(ids, KadOf(c, read, m).value)
  }

  ghost predicate PeerIn(ids: set<Trie.PeerId>, p: Discovery.Peer) {
    p.info.id in ids && (p.tree.Some? ==> Discovery.TableIn(ids, p.info.key, p.tree.value))
  }

  /** All ids in tables, in queues and in flight are among ids. */
  ghost predicate Closed(c: Config, read: Reading, ids: set<Trie.PeerId>, s: Joint) {
    && (forall a :: a in s.peers ==> PeerIn(ids, s.peers[a]))
    && (forall a, k :: a in s.todo && k in s.todo[a] ==> Discovery.MessageIn(ids, k))
    && (forall a, x :: a in s.sys.nodes && x in s.sys.nodes[a].om ==> KadIn(c, read, ids, x.1))
    && (forall id :: id in s.sys.letters ==> KadIn(c, read, ids, s.sys.letters[id].message))
  }

  lemma WorkPays(c: Config, read: Reading, cap: nat, ids: set<Trie.PeerId>, s: Joint, a: SocketAddr,
                 answer: seq<Trie.PeerInfo>, wires: seq<Message>, t: Joint)
    requires Closed(c, read, ids, s) && WorkStep(c, read, s, a, answer, wires, t)
    ensures Potential(c, read, cap, ids, t) < Potential(c, read, cap, ids, s)
  {
    var p, k, e := s.peers[a], s.todo[a][0], EffectAt(s, a, answer);
    assert PeerIn(ids, p) && k in s.todo[a] && Discovery.MessageIn(ids, k);
    Discovery.HandlingPays(cap, ids, p.info, p.tree.value, k, answer);
    var node := s.sys.nodes[a].(om := Submitted(s.sys.nodes[a].om, e.sent, wires));
    WorkSums(c, read, cap, ids, s, t, a, p.(tree := e.tree), node);
    WorkWorth(c, read, cap, s.sys.nodes[a].om, e.sent, wires);
    assert TodoWorth(cap, s.todo[a]) == Discovery.Weight(cap, k) + TodoWorth(cap, s.todo[a][1..]);
    hide *;
    assert e.tree == p.(tree := e.tree).tree;
  }

  lemma WorkWorth(c: Config, read: Reading, cap: nat, om: seq<(SocketAddr, Message)>, sent: seq<Discovery.Out>,
                  wires: seq<Message>)
    requires |sent| == |wires| && forall i :: 0 <= i < |wires| ==> KadOf(c, read, wires[i]) == Some(sent[i].msg)
    ensures Times(cap, QueueWorth(c, read, cap, Submitted(om, sent, wires)))
         == Times(cap, QueueWorth(c, read, cap, om)) + Times(cap, Discovery.Weights(cap, sent))
  {
    hide *;
    SubmittedWorth(c, read, cap, om, sent, wires);
    Distribute(cap, QueueWorth(c, read, cap, om), Discovery.Weights(cap, sent));
  }

  lemma WorkSums(c: Config, read: Reading, cap: nat, ids: set<Trie.PeerId>, s: Joint, t: Joint, a: SocketAddr,
                 p: Discovery.Peer, node: Node)
    requires a in s.peers && a in s.sys.nodes && a in s.todo && s.todo[a] != []
    requires t.peers == s.peers[a := p] && t.todo == s.todo[a := s.todo[a][1..]]
    requires t.sys == s.sys.(nodes := s.sys.nodes[a := node]) && node.handled == s.sys.nodes[a].handled
    ensures var price := Discovery.IdPrice(cap);
            Potential(c, read, cap, ids, t) + Times(Discovery.Unknown(ids, s.peers[a].tree), price)
            + Times(cap, QueueWorth(c, read, cap, s.sys.nodes[a].om)) + TodoWorth(cap, s.todo[a])
            == Potential(c, read, cap, ids, s) + Times(Discovery.Unknown(ids, p.tree), price)
            + Times(cap, QueueWorth(c, read, cap, node.om)) + TodoWorth(cap, s.todo[a][1..])
  {
    hide QueueWorth, TodoWorth, Discovery.Unknown, Discovery.IdPrice, Times, Sums.OverMap, LetterWeight;
    Sums.MapUpdate(s.peers, Discovery.NodePrice(cap, ids), a, p);
    Sums.MapUpdate(s.sys.nodes, QueueWeight(c, read, cap), a, node);
    Sums.MapUpdate(s.todo, TodoWeight(cap), a, s.todo[a][1..]);
    SameLetterWorth(c, read, cap, s.sys, t.sys, s.sys.letters);
  }

  lemma {:induction false} SubmittedIs(om: seq<(SocketAddr, Message)>, sent: seq<Discovery.Out>, wires: seq<Message>,
                                       x: (SocketAddr, Message))
    requires |sent| == |wires| && x in Submitted(om, sent, wires)
    ensures x in om || exists i :: 0 <= i < |wires| && x == (sent[i].dst, wires[i])
  {
    if sent != [] {
      var n := |sent| - 1;
      if x != (sent[n].dst, wires[n]) {
        SubmittedIs(om, sent[..n], wires[..n], x);
        if x !in om {
          var i :| 0 <= i < n && x == (sent[..n][i].dst, wires[..n][i]);
          assert x == (sent[i].dst, wires[i]);
        }
      }
    }
  }

  lemma WorkStaysClosed(c: Config, read: Reading, ids: set<Trie.PeerId>, s: Joint, a: SocketAddr,
                        answer: seq<Trie.PeerInfo>, wires: seq<Message>, t: Joint)
    requires Closed(c, read, ids, s) && WorkStep(c, read, s, a, answer, wires, t)
    ensures Closed(c, read, ids, t)
  {
    var p, k, e := s.peers[a], s.todo[a][0], EffectAt(s, a, answer);
    assert PeerIn(ids, p) && k in s.todo[a] && Discovery.MessageIn(ids, k);
    Discovery.HandlingStaysIn(ids, p.info, p.tree.value, k, answer);
    assert PeerIn(ids, p.(tree := e.tree));
    hide KadOf, Submitted, Discovery.Handle, Discovery.AnswerFits, Discovery.TableIn, Discovery.MessageIn, PeerIn;
    forall b, x | b in t.sys.nodes && x in t.sys.nodes[b].om ensures KadIn(c, read, ids, x.1) {
      if b == a && x !in s.sys.nodes[a].om {
        SubmittedIs(s.sys.nodes[a].om, e.sent, wires, x);
        var i :| 0 <= i < |wires| && x == (e.sent[i].dst, wires[i]);
        assert e.sent[i] in e.sent && KadOf(c, read, wires[i]) == Some(e.sent[i].msg);
      }
    }
    forall b, m | b in t.todo && m in t.todo[b] ensures Discovery.MessageIn(ids, m) {
      assert m in s.todo[b];
    }
  }

  // ---------- steps of the transport stay closed ----------

  predicate QueuedAt(s: Sys, a: SocketAddr, x: (SocketAddr, Message)) {
    a in s.nodes && x in s.nodes[a].om
  }

  predicate Says(c: Config, read: Reading, s: Sys, id: InnerKey, k: Discovery.KadMessage) {
    id in s.letters && KadOf(c, read, s.letters[id].message) == Some(k)
  }

  /** What may be new after a step of the transport. */
  ghost predicate Carries(c: Config, read: Reading, s: Sys, t: Sys) {
    && t.nodes.Keys == s.nodes.Keys
    && (forall a, x :: a in s.nodes && x in t.nodes[a].om ==> x in s.nodes[a].om || KadOf(c, read, x.1) == None)
    && (forall id :: id in t.letters ==>
          || (id in s.letters && t.letters[id] == s.letters[id])
          || exists a, x :: QueuedAt(s, a, x) && x.1 == t.letters[id].message)
    && (forall a, k :: a in s.nodes && k in Passed(c, read, s.nodes[a], t.nodes[a]) ==>
          exists id :: Says(c, read, s, id, k))
  }

  lemma NetStaysClosed(c: Config, read: Reading, ids: set<Trie.PeerId>, s: Joint, t: Joint)
    requires Shaped(c, s) && Closed(c, read, ids, s) && Carries(c, read, s.sys, t.sys)
    requires t.peers == s.peers && t.todo.Keys == s.todo.Keys
    requires forall a :: a in s.todo ==>
               t.todo[a] == s.todo[a] + Passed(c, read, s.sys.nodes[a], t.sys.nodes[a])
    ensures Closed(c, read, ids, t)
  {
    hide KadOf, Passed, Discovery.MessageIn, PeerIn;
    forall a, k | a in t.todo && k in t.todo[a] ensures Discovery.MessageIn(ids, k) {
      if k !in s.todo[a] {
        assert k in Passed(c, read, s.sys.nodes[a], t.sys.nodes[a]);
        var id :| Says(c, read, s.sys, id, k);
        assert KadIn(c, read, ids, s.sys.letters[id].message);
      }
    }
    forall id | id in t.sys.letters ensures KadIn(c, read, ids, t.sys.letters[id].message) {
      if !(id in s.sys.letters && t.sys.letters[id] == s.sys.letters[id]) {
        var a, x :| QueuedAt(s.sys, a, x) && x.1 == t.sys.letters[id].message;
      }
    }
  }

  lemma QuietCarries(c: Config, read: Reading, cap: nat, s: Sys, t: Sys)
    requires Quiet(c, read, cap, s, t)
    ensures Carries(c, read, s, t)
  {
    hide KadOf, QueueWorth, Passed;
    forall a | a in s.nodes ensures Passed(c, read, s.nodes[a], t.nodes[a]) == [] {
      NothingArrives(c, read, s.nodes[a], t.nodes[a]);
    }
  }

  lemma OutgoingCarries(c: Config, read: Reading, s: Sys, t: Sys, a: SocketAddr, id: InnerKey, l: Letter)
    requires OutgoingStep(c, s, t, a, id, l)
    ensures Carries(c, read, s, t)
  {
    OutgoingKeeps(c, s, t, a, id, l);
    hide OutgoingStep, KadOf, Passed;
    forall b | b in s.nodes ensures Passed(c, read, s.nodes[b], t.nodes[b]) == [] {
      NothingArrives(c, read, s.nodes[b], t.nodes[b]);
    }
    assert QueuedAt(s, a, s.nodes[a].om[0]);
  }

  lemma ArrivalCarries(c: Config, read: Reading, cap: nat, s: Sys, t: Sys, x: SocketAddr, id: InnerKey, more: bool)
    requires ArrivalStep(c, read, cap, s, t, x, id, more)
    ensures Carries(c, read, s, t)
  {
    hide KadOf, QueueWorth;
    forall a, k | a in s.nodes && k in Passed(c, read, s.nodes[a], t.nodes[a])
      ensures exists j :: Says(c, read, s, j, k)
    {
      assert Says(c, read, s, id, k);
    }
  }

  /** What every step keeps, and what it pays. */
  lemma StepPays(c: Config, read: Reading, cap: nat, ids: set<Trie.PeerId>, s: Joint, st: Step, t: Joint)
    requires c.codec.RoundTrips() && Inv(c, s.sys) && Capped(c, cap, t.sys)
    requires Shaped(c, s) && Closed(c, read, ids, s) && JointStep(c, read, s, st, t)
    ensures Shaped(c, t) && Closed(c, read, ids, t)
    ensures Potential(c, read, cap, ids, t) + (if st.Work? then 1 else 0) <= Potential(c, read, cap, ids, s)
  {
    hide *;
    match st
    case Work(a, answer, wires) =>
      WorkIs(c, read, s, a, answer, wires, t);
      WorkPays(c, read, cap, ids, s, a, answer, wires, t);
      WorkStaysClosed(c, read, ids, s, a, answer, wires, t);
    case Net(act) =>
      NetIs(c, read, s, act, t);
      NetPays(c, read, cap, ids, s, act, t);
  }

  lemma WorkIs(c: Config, read: Reading, s: Joint, a: SocketAddr, answer: seq<Trie.PeerInfo>, wires: seq<Message>,
               t: Joint)
    requires JointStep(c, read, s, Work(a, answer, wires), t) && Shaped(c, s)
    ensures WorkStep(c, read, s, a, answer, wires, t) && Shaped(c, t)
  {
    hide KadOf, Submitted, Discovery.Handle, Discovery.AnswerFits;
  }

  lemma NetIs(c: Config, read: Reading, s: Joint, act: Action, t: Joint)
    requires JointStep(c, read, s, Net(act), t) && Shaped(c, s)
    ensures NetStep(c, read, s, act, t) && Shaped(c, t)
  {
    hide KadOf, Next, Enabled, Passed;
  }

  lemma NetPays(c: Config, read: Reading, cap: nat, ids: set<Trie.PeerId>, s: Joint, act: Action, t: Joint)
    requires c.codec.RoundTrips() && Inv(c, s.sys) && Capped(c, cap, t.sys)
    requires Shaped(c, s) && Closed(c, read, ids, s) && NetStep(c, read, s, act, t)
    ensures Closed(c, read, ids, t) && Potential(c, read, cap, ids, t) <= Potential(c, read, cap, ids, s)
  {
    hide Inv, Capped, Closed, KadOf, Next, Enabled, Passed, Potential, Carries, Quiet, OutgoingStep, ArrivalStep;
    match act
    case Receive(d) =>
      var more := ArrivalEffect(c, read, cap, s.sys, d);
      ArrivalCarries(c, read, cap, s.sys, t.sys, c.owner(d.from, d.dst), d.packet.id, more);
      ArrivalPays(c, read, cap, ids, s, t, c.owner(d.from, d.dst), d.packet.id, more);
      NetStaysClosed(c, read, ids, s, t);
    case Outgoing(a, id) =>
      var l := OutgoingEffect(c, s.sys, a, id);
      OutgoingCarries(c, read, s.sys, t.sys, a, id, l);
      OutgoingKeeps(c, s.sys, t.sys, a, id, l);
      SameTodo(c, read, s, act, t);
      OutgoingPays(c, read, cap, ids, s, t, a, id, l);
      NetStaysClosed(c, read, ids, s, t);
    case Submit(_, _, _) | TakeAck(_) | Round(_) | Lose(_) =>
      QuietStep(c, read, cap, s.sys, act);
      QuietCarries(c, read, cap, s.sys, t.sys);
      QuietHandles(c, read, cap, s.sys, t.sys);
      SameTodo(c, read, s, act, t);
      QuietPays(c, read, cap, ids, s, t);
      NetStaysClosed(c, read, ids, s, t);
  }

  lemma QuietHandles(c: Config, read: Reading, cap: nat, s: Sys, t: Sys)
    requires Quiet(c, read, cap, s, t)
    ensures t.nodes.Keys == s.nodes.Keys && forall a :: a in s.nodes ==> t.nodes[a].handled == s.nodes[a].handled
  {
    hide KadOf, QueueWorth;
  }
}
