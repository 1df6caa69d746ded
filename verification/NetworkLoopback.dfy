/** A run in which the loopback rewrite shows: a peer on the sender's own host receives a packet, its
    acknowledgement is recorded, and the packet is sent again all the same. */
module NetworkLoopback {
  import opened Bytes
  import opened Packets
  import opened Reassembly
  import opened Outbox
  import opened Handler
  import opened Transport
  import opened Network
  import Hex

  /** The datagram of a letter that fits in one packet. */
  function Single(c: Config, l: Letter, id: InnerKey): Datagram {
    Datagram(l.from, c.visible(l.from, l.to), l.to, PacketAt(l.origin.bytes, id, l.origin.ret, 0))
  }

  /** outgoing_msg on a message of one packet. */
  function SentSingle(c: Config, s: Sys, a: SocketAddr, id: InnerKey): Sys
    requires a in s.nodes && s.nodes[a].om != []
  {
    var node := s.nodes[a];
    var l := LetterFor(c, a, node.om[0].0, node.om[0].1);
    var d := Single(c, l, id);
    var o := if l.message.head == Ack then node.outbox else Sent(node.outbox, l.to, d.packet);
    Sys(s.nodes[a := node.(om := node.om[1..], outbox := o)], s.net + multiset{d}, s.sent + multiset{d},
        s.letters[id := l])
  }

  lemma OutgoingSingle(c: Config, s: Sys, a: SocketAddr, id: InnerKey)
    requires Enabled(c, s, Outgoing(a, id)) && |c.codec.encode(s.nodes[a].om[0].1)| < CHUNK
    ensures Next(c, s, Outgoing(a, id)) == SentSingle(c, s, a, id)
  {
    var node := s.nodes[a];
    var l := LetterFor(c, a, node.om[0].0, node.om[0].1);
    var d := Single(c, l, id);
    assert l.origin.Count() == 1 && l.origin.Packets(id) == [d.packet];
    assert BurstOf(l.to, l.origin, id, 0) == {};
    assert Burst(l.to, l.origin, id) == {(l.to, d.packet)};
    assert OnWire(c, a, {(l.to, d.packet)}) == {d};
    hide PacketAt, Origin.Count, Origin.Packets, Burst, OnWire, Sent, LetterFor;
    assert SentAll(node.outbox, l.to, [d.packet], 1) == Sent(node.outbox, l.to, d.packet);
    assert multiset({d}) == multiset{d};
  }

  /** recv_msg on the one packet of a message. */
  function ReceivedSingle(c: Config, s: Sys, d: Datagram, m: Message): Sys
    requires c.owner(d.from, d.dst) in s.nodes
  {
    var x := c.owner(d.from, d.dst);
    var node, route := s.nodes[x], RouteOf(c.codec, m);
    var after := node.(om := node.om + AcksFor(c.codec, d.packet, x, d.src),
                       ia := if route.ToOutbox? then node.ia + [route.ack] else node.ia,
                       history := Then(node.history, d.packet), handled := node.handled + [(d.packet.id, m)]);
    s.(nodes := s.nodes[x := after], net := s.net - multiset{d})
  }

  lemma ReceiveSingle(c: Config, s: Sys, d: Datagram, m: Message)
    requires c.codec.RoundTrips() && Enabled(c, s, Receive(d))
    requires d.packet.totalN == 1 && d.packet.bytes == Hex.Encode(c.codec.encode(m))
    requires d.packet.id !in s.nodes[c.owner(d.from, d.dst)].pending
    ensures Next(c, s, Receive(d)) == ReceivedSingle(c, s, d, m)
  {
    var x := c.owner(d.from, d.dst);
    Hex.DecodeEncode(c.codec.encode(m));
    hide Hex.Encode, Hex.Decode, RouteOf, AcksFor;
    assert Insert(s.nodes[x].pending, d.packet) == (s.nodes[x].pending, Deliver(c.codec.encode(m)));
    assert Handed(c.codec, Deliver(c.codec.encode(m))) == Some(m);
  }

  // ---------- the scene ----------

  /** Two nodes on one host, each of which is reached under the addresses the other one uses, and a
      message that, like its acknowledgement, fits in one packet. */
  ghost predicate Scene(c: Config, a: SocketAddr, b: SocketAddr, m: Message, id: InnerKey) {
    && c.codec.RoundTrips()
    && a in c.nodes && b in c.nodes && a != b && a.host == b.host && b.host != LOOPBACK
    && c.owner(a, Rewrite(a, b)) == b && c.owner(b, c.visible(a, Rewrite(a, b))) == a
    && m.head != Ack && |c.codec.encode(m)| < CHUNK && |c.codec.encode(Receipt(c, b, id))| < CHUNK
  }

  function Receipt(c: Config, b: SocketAddr, id: InnerKey): Message {
    Message(Ack, c.codec.encodeAck(AckMessage(id, 1, b)))
  }

  function Asked(c: Config, a: SocketAddr, b: SocketAddr, m: Message, id: InnerKey): Datagram {
    Single(c, LetterFor(c, a, b, m), id)
  }

  function Answered(c: Config, a: SocketAddr, b: SocketAddr, m: Message, id: InnerKey, ackId: InnerKey): Datagram {
    Single(c, LetterFor(c, b, Asked(c, a, b, m, id).src, Receipt(c, b, id)), ackId)
  }

  /** The message arrives. */
  function Arrival(c: Config, a: SocketAddr, b: SocketAddr, m: Message, id: InnerKey): Trace {
    Do(Do(Do(Start, Submit(a, b, m)), Outgoing(a, id)), Receive(Asked(c, a, b, m, id)))
  }

  /** Its acknowledgement arrives and is recorded. */
  function Settlement(c: Config, a: SocketAddr, b: SocketAddr, m: Message, id: InnerKey, ackId: InnerKey): Trace {
    Do(Do(Do(Arrival(c, a, b, m, id), Outgoing(b, ackId)), Receive(Answered(c, a, b, m, id, ackId))), TakeAck(a))
  }

  function Pendent(c: Config, a: SocketAddr, b: SocketAddr, m: Message, id: InnerKey, acked: set<SocketAddr>): Entry {
    Entry({Rewrite(a, b)}, acked, Asked(c, a, b, m, id).packet, 1)
  }

  function Blank(): Node {
    Node([], [], map[], map[], Fresh, [])
  }

  /** The state by its parts that matter. */
  ghost predicate Shows(c: Config, s: Sys, a: SocketAddr, b: SocketAddr, atA: Node, atB: Node, net: multiset<Datagram>,
                        id: InnerKey, letters: map<InnerKey, Letter>) {
    && s.nodes.Keys == c.nodes && a in c.nodes && b in c.nodes && a != b
    && s.nodes[a] == atA && s.nodes[b] == atB && s.net == net
    && s.letters == letters
  }

  lemma SubmitRuns(c: Config, a: SocketAddr, b: SocketAddr, m: Message, id: InnerKey) returns (s: Sys)
    requires Scene(c, a, b, m, id)
    ensures Exec(c, Do(Start, Submit(a, b, m))) == Some(s)
    ensures Shows(c, s, a, b, Blank().(om := [(b, m)]), Blank(), multiset{}, id, map[])
  {
    var s0 := Init(c);
    s := Next(c, s0, Submit(a, b, m));
    assert s0.nodes[a].om + [(b, m)] == [(b, m)];
    assert Exec(c, Start) == Some(s0) && Enabled(c, s0, Submit(a, b, m));
    Continue(c, Start, Submit(a, b, m), s0, s);
  }

  lemma AskedIs(c: Config, a: SocketAddr, b: SocketAddr, m: Message, id: InnerKey)
    requires Scene(c, a, b, m, id)
    ensures var d := Asked(c, a, b, m, id);
            && d.dst == Rewrite(a, b) && d.src == c.visible(a, d.dst)
            && d.packet.id == id && d.packet.n == 1 && d.packet.totalN == 1 && d.packet.ret == 1
            && d.packet.bytes == Hex.Encode(c.codec.encode(m))
  {
    assert Chunk(c.codec.encode(m), 0) == c.codec.encode(m);
  }

  lemma AskRuns(c: Config, a: SocketAddr, b: SocketAddr, m: Message, id: InnerKey) returns (s: Sys)
    requires Scene(c, a, b, m, id)
    ensures Exec(c, Do(Do(Start, Submit(a, b, m)), Outgoing(a, id))) == Some(s)
    ensures Shows(c, s, a, b, Blank().(outbox := map[Slot(id, 1) := Pendent(c, a, b, m, id, {})]), Blank(),
                  multiset{Asked(c, a, b, m, id)}, id, map[id := LetterFor(c, a, b, m)])
  {
    var s1 := SubmitRuns(c, a, b, m, id);
    assert Enabled(c, s1, Outgoing(a, id));
    OutgoingSingle(c, s1, a, id);
    s := SentSingle(c, s1, a, id);
    AskedIs(c, a, b, m, id);
    hide Next, Exec, Asked;
    Continue(c, Do(Start, Submit(a, b, m)), Outgoing(a, id), s1, s);
    assert s1.nodes[a].om[1..] == [];
  }

  lemma ArrivalRuns(c: Config, a: SocketAddr, b: SocketAddr, m: Message, id: InnerKey) returns (s: Sys)
    requires Scene(c, a, b, m, id)
    ensures Exec(c, Arrival(c, a, b, m, id)) == Some(s)
    ensures var d := Asked(c, a, b, m, id);
            Shows(c, s, a, b, Blank().(outbox := map[Slot(id, 1) := Pendent(c, a, b, m, id, {})]),
                  Blank().(om := [(d.src, Receipt(c, b, id))], history := Then(Fresh, d.packet), handled := [(id, m)]),
                  multiset{}, id, map[id := LetterFor(c, a, b, m)])
  {
    var s2 := AskRuns(c, a, b, m, id);
    var d := Asked(c, a, b, m, id);
    AskedIs(c, a, b, m, id);
    assert Enabled(c, s2, Receive(d));
    ReceiveSingle(c, s2, d, m);
    s := ReceivedSingle(c, s2, d, m);
    assert !RouteOf(c.codec, m).ToOutbox?;
    assert AcksFor(c.codec, d.packet, b, d.src) == [(d.src, Receipt(c, b, id))];
    hide Next, Exec, Asked, Enabled, RouteOf, AcksFor, Receipt;
    Continue(c, Do(Do(Start, Submit(a, b, m)), Outgoing(a, id)), Receive(d), s2, s);
  }

  lemma AnsweredIs(c: Config, a: SocketAddr, b: SocketAddr, m: Message, id: InnerKey, ackId: InnerKey)
    requires Scene(c, a, b, m, id)
    ensures var d := Answered(c, a, b, m, id, ackId);
            && c.owner(d.from, d.dst) == a
            && d.packet.id == ackId && d.packet.totalN == 1 && d.packet.ret == 0
            && d.packet.bytes == Hex.Encode(c.codec.encode(Receipt(c, b, id)))
    ensures RouteOf(c.codec, Receipt(c, b, id)) == ToOutbox(AckMessage(id, 1, b))
  {
    assert Chunk(c.codec.encode(Receipt(c, b, id)), 0) == c.codec.encode(Receipt(c, b, id));
  }

  lemma AnswerRuns(c: Config, a: SocketAddr, b: SocketAddr, m: Message, id: InnerKey, ackId: InnerKey) returns (s: Sys)
    requires Scene(c, a, b, m, id) && ackId != id
    ensures Exec(c, Do(Arrival(c, a, b, m, id), Outgoing(b, ackId))) == Some(s)
    ensures var d := Asked(c, a, b, m, id);
            Shows(c, s, a, b, Blank().(outbox := map[Slot(id, 1) := Pendent(c, a, b, m, id, {})]),
                  Blank().(history := Then(Fresh, d.packet), handled := [(id, m)]),
                  multiset{Answered(c, a, b, m, id, ackId)}, id,
                  map[id := LetterFor(c, a, b, m), ackId := LetterFor(c, b, d.src, Receipt(c, b, id))])
  {
    var s3 := ArrivalRuns(c, a, b, m, id);
    assert Enabled(c, s3, Outgoing(b, ackId));
    OutgoingSingle(c, s3, b, ackId);
    s := SentSingle(c, s3, b, ackId);
    assert Receipt(c, b, id).head == Ack;
    hide Next, Exec, Asked, Enabled, Receipt, Arrival;
    Continue(c, Arrival(c, a, b, m, id), Outgoing(b, ackId), s3, s);
    assert s3.nodes[b].om[1..] == [];
  }

  lemma RecordRuns(c: Config, a: SocketAddr, b: SocketAddr, m: Message, id: InnerKey, ackId: InnerKey) returns (s: Sys)
    requires Scene(c, a, b, m, id) && ackId != id
    ensures var t := Do(Arrival(c, a, b, m, id), Outgoing(b, ackId));
            Exec(c, Do(t, Receive(Answered(c, a, b, m, id, ackId)))) == Some(s)
    ensures s.nodes.Keys == c.nodes && s.net == multiset{} && id in s.letters && s.letters[id] == LetterFor(c, a, b, m)
    ensures s.nodes[a].ia == [AckMessage(id, 1, b)]
    ensures s.nodes[a].outbox == map[Slot(id, 1) := Pendent(c, a, b, m, id, {})]
    ensures s.nodes[b].history == Then(Fresh, Asked(c, a, b, m, id).packet)
  {
    var s4 := AnswerRuns(c, a, b, m, id, ackId);
    var d := Answered(c, a, b, m, id, ackId);
    AnsweredIs(c, a, b, m, id, ackId);
    assert Enabled(c, s4, Receive(d));
    ReceiveSingle(c, s4, d, Receipt(c, b, id));
    s := ReceivedSingle(c, s4, d, Receipt(c, b, id));
    hide Next, Exec, Asked, Answered, Enabled, RouteOf, AcksFor, Receipt, Arrival, LetterFor;
    Continue(c, Do(Arrival(c, a, b, m, id), Outgoing(b, ackId)), Receive(d), s4, s);
  }

  /** The run: the packet has arrived at its destination, its acknowledgement has been recorded, and
      the next round puts the same datagram on the wire again. */
  lemma SameHostIsResent(c: Config, a: SocketAddr, b: SocketAddr, m: Message, id: InnerKey, ackId: InnerKey)
    requires Scene(c, a, b, m, id) && ackId != id
    ensures Exec(c, Settlement(c, a, b, m, id, ackId)).Some?
    ensures var s, k := Exec(c, Settlement(c, a, b, m, id, ackId)).value, Slot(id, 1);
            && id in s.letters && s.letters[id].message == m && s.letters[id].dst == b
            && s.SeenAt(b, id) == Numbers(NumPackets(|c.codec.encode(m)|))
            && a in s.nodes && k in s.nodes[a].outbox && s.nodes[a].outbox[k].acked == {b}
            && Enabled(c, s, Network.Round(a))
            && s.net == multiset{}
            && Next(c, s, Network.Round(a)).net == multiset{Asked(c, a, b, m, id)}
  {
    var s5 := RecordRuns(c, a, b, m, id, ackId);
    var t := Do(Do(Arrival(c, a, b, m, id), Outgoing(b, ackId)), Receive(Answered(c, a, b, m, id, ackId)));
    var s := s5.(nodes := s5.nodes[a := TakeAckNode(s5.nodes[a])]);
    AskedIs(c, a, b, m, id);
    assert Then(Fresh, Asked(c, a, b, m, id).packet).Seen(id) == Numbers(1);
    Recorded(c, s5.nodes[a], a, b, m, id);
    hide Exec, Arrival, Asked, Answered, Pendent, TakeAckNode, Scene, History.Seen;
    assert Next(c, s5, TakeAck(a)) == s;
    hide Next;
    Continue(c, t, TakeAck(a), s5, s);
    ResendsTheOne(c, s, a, b, m, id);
  }

  lemma Recorded(c: Config, node: Node, a: SocketAddr, b: SocketAddr, m: Message, id: InnerKey)
    requires node.ia == [AckMessage(id, 1, b)]
    requires node.outbox == map[Slot(id, 1) := Pendent(c, a, b, m, id, {})]
    ensures TakeAckNode(node).outbox == map[Slot(id, 1) := Pendent(c, a, b, m, id, {b})]
    ensures Pendent(c, a, b, m, id, {b}).acked == {b}
  {
    hide Asked;
    var e := Pendent(c, a, b, m, id, {});
    assert e.acked + {b} == {b};
    assert e.(acked := {b}) == Pendent(c, a, b, m, id, {b});
  }

  lemma ResendsTheOne(c: Config, s: Sys, a: SocketAddr, b: SocketAddr, m: Message, id: InnerKey)
    requires Scene(c, a, b, m, id) && a in s.nodes && s.net == multiset{}
    requires s.nodes[a].outbox == map[Slot(id, 1) := Pendent(c, a, b, m, id, {b})]
    ensures Next(c, s, Network.Round(a)).net == multiset{Asked(c, a, b, m, id)}
  {
    var o, d := s.nodes[a].outbox, Asked(c, a, b, m, id);
    var e := Pendent(c, a, b, m, id, {b});
    AskedIs(c, a, b, m, id);
    hide Asked;
    assert e.Missing() == {d.dst} && e.Live();
    assert Resends(o, o.Keys) == {(d.dst, d.packet)} by {
      assert o[Slot(id, 1)] == e && (d.dst, d.packet) in Resends(o, o.Keys);
    }
    assert OnWire(c, a, {(d.dst, d.packet)}) == {d};
    RoundEffect(c, s, a);
    hide Next, Resends, OnWire;
    assert multiset({d}) == multiset{d};
  }

  // ---------- there is such a scene ----------

  /** A number in unary, and what it ends at. */
  function Unary(n: nat): seq<byte> {
    if n == 0 then [0] else [1] + Unary(n - 1)
  }

  lemma {:induction false} UnaryEnds(n: nat, x: seq<byte>, k: nat, y: seq<byte>)
    requires Unary(n) + x == Unary(k) + y
    ensures n == k && x == y
  {
    assert (Unary(n) + x)[0] == Unary(n)[0] && (Unary(k) + y)[0] == Unary(k)[0];
    if n == 0 {
      assert (Unary(n) + x)[1..] == x && (Unary(k) + y)[1..] == y;
    } else {
      assert (Unary(n) + x)[1..] == Unary(n - 1) + x && (Unary(k) + y)[1..] == Unary(k - 1) + y;
      UnaryEnds(n - 1, x, k - 1, y);
    }
  }

  function AckBytes(ack: AckMessage): seq<byte> {
    ack.packetId.bytes + (Unary(ack.packetNumber) + (Unary(ack.src.host) + (Unary(ack.src.port) + [])))
  }

  lemma AckBytesDiffer(a: AckMessage, b: AckMessage)
    requires AckBytes(a) == AckBytes(b)
    ensures a == b
  {
    assert AckBytes(a)[..32] == a.packetId.bytes && AckBytes(b)[..32] == b.packetId.bytes;
    assert AckBytes(a)[32..] == Unary(a.packetNumber) + (Unary(a.src.host) + (Unary(a.src.port) + []));
    assert AckBytes(b)[32..] == Unary(b.packetNumber) + (Unary(b.src.host) + (Unary(b.src.port) + []));
    UnaryEnds(a.packetNumber, Unary(a.src.host) + (Unary(a.src.port) + []),
              b.packetNumber, Unary(b.src.host) + (Unary(b.src.port) + []));
    UnaryEnds(a.src.host, Unary(a.src.port) + [], b.src.host, Unary(b.src.port) + []);
    UnaryEnds(a.src.port, [], b.src.port, []);
  }

  ghost function AckOf(bytes: seq<byte>): Option<AckMessage> {
    if exists a :: AckBytes(a) == bytes then var a :| AckBytes(a) == bytes; Some(a) else None
  }

  function Headers(): seq<Header> {
    [Request, Response, Gossip, Ack]
  }

  function HeaderByte(h: Header): byte {
    match h case Request => 0 case Response => 1 case Gossip => 2 case Ack => 3
  }

  /** A codec that round-trips, so that what is proved from that assumption is not proved of nothing. */
  ghost function SomeCodec(): Codec {
    Codec((m: Message) => [HeaderByte(m.head)] + m.msg,
          (bytes: seq<byte>) =>
            if bytes == [] || bytes[0] > 3 then None else Some(Message(Headers()[bytes[0]], bytes[1..])),
          (a: AckMessage) => AckBytes(a), (bytes: seq<byte>) => AckOf(bytes), (bytes: seq<byte>) => false)
  }

  lemma SomeCodecRoundTrips()
    ensures SomeCodec().RoundTrips()
  {
    var codec := SomeCodec();
    forall m: Message ensures codec.decode(codec.encode(m)) == Some(m) {
      assert codec.encode(m)[0] == HeaderByte(m.head) && codec.encode(m)[1..] == m.msg;
    }
    forall a: AckMessage ensures codec.decodeAck(codec.encodeAck(a)) == Some(a) {
      hide AckBytes;
      forall b | AckBytes(b) == AckBytes(a) ensures b == a { AckBytesDiffer(b, a); }
    }
  }

  lemma {:induction false} UnaryLength(n: nat)
    ensures |Unary(n)| == n + 1
  {
    if n > 0 { UnaryLength(n - 1); }
  }

  lemma SceneExists()
    ensures exists c, a, b, m, id :: Scene(c, a, b, m, id)
  {
    var a, b := SocketAddr(1, 1), SocketAddr(1, 2);
    var lo := SocketAddr(LOOPBACK, 2);
    var c := Config({a, b}, (x: SocketAddr, y: SocketAddr) => if y == lo then b else y,
                    (x: SocketAddr, y: SocketAddr) => x, SomeCodec());
    var m, id := Message(Gossip, []), InnerKey(seq(32, i => 0));
    SomeCodecRoundTrips();
    UnaryLength(1);
    UnaryLength(2);
    assert |c.codec.encode(Receipt(c, b, id))| < CHUNK;
    assert Scene(c, a, b, m, id);
  }
}
