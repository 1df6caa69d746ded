/** The steps of the network are what the objects do: a transport and a message handler that stand for
    a node before one of their methods is called stand for it after the step. */
module NetworkRefinement {
  import opened GdUdp
  import opened Handler
  import opened Network
  import opened Outbox
  import opened Packets
  import opened Reassembly
  import opened Transport

  /** The two objects of a node share the channels for messages to send and for acknowledgements. */
  ghost predicate StandFor(c: Config, a: SocketAddr, node: Node, tr: Transport, h: MessageHandler)
    reads tr.gdUdp, tr.omRx, tr.iaRx, h
  {
    && tr.codec == c.codec && h.codec == c.codec && tr.gdUdp.addr == a && tr.gdUdp.Valid() && h.Valid()
    && h.omTx == tr.omRx && h.iaTx == tr.iaRx && tr.omRx as object != tr.iaRx
    && tr.omRx.queue == node.om && tr.iaRx.queue == node.ia
    && tr.gdUdp.Contents() == node.outbox && h.pending == node.pending
  }

  /** What outgoing_msg leaves in the outbox and hands to the socket, as its contract has it, is what
      the step does to the node and puts on the wire. */
  lemma OutgoingRefines(c: Config, s: Sys, a: SocketAddr, id: InnerKey, o: Outbox, wire: multiset<(SocketAddr, Packet)>)
    requires Enabled(c, s, Outgoing(a, id))
    requires var node := s.nodes[a];
             var (dst, msg) := node.om[0];
             var (peer, ret) := if msg.head == Ack then (dst, 0) else (Rewrite(a, dst), 1);
             var packets := PacketsOf(c.codec.encode(msg), id, ret);
             && wire == Addressed(peer, packets, |packets|)
             && o == if msg.head == Ack then node.outbox else SentAll(node.outbox, peer, packets, |packets|)
    ensures var t, l := Next(c, s, Outgoing(a, id)), LetterFor(c, a, s.nodes[a].om[0].0, s.nodes[a].om[0].1);
            && t.nodes == s.nodes[a := s.nodes[a].(om := s.nodes[a].om[1..], outbox := o)]
            && wire == multiset(Burst(l.to, l.origin, id))
            && t.net == s.net + multiset(OnWire(c, a, Burst(l.to, l.origin, id)))
  {
    var l := OutgoingEffect(c, s, a, id);
    AddressedIsBurst(l.to, l.origin, id, l.origin.Count());
    assert |l.origin.Packets(id)| == l.origin.Count();
    hide Next, SentAll, Addressed, OnWire, Burst, NumPackets, PacketAt;
  }

  method SendNext(c: Config, ghost s: Sys, a: SocketAddr, tr: Transport, h: MessageHandler, sock: UdpSocket,
                  id: InnerKey)
    requires Enabled(c, s, Action.Outgoing(a, id)) && StandFor(c, a, s.nodes[a], tr, h)
    modifies tr.gdUdp`outbox, tr.omRx, sock
    ensures StandFor(c, a, Next(c, s, Action.Outgoing(a, id)).nodes[a], tr, h)
    ensures exists pairs: set<(SocketAddr, Packet)> ::
              && sock.wire == old(sock.wire) + multiset(pairs)
              && Next(c, s, Action.Outgoing(a, id)).net == s.net + multiset(OnWire(c, a, pairs))
  {
    ghost var before := sock.wire;
    ghost var node, had := s.nodes[a], tr.gdUdp.Contents();
    ghost var (dst, msg) := node.om[0];
    ghost var packets := PacketsOf(c.codec.encode(msg), id, if msg.head == Ack then 0 else 1);
    ghost var peer := if msg.head == Ack then dst else Rewrite(a, dst);
    hide Next, SentAll, Addressed, OnWire, Burst, GDUdp.Contents, GDUdp.Valid, PacketsOf, Rewrite;
    tr.OutgoingMsg(sock, id);
    OutgoingRefines(c, s, a, id, tr.gdUdp.Contents(), Addressed(peer, packets, |packets|));
  }

  method RecordAck(c: Config, ghost s: Sys, a: SocketAddr, tr: Transport, h: MessageHandler)
    requires Enabled(c, s, Action.TakeAck(a)) && StandFor(c, a, s.nodes[a], tr, h)
    modifies tr.gdUdp`outbox, tr.iaRx
    ensures StandFor(c, a, Next(c, s, Action.TakeAck(a)).nodes[a], tr, h)
  {
    hide Acked, GDUdp.Contents, GDUdp.Valid;
    tr.IncomingAck();
  }

  /** A call of check_time_elapsed is a round of the node when it is time for one. */
  method CheckTime(c: Config, ghost s: Sys, a: SocketAddr, tr: Transport, h: MessageHandler, sock: UdpSocket,
               now: nat, later: nat)
    requires a in s.nodes && StandFor(c, a, s.nodes[a], tr, h) && tr.gdUdp.timer <= now <= later
    modifies tr.gdUdp, sock
    ensures var due := now - old(tr.gdUdp.timer) >= MAINTENANCE;
            && StandFor(c, a, if due then Next(c, s, Action.Round(a)).nodes[a] else s.nodes[a], tr, h)
            && (due ==> exists pairs: set<(SocketAddr, Packet)> ::
                  && sock.wire == old(sock.wire) + multiset(pairs)
                  && Next(c, s, Action.Round(a)).net == s.net + multiset(OnWire(c, a, pairs)))
            && (!due ==> sock.wire == old(sock.wire))
  {
    RoundEffect(c, s, a);
    hide Next, Maintained, Resends, OnWire, GDUdp.Contents, GDUdp.Valid;
    tr.CheckTimeElapsed(sock, now, later);
  }

  method TakeIn(c: Config, ghost s: Sys, d: Datagram, tr: Transport, h: MessageHandler)
    requires Enabled(c, s, Action.Receive(d))
    requires StandFor(c, c.owner(d.from, d.dst), s.nodes[c.owner(d.from, d.dst)], tr, h)
    modifies h`pending, h.omTx, h.iaTx, h.kadTx, h.gossipTx
    ensures StandFor(c, c.owner(d.from, d.dst), Next(c, s, Action.Receive(d)).nodes[c.owner(d.from, d.dst)], tr, h)
  {
    hide Insert, Handed, RouteOf, AcksFor, GDUdp.Contents, GDUdp.Valid;
    var outcome := h.RecvMsg(d.packet, c.owner(d.from, d.dst), d.src);
  }
}
