/** The Transport object of src/transport/transport.rs. */
module Transport {
  import opened Bytes
  import opened Channels
  import opened Packets
  import opened Outbox
  import opened GdUdp
  import opened Reassembly

  const LOOPBACK: nat := 0x7F000001

  /** A peer on the local host is addressed through the loopback interface. */
  function Rewrite(local: SocketAddr, peer: SocketAddr): SocketAddr {
    if local.host == peer.host then SocketAddr(LOOPBACK, peer.port) else peer
  }

  /** The outbox after sending the first count packets to peer one after the other. */
  function SentAll(o: Outbox, peer: SocketAddr, packets: seq<Packet>, count: nat): Outbox
    requires count <= |packets|
  {
    if count == 0 then o else Sent(SentAll(o, peer, packets, count - 1), peer, packets[count - 1])
  }

  /** The datagrams that carry the first count packets to peer. */
  function Addressed(peer: SocketAddr, packets: seq<Packet>, count: nat): multiset<(SocketAddr, Packet)>
    requires count <= |packets|
  {
    if count == 0 then multiset{} else Addressed(peer, packets, count - 1) + multiset{(peer, packets[count - 1])}
  }

  lemma {:induction false} AllAddressed(peer: SocketAddr, packets: seq<Packet>, count: nat)
    requires count <= |packets|
    ensures |Addressed(peer, packets, count)| == count
    ensures forall x :: x in Addressed(peer, packets, count) ==> x.0 == peer && x.1 in packets
    ensures forall i :: 0 <= i < count ==> (peer, packets[i]) in Addressed(peer, packets, count)
  {
    if count > 0 {
      AllAddressed(peer, packets, count - 1);
    }
  }

  function FirstEntry(peer: SocketAddr, o: Origin, id: InnerKey, n: nat): Entry
    requires 1 <= n <= o.Count()
  {
    Entry({peer}, {}, PacketAt(o.bytes, id, o.ret, n - 1), 1)
  }

  /** Entries of one attempt for the first count packets split under id. */
  function NewEntries(peer: SocketAddr, o: Origin, id: InnerKey, count: nat): Outbox
    requires count <= o.Count()
  {
    if count == 0 then map[] else NewEntries(peer, o, id, count - 1)[Slot(id, count) := FirstEntry(peer, o, id, count)]
  }

  lemma {:induction false} NewEntriesListed(peer: SocketAddr, o: Origin, id: InnerKey, count: nat)
    requires count <= o.Count()
    ensures forall k :: k in NewEntries(peer, o, id, count) <==> k.id == id && 1 <= k.n <= count
    ensures forall k :: k in NewEntries(peer, o, id, count) ==>
              NewEntries(peer, o, id, count)[k] == FirstEntry(peer, o, id, k.n)
  {
    if count > 0 {
      NewEntriesListed(peer, o, id, count - 1);
      hide Origin.Count, FirstEntry;
    }
  }

  /** A fresh id gives each packet an entry of its own with one attempt, and touches nothing else. */
  lemma {:induction false} SentAllFresh(o: Outbox, peer: SocketAddr, origin: Origin, id: InnerKey, count: nat)
    requires count <= origin.Count() && forall k :: k in o ==> k.id != id
    ensures SentAll(o, peer, origin.Packets(id), count) == o + NewEntries(peer, origin, id, count)
  {
    hide SentAll, NewEntries, Origin.Count, Origin.Packets;
    if count > 0 {
      SentAllFresh(o, peer, origin, id, count - 1);
      FreshStep(o, peer, origin, id, count);
    } else {
      NoEntriesYet(o, peer, origin, id);
    }
  }

  lemma FreshStep(o: Outbox, peer: SocketAddr, origin: Origin, id: InnerKey, count: nat)
    requires 1 <= count <= origin.Count() && forall k :: k in o ==> k.id != id
    requires SentAll(o, peer, origin.Packets(id), count - 1) == o + NewEntries(peer, origin, id, count - 1)
    ensures SentAll(o, peer, origin.Packets(id), count) == o + NewEntries(peer, origin, id, count)
  {
    SentAllStep(o, peer, origin, id, count);
    NotYet(o, peer, origin, id, count);
    hide SentAll, NewEntries, Sent, FirstEntry, PacketAt, SlotOf, Origin.Count, Origin.Packets;
    var before := SentAll(o, peer, origin.Packets(id), count - 1);
    var packet := PacketAt(origin.bytes, id, origin.ret, count - 1);
    SentNew(before, peer, packet);
    UpdateSum(o, NewEntries(peer, origin, id, count - 1), Slot(id, count), FirstEntry(peer, origin, id, count));
  }

  lemma NotYet(o: Outbox, peer: SocketAddr, origin: Origin, id: InnerKey, count: nat)
    requires 1 <= count <= origin.Count() && forall k :: k in o ==> k.id != id
    ensures Slot(id, count) !in o + NewEntries(peer, origin, id, count - 1)
  {
    NewEntriesListed(peer, origin, id, count - 1);
    hide NewEntries, Origin.Count;
  }

  lemma NoEntriesYet(o: Outbox, peer: SocketAddr, origin: Origin, id: InnerKey)
    ensures SentAll(o, peer, origin.Packets(id), 0) == o + NewEntries(peer, origin, id, 0)
  {
    assert o + map[] == o;
    hide Origin.Packets;
  }

  lemma SentAllStep(o: Outbox, peer: SocketAddr, origin: Origin, id: InnerKey, count: nat)
    requires 1 <= count <= origin.Count() == |origin.Packets(id)|
    ensures var packet := PacketAt(origin.bytes, id, origin.ret, count - 1);
            && SentAll(o, peer, origin.Packets(id), count)
               == Sent(SentAll(o, peer, origin.Packets(id), count - 1), peer, packet)
            && SlotOf(packet) == Slot(id, count) && FirstEntry(peer, origin, id, count) == Entry({peer}, {}, packet, 1)
            && NewEntries(peer, origin, id, count)
               == NewEntries(peer, origin, id, count - 1)[Slot(id, count) := FirstEntry(peer, origin, id, count)]
  {
    hide Sent;
  }

  lemma SentNew(o: Outbox, peer: SocketAddr, packet: Packet)
    requires SlotOf(packet) !in o
    ensures Sent(o, peer, packet) == o[SlotOf(packet) := Entry({peer}, {}, packet, 1)]
  {
  }

  lemma UpdateSum(a: Outbox, b: Outbox, k: Slot, e: Entry)
    ensures (a + b)[k := e] == a + b[k := e]
  {
  }

  class Transport {
    const codec: Codec
    const gdUdp: GDUdp
    const iaRx: Channel<AckMessage>
    const omRx: Channel<(SocketAddr, Message)>

    constructor (codec: Codec, addr: SocketAddr, iaRx: Channel<AckMessage>,
                 omRx: Channel<(SocketAddr, Message)>, now: nat)
      ensures fresh(gdUdp) && gdUdp.Valid() && gdUdp.Contents() == map[]
      ensures gdUdp.addr == addr && this.codec == codec && this.iaRx == iaRx && this.omRx == omRx
    {
      this.codec, this.iaRx, this.omRx := codec, iaRx, omRx;
      gdUdp := new GDUdp(addr, now);
    }

    function Split(msg: Message, id: InnerKey, ret: byte): seq<Packet> {
      PacketsOf(codec.encode(msg), id, ret)
    }

    /** incoming_ack: at most one acknowledgement is taken; it is recorded if its message is known. */
    method IncomingAck()
      requires gdUdp.Valid()
      modifies gdUdp`outbox, iaRx
      ensures gdUdp.Valid()
      ensures if old(iaRx.queue) == [] then gdUdp.Contents() == old(gdUdp.Contents()) && iaRx.queue == []
              else var ack := old(iaRx.queue)[0];
                && iaRx.queue == old(iaRx.queue)[1..]
                && gdUdp.Contents() == Acked(old(gdUdp.Contents()), Slot(ack.packetId, ack.packetNumber), ack.src)
    {
      var res := iaRx.TryRecv();
      if res.Some? {
        var ack := res.value;
        if ack.packetId in gdUdp.outbox {
          gdUdp.ProcessAck(ack.packetId, ack.packetNumber, ack.src);
        }
      }
    }

    /** outgoing_msg: at most one message is taken, split under the given random id, and sent; an
        acknowledgement goes out once without a receipt, anything else through the outbox, to the same
        port at 127.0.0.1 if the address is on the local host. */
    method OutgoingMsg(sock: UdpSocket, id: InnerKey)
      requires gdUdp.Valid()
      modifies gdUdp`outbox, omRx, sock
      ensures gdUdp.Valid()
      ensures if old(omRx.queue) == [] then
                gdUdp.Contents() == old(gdUdp.Contents()) && omRx.queue == [] && sock.wire == old(sock.wire)
              else
                var (dst, msg) := old(omRx.queue)[0];
                && omRx.queue == old(omRx.queue)[1..]
                && if msg.head == Ack then
                     && gdUdp.Contents() == old(gdUdp.Contents())
                     && sock.wire == old(sock.wire) + Addressed(dst, Split(msg, id, 0), |Split(msg, id, 0)|)
                   else
                     var host: nat := if gdUdp.addr.host == dst.host then 0x7F000001 else dst.host;
                     var peer, packets := SocketAddr(host, dst.port), Split(msg, id, 1);
                     && (forall x :: x in sock.wire - old(sock.wire) ==> x.0 == peer)
                     && gdUdp.Contents() == SentAll(old(gdUdp.Contents()), peer, packets, |packets|)
                     && sock.wire == old(sock.wire) + Addressed(peer, packets, |packets|)
    {
      var res := omRx.TryRecv();
      if res == None {
        return;
      }
      var (dst, msg) := res.value;
      if msg.head == Ack {
        var packets := Packetize(codec.encode(msg), id, 0);
        SendPlain(sock, dst, packets);
      } else {
        var packets := Packetize(codec.encode(msg), id, 1);
        var peer := Rewrite(gdUdp.addr, dst);
        SendAllReliable(sock, peer, packets);
        AllAddressed(peer, packets, |packets|);
      }
    }

    method SendPlain(sock: UdpSocket, dst: SocketAddr, packets: seq<Packet>)
      modifies sock
      ensures sock.wire == old(sock.wire) + Addressed(dst, packets, |packets|)
    {
      for i := 0 to |packets|
        invariant sock.wire == old(sock.wire) + Addressed(dst, packets, i)
      {
        sock.SendTo(packets[i], dst);
      }
    }

    method SendAllReliable(sock: UdpSocket, peer: SocketAddr, packets: seq<Packet>)
      requires gdUdp.Valid()
      modifies gdUdp`outbox, sock
      ensures gdUdp.Valid()
      ensures gdUdp.Contents() == SentAll(old(gdUdp.Contents()), peer, packets, |packets|)
      ensures sock.wire == old(sock.wire) + Addressed(peer, packets, |packets|)
    {
      hide GDUdp.Contents, GDUdp.Valid, Sent;
      for i := 0 to |packets|
        invariant gdUdp.Valid()
        invariant gdUdp.Contents() == SentAll(old(gdUdp.Contents()), peer, packets, i)
        invariant sock.wire == old(sock.wire) + Addressed(peer, packets, i)
      {
        gdUdp.SendReliable(peer, packets[i], sock);
      }
    }

    method CheckTimeElapsed(sock: UdpSocket, now: nat, later: nat)
      requires gdUdp.Valid() && gdUdp.timer <= now <= later
      modifies gdUdp, sock
      ensures gdUdp.Valid()
      ensures var due, o := now - old(gdUdp.timer) >= MAINTENANCE, old(gdUdp.Contents());
              && gdUdp.Contents() == (if due then Maintained(o) else o)
              && gdUdp.timer == (if due then later else old(gdUdp.timer))
              && sock.wire == old(sock.wire) + (if due then multiset(Resends(o, o.Keys)) else multiset{})
    {
      gdUdp.CheckTimeElapsed(sock, now, later);
    }
  }
}
