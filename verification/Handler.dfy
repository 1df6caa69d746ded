/** The MessageHandler object of src/transport/handler.rs. */
module Handler {
  import opened Bytes
  import opened Channels
  import opened Packets
  import opened Reassembly
  import Hex

  /** What the acknowledgement step pushes towards the transport. */
  function AcksFor(codec: Codec, packet: Packet, local: SocketAddr, src: SocketAddr): seq<(SocketAddr, Message)> {
    if packet.ret == RETURN_RECEIPT then [(src, codec.AckFor(packet, local))] else []
  }

  const RETURN_RECEIPT: byte := 1

  /** Where a decoded message goes: to discovery, to the outbox, or to gossip. */
  datatype Route = ToKad(bytes: seq<byte>) | ToOutbox(ack: AckMessage) | ToGossip(message: Message) | Dropped

  function RouteOf(codec: Codec, m: Message): Route {
    match m.head
    case Request | Response => if codec.isKad(m.msg) then ToKad(m.msg) else Dropped
    case Ack => (match codec.decodeAck(m.msg) case Some(a) => ToOutbox(a) case None => Dropped)
    case Gossip => ToGossip(m)
  }

  /** The message a reassembly outcome passes to handle_message, if any. */
  function Handed(codec: Codec, outcome: Outcome): Option<Message> {
    if outcome.Deliver? then codec.decode(outcome.bytes) else None
  }

  class MessageHandler {
    const codec: Codec
    const omTx: Channel<(SocketAddr, Message)>
    const iaTx: Channel<AckMessage>
    const kadTx: Channel<(SocketAddr, seq<byte>)>
    const gossipTx: Channel<(SocketAddr, Message)>
    var pending: Pending

    ghost predicate Valid() {
      && omTx as object != gossipTx as object && omTx as object != kadTx && omTx as object != iaTx
      && gossipTx as object != kadTx && gossipTx as object != iaTx && kadTx as object != iaTx
    }

    constructor (codec: Codec, omTx: Channel<(SocketAddr, Message)>, iaTx: Channel<AckMessage>, pending: Pending,
                 kadTx: Channel<(SocketAddr, seq<byte>)>, gossipTx: Channel<(SocketAddr, Message)>)
      ensures this.codec == codec && this.omTx == omTx && this.iaTx == iaTx && this.kadTx == kadTx
      ensures this.gossipTx == gossipTx && this.pending == pending
    {
      this.codec, this.omTx, this.iaTx, this.kadTx, this.gossipTx := codec, omTx, iaTx, kadTx, gossipTx;
      this.pending := pending;
    }

    /** The acknowledgement is sent before anything else is known about the packet. */
    method ProcessPacket(packet: Packet, local: SocketAddr, src: SocketAddr)
      modifies omTx
      ensures omTx.queue == old(omTx.queue) + AcksFor(codec, packet, local, src)
      ensures packet.ret != 1 ==> omTx.queue == old(omTx.queue)
      ensures packet.ret == 1 ==>
                var ack := AckMessage(packet.id, packet.n, local);
                omTx.queue == old(omTx.queue) + [(src, Message(Ack, codec.encodeAck(ack)))]
    {
      if packet.ret == RETURN_RECEIPT {
        var ack := AckMessage(packet.id, packet.n, local);
        omTx.Send((src, Message(Ack, codec.encodeAck(ack))));
      }
    }

    /** Concatenates the decoded payloads of packets 1 to totalN; None is the panic on a missing
        number or a payload that is not hexadecimal. */
    method AssemblePackets(packet: Packet, parts: map<nat, Packet>) returns (bytes: Option<seq<byte>>)
      ensures bytes == Assemble(parts, packet.totalN)
    {
      bytes := Some([]);
      for n := 0 to packet.totalN
        invariant bytes == Assemble(parts, n) && bytes.Some?
      {
        var number: nat := n + 1;
        if number !in parts {
          AssembleStops(parts, number, packet.totalN);
          return None;
        }
        var converted := Hex.Decode(parts[number].bytes);
        if converted == None {
          AssembleStops(parts, number, packet.totalN);
          return None;
        }
        bytes := Some(bytes.value + converted.value);
      }
    }

    method InsertPacket(packet: Packet, src: SocketAddr) returns (outcome: Outcome)
      requires Valid()
      modifies this`pending, iaTx, kadTx, gossipTx
      ensures (pending, outcome) == Insert(old(pending), packet)
      ensures Pushed(old(iaTx.queue), old(kadTx.queue), old(gossipTx.queue), Handed(codec, outcome), src)
    {
      outcome := Nothing;
      if packet.id in pending {
        var parts := pending[packet.id];
        if packet.n !in parts {
          parts := parts[packet.n := packet];
        }
        pending := pending[packet.id := parts];
        if |parts| == packet.totalN {
          var bytes := AssemblePackets(packet, parts);
          outcome := Finished(bytes);
        }
      } else if packet.totalN == 1 {
        outcome := Finished(Hex.Decode(packet.bytes));
      } else {
        var parts: map<nat, Packet> := map[packet.n := packet];
        pending := pending[packet.id := parts];
      }
      var message := Handed(codec, outcome);
      if message.Some? {
        HandleMessage(message.value, src);
      }
    }

    /** How the three receiving channels have grown when message was (or was not) handled. */
    ghost predicate Pushed(ia: seq<AckMessage>, kad: seq<(SocketAddr, seq<byte>)>, gossip: seq<(SocketAddr, Message)>,
                           message: Option<Message>, src: SocketAddr)
      reads iaTx, kadTx, gossipTx
    {
      var route := if message.Some? then RouteOf(codec, message.value) else Dropped;
      && iaTx.queue == (if route.ToOutbox? then ia + [route.ack] else ia)
      && kadTx.queue == (if route.ToKad? then kad + [(src, route.bytes)] else kad)
      && gossipTx.queue == (if route.ToGossip? then gossip + [(src, route.message)] else gossip)
    }

    method HandleMessage(message: Message, src: SocketAddr)
      requires Valid()
      modifies iaTx, kadTx, gossipTx
      ensures (message.head == Request || message.head == Response) ==>
                && kadTx.queue == old(kadTx.queue) + (if codec.isKad(message.msg) then [(src, message.msg)] else [])
                && iaTx.queue == old(iaTx.queue) && gossipTx.queue == old(gossipTx.queue)
      ensures message.head == Ack ==>
                var ack := codec.decodeAck(message.msg);
                && iaTx.queue == old(iaTx.queue) + (if ack.Some? then [ack.value] else [])
                && kadTx.queue == old(kadTx.queue) && gossipTx.queue == old(gossipTx.queue)
      ensures message.head == Gossip ==>
                && gossipTx.queue == old(gossipTx.queue) + [(src, message)]
                && iaTx.queue == old(iaTx.queue) && kadTx.queue == old(kadTx.queue)
      ensures Pushed(old(iaTx.queue), old(kadTx.queue), old(gossipTx.queue), Some(message), src)
    {
      match message.head
      case Request | Response =>
        if codec.isKad(message.msg) {
          kadTx.Send((src, message.msg));
        }
      case Ack =>
        var ack := codec.decodeAck(message.msg);
        if ack.Some? {
          iaTx.Send(ack.value);
        }
      case Gossip =>
        gossipTx.Send((src, message));
    }

    /** recv_msg for a datagram that decodes as a packet. */
    method RecvMsg(packet: Packet, local: SocketAddr, src: SocketAddr) returns (outcome: Outcome)
      requires Valid()
      modifies this`pending, omTx, iaTx, kadTx, gossipTx
      ensures omTx.queue == old(omTx.queue) + AcksFor(codec, packet, local, src)
      ensures (pending, outcome) == Insert(old(pending), packet)
      ensures Pushed(old(iaTx.queue), old(kadTx.queue), old(gossipTx.queue), Handed(codec, outcome), src)
    {
      ProcessPacket(packet, local, src);
      outcome := InsertPacket(packet, src);
    }
  }

  /** Once a number is missing or undecodable, so is everything built on it. */
  lemma {:induction false} AssembleStops(parts: map<nat, Packet>, n: nat, total: nat)
    requires 1 <= n <= total && Assemble(parts, n) == None
    ensures Assemble(parts, total) == None
  {
    if n < total {
      AssembleStops(parts, n, total - 1);
    }
  }
}
