/** Packets, acknowledgements and messages of src/protocol/protocol.rs, and the splitting of a
    message into packets. */
module Packets {
  import opened Bytes
  import opened Keys
  import Hex

  const CHUNK: nat := 1024

  /** The 32 random bytes that name a message on the wire. */
  datatype InnerKey = InnerKey(bytes: Key)

  datatype SocketAddr = SocketAddr(host: nat, port: nat)

  datatype Packet = Packet(id: InnerKey, n: nat, totalN: nat, bytes: string, ret: byte)

  datatype AckMessage = AckMessage(packetId: InnerKey, packetNumber: nat, src: SocketAddr)

  datatype Header = Request | Response | Gossip | Ack

  datatype Message = Message(head: Header, msg: seq<byte>)

  /** The serialisation the source takes from serde, as a parameter. */
  datatype Codec = Codec(encode: Message -> seq<byte>, decode: seq<byte> -> Option<Message>,
                         encodeAck: AckMessage -> seq<byte>, decodeAck: seq<byte> -> Option<AckMessage>,
                         isKad: seq<byte> -> bool)
  {
    /** Decoding undoes encoding, and what an acknowledgement carries decodes as one. */
    ghost predicate RoundTrips() {
      && (forall m: Message :: decode(encode(m)) == Some(m))
      && (forall a: AckMessage :: decodeAck(encodeAck(a)) == Some(a))
    }

    function AckFor(packet: Packet, local: SocketAddr): Message {
      Message(Ack, encodeAck(AckMessage(packet.id, packet.n, local)))
    }
  }

  // ---------- splitting ----------

  /** Number of packets: the rounding test looks at the quotient, not at the length. */
  function NumPackets(len: nat): (n: nat)
    ensures n >= 1
  {
    if len < CHUNK then 1
    else len / CHUNK + (if len / CHUNK % CHUNK != 0 then 1 else 0)
  }

  /** The i-th slice; the last one takes all that is left. */
  function Chunk(bytes: seq<byte>, i: nat): seq<byte>
    requires i < NumPackets(|bytes|)
  {
    if i == NumPackets(|bytes|) - 1 then bytes[i * CHUNK..] else bytes[i * CHUNK..(i + 1) * CHUNK]
  }

  function PacketAt(bytes: seq<byte>, id: InnerKey, ret: byte, i: nat): Packet
    requires i < NumPackets(|bytes|)
  {
    Packet(id, i + 1, NumPackets(|bytes|), Hex.Encode(Chunk(bytes, i)), ret)
  }

  function PacketsOf(bytes: seq<byte>, id: InnerKey, ret: byte): seq<Packet> {
    seq(NumPackets(|bytes|), i requires 0 <= i < NumPackets(|bytes|) => PacketAt(bytes, id, ret, i))
  }

  /** The numbers 1 to totalN, which the packets of a message carry. */
  function Numbers(total: nat): (numbers: set<nat>)
    ensures forall n: nat :: n in numbers <==> 1 <= n <= total
    ensures |numbers| == total
  {
    if total == 0 then {} else Numbers(total - 1) + {total}
  }

  function Concat(chunks: seq<seq<byte>>): seq<byte> {
    if chunks == [] then [] else Concat(chunks[..|chunks| - 1]) + chunks[|chunks| - 1]
  }

  function Chunks(bytes: seq<byte>, k: nat): (c: seq<seq<byte>>)
    requires k <= NumPackets(|bytes|)
    ensures |c| == k
  {
    seq(k, i requires 0 <= i < k => Chunk(bytes, i))
  }

  lemma {:induction false} ChunksBefore(bytes: seq<byte>, k: nat)
    requires k < NumPackets(|bytes|)
    ensures k * CHUNK <= |bytes| && Concat(Chunks(bytes, k)) == bytes[..k * CHUNK]
  {
    if k > 0 {
      ChunksBefore(bytes, k - 1);
      assert Chunks(bytes, k)[..k - 1] == Chunks(bytes, k - 1);
      ChunkAfter(bytes, k - 1);
      hide Chunk, NumPackets;
    }
  }

  lemma ChunkAfter(bytes: seq<byte>, k: nat)
    requires k + 1 < NumPackets(|bytes|)
    ensures (k + 1) * CHUNK <= |bytes| && bytes[..(k + 1) * CHUNK] == bytes[..k * CHUNK] + Chunk(bytes, k)
  {
  }

  /** No byte is lost, repeated or moved by splitting. */
  lemma ChunksRebuild(bytes: seq<byte>)
    ensures Concat(Chunks(bytes, NumPackets(|bytes|))) == bytes
  {
    var k := NumPackets(|bytes|) - 1;
    ChunksBefore(bytes, k);
    assert Chunks(bytes, k + 1)[..k] == Chunks(bytes, k);
    assert bytes == bytes[..k * CHUNK] + Chunk(bytes, k);
  }

  /** Exact sizes. Every chunk but the last is full; the last holds the remainder, unless the
      quotient is a multiple of 1024, when it holds a full chunk and the remainder. */
  lemma ChunkSizes(bytes: seq<byte>, i: nat)
    requires i < NumPackets(|bytes|)
    ensures NumPackets(|bytes|) == 1 <==> |bytes| < CHUNK
    ensures i < NumPackets(|bytes|) - 1 ==> |Chunk(bytes, i)| == CHUNK
    ensures i == NumPackets(|bytes|) - 1 ==>
              |Chunk(bytes, i)|
              == |bytes| % CHUNK + if |bytes| >= CHUNK && |bytes| / CHUNK % CHUNK == 0 then CHUNK else 0
  {
    ChunksBefore(bytes, i);
  }

  /** Payloads fit in 1024 bytes exactly when the length avoids the exceptional case. */
  lemma PayloadFits(bytes: seq<byte>)
    ensures (forall i :: 0 <= i < NumPackets(|bytes|) ==> |Chunk(bytes, i)| <= CHUNK)
       <==> |bytes| < CHUNK || |bytes| % CHUNK == 0 || |bytes| / CHUNK % CHUNK != 0
  {
    forall i | 0 <= i < NumPackets(|bytes|)
      ensures |Chunk(bytes, i)| <= CHUNK
           || (i == NumPackets(|bytes|) - 1 && |Chunk(bytes, i)| == CHUNK + |bytes| % CHUNK)
    {
      ChunkSizes(bytes, i);
    }
    ChunkSizes(bytes, NumPackets(|bytes|) - 1);
  }

  /** The smallest such length: 1024 packets, the last with 1025 bytes of payload. No payload of a
      shorter input is too large. */
  lemma OversizedPayload(bytes: seq<byte>)
    ensures |bytes| <= CHUNK * CHUNK ==> forall i :: 0 <= i < NumPackets(|bytes|) ==> |Chunk(bytes, i)| <= CHUNK
    ensures |bytes| == CHUNK * CHUNK + 1 ==>
              NumPackets(|bytes|) == CHUNK && |Chunk(bytes, CHUNK - 1)| == CHUNK + 1
  {
    PayloadFits(bytes);
    if |bytes| == CHUNK * CHUNK + 1 {
      ChunkSizes(bytes, CHUNK - 1);
    }
  }

  /** A length that is a multiple of 1024 but not of 1024 * 1024 ends in an empty packet. */
  lemma EmptyLastPacket(bytes: seq<byte>)
    ensures |Chunk(bytes, NumPackets(|bytes|) - 1)| == 0
       <==> bytes == [] || (|bytes| % CHUNK == 0 && |bytes| / CHUNK % CHUNK != 0)
  {
    ChunkSizes(bytes, NumPackets(|bytes|) - 1);
  }

  // ---------- packetize ----------

  /** What a list of packets carries, decoded and in order. */
  ghost function Payload(packets: seq<Packet>): Option<seq<byte>> {
    if packets == [] then Some([])
    else match (Payload(packets[..|packets| - 1]), Hex.Decode(packets[|packets| - 1].bytes))
      case (Some(front), Some(last)) => Some(front + last)
      case _ => None
  }

  lemma {:induction false} PacketsCarryFirst(bytes: seq<byte>, id: InnerKey, ret: byte, k: nat)
    requires k <= NumPackets(|bytes|)
    ensures Payload(PacketsOf(bytes, id, ret)[..k]) == Some(Concat(Chunks(bytes, k)))
  {
    if k > 0 {
      PacketsCarryFirst(bytes, id, ret, k - 1);
      Hex.DecodeEncode(Chunk(bytes, k - 1));
      assert Chunks(bytes, k)[..k - 1] == Chunks(bytes, k - 1);
      assert PacketsOf(bytes, id, ret)[..k][..k - 1] == PacketsOf(bytes, id, ret)[..k - 1];
      hide Chunk, NumPackets, Hex.Encode, Hex.Decode;
    }
  }

  lemma PacketsCarry(bytes: seq<byte>, id: InnerKey, ret: byte)
    ensures Payload(PacketsOf(bytes, id, ret)) == Some(bytes)
  {
    var all := PacketsOf(bytes, id, ret);
    PacketsCarryFirst(bytes, id, ret, |all|);
    assert all[..|all|] == all;
    ChunksRebuild(bytes);
  }

  lemma PacketsAre(bytes: seq<byte>, id: InnerKey, ret: byte)
    ensures var packets := PacketsOf(bytes, id, ret);
            && (forall i :: 0 <= i < |packets| ==>
                  var p := packets[i];
                  p.id == id && p.n == i + 1 && p.totalN == |packets| && p.ret == ret)
            && forall i :: 0 <= i < |packets| - 1 ==> |packets[i].bytes| == 2048
  {
    forall i | 0 <= i < NumPackets(|bytes|) {
      ChunkSizes(bytes, i);
    }
    hide Chunk, NumPackets, Hex.Encode;
  }

  lemma OnePacket(bytes: seq<byte>, id: InnerKey, ret: byte)
    requires |bytes| < CHUNK
    ensures PacketsOf(bytes, id, ret) == [Packet(id, 1, 1, Hex.Encode(bytes), ret)]
  {
    hide Hex.Encode;
    assert Chunk(bytes, 0) == bytes;
  }

  /** packetize: the loop over start and end, then the numbering of the slices. What the packets carry is
      the input, and each has the id, its number, their number and the mark. */
  method Packetize(bytes: seq<byte>, id: InnerKey, ret: byte) returns (packets: seq<Packet>)
    ensures packets == PacketsOf(bytes, id, ret)
    ensures Payload(packets) == Some(bytes)
    ensures forall i :: 0 <= i < |packets| ==>
              var p := packets[i];
              p.id == id && p.n == i + 1 && p.totalN == |packets| && p.ret == ret
    ensures forall i :: 0 <= i < |packets| - 1 ==> |packets[i].bytes| == 2048
  {
    PacketsCarry(bytes, id, ret);
    PacketsAre(bytes, id, ret);
    if |bytes| < CHUNK {
      OnePacket(bytes, id, ret);
      return [Packet(id, 1, 1, Hex.Encode(bytes), ret)];
    }
    var chunks := Slices(bytes);
    packets := [];
    for idx := 0 to |chunks|
      invariant packets == PacketsOf(bytes, id, ret)[..idx]
    {
      hide Chunk, Hex.Encode, NumPackets, PacketsOf;
      PacketsStep(bytes, id, ret, chunks, idx);
      packets := packets + [Packet(id, idx + 1, |chunks|, Hex.Encode(chunks[idx]), ret)];
    }
  }

  lemma PacketsStep(bytes: seq<byte>, id: InnerKey, ret: byte, chunks: seq<seq<byte>>, idx: nat)
    requires chunks == Chunks(bytes, NumPackets(|bytes|)) && idx < |chunks|
    ensures idx + 1 <= |PacketsOf(bytes, id, ret)|
    ensures PacketsOf(bytes, id, ret)[..idx + 1]
         == PacketsOf(bytes, id, ret)[..idx] + [Packet(id, idx + 1, |chunks|, Hex.Encode(chunks[idx]), ret)]
  {
    hide Chunk, Hex.Encode, NumPackets;
  }

  method Slices(bytes: seq<byte>) returns (chunks: seq<seq<byte>>)
    requires |bytes| >= CHUNK
    ensures chunks == Chunks(bytes, NumPackets(|bytes|))
  {
    var nPackets := |bytes| / CHUNK;
    if nPackets % CHUNK != 0 {
      nPackets := nPackets + 1;
    }
    var start, end := 0, CHUNK;
    chunks := [];
    for n := 0 to nPackets
      invariant |chunks| == n
      invariant n < nPackets ==> start == n * CHUNK && end == (n + 1) * CHUNK
      invariant forall i :: 0 <= i < n ==> chunks[i] == Chunk(bytes, i)
    {
      if n == nPackets - 1 {
        chunks := chunks + [bytes[start..]];
      } else {
        chunks := chunks + [bytes[start..end]];
        start := end;
        end := end + CHUNK;
      }
    }
  }
}
