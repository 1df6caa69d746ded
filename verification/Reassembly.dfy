/** The pending table of src/transport/handler.rs as a function of the packets that arrived. */
module Reassembly {
  import opened Bytes
  import opened Packets
  import Hex

  type Pending = map<InnerKey, map<nat, Packet>>

  /** What one insertion leads to: nothing yet, a rebuilt message, or a panic of the thread
      (a payload that is not hexadecimal, or a missing packet number). */
  datatype Outcome = Nothing | Deliver(bytes: seq<byte>) | Panic

  /** Decoded payloads of packets 1 to k in order. */
  function Assemble(parts: map<nat, Packet>, k: nat): Option<seq<byte>> {
    if k == 0 then Some([])
    else if k !in parts then None
    else match (Assemble(parts, k - 1), Hex.Decode(parts[k].bytes))
      case (Some(front), Some(last)) => Some(front + last)
      case _ => None
  }

  function Finished(bytes: Option<seq<byte>>): Outcome {
    match bytes
    case Some(b) => Deliver(b)
    case None => Panic
  }

  function Insert(pending: Pending, packet: Packet): (Pending, Outcome) {
    if packet.id in pending then
      var had := pending[packet.id];
      var parts: map<nat, Packet> := if packet.n in had then had else had[packet.n := packet];
      (pending[packet.id := parts],
       if |parts| == packet.totalN then Finished(Assemble(parts, packet.totalN)) else Nothing)
    else if packet.totalN == 1 then
      (pending, Finished(Hex.Decode(packet.bytes)))
    else
      var first: map<nat, Packet> := map[packet.n := packet];
      (pending[packet.id := first], Nothing)
  }

  /** Any packet, on any table: what is stored stays, a number is stored once, and an entry is opened
      by a packet that does not claim to be the only one. */
  lemma InsertIs(table: Pending, p: Packet)
    ensures var t := Insert(table, p).0;
            && t.Keys == table.Keys + (if p.totalN == 1 then {} else {p.id})
            && (p.id in t ==> p.n in t[p.id])
            && (forall id, n :: id in table && n in table[id] ==> n in t[id] && t[id][n] == table[id][n])
            && forall id, n :: id in t && n in t[id] && (id !in table || n !in table[id]) ==>
                 id == p.id && n == p.n && t[id][n] == p
    ensures Insert(table, p).1 == Nothing
       <==> if p.id in table then |Insert(table, p).0[p.id]| != p.totalN else p.totalN != 1
  {
    hide Assemble, Hex.Decode;
    if p.id in table && p.totalN != 1 {
      assert table.Keys + {p.id} == table.Keys;
    }
  }

  lemma Finishing(table: Pending, p: Packet)
    requires Insert(table, p).1 != Nothing
    ensures Insert(table, p).1
         == if p.id in table then Finished(Assemble(Insert(table, p).0[p.id], p.totalN))
            else Finished(Hex.Decode(p.bytes))
  {
    hide Assemble, Hex.Decode;
  }

  ghost predicate AllDecode(parts: map<nat, Packet>, k: nat) {
    forall n: nat :: 1 <= n <= k ==> n in parts && Hex.Decode(parts[n].bytes).Some?
  }

  ghost function Decoded(parts: map<nat, Packet>, k: nat): seq<seq<byte>>
    requires AllDecode(parts, k)
  {
    seq(k, i requires 0 <= i < k => var n: nat := i + 1; Hex.Decode(parts[n].bytes).value)
  }

  /** Assembling succeeds exactly when all the numbers are there and all the payloads decode, and
      puts them together in the order of their numbers. */
  lemma {:induction false} AssembleIs(parts: map<nat, Packet>, k: nat)
    ensures Assemble(parts, k).Some? <==> AllDecode(parts, k)
    ensures AllDecode(parts, k) ==> Assemble(parts, k) == Some(Concat(Decoded(parts, k)))
  {
    hide Concat, Hex.Decode, AllDecode, Decoded;
    if k > 0 {
      AssembleIs(parts, k - 1);
      DecodedStep(parts, k);
      if AllDecode(parts, k) {
        ConcatMore(Decoded(parts, k - 1), Hex.Decode(parts[k].bytes).value);
      }
    } else {
      DecodedNone(parts);
    }
  }

  lemma DecodedNone(parts: map<nat, Packet>)
    ensures AllDecode(parts, 0) && Concat(Decoded(parts, 0)) == []
  {}

  lemma DecodedStep(parts: map<nat, Packet>, k: nat)
    requires k > 0
    ensures AllDecode(parts, k) <==> AllDecode(parts, k - 1) && k in parts && Hex.Decode(parts[k].bytes).Some?
    ensures AllDecode(parts, k) ==>
              k in parts && Decoded(parts, k) == Decoded(parts, k - 1) + [Hex.Decode(parts[k].bytes).value]
  {
    hide Hex.Decode;
  }

  lemma ConcatMore(chunks: seq<seq<byte>>, last: seq<byte>)
    ensures Concat(chunks + [last]) == Concat(chunks) + last
  {
    assert (chunks + [last])[..|chunks|] == chunks;
  }

  /** What an insertion hands on, or panics with, on any table. */
  lemma WhatIsHandedOn(table: Pending, p: Packet)
    ensures var (t, outcome) := Insert(table, p);
            if p.id in table then
              && (outcome == Panic <==> |t[p.id]| == p.totalN && !AllDecode(t[p.id], p.totalN))
              && (outcome.Deliver? <==> |t[p.id]| == p.totalN && AllDecode(t[p.id], p.totalN))
              && (outcome.Deliver? ==> outcome.bytes == Concat(Decoded(t[p.id], p.totalN)))
            else
              && (outcome == Panic <==> p.totalN == 1 && Hex.Decode(p.bytes).None?)
              && (outcome.Deliver? <==> p.totalN == 1 && Hex.Decode(p.bytes).Some?)
              && (outcome.Deliver? ==> Some(outcome.bytes) == Hex.Decode(p.bytes))
  {
    InsertIs(table, p);
    if Insert(table, p).1 != Nothing {
      Finishing(table, p);
    }
    if p.id in table {
      AssembleIs(Insert(table, p).0[p.id], p.totalN);
    }
    hide Insert, Assemble, AllDecode, Decoded, Concat, Hex.Decode;
  }

  /** The packets that reached a handler, oldest first. */
  datatype History = Fresh | Then(before: History, last: Packet)
  {
    function Set(): set<Packet> {
      if Fresh? then {} else before.Set() + {last}
    }

    function Append(more: History): History {
      if more.Fresh? then this else Then(Append(more.before), more.last)
    }

    /** The arrivals that carry id, in order. */
    function Only(id: InnerKey): History {
      if Fresh? then Fresh
      else if last.id == id then Then(before.Only(id), last)
      else before.Only(id)
    }

    function Length(): nat {
      if Fresh? then 0 else before.Length() + 1
    }

    /** The packet numbers of id that have arrived. */
    function Seen(id: InnerKey): set<nat> {
      if Fresh? then {} else before.Seen(id) + if last.id == id then {last.n} else {}
    }
  }

  /** The table a fresh handler ends up with. */
  function PendingAfter(h: History): Pending {
    if h.Fresh? then map[] else Insert(PendingAfter(h.before), h.last).0
  }

  function OutcomeOf(h: History, packet: Packet): Outcome {
    Insert(PendingAfter(h), packet).1
  }

  /** How often message id has been handed on. */
  function DeliveryCount(h: History, id: InnerKey): nat {
    if h.Fresh? then 0
    else DeliveryCount(h.before, id) + if h.last.id == id && OutcomeOf(h.before, h.last).Deliver? then 1 else 0
  }

  // ---------- messages do not interfere ----------

  lemma InsertIsLocal(p: Pending, q: Pending, packet: Packet)
    requires packet.id in p <==> packet.id in q
    requires packet.id in p ==> p[packet.id] == q[packet.id]
    ensures Insert(p, packet).1 == Insert(q, packet).1
    ensures packet.id in Insert(p, packet).0 <==> packet.id in Insert(q, packet).0
    ensures packet.id in Insert(p, packet).0 ==> Insert(p, packet).0[packet.id] == Insert(q, packet).0[packet.id]
  {
  }

  /** Any packets at all, interleaved in any way: the entry and the deliveries of one id are those
      of its own packets alone. */
  lemma {:induction false} NoInterference(h: History, id: InnerKey)
    ensures id in PendingAfter(h) <==> id in PendingAfter(h.Only(id))
    ensures id in PendingAfter(h) ==> PendingAfter(h)[id] == PendingAfter(h.Only(id))[id]
    ensures DeliveryCount(h, id) == DeliveryCount(h.Only(id), id)
  {
    if h.Then? {
      NoInterference(h.before, id);
      if h.last.id == id {
        InsertIsLocal(PendingAfter(h.before), PendingAfter(h.before.Only(id)), h.last);
      }
    }
  }

  // ---------- arrivals of packets made by packetize ----------

  /** What was split under an id. */
  datatype Origin = Origin(bytes: seq<byte>, ret: byte)
  {
    function Count(): nat { NumPackets(|bytes|) }

    function Packets(id: InnerKey): seq<Packet> { PacketsOf(bytes, id, ret) }

    function Parts(id: InnerKey, numbers: set<nat>): map<nat, Packet> {
      map n | n in numbers && 1 <= n <= Count() :: PacketAt(bytes, id, ret, n - 1)
    }
  }

  type Origins = map<InnerKey, Origin>

  predicate FromOrigin(p: Packet, origins: Origins) {
    && p.id in origins
    && var o := origins[p.id];
    && 1 <= p.n <= o.Count()
    && p == PacketAt(o.bytes, p.id, o.ret, p.n - 1)
  }

  predicate Honest(h: History, origins: Origins) {
    h.Then? ==> Honest(h.before, origins) && FromOrigin(h.last, origins)
  }

  predicate Complete(h: History, id: InnerKey, origins: Origins)
    requires id in origins
  {
    h.Seen(id) == Numbers(origins[id].Count())
  }

  /** Reference description of the table: it lists what was seen, message by message. */
  function PendingOf(h: History, origins: Origins): Pending {
    map id | id in origins && h.Seen(id) != {} && origins[id].Count() != 1
      :: origins[id].Parts(id, h.Seen(id))
  }

  lemma {:induction false} SeenWithin(h: History, origins: Origins, id: InnerKey)
    requires Honest(h, origins) && id in origins
    ensures h.Seen(id) <= Numbers(origins[id].Count())
  {
    if h.Then? {
      SeenWithin(h.before, origins, id);
    }
  }

  lemma {:induction false} AssembleParts(id: InnerKey, o: Origin, k: nat)
    requires k <= o.Count()
    ensures Assemble(o.Parts(id, Numbers(o.Count())), k) == Some(Concat(Chunks(o.bytes, k)))
  {
    if k > 0 {
      AssembleParts(id, o, k - 1);
      Hex.DecodeEncode(Chunk(o.bytes, k - 1));
      assert Chunks(o.bytes, k)[..k - 1] == Chunks(o.bytes, k - 1);
      assert k in o.Parts(id, Numbers(o.Count()));
      hide Chunk, NumPackets, Hex.Encode, Hex.Decode, Numbers;
    }
  }

  /** As many distinct numbers as there are packets means every number: no index is missing. */
  lemma Pigeonhole(numbers: set<nat>, total: nat)
    requires numbers <= Numbers(total)
    ensures |numbers| == total <==> numbers == Numbers(total)
  {
    assert Numbers(total) == numbers + (Numbers(total) - numbers);
    assert |numbers| + |Numbers(total) - numbers| == total;
  }

  lemma PartsSize(id: InnerKey, o: Origin, numbers: set<nat>)
    requires numbers <= Numbers(o.Count())
    ensures o.Parts(id, numbers).Keys == numbers && |o.Parts(id, numbers)| == |numbers|
  {
    assert o.Parts(id, numbers).Keys == numbers;
  }

  /** Adding a packet of the message to the parts seen so far. */
  lemma PartsGrow(id: InnerKey, o: Origin, before: set<nat>, n: nat)
    requires 1 <= n <= o.Count() && n !in before
    ensures o.Parts(id, before + {n}) == o.Parts(id, before)[n := PacketAt(o.bytes, id, o.ret, n - 1)]
  {
    hide PacketAt, NumPackets;
  }

  /** The outcome when the parts are those of the numbers seen. */
  lemma FinishHonest(id: InnerKey, o: Origin, numbers: set<nat>)
    requires numbers <= Numbers(o.Count())
    ensures (if |o.Parts(id, numbers)| == o.Count() then Finished(Assemble(o.Parts(id, numbers), o.Count()))
             else Nothing)
         == if numbers == Numbers(o.Count()) then Deliver(o.bytes) else Nothing
  {
    PartsSize(id, o, numbers);
    Pigeonhole(numbers, o.Count());
    AssembleParts(id, o, o.Count());
    ChunksRebuild(o.bytes);
  }

  /** One step on a table that matches the reference description, for a message of one packet ... */
  lemma InsertSingle(table: Pending, p: Packet, origins: Origins, before: set<nat>)
    requires FromOrigin(p, origins) && origins[p.id].Count() == 1
    requires before <= Numbers(origins[p.id].Count()) && p.id !in table
    ensures Insert(table, p) == (table, Deliver(origins[p.id].bytes))
    ensures before + {p.n} == Numbers(origins[p.id].Count())
  {
    var o := origins[p.id];
    Hex.DecodeEncode(Chunk(o.bytes, 0));
    assert Chunk(o.bytes, 0) == o.bytes;
  }

  /** ... for the first packet of several ... */
  lemma InsertFirst(table: Pending, p: Packet, origins: Origins, before: set<nat>)
    requires FromOrigin(p, origins) && origins[p.id].Count() != 1
    requires before == {} && p.id !in table
    ensures Insert(table, p) == (table[p.id := origins[p.id].Parts(p.id, before + {p.n})], Nothing)
    ensures before + {p.n} != Numbers(origins[p.id].Count())
  {
    assert origins[p.id].Parts(p.id, {p.n}) == map[p.n := p];
    assert before + {p.n} == {p.n};
    assert |Numbers(origins[p.id].Count())| != |{p.n}|;
  }

  /** ... and for a later one. */
  lemma InsertPart(table: Pending, p: Packet, origins: Origins, before: set<nat>)
    requires FromOrigin(p, origins) && before <= Numbers(origins[p.id].Count())
    requires p.id in table && table[p.id] == origins[p.id].Parts(p.id, before)
    ensures Insert(table, p).0 == table[p.id := origins[p.id].Parts(p.id, before + {p.n})]
    ensures Insert(table, p).1
         == if before + {p.n} == Numbers(origins[p.id].Count()) then Deliver(origins[p.id].bytes) else Nothing
  {
    hide Origin.Parts, Numbers, NumPackets;
    var o, after := origins[p.id], before + {p.n};
    assert (if p.n in table[p.id] then table[p.id] else table[p.id][p.n := p]) == o.Parts(p.id, after) by {
      PartsSize(p.id, o, before);
      if p.n in before {
        assert after == before;
      } else {
        PartsGrow(p.id, o, before, p.n);
      }
    }
    FinishHonest(p.id, o, after);
  }

  /** The reference table changes at the arriving id only. */
  lemma PendingOfGrows(h: History, p: Packet, origins: Origins)
    requires p.id in origins
    ensures PendingOf(Then(h, p), origins)
         == if origins[p.id].Count() == 1 then PendingOf(h, origins)
            else PendingOf(h, origins)[p.id := origins[p.id].Parts(p.id, h.Seen(p.id) + {p.n})]
  {
    hide NumPackets, PacketAt, Origin.Parts, Origin.Count;
    assert forall id :: id != p.id ==> Then(h, p).Seen(id) == h.Seen(id);
  }

  lemma PendingEntry(h: History, origins: Origins, id: InnerKey)
    requires id in origins
    ensures id in PendingOf(h, origins) <==> h.Seen(id) != {} && origins[id].Count() != 1
    ensures id in PendingOf(h, origins) ==> PendingOf(h, origins)[id] == origins[id].Parts(id, h.Seen(id))
  {
  }

  lemma InsertHonest(h: History, p: Packet, origins: Origins)
    requires Honest(Then(h, p), origins)
    ensures Insert(PendingOf(h, origins), p).0 == PendingOf(Then(h, p), origins)
    ensures Insert(PendingOf(h, origins), p).1
         == if Complete(Then(h, p), p.id, origins) then Deliver(origins[p.id].bytes) else Nothing
  {
    var table, before := PendingOf(h, origins), h.Seen(p.id);
    assert Then(h, p).Seen(p.id) == before + {p.n} && FromOrigin(p, origins);
    SeenWithin(h, origins, p.id);
    PendingEntry(h, origins, p.id);
    PendingOfGrows(h, p, origins);
    hide Insert, Origin.Parts, PendingOf, Origin.Count, FromOrigin, Honest, History.Seen, Numbers;
    if origins[p.id].Count() == 1 {
      InsertSingle(table, p, origins, before);
    } else if before == {} {
      InsertFirst(table, p, origins, before);
    } else {
      InsertPart(table, p, origins, before);
    }
  }

  /** The table depends on nothing but which packets arrived. */
  lemma {:induction false} TableListsWhatArrived(h: History, origins: Origins)
    requires Honest(h, origins)
    ensures PendingAfter(h) == PendingOf(h, origins)
  {
    if h.Then? {
      TableListsWhatArrived(h.before, origins);
      InsertHonest(h.before, h.last, origins);
    }
  }

  /** An arrival hands the message on exactly when all its numbers have been seen by then; what is
      handed on is the original byte string; and assembling never fails. */
  lemma DeliversWhenComplete(h: History, p: Packet, origins: Origins)
    requires Honest(Then(h, p), origins)
    ensures OutcomeOf(h, p)
         == if Complete(Then(h, p), p.id, origins) then Deliver(origins[p.id].bytes) else Nothing
  {
    TableListsWhatArrived(h, origins);
    InsertHonest(h, p, origins);
  }

  // ---------- how often a message is delivered ----------

  /** Every arrival after completion delivers again, none before does; so with p packets the first
      p - 1 arrivals are silent. */
  lemma {:induction false} CountBound(h: History, id: InnerKey, origins: Origins)
    requires Honest(h, origins) && id in origins
    ensures |h.Seen(id)| <= h.Only(id).Length()
    ensures DeliveryCount(h, id) > 0 <==> Complete(h, id, origins)
    ensures DeliveryCount(h, id) > 0 ==>
              DeliveryCount(h, id) + origins[id].Count() - 1 <= h.Only(id).Length()
  {
    if h.Then? {
      CountBound(h.before, id, origins);
      if h.last.id == id {
        SeenWithin(h, origins, id);
        DeliversWhenComplete(h.before, h.last, origins);
        CountStep(h, id, origins);
      }
    }
  }

  /** Before completion there are at most as many numbers seen as arrivals, and at completion there
      are as many as packets. */
  lemma CountStep(h: History, id: InnerKey, origins: Origins)
    requires h.Then? && h.last.id == id && id in origins && h.Seen(id) <= Numbers(origins[id].Count())
    requires |h.before.Seen(id)| <= h.before.Only(id).Length()
    ensures |h.Seen(id)| <= h.Only(id).Length() == h.before.Only(id).Length() + 1
    ensures Complete(h, id, origins) ==> origins[id].Count() <= h.Only(id).Length()
    ensures Complete(h.before, id, origins) ==> Complete(h, id, origins)
  {
    hide Origin.Count, Numbers;
    assert h.Seen(id) == h.before.Seen(id) + {h.last.n};
  }

  /** Once complete, a message is delivered anew by each further packet of it. */
  lemma {:induction false} RedeliversOnEveryArrival(h: History, more: History, id: InnerKey, origins: Origins)
    requires Honest(h.Append(more), origins) && id in origins && Complete(h, id, origins)
    ensures Complete(h.Append(more), id, origins)
    ensures DeliveryCount(h.Append(more), id) == DeliveryCount(h, id) + more.Only(id).Length()
  {
    if more.Then? {
      RedeliversOnEveryArrival(h, more.before, id, origins);
      SeenWithin(h.Append(more), origins, id);
      DeliversWhenComplete(h.Append(more.before), more.last, origins);
    }
  }

  lemma {:induction false} SeenSet(h: History, id: InnerKey)
    ensures h.Seen(id) == set p | p in h.Set() && p.id == id :: p.n
  {
    if h.Then? {
      SeenSet(h.before, id);
    }
  }

  lemma SameTable(a: History, b: History, origins: Origins)
    requires forall id :: id in origins ==> a.Seen(id) == b.Seen(id)
    ensures PendingOf(a, origins) == PendingOf(b, origins)
  {
    hide NumPackets, Origin.Count, Origin.Parts, History.Seen;
  }

  /** Order and duplicates of arrivals do not matter to the final table, nor to which messages have
      been delivered by the end. */
  lemma Confluence(a: History, b: History, origins: Origins)
    requires Honest(a, origins) && Honest(b, origins) && a.Set() == b.Set()
    ensures PendingAfter(a) == PendingAfter(b)
    ensures forall id :: id in origins ==> (DeliveryCount(a, id) > 0 <==> DeliveryCount(b, id) > 0)
  {
    TableListsWhatArrived(a, origins);
    TableListsWhatArrived(b, origins);
    forall id | id in origins
      ensures a.Seen(id) == b.Seen(id) && (DeliveryCount(a, id) > 0 <==> DeliveryCount(b, id) > 0)
    {
      SeenSet(a, id);
      SeenSet(b, id);
      CountBound(a, id, origins);
      CountBound(b, id, origins);
    }
    hide *;
    SameTable(a, b, origins);
  }
}
