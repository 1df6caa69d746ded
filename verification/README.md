# udp2p: models and proofs

udp2p is a small peer-to-peer stack over UDP. These files model four parts of it in Dafny and prove what
they keep, over every input and every run.

* **Reliable fragmented transport.** A message is split into numbered packets, sent with a receipt requested,
  retried on a timer, acknowledged, and rebuilt from a per-id table. `Packets`, `Reassembly`, `Outbox`, `GdUdp`,
  `Handler` and `Transport` model the pieces, the stateful ones as classes with the fields and loops of the
  program; `Network` joins them into a system of nodes over a medium that loses, repeats and reorders
  datagrams. `NetworkRefinement` proves that the objects do what the steps of that system say, the other
  `Network...` modules prove its invariant and the theorems about all runs, and `NetworkAddressing` says where a
  message ends up.
* **Routing table and XOR keys.** `Keys` has the order, the distance, leading zeros and binary prefixes;
  `Prefixes` and `Separation` say which prefixes mean nearness. `Trie` has the overflow trie of buckets as a
  value and its invariant; `Closest` says what the k-closest query answers; `Filling` shows tables that running
  nodes reach; `Exactness` says for which prefixes the query finds the closest of the whole table;
  `RoutingTables` has the buckets and the table as objects, proved against the functions on values.
* **Discovery.** `Discovery` has the handling of requests and responses on values, with what it teaches a node,
  and a network of such nodes with a potential that every step lowers; `Replies` says message by message what
  is sent, to whom, and what two nodes learn from one question; `Kademlia` has the object.
* **Gossip cache.** `GossipCache` has the timed duplicate filter and its bounds over every run with a monotone
  clock; `GossipService` has the object, with sampling and publication.

Hash maps are iterated in an arbitrary order throughout, and results that depend on it are stated as sets or
multisets. A Rust panic is modelled as an explicit outcome (`None`, `Panic` or `ok == false`), and the models
say when it happens. `Bytes` and `Sums` hold the arithmetic. `Times` is multiplication under a name.

The two theorems about traffic meet in `Composition`, where discovery runs over the transport: with a medium
that repeats nothing, a message of p packets is handled at most 9p + 1 times
(`NetworkDeliveries.DeliveriesAreBounded`), discovery comes to rest for any bound c on how many times a message
is handled (`Discovery.DiscoveryQuiesces`), and so the whole system does
(`CompositionTheorems.EverythingComesToRest`). For c = 1 the potential of discovery counts 10 for each id a node
does not know, 10 for a FindNode in flight, 2 for a Ping and 1 for any other message. `CompositionDelivery` says
that nothing gets lost between the two: what has arrived in full is passed on, and what discovery sends is
submitted.

## Where the code is not what it is said to be

The code is followed in each case; a run or a table that it does reach shows the failure, and the condition
under which the promise holds is proved.

* `packetize` decides whether to add a packet by the packet count and not by the length
  (src/protocol/protocol.rs:115-118), so a payload can exceed 1024 bytes, and the last packet can be empty:
  `Packets.PayloadFits`, `Packets.OversizedPayload`, `Packets.EmptyLastPacket`.
* The pending table is never cleared, so a complete message is delivered again by each further packet of it:
  `Reassembly.RedeliversOnEveryArrival`.
* `maintain` drops an entry when the two sets are equal (src/gd_udp/gd_udp.rs:61), so an entry that was
  acknowledged by everybody and by somebody else besides is never resent and never dropped:
  `Outbox.OverackedArises` shows one, `Outbox.DrainsIff` and `Outbox.SurvivesIff` say exactly when.
* A peer on the sender's own host is recorded under 127.0.0.1 (src/transport/transport.rs:80-84), which is not
  the address in its acknowledgements. `NetworkLoopback.SameHostIsResent` is a run in which a packet has arrived
  and its acknowledgement is recorded, and the next round sends it again. Exactly the entries for such peers,
  and for peers given under an address that is not their own, only ever run out of attempts:
  `NetworkTheorems.LoopbackIsNeverSettled`.
* The binary form of a key is not padded (src/node/peer_key.rs:119-128), so one prefix can be read as different
  bytes. Sharing a prefix with the target means being nearer to it if and only if the prefix is all zeros or no
  two keys share it: `Separation.MeansNearerExactly`.
* The query for the closest peers takes the buckets down to one prefix of the target's distance
  (src/discovery/routing.rs:204-240), while near peers may be elsewhere in the table: under other prefixes, or
  under shorter ones from before the bucket was there. What it finds by way of a prefix of at most 32 characters
  is the nearest of the whole table, on every table that updates reach, for every target and count, if and only
  if the prefix is "0" and its bucket has room, or the prefix is the 32 zeros of the local key:
  `Exactness.GlobalIff`, and `Exactness.NearestIff` for prefixes of any length. So all other prefixes fail on
  some table, those of zeros included; `Exactness.OnesAreNotGlobal` shows a table for each prefix with a one,
  where the local peer itself is overlooked. What the query does return is said by
  `Closest.WhereTheAnswerComesFrom` and `Closest.ZeroPrefixAnswer`.
* `update_peer` is said to insert or update, but a known peer whose bucket has filled up gets another copy in a
  longer prefix: `Filling.TwoCopies` shows it for every local peer, `Closest.UpdateAddsOneEntry` and
  `Trie.OneCopyPerLength` say how often.
* `history_gossip` is said to be the number of heartbeats that repeat a message; since `gossip` reads the clock
  twice it can be one more, `GossipCache.OneRepeatTooMany`, under the condition of `GossipCache.HistoryKeptIff`.

## Model

| member | source | states |
|---|---|---|
| `Keys.OrderIsNumeric` | src/node/peer_key.rs:11-12 | the derived order of two byte arrays is the order of the big-endian numbers they stand for, and equal numbers mean equal keys |
| `Keys.ComputeDistance` | src/node/peer_key.rs:82-89 | the loop that fills a fresh array computes the bytewise exclusive or |
| `Keys.DistanceCommutes` | src/node/peer_key.rs:82-89 | the distance is symmetric |
| `Keys.DistanceZero` | src/node/peer_key.rs:82-89 | it is zero exactly between equal keys |
| `Keys.DistanceTriangle` | src/node/peer_key.rs:82-89 | it satisfies the triangle inequality |
| `Keys.DistanceUnidirectional` | src/node/peer_key.rs:82-89 | for each key and each distance there is exactly one key at that distance |
| `Keys.DistanceBits` | src/node/peer_key.rs:82-89 | a bit of the distance is set exactly where the keys differ |
| `Keys.ComputeLeadingZeros` | src/node/peer_key.rs:91-101 | the loop with its early return counts the leading zero bits |
| `Keys.LeadingZerosRange` | src/node/peer_key.rs:91-101 | a non-zero key with z leading zeros lies in [2^(255-z), 2^(256-z)), and exactly the zero key has 256 |
| `Keys.LeadingZerosUnique` | src/node/peer_key.rs:91-101 | conversely, lying in that range fixes the number of leading zeros |
| `Keys.RandInRange` | src/node/peer_key.rs:42-53 | editing any random fill leaves exactly idx leading zeros, for every idx below 256, and keeps every later bit |
| `Keys.MaskAndSet` | src/protocol/protocol.rs:222-223 | clearing the high bits of a byte and setting one leaves the leading zeros asked for |
| `Keys.DigitsRead` | src/node/peer_key.rs:119-128 | the form of a number read in base 2, most significant character first, is the number, without leading zeros |
| `Keys.OnlyForm` | src/node/peer_key.rs:119-128 | no other text of zeros and ones without leading zeros reads as that number |
| `Keys.BinaryForms` | src/node/peer_key.rs:119-128 | the form of a key is the forms of its bytes, in their order, with nothing in between |
| `Keys.BinaryLength` | src/node/peer_key.rs:119-128 | the unpadded binary form of a key has between 32 and 256 characters |
| `Keys.ZeroPrefixIsZeroBytes` | src/node/peer_key.rs:66-76 | an all-zero prefix of length k means exactly that the first k bytes are zero |
| `Keys.ZeroRunLength` | src/node/peer_key.rs:56-58 | the opening run of zeros has exactly leading_zeros / 8 characters |
| `Keys.ZeroPrefixIsNearer` | src/node/peer_key.rs:66-76 | below an all-zero prefix of the target's distance, every peer that shares it is strictly nearer to the target than every peer that does not |
| `Keys.OnePrefixIsNotNearer` | src/node/peer_key.rs:119-128 | a concrete case where the peer that shares the prefix "1" is the farther one |
| `Separation.MeansNearerExactly` | src/node/peer_key.rs:66-76 | for every local key and every prefix of any length: whoever shares it with the target is nearer to the target than whoever does not, if and only if the prefix is all zeros or at most one key shares it |
| `Separation.Separated` | src/node/peer_key.rs:119-128 | from any two byte strings whose unpadded forms share a prefix with a one in it, two that share it and a third that does not and is nearer to one of them than the other is |
| `Separation.OneKeyIff` | src/node/peer_key.rs:66-76 | of the prefixes of at most 32 characters exactly the 32 zeros are shared by at most one key |
| `Separation.MeansNearerIff` | src/node/peer_key.rs:66-76 | so for prefixes of at most 32 characters: if and only if the prefix is all zeros |
| `Prefixes.SharingIsFarther` | src/node/peer_key.rs:119-128 | for every local key and every such prefix with a one in it, a target and a peer that share it and are farther from each other than the target is from the local key, which lacks it |
| `Hex.DecodeEncode` | src/protocol/protocol.rs:135-135 | decoding undoes encoding, for every byte string (section 8 of RFC 4648) |
| `Hex.EncodeDecode` | src/transport/handler.rs:148-148 | encoding what a text decodes to gives the text back in lower case |
| `Hex.DecodesIff` | src/transport/handler.rs:124-124 | a text decodes exactly when its length is even and every character is a hexadecimal digit |
| `Hex.DigitsAre` | src/transport/handler.rs:148-148 | which characters are the digits, by their codes, in either case (section 8 of RFC 4648) |
| `Hex.EncodedByte` | src/protocol/protocol.rs:135-135 | the high half of each byte comes first, both halves in lower case |
| `Packets.Packetize` | src/protocol/protocol.rs:102-146 | the loop over start and end never slices out of range; the packets carry the id and the mark, are numbered 1 to their number, all but the last hold 1024 bytes, and what they decode to is in order the input |
| `Packets.ChunksRebuild` | src/protocol/protocol.rs:124-132 | the shares in order concatenate to the input, for every byte string |
| `Packets.ChunkSizes` | src/protocol/protocol.rs:115-118 | there is one packet exactly below 1024 bytes; all shares but the last have 1024 bytes, and the last the remainder, or 1024 more than it in the exceptional case |
| `Packets.PayloadFits` | src/protocol/protocol.rs:115-118 | every share fits in 1024 bytes if and only if the length is below 1024, a multiple of 1024, or its quotient by 1024 is not a multiple of 1024 |
| `Packets.OversizedPayload` | src/protocol/protocol.rs:115-118 | no payload is too large up to 1024 * 1024 bytes, and with one byte more the last of the 1024 payloads has 1025 |
| `Packets.EmptyLastPacket` | src/protocol/protocol.rs:115-118 | the last packet is empty exactly for empty input and for multiples of 1024 whose quotient is not a multiple of 1024 |
| `Reassembly.Pigeonhole` | src/transport/handler.rs:117-117 | among the numbers 1 to total, as many distinct ones as total means all of them |
| `Reassembly.NoInterference` | src/transport/handler.rs:113-134 | for any arrivals at all, the table and the deliveries at one id are those of the arrivals with that id alone |
| `Reassembly.InsertIs` | src/transport/handler.rs:113-134 | for any packet and any table: what is stored stays, a number is stored once, an entry is opened by a packet that does not claim to be the only one, and no other id is touched |
| `Reassembly.WhatIsHandedOn` | src/transport/handler.rs:113-152 | for any packet and any table: what is handed on is the decoded payloads in the order of their numbers, exactly if as many are there as the packet says and all decode; otherwise nothing, or a panic exactly if as many are there |
| `Reassembly.TableListsWhatArrived` | src/transport/handler.rs:113-134 | after arrivals split off known messages, the table holds exactly the packets whose numbers have been seen |
| `Reassembly.DeliversWhenComplete` | src/transport/handler.rs:113-152 | an arrival delivers if and only if all numbers of its message have been seen by then; what is delivered is the original byte string, and assembling never panics |
| `Reassembly.CountBound` | src/transport/handler.rs:113-134 | deliveries happen only after completion, and p - 1 of the arrivals never deliver |
| `Reassembly.RedeliversOnEveryArrival` | src/transport/handler.rs:114-121 | once a message is complete each further packet of it delivers the message again |
| `Reassembly.Confluence` | src/transport/handler.rs:113-134 | the final table, and which messages were delivered, do not depend on the order or the duplicates of arrivals |
| `Handler.MessageHandler.ProcessPacket` | src/transport/handler.rs:82-103 | exactly a packet that asks for a receipt is acknowledged, to its source, with its id and number |
| `Handler.MessageHandler.AssemblePackets` | src/transport/handler.rs:143-152 | the loop concatenates the decoded payloads in order, and panics exactly on a missing number or a payload that is not hexadecimal |
| `Handler.MessageHandler.InsertPacket` | src/transport/handler.rs:113-134 | the table and the outcome are those of the insertion on values, and what is delivered is routed |
| `Handler.MessageHandler.HandleMessage` | src/transport/handler.rs:161-183 | by cases on the header: a request or a response that discovery can read goes to discovery, with its source, an acknowledgement that decodes to the outbox, a gossip message to gossip, with its source, and nothing anywhere else |
| `Handler.MessageHandler.RecvMsg` | src/transport/handler.rs:61-71 | the acknowledgement is queued whatever becomes of the packet |
| `Outbox.ResendsAreCounted` | src/gd_udp/gd_udp.rs:65-74 | the datagrams that maintain resends for a surviving entry are as many as are added to its attempts |
| `Outbox.FixedPoints` | src/gd_udp/gd_udp.rs:59-75 | maintain changes nothing if and only if every entry is over-acknowledged and has attempts to spare |
| `Outbox.TenRounds` | src/gd_udp/gd_udp.rs:59-75 | after ten rounds, with acknowledgements from anybody in between, only over-acknowledged entries are left |
| `Outbox.Drains` | src/gd_udp/gd_udp.rs:59-75 | with acknowledgements from destinations only, ten rounds empty the outbox |
| `Outbox.DrainsIff` | src/gd_udp/gd_udp.rs:59-75 | ten or more rounds empty the outbox if and only if no entry is over-acknowledged with attempts to spare |
| `Outbox.EntryAfter` | src/gd_udp/gd_udp.rs:59-75 | over any run of rounds and acknowledgements, an entry is there exactly as long as each round found it neither settled nor spent, with the acknowledgements and attempts counted from the run |
| `Outbox.SurvivesIff` | src/gd_udp/gd_udp.rs:59-75 | whoever acknowledges in between, ten or more rounds leave exactly the entries that some round found over-acknowledged with attempts to spare and none found settled |
| `Outbox.OverackedArises` | src/gd_udp/gd_udp.rs:123-133 | a packet sent to one peer and acknowledged by it and by another before the next round stays in the outbox for ever |
| `GdUdp.GDUdp.SendReliable` | src/gd_udp/gd_udp.rs:143-178 | at one id and number of the nested tables the address is entered and one attempt counted, while the packet and the acknowledgements stay; nothing else changes, and one datagram goes out |
| `GdUdp.GDUdp.ProcessAck` | src/gd_udp/gd_udp.rs:123-133 | the address enters the acknowledged set of that id and number, if there is such an entry, and nothing else changes |
| `Outbox.ResendsAre` | src/gd_udp/gd_udp.rs:60-74 | a round sends a packet to an address if and only if the packet is in the outbox, neither settled nor spent, and has been sent there and not acknowledged from there |
| `GdUdp.GDUdp.Maintain` | src/gd_udp/gd_udp.rs:59-75 | in whatever order the tables are iterated, the survivors are resent to exactly the destinations that are missing, and only their attempts change |
| `GdUdp.GDUdp.CheckTimeElapsed` | src/gd_udp/gd_udp.rs:104-113 | maintenance runs exactly when 300 ms have passed, and restarts the timer |
| `Transport.Transport.IncomingAck` | src/transport/transport.rs:41-53 | one acknowledgement is taken and recorded; a missing message changes nothing |
| `Transport.Transport.OutgoingMsg` | src/transport/transport.rs:61-93 | one message is taken; an acknowledgement goes out once per packet and leaves the outbox alone; every packet of anything else goes through the outbox to the port given, at 127.0.0.1 if the host given is the local one and at that host otherwise |
| `Transport.Transport.CheckTimeElapsed` | src/transport/transport.rs:97-99 | delegates to the outbox, with its effect on outbox, timer and socket |
| `Transport.SentAllFresh` | src/transport/transport.rs:79-88 | under a fresh id, sending all packets of a message adds exactly one new entry with one attempt for each |
| `NetworkRefinement.OutgoingRefines` | src/transport/transport.rs:61-93 | the outbox and the datagrams that outgoing_msg's contract describes are those of the network's step |
| `NetworkRefinement.SendNext` | src/transport/transport.rs:61-93 | objects that stand for a node stand for it after outgoing_msg and the step, and the step puts on the wire what the socket was given |
| `NetworkRefinement.RecordAck` | src/transport/transport.rs:41-53 | the same for incoming_ack |
| `NetworkRefinement.CheckTime` | src/transport/transport.rs:97-99 | the same for check_time_elapsed, which is a round of the network when one is due and nothing otherwise |
| `NetworkRefinement.TakeIn` | src/transport/handler.rs:61-71 | the same for recv_msg |
| `NetworkInvariant.NextInv` | src/transport/transport.rs:41-93 | every step of every node and of the medium keeps the system invariant |
| `NetworkTheorems.Safety` | src/transport/handler.rs:113-152 | in every reachable state, each message handled is byte for byte one that some node's outgoing_msg took under that id and sent to this node, and all its packets arrived here |
| `NetworkTheorems.NoPanic` | src/transport/handler.rs:143-152 | in every reachable state, no datagram in flight can make reassembly panic |
| `NetworkTheorems.AcknowledgedMeansReceived` | src/gd_udp/gd_udp.rs:123-133 | in every reachable state, an address in an acknowledged set belongs to the node the packet was sent to, and that node has received it |
| `NetworkTheorems.GivingUpIsJustified` | src/gd_udp/gd_udp.rs:60-63 | an entry is given up only when every destination has received the packet or ten attempts were made |
| `NetworkTheorems.DroppedIff` | src/gd_udp/gd_udp.rs:60-63 | in every reachable state, a round drops an entry if and only if its attempts are used up, or it has been acknowledged and the address it was sent to is the one its owner puts in acknowledgements |
| `NetworkTheorems.LoopbackIsNeverSettled` | src/transport/transport.rs:80-84 | where no node lives on the loopback host, a round drops an entry if and only if its attempts are used up, or it has been acknowledged and the address the client gave is not on the sender's host and is its owner's own |
| `NetworkLoopback.SameHostIsResent` | src/transport/transport.rs:80-84 | a run in which a packet to a peer on the sender's host arrives and its acknowledgement is recorded, and the next round sends it again |
| `NetworkLoopback.SceneExists` | src/transport/transport.rs:80-84 | there are such nodes, addresses and a codec that round-trips |
| `NetworkAddressing.HandledWhereItIsMeant` | src/transport/transport.rs:80-84 | where each node is reached under its address, and from its own host under its port at 127.0.0.1: in every reachable state a message given for a node is handled nowhere else, and there if and only if all its packets have arrived |
| `NetworkAddressing.HousedExists` | src/transport/transport.rs:80-84 | there are such networks, for any set of nodes off the loopback host |
| `NetworkTheorems.OutboxDrains` | src/gd_udp/gd_udp.rs:59-75 | from every reachable state, ten rounds of a node without new sends of its own, whatever else happens in between, empty its outbox |
| `NetworkTheorems.OutboxHoldsNoAcks` | src/transport/transport.rs:65-88 | no packet of an acknowledgement ever waits for acknowledgement |
| `NetworkTheorems.AcksMatchReceipts` | src/transport/handler.rs:84-99 | in every reachable state, the acknowledgements a node has queued or sent are exactly as many as the receipt-requesting packets it received |
| `NetworkCounts.TransmissionsAreBounded` | src/gd_udp/gd_udp.rs:143-168 | no packet is put on the wire more than ten times, or more than once without a receipt request, and an entry's attempts are exactly its transmissions |
| `NetworkDeliveries.DeliveriesAreBounded` | src/transport/handler.rs:114-127 | with a medium that repeats nothing, a message of p packets is handled at most 9p + 1 times, an acknowledgement once, and at all if and only if all its packets arrived |
| `NetworkTightness.DeliveriesReachTheBound` | src/transport/handler.rs:114-127 | the bound is reached: for every message to a node of the network, a run with a medium that repeats nothing in which its p packets are handled 9p + 1 times |
| `NetworkTermination.StepDecreases` | src/transport/transport.rs:61-93 | every step that has an effect lowers a measure of the whole system, once clients stop submitting and the medium repeats nothing |
| `NetworkTermination.TrafficDiesOut` | src/transport/transport.rs:61-93 | every infinite schedule without new client messages and repetitions by the medium comes to a point after which it has rounds with empty outboxes only, and nothing changes any more |
| `Trie.UpsertIs` | src/discovery/routing.rs:49-52 | an upsert leaves the peer in the bucket once, moves nobody else out, and keeps ids distinct |
| `Trie.UpsertOrder` | src/discovery/routing.rs:40-52 | a new peer goes to the back of the bucket, a known one from its place to the back, and the others keep their order |
| `Trie.FirstOpenIs` | src/discovery/routing.rs:141-157 | the recursion stops at the first prefix with room, and panics exactly when every prefix from traverse on is a full bucket |
| `Trie.UpdateKeepsInv` | src/discovery/routing.rs:141-157 | an update keeps the trie invariant: at most thirty peers to a bucket, each under a prefix of its distance, and every shorter prefix of a key is a full bucket |
| `Trie.UpdateRefinesInsertion` | src/discovery/routing.rs:141-157 | an update changes the bucket of the shortest prefix with room and no other, evicts nobody, adds exactly the peer's id to the known ids, and adds a copy for that id exactly there |
| `Closest.UpdateAddsOneEntry` | src/discovery/routing.rs:141-157 | an update adds one entry to the total and one copy for the id, unless the bucket it lands in has an entry for the id already |
| `Trie.ReachableTables` | src/discovery/routing.rs:124-157 | every table reached from a new one satisfies the invariant, and its known ids are the local id and the ids inserted |
| `Trie.OneCopyPerLength` | src/discovery/routing.rs:141-157 | if ids fix keys, a reachable table has at most one copy of a peer for each prefix length |
| `Closest.AnswerSize` | src/discovery/routing.rs:166-241 | an answer has exactly min(count, total) entries, is a sub-multiset of all entries, and is sorted by distance once the total exceeds count |
| `Closest.AnswerExists` | src/discovery/routing.rs:166-241 | for every table, target and count there is an answer |
| `Closest.CutExists` | src/discovery/routing.rs:190-190 | a cut of the chain with count entries below it exists exactly when the program's test for the fast path succeeds |
| `Closest.ChainIsFull` | src/discovery/routing.rs:178-182 | on a reachable table the retained buckets form one chain of prefixes without gaps, and all but the deepest are full |
| `Closest.WhereTheAnswerComesFrom` | src/discovery/routing.rs:190-234 | for counts from 1 to 30 the answer comes from the deepest retained bucket, or from it and the one above when it is short, so at most one extra bucket is taken; the whole table is searched exactly when the chain is empty or a single bucket with too few entries |
| `Closest.ZeroPrefixAnswer` | src/discovery/routing.rs:204-240 | below an all-zero prefix everybody returned is strictly nearer to the target than every entry without that prefix |
| `Closest.ShallowZeroAnswerIsGlobal` | src/discovery/routing.rs:204-240 | when the target's distance starts with a zero byte and the bucket of that prefix is not full, the answer is the nearest of the whole table |
| `Closest.PrefixPathIsNotGlobal` | src/discovery/routing.rs:204-240 | on a reachable table of two entries, the only answer of length one is the farther of the two |
| `Filling.Fill` | src/discovery/routing.rs:141-157 | from any table with the invariant, new peers with one key fill the chain of its prefixes until the bucket of any given prefix has any given size up to thirty; only prefixes up to that length get buckets, all new entries have that key, and nobody else's copies change |
| `Filling.TwoCopies` | src/discovery/routing.rs:141-157 | for every local peer there are updates after which it has a copy under "0" and one under "00" |
| `Exactness.GlobalIff` | src/discovery/routing.rs:204-240 | for every local peer, every prefix of at most 32 characters and either state of its bucket: on every reachable table, for every target and count, each answer found by way of that prefix is the nearest of the whole table, if and only if the prefix is the 32 zeros, or it is "0" and its bucket has room |
| `Exactness.NearestIff` | src/discovery/routing.rs:204-240 | the same for prefixes of any length: if and only if the prefix is "0" with room, or it has more than one character and at most one key shares it |
| `Exactness.EveryPrefixIsUsed` | src/discovery/routing.rs:204-240 | every prefix of every key's distance is the way some reachable table is searched, with its bucket full as well as with room, and there is an answer |
| `Exactness.TwoKeysAreTooMany` | src/discovery/routing.rs:204-240 | for every prefix of two or more characters that two keys share, zeros or not, some reachable table is searched by way of it and misses the nearest |
| `Exactness.OnesAreNotGlobal` | src/discovery/routing.rs:204-240 | for every local peer and every prefix of at most 32 characters with a one in it, a reachable table on which the query takes the bucket of that prefix and has an answer, and each answer is farther than the local peer |
| `Closest.SmallTablesNeverPanic` | src/discovery/routing.rs:141-182 | a reachable table with fewer than 960 entries neither refuses an update nor trips a query |
| `Filling.SmallTablesBoundIsTight` | src/discovery/routing.rs:141-157 | for every local peer, a reachable table of exactly 960 entries that refuses the next update of any peer with the local key |
| `RoutingTables.RoutingTable.constructor` | src/discovery/routing.rs:124-133 | a new table holds the local peer under the prefix of the zero distance |
| `RoutingTables.RoutingTable.UpdatePeer` | src/discovery/routing.rs:141-157 | the recursion over the objects changes the table as on values, and fails exactly where that panics |
| `RoutingTables.RoutingTable.IsNew` | src/discovery/routing.rs:323-325 | the loop over the buckets answers whether none has the id |
| `RoutingTables.RoutingTable.TotalPeers` | src/discovery/routing.rs:333-335 | the sum of the bucket sizes is the number of entries |
| `RoutingTables.RoutingTable.GetAllPeers` | src/discovery/routing.rs:338-346 | the result is a permutation of all entries |
| `RoutingTables.RoutingTable.GetClosestPeers` | src/discovery/routing.rs:166-241 | it panics exactly when the total exceeds count and some key is longer than the target's binary form, and otherwise returns an answer |
| `RoutingTables.RetainPrefixes` | src/discovery/routing.rs:178-182 | the retain step keeps exactly the buckets whose key is a prefix of the target's binary form |
| `RoutingTables.GatherPeers` | src/discovery/routing.rs:216-234 | the loop over the buckets, longest prefix first, collects exactly the entries down to the cut |
| `RoutingTables.SortAndTruncate` | src/discovery/routing.rs:194-196 | sorting by distance and truncating leaves the count nearest of the pool, nearest first, and leaves out nobody nearer |
| `Discovery.LearnsWhatItIsTold` | src/discovery/kad.rs:258-376 | whatever the message, a node that survives it knows afterwards exactly the ids it knew and those the message mentions |
| `Discovery.EachNewIdOnce` | src/discovery/kad.rs:326-341 | a node bootstraps exactly once for each id of a Nodes response that it did not know |
| `Discovery.HandlingLearns` | src/discovery/kad.rs:258-309 | a FindNode causes at most nine messages, a Ping one, others none; all of them mention only ids that were there, and none asks for more |
| `Discovery.HandlingPays` | src/discovery/kad.rs:258-376 | handling costs its weight: the messages sent, c times over, and the ids still unknown weigh strictly less than the message and the ids unknown before |
| `Discovery.NextPays` | src/discovery/kad.rs:385-395 | every step of the network lowers the potential |
| `Discovery.FreshNetworkIsClosed` | src/discovery/kad.rs:105-114 | a network of new nodes that ask one another has all its ids among those of its nodes |
| `Discovery.DiscoveryQuiesces` | src/discovery/kad.rs:258-434 | no run, with messages lost, reordered or delivered up to c times, has more steps than the potential it starts from |
| `Discovery.RunLengthBound` | src/discovery/kad.rs:258-434 | a bound on the length of every run in the number of nodes, ids and messages in flight |
| `Discovery.BootstrapsAreBounded` | src/discovery/kad.rs:326-341 | over a whole run a node bootstraps at most once for each id it did not know |
| `Discovery.SmallNetworksSurvive` | src/discovery/kad.rs:258-376 | in a network of fewer than thirty ids no message makes a node panic |
| `Replies.FindNodeIsAnswered` | src/discovery/kad.rs:410-434 | a node that survives a FindNode for p sends one Nodes to p, with an answer of the table that the sender was entered in, then one NewPeer about p to each peer of the answer, and nothing else |
| `Replies.OtherRequestsAreAnswered` | src/discovery/kad.rs:258-309 | a Ping gets one Pong at the address of its sender, other requests nothing; each enters its sender, a NewPeer the new peer besides |
| `Replies.OtherResponsesAreSilent` | src/discovery/kad.rs:343-376 | only a Nodes causes messages, and only it and a Pong enter peers |
| `Replies.NewcomersAre` | src/discovery/kad.rs:326-341 | the newcomers of a list are the peers at the first place of an id not known before, once each |
| `Replies.NewcomersAreAsked` | src/discovery/kad.rs:326-341 | a node that survives a Nodes asks exactly the newcomers for their neighbours, in order and at their addresses |
| `Replies.NodesAreEntered` | src/discovery/kad.rs:326-341 | it enters the peers of the list in order, and after each newcomer itself, and panics exactly if one of these insertions does |
| `Replies.OneQuestionTeaches` | src/discovery/kad.rs:258-434 | in any network, delivering a FindNode and its reply teaches the one asked the asker, and the asker everybody in the answer; that is everybody the other knows if it has at most eight entries |
| `Replies.TwoFreshNodesMeet` | src/discovery/kad.rs:105-114 | of two new nodes where one bootstraps from the other, each knows both ids, and no other, once the question and the reply are delivered, whatever else is in flight |
| `Replies.TwoFreshNodesCanMeet` | src/discovery/kad.rs:105-114 | from every such state these two deliveries are possible, and neither node panics |
| `Composition.StepPays` | src/transport/handler.rs:161-183 | with discovery over the transport, a step of the transport does not raise the joint potential, and a message that discovery works on lowers it |
| `CompositionTheorems.WorkIsBounded` | src/discovery/kad.rs:385-395 | over every run of the joint system, the messages that discovery works on are no more than the potential it starts from, with 9p + 1 for the times each is handled |
| `CompositionTheorems.EverythingComesToRest` | src/discovery/kad.rs:258-434 | every infinite schedule of the joint system without messages of other services comes to a point after which there are rounds with empty outboxes only, and nothing changes any more |
| `CompositionTheorems.FreshIsStarted` | src/discovery/kad.rs:105-114 | a network of new nodes is where such a run may start |
| `CompositionTheorems.BootstrapKeepsStarted` | src/discovery/kad.rs:105-114 | and so is what it becomes when a node asks an address for its neighbours |
| `CompositionDelivery.ArrivalIsPassedOn` | src/transport/handler.rs:161-183 | an arrival hands a request or a response to discovery at the node reached if and only if all its packets have arrived there by then, and changes what no other node has to do |
| `CompositionDelivery.RequestsAreDelivered` | src/transport/handler.rs:161-183 | over every run of the joint system: if all packets of a request or a response have come to a node by its end, and had not at its start, some step handed the message to discovery there |
| `CompositionDelivery.WorkIsSubmitted` | src/discovery/kad.rs:418-434 | what discovery sends is queued at the transport, in order, each message with its address and its content |
| `Kademlia.Kademlia.AddPeer` | src/discovery/kad.rs:92-95 | the peer is inserted from prefix length zero |
| `Kademlia.Kademlia.Bootstrap` | src/discovery/kad.rs:105-114 | one FindNode for the local peer is sent, then the local peer is inserted |
| `Kademlia.Kademlia.LookupNode` | src/discovery/kad.rs:410-434 | the answer is taken before the node is inserted; one Nodes with the answer goes to the node, then one NewPeer about the node to each peer of the answer, and nothing else |
| `Kademlia.Kademlia.HandleRequest` | src/discovery/kad.rs:258-309 | a FindNode is answered so, from the table that the sender has been entered in; a Ping gets one Pong at its sender; nothing else is answered; the table is that of the handling on values, panics included |
| `Kademlia.Kademlia.HandleResponse` | src/discovery/kad.rs:318-376 | of a Nodes exactly the newcomers are asked, in order and at their addresses, and no other response causes a message; the table is that of the handling on values, panics included |
| `Kademlia.Kademlia.HandleMessage` | src/discovery/kad.rs:385-395 | the same for any message |
| `GossipCache.CachedUntilExpired` | src/gossip/gossip.rs:177-191 | an id stays in the cache exactly until a heartbeat finds it older than interval * history_len |
| `GossipCache.HeartbeatMeans` | src/gossip/gossip.rs:167-191 | when a heartbeat comes, what it publishes, what it keeps and what it drops, in terms of the configured numbers and the two readings of the clock |
| `GossipCache.LifetimeBegins` | src/gossip/gossip.rs:256-279 | over every run, each cached lifetime of an id begins with exactly one arrival, which is delivered if and only if its source is not the node itself |
| `GossipCache.DeliveriesAreFarApart` | src/gossip/gossip.rs:256-279 | over every run with a monotone clock, two deliveries of one id to the application are more than interval * history_len apart |
| `GossipCache.RepeatsAreBounded` | src/gossip/gossip.rs:177-187 | over every run with a monotone clock, one cached lifetime of a message is published by at most history_gossip + 1 heartbeats, and by at most history_gossip if the two readings of the clock in a call are no more nanoseconds apart than that |
| `GossipCache.OneRepeatTooMany` | src/gossip/gossip.rs:178-182 | whenever the condition allows it, a run of a new service that takes a message in and publishes it by history_gossip + 1 heartbeats |
| `GossipCache.HistoryKeptIff` | src/gossip/gossip.rs:177-191 | for every configuration and every d: no run of a new service with readings at most d nanoseconds apart exceeds history_gossip, if and only if the condition on d, the interval and the two history lengths fails |
| `GossipService.GossipService.HandleMessage` | src/gossip/gossip.rs:256-279 | a message that decodes to a new id is cached with its time; if it is from another node it is first delivered to the application once and published; in all other cases neither channel changes |
| `GossipService.GossipService.Heartbeat` | src/gossip/gossip.rs:167-174 | a heartbeat fires exactly when more than the interval has passed, and is then dated anew |
| `GossipService.GossipService.Gossip` | src/gossip/gossip.rs:177-198 | the cache and the heartbeat change as on values, and exactly one publication is made for each message that is due |
| `GossipService.GossipService.Publish` | src/gossip/gossip.rs:207-244 | each copy goes to a different address: with at most seven peers to all of them, with more to those drawn, in both cases without the source and the node itself |
| `GossipService.Sample` | src/gossip/gossip.rs:212-224 | the sample is the addresses at some list of exactly as many indices as the factor allows, without the source and the node |
| `GossipService.PublicationSize` | src/gossip/gossip.rs:207-244 | no more copies are sent than picks are made, and at least one if there is a pick and none of the peers is the source or the node |
| `GossipService.PicksAre` | src/gossip/gossip.rs:214-216 | the number of picks is the number of peers times the factor, rounded down, and none for a factor that is not positive |
| `GossipService.GossipService.Recv` | src/gossip/gossip.rs:282-294 | one message is taken; what is new and from another node goes to the application, to the transport and once more to the caller, and nothing else goes anywhere |

## Left out

- The serde_json encoding: assumed to round-trip (`Codec.RoundTrips` and the `decode` of `GossipCache.Config` are parameters); datagrams that do not decode as packets are dropped before the model starts.
- Random message ids: assumed fresh (`Network.Enabled` asks for an unused id); peer keys and SHA-256 are values given from outside.
- Sockets, time-to-live settings, threads and send errors: a socket is the record of what was handed to it, a channel is a queue.
- Address parsing and printing: addresses are pairs of numbers, and the loopback rewrite is a function on them, for hosts that compare equal as text before the first colon; IPv6 addresses, on which the program's splitting at colons fails, are not covered.
- The message cache, the log name and the direct receive function of `GDUdp`: no code in the modelled files uses them.
- `KBucket::split`, `remove_lru`, `remove_peer`, `is_stale` and the time of the last update: unfinished or, by their own comments, no longer working, and not called by the modelled code.
- `Key::leading_ones`: not used.
- Storing and finding values, ping scheduling, the record and traits directories: empty bodies or interfaces only; requests and responses of these kinds are handled as the no-ops they are.
- Requests and responses whose parts do not decode: discovery messages are typed, so the `unwrap` calls on a malformed peer or payload cannot fail in the model.
- Payload kinds in the wrong envelope: the bytes are handed from one handler to the other, where they do not decode, so nothing happens; this relies on the field names of the two structures differing.
- `Duration` overflow and the loss of precision of `f64`: times are naturals and the factor is a real; the truncation of the history lengths to 32 bits is modelled.
- CompositionTheorems.EverythingComesToRest: with a medium that repeats nothing, and with some number of packets that no message of the run exceeds.
- Gossip over the transport as one system: in the joint system of discovery and transport, gossip messages travel like any other but nobody works on them.
- The probability that gossip reaches everybody: a sample is any sample the code could draw.
- The order among equally distant peers in an answer: the library sort is modelled as an insertion sort whose result is specified as a sorted permutation.
