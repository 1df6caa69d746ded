/** The peer-discovery object of src/discovery/kad.rs, proved against the functions of Discovery. */
module Kademlia {
  import opened Bytes
  import opened Trie
  import opened Closest
  import opened RoutingTables
  import opened Discovery
  import opened Replies
  import opened Channels
  import Packets

  class Kademlia {
    const routingTable: RoutingTable
    const toTransport: Channel<Out>

    ghost predicate Valid()
      reads this, routingTable, routingTable.tree.Values
    {
      routingTable.Valid()
    }

    constructor (table: RoutingTable, transport: Channel<Out>)
      requires table.Valid()
      ensures routingTable == table && toTransport == transport && Valid()
    {
      routingTable := table;
      toTransport := transport;
    }

    /** A false result here and below stands for a panic in the routing table. */
    method AddPeer(peer: PeerInfo) returns (ok: bool)
      requires Valid()
      modifies routingTable, routingTable.tree.Values
      ensures Valid() && fresh(routingTable.tree.Values - old(routingTable.tree.Values))
      ensures Updated(old(routingTable.View()), routingTable.localInfo.key, peer, 0)
           == if ok then Some(routingTable.View()) else None
    {
      ok := routingTable.UpdatePeer(peer, 0);
    }

    method Bootstrap(to: Packets.SocketAddr) returns (ok: bool)
      requires Valid()
      modifies toTransport, routingTable, routingTable.tree.Values
      ensures Valid() && fresh(routingTable.tree.Values - old(routingTable.tree.Values))
      ensures var local := routingTable.localInfo;
              toTransport.queue == old(toTransport.queue) + [Out(to, KadMessage.Request(local, FindNode(local)))]
      ensures Updated(old(routingTable.View()), routingTable.localInfo.key, routingTable.localInfo, 0)
           == if ok then Some(routingTable.View()) else None
    {
      var localInfo := routingTable.localInfo;
      toTransport.Send(Out(to, KadMessage.Request(localInfo, FindNode(localInfo))));
      ok := AddPeer(localInfo);
    }

    /** One Nodes with the peers nearest to the node goes to the node, and word of it to each of them. */
    method LookupNode(node: PeerInfo) returns (ok: bool, ghost answer: seq<PeerInfo>)
      requires Valid()
      modifies toTransport, routingTable, routingTable.tree.Values
      ensures Valid() && fresh(routingTable.tree.Values - old(routingTable.tree.Values))
      ensures ok ==> Answer(old(routingTable.View()), routingTable.localInfo.key, node.key, 8, answer)
      ensures ok ==> Replied(old(toTransport.queue), toTransport.queue, routingTable.localInfo, node, answer)
      ensures LookupFits(routingTable.localInfo, old(routingTable.View()), node, answer)
      ensures var e := Lookup(routingTable.localInfo, old(routingTable.View()), node, answer);
              && toTransport.queue == old(toTransport.queue) + e.sent
              && e.tree == if ok then Some(routingTable.View()) else None
    {
      hide Updated, All, TooDeep, Answer, NewPeerTo, Bin, Replied, Lookup;
      ghost var before, queue := routingTable.View(), toTransport.queue;
      answer := [];
      LookupIs(queue, routingTable.localInfo, before, node, answer);
      var closestPeers := routingTable.GetClosestPeers(node, DEFAULT_N_PEERS);
      if closestPeers.None? {
        return false, [];
      }
      answer := closestPeers.value;
      LookupIs(queue, routingTable.localInfo, before, node, answer);
      ok := AddPeer(node);
      if !ok {
        return;
      }
      toTransport.Send(Out(node.address, KadMessage.Response(Nodes(closestPeers.value))));
      SendNewPeer(node, closestPeers.value);
    }

    method SendNewPeer(node: PeerInfo, peers: seq<PeerInfo>)
      modifies toTransport
      ensures toTransport.queue == old(toTransport.queue) + NewPeerTo(routingTable.localInfo, node, peers)
    {
      var localInfo := routingTable.localInfo;
      for i := 0 to |peers|
        invariant toTransport.queue == old(toTransport.queue) + NewPeerTo(localInfo, node, peers)[..i]
      {
        toTransport.Send(Out(peers[i].address, KadMessage.Request(localInfo, NewPeer(node))));
      }
    }

    /** A FindNode gets a Nodes, a Ping a Pong at the address of its sender. */
    method HandleRequest(sender: PeerInfo, rpc: Rpc) returns (ok: bool, ghost answer: seq<PeerInfo>)
      requires Valid()
      modifies toTransport, routingTable, routingTable.tree.Values
      ensures Valid() && fresh(routingTable.tree.Values - old(routingTable.tree.Values))
      ensures AnswerFits(routingTable.localInfo, old(routingTable.View()), KadMessage.Request(sender, rpc), answer)
      ensures ok && rpc.FindNode? ==>
                var local, q, node := routingTable.localInfo, old(toTransport.queue), rpc.peer;
                && var entered := Updated(old(routingTable.View()), local.key, sender, 0);
                && entered.Some? && Answer(entered.value, local.key, node.key, 8, answer)
                && Replied(q, toTransport.queue, local, node, answer)
      ensures ok && rpc.Ping? ==>
                var pong := KadMessage.Response(Pong(routingTable.localInfo));
                toTransport.queue == old(toTransport.queue) + [Out(sender.address, pong)]
      ensures ok && !rpc.FindNode? && !rpc.Ping? ==> toTransport.queue == old(toTransport.queue)
      ensures var message := KadMessage.Request(sender, rpc);
              var e := Handle(routingTable.localInfo, old(routingTable.View()), message, answer);
              && toTransport.queue == old(toTransport.queue) + e.sent
              && e.tree == if ok then Some(routingTable.View()) else None
    {
      hide Updated, Lookup, LookupFits, MeetAll, IsNew, Answer, Replied;
      answer := [];
      ok := AddPeer(sender);
      if !ok {
        return;
      }
      match rpc
      case FindNode(node) =>
        ok, answer := LookupNode(node);
      case NewPeer(peer) =>
        ok := AddPeer(peer);
      case Ping =>
        toTransport.Send(Out(sender.address, KadMessage.Response(Pong(routingTable.localInfo))));
      case _ =>
    }

    /** Each newcomer of a Nodes is asked for its neighbours, at its address; nothing else is sent. */
    method HandleResponse(rpc: Rpc) returns (ok: bool)
      requires Valid()
      modifies toTransport, routingTable, routingTable.tree.Values
      ensures Valid() && fresh(routingTable.tree.Values - old(routingTable.tree.Values))
      ensures ok && rpc.Nodes? && TrieInv(old(routingTable.View()), routingTable.localInfo.key)
              && routingTable.localInfo.id in KnownIds(old(routingTable.View())) ==>
                var local, q := routingTable.localInfo, old(toTransport.queue);
                var asked := Newcomers(KnownIds(old(routingTable.View())), rpc.peers);
                && |toTransport.queue| == |q| + |asked| && toTransport.queue[..|q|] == q
                && forall i :: 0 <= i < |asked| ==>
                     toTransport.queue[|q| + i] == Out(asked[i].address, KadMessage.Request(local, FindNode(local)))
      ensures !rpc.Nodes? ==> toTransport.queue == old(toTransport.queue)
      ensures var e := Handle(routingTable.localInfo, old(routingTable.View()), KadMessage.Response(rpc), []);
              && toTransport.queue == old(toTransport.queue) + e.sent
              && e.tree == if ok then Some(routingTable.View()) else None
    {
      hide KnownIds, MeetAll, Updated, TrieInv;
      ghost var before := routingTable.View();
      match rpc
      case Nodes(peers) =>
        ok := MeetPeers(peers);
        if ok && TrieInv(before, routingTable.localInfo.key) && routingTable.localInfo.id in KnownIds(before) {
          NewcomersAreAsked(routingTable.localInfo, before, peers, []);
        }
      case Pong(peer) =>
        ok := AddPeer(peer);
      case _ =>
        ok := true;
    }

    method MeetPeer(peer: PeerInfo) returns (ok: bool)
      requires Valid()
      modifies toTransport, routingTable, routingTable.tree.Values
      ensures Valid() && fresh(routingTable.tree.Values - old(routingTable.tree.Values))
      ensures var e := Meet(routingTable.localInfo, old(routingTable.View()), peer);
              && toTransport.queue == old(toTransport.queue) + e.sent
              && e.tree == if ok then Some(routingTable.View()) else None
    {
      hide Updated, IsNew;
      var isNew := routingTable.IsNew(peer);
      ok := AddPeer(peer);
      if ok && isNew {
        ok := Bootstrap(peer.address);
      }
    }

    /** The loop over a Nodes response. */
    method MeetPeers(peers: seq<PeerInfo>) returns (ok: bool)
      requires Valid()
      modifies toTransport, routingTable, routingTable.tree.Values
      ensures Valid() && fresh(routingTable.tree.Values - old(routingTable.tree.Values))
      ensures var e := MeetAll(routingTable.localInfo, old(routingTable.View()), peers);
              && toTransport.queue == old(toTransport.queue) + e.sent
              && e.tree == if ok then Some(routingTable.View()) else None
    {
      hide Meet, MeetAll;
      ok := true;
      ghost var all := MeetAll(routingTable.localInfo, routingTable.View(), peers);
      ghost var sent: seq<Out> := [];
      assert peers[0..] == peers;
      for i := 0 to |peers|
        invariant ok && Valid() && fresh(routingTable.tree.Values - old(routingTable.tree.Values))
        invariant toTransport.queue == old(toTransport.queue) + sent
        invariant all.tree == MeetAll(routingTable.localInfo, routingTable.View(), peers[i..]).tree
        invariant all.sent == sent + MeetAll(routingTable.localInfo, routingTable.View(), peers[i..]).sent
      {
        assert peers[i..][0] == peers[i] && peers[i..][1..] == peers[i + 1..];
        MeetFirst(routingTable.localInfo, routingTable.View(), peers[i..]);
        sent := sent + Meet(routingTable.localInfo, routingTable.View(), peers[i]).sent;
        ok := MeetPeer(peers[i]);
        if !ok {
          return;
        }
      }
      MeetFirst(routingTable.localInfo, routingTable.View(), peers[|peers|..]);
    }

    method HandleMessage(message: KadMessage) returns (ok: bool, ghost answer: seq<PeerInfo>)
      requires Valid()
      modifies toTransport, routingTable, routingTable.tree.Values
      ensures Valid() && fresh(routingTable.tree.Values - old(routingTable.tree.Values))
      ensures AnswerFits(routingTable.localInfo, old(routingTable.View()), message, answer)
      ensures var e := Handle(routingTable.localInfo, old(routingTable.View()), message, answer);
              && toTransport.queue == old(toTransport.queue) + e.sent
              && e.tree == if ok then Some(routingTable.View()) else None
    {
      answer := [];
      match message
      case Request(sender, rpc) =>
        ok, answer := HandleRequest(sender, rpc);
      case Response(rpc) =>
        ok := HandleResponse(rpc);
      case Kill =>
        ok := true;
    }
  }
}
