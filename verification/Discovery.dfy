/** The message handling of src/discovery/kad.rs on values, and the network of nodes that run it:
    a request may cause responses and requests, a response may cause requests, and yet every run
    comes to rest. */
module Discovery {
  import opened Bytes
  import opened Keys
  import Packets
  import opened Trie
  import opened Closest
  import Sums

  const DEFAULT_N_PEERS: nat := 8

  datatype Rpc =
    | Ping
    | NewPeer(peer: PeerInfo)
    | Store
    | FindNode(peer: PeerInfo)
    | FindValue
    | Nodes(peers: seq<PeerInfo>)
    | ValueFound
    | Saved
    | Pong(peer: PeerInfo)

  /** Requests name their sender; of a response only the payload is ever looked at. */
  datatype KadMessage = Request(sender: PeerInfo, rpc: Rpc) | Response(rpc: Rpc) | Kill

  datatype Out = Out(dst: Packets.SocketAddr, msg: KadMessage)

  /** What handling a message does: the table afterwards, none if the node panicked, and the
      messages sent before that. */
  datatype Effect = Effect(tree: Option<Tree>, sent: seq<Out>)

  function NewPeerTo(info: PeerInfo, p: PeerInfo, to: seq<PeerInfo>): seq<Out> {
    seq(|to|, i requires 0 <= i < |to| => Out(to[i].address, Request(info, NewPeer(p))))
  }

  ghost predicate QueryPanics(info: PeerInfo, tree: Tree, node: PeerInfo) {
    |All(tree)| > DEFAULT_N_PEERS && TooDeep(tree, Bin(info.key, node))
  }

  /** lookup_node, given the routing table's answer to the query, which is taken before the node
      itself is added. */
  ghost function Lookup(info: PeerInfo, tree: Tree, node: PeerInfo, answer: seq<PeerInfo>): Effect {
    if QueryPanics(info, tree, node) then Effect(None, [])
    else match Updated(tree, info.key, node, 0)
      case None => Effect(None, [])
      case Some(t) => Effect(Some(t), [Out(node.address, Response(Nodes(answer)))] + NewPeerTo(info, node, answer))
  }

  function Bootstrap(info: PeerInfo, to: Packets.SocketAddr): Out {
    Out(to, Request(info, FindNode(info)))
  }

  /** One peer of a Nodes response: it is added, and if it was not known so far, bootstrapped from. */
  ghost function Meet(info: PeerInfo, tree: Tree, p: PeerInfo): Effect {
    match Updated(tree, info.key, p, 0)
    case None => Effect(None, [])
    case Some(t) =>
      if IsNew(tree, p) then Effect(Updated(t, info.key, info, 0), [Bootstrap(info, p.address)])
      else Effect(Some(t), [])
  }

  /** The loop over a Nodes response. */
  ghost function MeetAll(info: PeerInfo, tree: Tree, peers: seq<PeerInfo>): Effect
    decreases |peers|
  {
    if peers == [] then Effect(Some(tree), [])
    else
      var first := Meet(info, tree, peers[0]);
      match first.tree
      case None => first
      case Some(t) =>
        var rest := MeetAll(info, t, peers[1..]);
        Effect(rest.tree, first.sent + rest.sent)
  }

  lemma MeetFirst(info: PeerInfo, tree: Tree, peers: seq<PeerInfo>)
    ensures peers == [] ==> MeetAll(info, tree, peers) == Effect(Some(tree), [])
    ensures peers != [] ==>
              var first := Meet(info, tree, peers[0]);
              match first.tree
              case None => MeetAll(info, tree, peers) == first
              case Some(t) =>
                var rest := MeetAll(info, t, peers[1..]);
                MeetAll(info, tree, peers) == Effect(rest.tree, first.sent + rest.sent)
  {
    hide Meet;
  }

  /** handle_message. A request that carries a response's payload is handed to handle_response,
      where it does not decode, and the other way around. */
  ghost function Handle(info: PeerInfo, tree: Tree, m: KadMessage, answer: seq<PeerInfo>): Effect {
    match m
    case Kill => Effect(Some(tree), [])
    case Response(Nodes(peers)) => MeetAll(info, tree, peers)
    case Response(Pong(p)) => Effect(Updated(tree, info.key, p, 0), [])
    case Response(_) => Effect(Some(tree), [])
    case Request(sender, rpc) =>
      match Updated(tree, info.key, sender, 0)
      case None => Effect(None, [])
      case Some(t) =>
        match rpc
        case FindNode(node) => Lookup(info, t, node, answer)
        case NewPeer(p) => Effect(Updated(t, info.key, p, 0), [])
        case Ping => Effect(Some(t), [Out(sender.address, Response(Pong(info)))])
        case _ => Effect(Some(t), [])
  }

  ghost predicate LookupFits(info: PeerInfo, tree: Tree, node: PeerInfo, answer: seq<PeerInfo>) {
    !QueryPanics(info, tree, node) ==> Answer(tree, info.key, node.key, DEFAULT_N_PEERS, answer)
  }

  /** The answer is one that get_closest_peers may give, where it is asked at all. */
  ghost predicate AnswerFits(info: PeerInfo, tree: Tree, m: KadMessage, answer: seq<PeerInfo>) {
    m.Request? && m.rpc.FindNode? && Updated(tree, info.key, m.sender, 0).Some? ==>
      LookupFits(info, Updated(tree, info.key, m.sender, 0).value, m.rpc.peer, answer)
  }

  // ---------- ids ----------

  ghost predicate MessageIn(ids: set<PeerId>, m: KadMessage) {
    && (m.Request? ==> m.sender.id in ids)
    && (!m.Kill? ==>
          match m.rpc
          case NewPeer(p) => p.id in ids
          case FindNode(p) => p.id in ids
          case Pong(p) => p.id in ids
          case Nodes(peers) => IdsOf(peers) <= ids
          case _ => true)
  }

  ghost predicate TableIn(ids: set<PeerId>, local: Key, tree: Tree) {
    TrieInv(tree, local) && KnownIds(tree) <= ids
  }

  /** The ids a node has yet to hear of; a halted node hears of nothing more. */
  ghost function Unknown(ids: set<PeerId>, tree: Option<Tree>): nat {
    match tree
    case None => 0
    case Some(t) => |ids - KnownIds(t)|
  }

  lemma AddPeerKnows(ids: set<PeerId>, local: Key, tree: Tree, p: PeerInfo)
    requires TableIn(ids, local, tree) && p.id in ids && Updated(tree, local, p, 0).Some?
    ensures var t := Updated(tree, local, p, 0).value;
            && TableIn(ids, local, t)
            && KnownIds(t) == KnownIds(tree) + {p.id}
            && Unknown(ids, Some(t)) + (if IsNew(tree, p) then 1 else 0) == Unknown(ids, Some(tree))
  {
    hide TrieInv, Updated, KnownIds, IsNew, Stored;
    UpdateGains(tree, local, p);
    IsNewIs(tree, p);
    assert IdsOf([p]) == {p.id};
    OneLess(ids, KnownIds(tree), p.id);
  }

  lemma OneLess(ids: set<PeerId>, known: set<PeerId>, id: PeerId)
    requires id in ids
    ensures |ids - (known + {id})| + (if id in known then 0 else 1) == |ids - known|
  {
    if id in known {
      assert ids - known == ids - (known + {id});
    } else {
      assert ids - known == (ids - (known + {id})) + {id};
    }
  }

  ghost predicate Bootstraps(info: PeerInfo, sent: seq<Out>) {
    forall o :: o in sent ==> o.msg == Request(info, FindNode(info))
  }

  /** Every peer a node bootstraps from uses up one id that it did not know. */
  ghost predicate AsksOnce(ids: set<PeerId>, info: PeerInfo, tree: Tree, e: Effect) {
    && Bootstraps(info, e.sent)
    && |e.sent| + Unknown(ids, e.tree) <= Unknown(ids, Some(tree))
    && (e.tree.Some? ==> TableIn(ids, info.key, e.tree.value))
  }

  lemma MeetAsksOnce(ids: set<PeerId>, info: PeerInfo, tree: Tree, p: PeerInfo)
    requires TableIn(ids, info.key, tree) && info.id in ids && p.id in ids
    ensures AsksOnce(ids, info, tree, Meet(info, tree, p))
  {
    hide Updated, TableIn, KnownIds, IsNew;
    if Updated(tree, info.key, p, 0).Some? {
      AddPeerKnows(ids, info.key, tree, p);
      var t := Updated(tree, info.key, p, 0).value;
      if IsNew(tree, p) && Updated(t, info.key, info, 0).Some? {
        AddPeerKnows(ids, info.key, t, info);
      }
    }
  }

  lemma {:induction false} MeetAllAsksOnce(ids: set<PeerId>, info: PeerInfo, tree: Tree, peers: seq<PeerInfo>)
    requires TableIn(ids, info.key, tree) && info.id in ids && IdsOf(peers) <= ids
    ensures AsksOnce(ids, info, tree, MeetAll(info, tree, peers))
    decreases |peers|
  {
    hide TableIn, KnownIds, Meet;
    if peers != [] {
      assert peers[0].id in IdsOf(peers);
      assert IdsOf(peers[1..]) <= IdsOf(peers);
      MeetAsksOnce(ids, info, tree, peers[0]);
      var first := Meet(info, tree, peers[0]);
      if first.tree.Some? {
        MeetAllAsksOnce(ids, info, first.tree.value, peers[1..]);
      }
    }
  }

  /** The query's answer has at most eight peers, all of them known. */
  lemma AnswerIsKnown(ids: set<PeerId>, info: PeerInfo, tree: Tree, node: PeerInfo, answer: seq<PeerInfo>)
    requires TableIn(ids, info.key, tree) && Answer(tree, info.key, node.key, DEFAULT_N_PEERS, answer)
    ensures |answer| <= DEFAULT_N_PEERS && IdsOf(answer) <= ids
  {
    AnswerSize(tree, info.key, node.key, DEFAULT_N_PEERS, answer);
    hide TrieInv, Answer, All, Stored;
    forall p | p in answer ensures p.id in ids {
      assert p in multiset(answer);
      AllIsStored(tree, p);
      assert p.id in KnownIds(tree);
    }
  }

  /** Messages that are handled without sending anything for themselves. */
  predicate Passive(m: KadMessage) {
    m.Response? || (m.Request? && m.rpc.NewPeer?)
  }

  /** Everything a node passes on, it was told: no id comes up that was not there before. */
  ghost predicate Sends(ids: set<PeerId>, most: nat, e: Effect, info: PeerInfo) {
    && |e.sent| <= most
    && (forall o :: o in e.sent ==> MessageIn(ids, o.msg) && Passive(o.msg))
    && (e.tree.Some? ==> TableIn(ids, info.key, e.tree.value))
  }

  lemma LookupSends(ids: set<PeerId>, info: PeerInfo, tree: Tree, node: PeerInfo, answer: seq<PeerInfo>)
    requires TableIn(ids, info.key, tree) && info.id in ids && node.id in ids
    requires LookupFits(info, tree, node, answer)
    ensures var e := Lookup(info, tree, node, answer);
            Sends(ids, 1 + DEFAULT_N_PEERS, e, info) && Unknown(ids, e.tree) <= Unknown(ids, Some(tree))
  {
    hide Answer, QueryPanics, Updated, TableIn, IsNew, KnownIds, NewPeerTo;
    if !QueryPanics(info, tree, node) && Updated(tree, info.key, node, 0).Some? {
      AnswerIsKnown(ids, info, tree, node, answer);
      AddPeerKnows(ids, info.key, tree, node);
      NewPeerToSends(ids, info, node, answer);
    }
  }

  lemma NewPeerToSends(ids: set<PeerId>, info: PeerInfo, node: PeerInfo, answer: seq<PeerInfo>)
    requires info.id in ids && node.id in ids
    ensures |NewPeerTo(info, node, answer)| == |answer|
    ensures forall o :: o in NewPeerTo(info, node, answer) ==>
              o.msg == KadMessage.Request(info, NewPeer(node)) && MessageIn(ids, o.msg)
  {}

  /** How many messages a message other than a Nodes response is answered by, at most. */
  function MostReplies(m: KadMessage): nat {
    if !m.Request? then 0 else if m.rpc.FindNode? then 1 + DEFAULT_N_PEERS else if m.rpc.Ping? then 1 else 0
  }

  lemma HandlingLearns(ids: set<PeerId>, info: PeerInfo, tree: Tree, m: KadMessage, answer: seq<PeerInfo>)
    requires TableIn(ids, info.key, tree) && info.id in ids && MessageIn(ids, m)
    requires AnswerFits(info, tree, m, answer) && !(m.Response? && m.rpc.Nodes?)
    ensures var e := Handle(info, tree, m, answer);
            && Sends(ids, MostReplies(m), e, info)
            && Unknown(ids, e.tree) <= Unknown(ids, Some(tree))
  {
    hide Updated, TableIn, IsNew, KnownIds, LookupFits, Lookup;
    if m.Request? && Updated(tree, info.key, m.sender, 0).Some? {
      AddPeerKnows(ids, info.key, tree, m.sender);
      var t := Updated(tree, info.key, m.sender, 0).value;
      if m.rpc.FindNode? {
        LookupSends(ids, info, t, m.rpc.peer, answer);
      } else if m.rpc.NewPeer? && Updated(t, info.key, m.rpc.peer, 0).Some? {
        AddPeerKnows(ids, info.key, t, m.rpc.peer);
      }
    } else if m.Response? && m.rpc.Pong? && Updated(tree, info.key, m.rpc.peer, 0).Some? {
      AddPeerKnows(ids, info.key, tree, m.rpc.peer);
    }
  }

  // ---------- what handling teaches ----------

  /** The ids a message mentions. */
  ghost function Told(m: KadMessage): set<PeerId> {
    match m
    case Kill => {}
    case Response(Nodes(peers)) => IdsOf(peers)
    case Response(Pong(p)) => {p.id}
    case Response(_) => {}
    case Request(sender, FindNode(p)) => {sender.id, p.id}
    case Request(sender, NewPeer(p)) => {sender.id, p.id}
    case Request(sender, _) => {sender.id}
  }

  lemma AddPeerLearns(local: Key, tree: Tree, p: PeerInfo)
    requires TrieInv(tree, local) && Updated(tree, local, p, 0).Some?
    ensures var t := Updated(tree, local, p, 0).value;
            TrieInv(t, local) && KnownIds(t) == KnownIds(tree) + {p.id}
  {
    hide TrieInv, Updated, KnownIds, Stored;
    UpdateGains(tree, local, p);
    assert IdsOf([p]) == {p.id};
  }

  lemma NewIds(id: PeerId, rest: set<PeerId>, known: set<PeerId>)
    ensures |({id} + rest) - known| == (if id in known then 0 else 1) + |rest - (known + {id})|
  {
    if id in known {
      assert ({id} + rest) - known == rest - (known + {id});
    } else {
      assert ({id} + rest) - known == {id} + (rest - (known + {id}));
    }
  }

  /** From a Nodes response a node learns exactly the ids listed, and it bootstraps exactly once for
      each of them that it did not know. */
  lemma {:induction false} EachNewIdOnce(info: PeerInfo, tree: Tree, peers: seq<PeerInfo>)
    requires TrieInv(tree, info.key) && info.id in KnownIds(tree) && MeetAll(info, tree, peers).tree.Some?
    ensures var e := MeetAll(info, tree, peers);
            && TrieInv(e.tree.value, info.key)
            && KnownIds(e.tree.value) == KnownIds(tree) + IdsOf(peers)
            && |e.sent| == |IdsOf(peers) - KnownIds(tree)|
    decreases |peers|
  {
    hide TrieInv, KnownIds, Updated, IsNew;
    if peers != [] {
      var t := Updated(tree, info.key, peers[0], 0).value;
      AddPeerLearns(info.key, tree, peers[0]);
      IsNewIs(tree, peers[0]);
      HeadId(peers);
      hide IdsOf;
      NewIds(peers[0].id, IdsOf(peers[1..]), KnownIds(tree));
      if IsNew(tree, peers[0]) {
        AddPeerLearns(info.key, t, info);
        assert KnownIds(t) + {info.id} == KnownIds(t);
      }
      EachNewIdOnce(info, Meet(info, tree, peers[0]).tree.value, peers[1..]);
    } else {
      assert IdsOf(peers) == {};
    }
  }

  lemma HeadId(peers: seq<PeerInfo>)
    requires peers != []
    ensures IdsOf(peers) == {peers[0].id} + IdsOf(peers[1..])
  {
    assert peers == [peers[0]] + peers[1..];
  }

  /** Whatever the message, a node that survives it knows afterwards the ids it knew before and
      those the message mentions, and no others. */
  lemma LearnsWhatItIsTold(info: PeerInfo, tree: Tree, m: KadMessage, answer: seq<PeerInfo>)
    requires TrieInv(tree, info.key) && info.id in KnownIds(tree) && Handle(info, tree, m, answer).tree.Some?
    ensures var t := Handle(info, tree, m, answer).tree.value;
            TrieInv(t, info.key) && KnownIds(t) == KnownIds(tree) + Told(m)
  {
    hide TrieInv, KnownIds, Updated, QueryPanics;
    if m.Response? && m.rpc.Nodes? {
      EachNewIdOnce(info, tree, m.rpc.peers);
    } else if m.Response? && m.rpc.Pong? {
      AddPeerLearns(info.key, tree, m.rpc.peer);
    } else if m.Request? {
      AddPeerLearns(info.key, tree, m.sender);
      var t := Updated(tree, info.key, m.sender, 0).value;
      if m.rpc.FindNode? || m.rpc.NewPeer? {
        AddPeerLearns(info.key, t, m.rpc.peer);
      }
    }
  }

  // ---------- the measure ----------

  /** What a message can still cause when every message sent is delivered up to c times: a FindNode
      is answered by one Nodes and eight NewPeer, a Ping by one Pong. */
  function Weight(c: nat, m: KadMessage): nat {
    if m.Request? && m.rpc.FindNode? then 1 + (1 + DEFAULT_N_PEERS) * c
    else if m.Request? && m.rpc.Ping? then 1 + c
    else 1
  }

  function Weights(c: nat, sent: seq<Out>): nat {
    if sent == [] then 0 else Weight(c, sent[0].msg) + Weights(c, sent[1..])
  }

  /** The price of an unknown id: c copies of a FindNode. */
  function IdPrice(c: nat): nat {
    Times(c, 1 + (1 + DEFAULT_N_PEERS) * c)
  }

  lemma {:induction false} UniformWeights(c: nat, sent: seq<Out>, w: nat)
    requires forall o :: o in sent ==> Weight(c, o.msg) == w
    ensures Weights(c, sent) == Times(|sent|, w)
  {
    if sent != [] {
      assert sent[0] in sent;
      UniformWeights(c, sent[1..], w);
      assert Times(|sent|, w) == w + Times(|sent| - 1, w);
    }
  }

  lemma PriceOfAsking(c: nat, w: nat, sent: nat, after: nat, before: nat)
    requires sent + after <= before
    ensures Times(c, Times(sent, w)) + Times(after, Times(c, w)) <= Times(before, Times(c, w))
  {
    assert Times(c, Times(sent, w)) == Times(sent, Times(c, w)) by { Regroup(c, sent, w); }
    Distribute3(sent, after, Times(c, w));
    TimesMonotone(sent + after, before, Times(c, w));
  }

  lemma Regroup(a: nat, b: nat, w: nat)
    ensures Times(a, Times(b, w)) == Times(b, Times(a, w))
  {
    assert a * (b * w) == (a * b) * w == b * (a * w);
  }

  lemma Distribute3(a: nat, b: nat, p: nat)
    ensures Times(a + b, p) == Times(a, p) + Times(b, p)
  {}

  lemma PriceOfAnswering(c: nat, sent: nat, most: nat)
    requires sent <= most
    ensures Times(c, Times(sent, 1)) <= most * c
  {}

  /** Handling a message costs its weight: what is sent, c times over, and the ids still unknown
      weigh strictly less than the message and the ids unknown before. */
  lemma HandlingPays(c: nat, ids: set<PeerId>, info: PeerInfo, tree: Tree, m: KadMessage, answer: seq<PeerInfo>)
    requires TableIn(ids, info.key, tree) && info.id in ids && MessageIn(ids, m)
    requires AnswerFits(info, tree, m, answer)
    ensures var e := Handle(info, tree, m, answer);
            Times(c, Weights(c, e.sent)) + Times(Unknown(ids, e.tree), IdPrice(c))
            < Weight(c, m) + Times(Unknown(ids, Some(tree)), IdPrice(c))
  {
    var e := Handle(info, tree, m, answer);
    if m.Response? && m.rpc.Nodes? {
      MeetAllAsksOnce(ids, info, tree, m.rpc.peers);
      var w := 1 + (1 + DEFAULT_N_PEERS) * c;
      UniformWeights(c, e.sent, w);
      hide Handle, Weights, Unknown, TableIn;
      PriceOfAsking(c, w, |e.sent|, Unknown(ids, e.tree), Unknown(ids, Some(tree)));
    } else {
      HandlingLearns(ids, info, tree, m, answer);
      hide Handle, Unknown, TableIn, MessageIn;
      TimesMonotone(Unknown(ids, e.tree), Unknown(ids, Some(tree)), IdPrice(c));
      UniformWeights(c, e.sent, 1);
      PriceOfAnswering(c, |e.sent|, MostReplies(m));
    }
  }

  lemma HandlingStaysIn(ids: set<PeerId>, info: PeerInfo, tree: Tree, m: KadMessage, answer: seq<PeerInfo>)
    requires TableIn(ids, info.key, tree) && info.id in ids && MessageIn(ids, m)
    requires AnswerFits(info, tree, m, answer)
    ensures var e := Handle(info, tree, m, answer);
            && (e.tree.Some? ==> TableIn(ids, info.key, e.tree.value))
            && forall o :: o in e.sent ==> MessageIn(ids, o.msg)
  {
    if m.Response? && m.rpc.Nodes? {
      MeetAllAsksOnce(ids, info, tree, m.rpc.peers);
    } else {
      HandlingLearns(ids, info, tree, m, answer);
    }
  }

  // ---------- the network ----------

  /** A node; none in place of the table means that it panicked. */
  datatype Peer = Peer(info: PeerInfo, tree: Option<Tree>)

  datatype State = State(nodes: map<Packets.SocketAddr, Peer>, net: multiset<Out>)

  /** A message in flight arrives, whereupon each message sent in turn enters the network in some
      number of copies; or it is lost. */
  datatype Action =
    | Deliver(o: Out, answer: seq<PeerInfo>, copies: seq<nat>)
    | Lose(o: Out)

  ghost function Spread(sent: seq<Out>, copies: seq<nat>): multiset<Out>
    requires |sent| == |copies|
  {
    if sent == [] then multiset{} else multiset{}[sent[0] := copies[0]] + Spread(sent[1..], copies[1..])
  }

  ghost predicate Next(c: nat, s: State, a: Action, s': State) {
    && a.o in s.net
    && match a
       case Lose(o) => s' == s.(net := s.net - multiset{o})
       case Deliver(o, answer, copies) =>
         && o.dst in s.nodes && s.nodes[o.dst].tree.Some?
         && var n := s.nodes[o.dst];
            var e := Handle(n.info, n.tree.value, o.msg, answer);
            && AnswerFits(n.info, n.tree.value, o.msg, answer)
            && |copies| == |e.sent| && (forall i :: 0 <= i < |copies| ==> copies[i] <= c)
            && s' == State(s.nodes[o.dst := n.(tree := e.tree)], s.net - multiset{o} + Spread(e.sent, copies))
  }

  /** All ids in tables and in flight are among ids. */
  ghost predicate Closed(ids: set<PeerId>, s: State) {
    && (forall a :: a in s.nodes ==>
          && s.nodes[a].info.id in ids
          && (s.nodes[a].tree.Some? ==> TableIn(ids, s.nodes[a].info.key, s.nodes[a].tree.value)))
    && (forall o :: o in s.net ==> MessageIn(ids, o.msg))
  }

  /** A network of nodes that know only themselves is closed, whoever they ask first. */
  lemma FreshNetworkIsClosed(ids: set<PeerId>, s: State)
    requires forall a :: a in s.nodes ==> s.nodes[a].info.id in ids && s.nodes[a].tree == Some(New(s.nodes[a].info))
    requires forall o :: o in s.net ==> exists a :: a in s.nodes && o.msg == Bootstrap(s.nodes[a].info, o.dst).msg
    ensures Closed(ids, s)
  {
    hide TrieInv, KnownIds, New;
    forall a | a in s.nodes ensures TableIn(ids, s.nodes[a].info.key, s.nodes[a].tree.value) {
      NewInv(s.nodes[a].info);
    }
  }

  ghost function NodePrice(c: nat, ids: set<PeerId>): (Packets.SocketAddr, Peer) -> nat {
    (a: Packets.SocketAddr, n: Peer) => Times(Unknown(ids, n.tree), IdPrice(c))
  }

  ghost function OutPrice(c: nat): Out -> nat {
    (o: Out) => Weight(c, o.msg)
  }

  ghost function Potential(c: nat, ids: set<PeerId>, s: State): nat {
    Sums.OverMap(s.nodes, NodePrice(c, ids)) + Sums.OverBag(s.net, OutPrice(c))
  }

  lemma {:induction false} CopiesPrice(o: Out, n: nat, w: Out -> nat)
    ensures Sums.OverBag(multiset{}[o := n], w) == Times(n, w(o))
  {
    if n == 0 {
      assert multiset{}[o := 0] == multiset{};
    } else {
      Sums.BagSplit(multiset{}[o := n], w, o);
      assert multiset{}[o := n] - multiset{o} == multiset{}[o := n - 1];
      CopiesPrice(o, n - 1, w);
      assert Times(n, w(o)) == w(o) + Times(n - 1, w(o));
    }
  }

  lemma {:induction false} SpreadPrice(c: nat, sent: seq<Out>, copies: seq<nat>)
    requires |sent| == |copies| && forall i :: 0 <= i < |copies| ==> copies[i] <= c
    ensures Sums.OverBag(Spread(sent, copies), OutPrice(c)) <= Times(c, Weights(c, sent))
  {
    hide Weight, Sums.OverBag, Times;
    var w := OutPrice(c);
    if sent == [] {
      NothingSpread(c, w);
    } else {
      var first, rest := multiset{}[sent[0] := copies[0]], Spread(sent[1..], copies[1..]);
      assert Spread(sent, copies) == first + rest;
      assert Weights(c, sent) == Weight(c, sent[0].msg) + Weights(c, sent[1..]);
      SpreadPrice(c, sent[1..], copies[1..]);
      hide Spread, Weights;
      CopiesPrice(sent[0], copies[0], w);
      Sums.BagAdd(first, rest, w);
      PriceOfCopies(c, copies[0], Weight(c, sent[0].msg), Weights(c, sent[1..]));
    }
  }

  lemma NothingSpread(c: nat, w: Out -> nat)
    ensures Sums.OverBag(multiset{}, w) == 0 && Times(c, 0) == 0
  {}

  lemma PriceOfCopies(c: nat, n: nat, w: nat, rest: nat)
    requires n <= c
    ensures Times(n, w) + Times(c, rest) <= Times(c, w + rest)
  {
    TimesMonotone(n, c, w);
  }

  lemma {:induction false} SpreadIs(sent: seq<Out>, copies: seq<nat>, o: Out)
    requires |sent| == |copies| && o in Spread(sent, copies)
    ensures o in sent
  {
    if sent != [] && o != sent[0] {
      SpreadIs(sent[1..], copies[1..], o);
    }
  }

  lemma NextStaysClosed(c: nat, ids: set<PeerId>, s: State, a: Action, s': State)
    requires Closed(ids, s) && Next(c, s, a, s')
    ensures Closed(ids, s')
  {
    if a.Deliver? {
      var n := s.nodes[a.o.dst];
      HandlingStaysIn(ids, n.info, n.tree.value, a.o.msg, a.answer);
      var e := Handle(n.info, n.tree.value, a.o.msg, a.answer);
      hide Handle, TableIn, MessageIn, AnswerFits, Spread;
      forall o | o in s'.net ensures MessageIn(ids, o.msg) {
        if o in Spread(e.sent, a.copies) {
          SpreadIs(e.sent, a.copies, o);
        } else {
          assert o in s.net;
        }
      }
    }
  }

  /** Every step, whatever arrives where and whatever the answers, lowers the potential. */
  lemma NextPays(c: nat, ids: set<PeerId>, s: State, a: Action, s': State)
    requires Closed(ids, s) && Next(c, s, a, s')
    ensures Potential(c, ids, s') < Potential(c, ids, s)
  {
    var w := OutPrice(c);
    Sums.BagSplit(s.net, w, a.o);
    assert w(a.o) >= 1;
    if a.Deliver? {
      var n := s.nodes[a.o.dst];
      var e := Handle(n.info, n.tree.value, a.o.msg, a.answer);
      assert MessageIn(ids, a.o.msg) && TableIn(ids, n.info.key, n.tree.value) && n.info.id in ids;
      HandlingPays(c, ids, n.info, n.tree.value, a.o.msg, a.answer);
      hide Handle, TableIn, MessageIn, AnswerFits, Unknown, IdPrice, Weight, Weights, Closed, Times, Spread;
      SpreadPrice(c, e.sent, a.copies);
      Sums.BagAdd(s.net - multiset{a.o}, Spread(e.sent, a.copies), w);
      Sums.MapUpdate(s.nodes, NodePrice(c, ids), a.o.dst, n.(tree := e.tree));
    }
  }

  ghost predicate Run(c: nat, states: seq<State>, actions: seq<Action>) {
    && |states| == |actions| + 1
    && forall i :: 0 <= i < |actions| ==> Next(c, states[i], actions[i], states[i + 1])
  }

  /** Discovery comes to rest: no run has more steps than the potential of the state it starts from,
      however messages are reordered, lost, or delivered up to c times over. */
  lemma {:induction false} DiscoveryQuiesces(c: nat, ids: set<PeerId>, states: seq<State>, actions: seq<Action>)
    requires Run(c, states, actions) && Closed(ids, states[0])
    ensures |actions| + Potential(c, ids, states[|actions|]) <= Potential(c, ids, states[0])
    ensures Closed(ids, states[|actions|])
    decreases |actions|
  {
    hide Next, Closed, Potential;
    if actions != [] {
      var k := |actions| - 1;
      assert Run(c, states[..k + 1], actions[..k]);
      DiscoveryQuiesces(c, ids, states[..k + 1], actions[..k]);
      assert Next(c, states[k], actions[k], states[k + 1]);
      NextPays(c, ids, states[k], actions[k], states[k + 1]);
      NextStaysClosed(c, ids, states[k], actions[k], states[k + 1]);
    }
  }

  lemma {:induction false} NodesPriceBound(nodes: map<Packets.SocketAddr, Peer>,
                                           w: (Packets.SocketAddr, Peer) -> nat, bound: nat)
    requires forall a, n :: w(a, n) <= bound
    ensures Sums.OverMap(nodes, w) <= Times(|nodes|, bound)
    decreases |nodes|
  {
    hide Times;
    if nodes == map[] {
      Distribute3(0, 0, bound);
    } else {
      hide Sums.OverMap;
      var a :| a in nodes;
      var rest := nodes - {a};
      assert |rest| == |nodes| - 1;
      Sums.MapSplit(nodes, w, a);
      NodesPriceBound(rest, w, bound);
      OneMorePrice(|rest|, bound);
      assert w(a, nodes[a]) <= bound;
    }
  }

  lemma {:induction false} NetPriceBound(net: multiset<Out>, w: Out -> nat, bound: nat)
    requires forall o :: w(o) <= bound
    ensures Sums.OverBag(net, w) <= Times(|net|, bound)
    decreases |net|
  {
    hide Times;
    if net == multiset{} {
      Distribute3(0, 0, bound);
    } else {
      hide Sums.OverBag;
      var o :| o in net;
      var rest := net - multiset{o};
      Sums.BagSplit(net, w, o);
      NetPriceBound(rest, w, bound);
      OneMorePrice(|rest|, bound);
      assert |net| == |rest| + 1 && w(o) <= bound;
    }
  }

  lemma OneMorePrice(n: nat, bound: nat)
    ensures Times(n + 1, bound) == Times(n, bound) + bound
  {}

  lemma NodePriceBound(c: nat, ids: set<PeerId>, a: Packets.SocketAddr, n: Peer)
    ensures NodePrice(c, ids)(a, n) <= Times(|ids|, IdPrice(c))
  {
    UnknownBound(ids, n.tree);
    hide Unknown, IdPrice, Times;
    TimesMonotone(Unknown(ids, n.tree), |ids|, IdPrice(c));
  }

  lemma PotentialBound(c: nat, ids: set<PeerId>, s: State)
    ensures Potential(c, ids, s) <= Times(|s.nodes|, Times(|ids|, IdPrice(c)))
                                  + Times(|s.net|, 1 + (1 + DEFAULT_N_PEERS) * c)
  {
    var most: nat := Times(|ids|, IdPrice(c));
    hide Times, IdPrice, Unknown, NodePrice;
    forall a, n ensures NodePrice(c, ids)(a, n) <= most {
      NodePriceBound(c, ids, a, n);
    }
    NodesPriceBound(s.nodes, NodePrice(c, ids), most);
    NetPriceBound(s.net, OutPrice(c), 1 + (1 + DEFAULT_N_PEERS) * c);
  }

  /** A bound in the size of the network alone. */
  lemma RunLengthBound(c: nat, ids: set<PeerId>, states: seq<State>, actions: seq<Action>)
    requires Run(c, states, actions) && Closed(ids, states[0])
    ensures |actions| <= Times(|states[0].nodes|, Times(|ids|, IdPrice(c)))
                       + Times(|states[0].net|, 1 + (1 + DEFAULT_N_PEERS) * c)
  {
    hide Closed, Potential, Times, IdPrice, Next;
    DiscoveryQuiesces(c, ids, states, actions);
    PotentialBound(c, ids, states[0]);
  }

  lemma UnknownBound(ids: set<PeerId>, tree: Option<Tree>)
    ensures Unknown(ids, tree) <= |ids|
  {
    if tree.Some? {
      SubsetSize(ids - KnownIds(tree.value), ids);
    }
  }

  lemma SubsetSize(a: set<PeerId>, b: set<PeerId>)
    requires a <= b
    ensures |a| <= |b|
  {
    assert b == a + (b - a);
  }

  // ---------- bootstraps ----------

  ghost predicate IsBootstrap(info: PeerInfo, o: Out) {
    o.msg == KadMessage.Request(info, FindNode(info))
  }

  ghost function CountBootstraps(info: PeerInfo, sent: seq<Out>): nat {
    if sent == [] then 0 else (if IsBootstrap(info, sent[0]) then 1 else 0) + CountBootstraps(info, sent[1..])
  }

  /** The bootstraps that the node at an address sends in one step. */
  ghost function BootstrapsIn(s: State, a: Action, at: Packets.SocketAddr): nat {
    if a.Deliver? && a.o.dst == at && at in s.nodes && s.nodes[at].tree.Some? then
      CountBootstraps(s.nodes[at].info, Handle(s.nodes[at].info, s.nodes[at].tree.value, a.o.msg, a.answer).sent)
    else 0
  }

  ghost function BootstrapsOf(states: seq<State>, actions: seq<Action>, at: Packets.SocketAddr): nat
    requires |states| >= |actions|
  {
    if actions == [] then 0
    else
      var k := |actions| - 1;
      BootstrapsOf(states[..k], actions[..k], at) + BootstrapsIn(states[k], actions[k], at)
  }

  lemma {:induction false} FewBootstraps(info: PeerInfo, sent: seq<Out>)
    ensures CountBootstraps(info, sent) <= |sent|
    ensures (forall o :: o in sent ==> !IsBootstrap(info, o)) ==> CountBootstraps(info, sent) == 0
  {
    if sent != [] {
      FewBootstraps(info, sent[1..]);
      assert forall o :: o in sent[1..] ==> o in sent;
      assert sent[0] in sent;
    }
  }

  lemma StepBootstraps(c: nat, ids: set<PeerId>, s: State, a: Action, s': State, at: Packets.SocketAddr)
    requires Closed(ids, s) && Next(c, s, a, s') && at in s.nodes
    ensures at in s'.nodes
    ensures BootstrapsIn(s, a, at) + Unknown(ids, s'.nodes[at].tree) <= Unknown(ids, s.nodes[at].tree)
  {
    if a.Deliver? && a.o.dst == at {
      var n := s.nodes[at];
      var e := Handle(n.info, n.tree.value, a.o.msg, a.answer);
      FewBootstraps(n.info, e.sent);
      if a.o.msg.Response? && a.o.msg.rpc.Nodes? {
        MeetAllAsksOnce(ids, n.info, n.tree.value, a.o.msg.rpc.peers);
      } else {
        HandlingLearns(ids, n.info, n.tree.value, a.o.msg, a.answer);
      }
    }
  }

  /** Over a whole run a node bootstraps at most once for each id it did not know at the start. */
  lemma {:induction false} BootstrapsAreBounded(c: nat, ids: set<PeerId>, states: seq<State>, actions: seq<Action>,
                                                at: Packets.SocketAddr)
    requires Run(c, states, actions) && Closed(ids, states[0]) && at in states[0].nodes
    ensures at in states[|actions|].nodes
    ensures BootstrapsOf(states, actions, at) + Unknown(ids, states[|actions|].nodes[at].tree)
         <= Unknown(ids, states[0].nodes[at].tree)
    decreases |actions|
  {
    hide Next, Closed, Unknown, BootstrapsIn;
    if actions != [] {
      var k := |actions| - 1;
      assert Run(c, states[..k + 1], actions[..k]);
      BootstrapsAreBounded(c, ids, states[..k + 1], actions[..k], at);
      DiscoveryQuiesces(c, ids, states[..k + 1], actions[..k]);
      assert Next(c, states[k], actions[k], states[k + 1]);
      StepBootstraps(c, ids, states[k], actions[k], states[k + 1], at);
      BootstrapsPrefix(states, actions[..k], at, k);
    }
  }

  lemma {:induction false} BootstrapsPrefix(states: seq<State>, actions: seq<Action>, at: Packets.SocketAddr, k: nat)
    requires k == |actions| < |states|
    ensures BootstrapsOf(states[..k], actions, at) == BootstrapsOf(states[..k + 1], actions, at)
  {
    if k > 0 {
      assert states[..k][..k - 1] == states[..k + 1][..k - 1];
    }
  }

  // ---------- small networks ----------

  lemma {:induction false} DistinctSize(b: Bucket)
    requires DistinctIds(b)
    ensures |Ids(b)| == |b|
  {
    if b == [] {
      NoIds();
    } else {
      assert DistinctIds(b[1..]);
      DistinctSize(b[1..]);
      FirstIsNew(b);
    }
  }

  lemma FirstIsNew(b: Bucket)
    requires b != [] && DistinctIds(b)
    ensures Ids(b) == {b[0].id} + Ids(b[1..]) && b[0].id !in Ids(b[1..])
  {
    assert b == [b[0]] + b[1..];
    forall p | p in b[1..] ensures p.id != b[0].id {
      var j :| 0 <= j < |b[1..]| && b[1..][j] == p;
      assert b[j + 1] == p;
    }
  }

  /** With fewer ids than a bucket has places no bucket fills up, so every key has one character. */
  lemma NothingFills(ids: set<PeerId>, local: Key, tree: Tree, k: string)
    requires TableIn(ids, local, tree) && |ids| < MAX_BUCKET_LEN && k in tree
    ensures |k| == 1 && !Full(tree[k])
  {
    assert KeyOk(tree, local, k);
    NotFull(ids, local, tree, k);
    if |k| > 1 {
      assert k[..1] in tree && Full(tree[k[..1]]);
      NotFull(ids, local, tree, k[..1]);
    }
  }

  lemma NotFull(ids: set<PeerId>, local: Key, tree: Tree, k: string)
    requires TableIn(ids, local, tree) && |ids| < MAX_BUCKET_LEN && k in tree
    ensures !Full(tree[k])
  {
    assert KeyOk(tree, local, k);
    DistinctSize(tree[k]);
    forall id | id in Ids(tree[k]) ensures id in ids {
      var p :| p in tree[k] && p.id == id;
      assert p in Stored(tree);
      assert id in KnownIds(tree);
    }
    SubsetSize(Ids(tree[k]), ids);
  }

  lemma NoPanicWhenSmall(ids: set<PeerId>, local: Key, tree: Tree, p: PeerInfo)
    requires TableIn(ids, local, tree) && |ids| < MAX_BUCKET_LEN
    ensures Updated(tree, local, p, 0).Some? && !TooDeep(tree, Bin(local, p))
  {
    var bin := Bin(local, p);
    BinaryLength(Distance(local, p.key));
    hide TableIn, Binary;
    FirstOpenIs(tree, bin, 0);
    if bin[..1] in tree {
      NothingFills(ids, local, tree, bin[..1]);
    }
    assert Open(tree, bin, 0);
    forall k | k in tree ensures |k| <= |bin| {
      NothingFills(ids, local, tree, k);
    }
  }

  lemma {:induction false} MeetAllSurvives(ids: set<PeerId>, info: PeerInfo, tree: Tree, peers: seq<PeerInfo>)
    requires TableIn(ids, info.key, tree) && info.id in ids && IdsOf(peers) <= ids && |ids| < MAX_BUCKET_LEN
    ensures MeetAll(info, tree, peers).tree.Some?
    decreases |peers|
  {
    hide TableIn, Updated, IsNew, TooDeep;
    if peers != [] {
      assert peers[0].id in IdsOf(peers);
      assert IdsOf(peers[1..]) <= IdsOf(peers);
      NoPanicWhenSmall(ids, info.key, tree, peers[0]);
      AddPeerKnows(ids, info.key, tree, peers[0]);
      NoPanicWhenSmall(ids, info.key, Updated(tree, info.key, peers[0], 0).value, info);
      MeetAsksOnce(ids, info, tree, peers[0]);
      MeetAllSurvives(ids, info, Meet(info, tree, peers[0]).tree.value, peers[1..]);
    }
  }

  /** In a network of fewer than thirty ids no message makes a node panic. */
  lemma SmallNetworksSurvive(ids: set<PeerId>, info: PeerInfo, tree: Tree, m: KadMessage, answer: seq<PeerInfo>)
    requires TableIn(ids, info.key, tree) && info.id in ids && MessageIn(ids, m)
    requires |ids| < MAX_BUCKET_LEN
    ensures Handle(info, tree, m, answer).tree.Some?
  {
    hide TableIn, Updated, IsNew, TooDeep;
    if m.Response? && m.rpc.Nodes? {
      MeetAllSurvives(ids, info, tree, m.rpc.peers);
    } else if m.Response? && m.rpc.Pong? {
      NoPanicWhenSmall(ids, info.key, tree, m.rpc.peer);
    } else if m.Request? {
      RequestSurvives(ids, info, tree, m);
    }
  }

  lemma RequestSurvives(ids: set<PeerId>, info: PeerInfo, tree: Tree, m: KadMessage)
    requires TableIn(ids, info.key, tree) && m.Request? && m.sender.id in ids && |ids| < MAX_BUCKET_LEN
    ensures Updated(tree, info.key, m.sender, 0).Some?
    ensures m.rpc.FindNode? || m.rpc.NewPeer? ==>
              var t := Updated(tree, info.key, m.sender, 0).value;
              Updated(t, info.key, m.rpc.peer, 0).Some? && !TooDeep(t, Bin(info.key, m.rpc.peer))
  {
    hide *;
    NoPanicWhenSmall(ids, info.key, tree, m.sender);
    AddPeerKnows(ids, info.key, tree, m.sender);
    if m.rpc.FindNode? || m.rpc.NewPeer? {
      NoPanicWhenSmall(ids, info.key, Updated(tree, info.key, m.sender, 0).value, m.rpc.peer);
    }
  }
}
