/** What discovery answers, message by message and in full, and what two nodes learn from one
    question. */
module Replies {
  import opened Bytes
  import opened Keys
  import Packets
  import opened Trie
  import opened Closest
  import opened Discovery

  /** A node that survives a FindNode for a peer sends that peer one Nodes, with an answer of the table
      that the sender has been added to, and tells each peer of the answer about it; nothing else. */
  lemma FindNodeIsAnswered(info: PeerInfo, tree: Tree, sender: PeerInfo, p: PeerInfo, answer: seq<PeerInfo>)
    requires AnswerFits(info, tree, KadMessage.Request(sender, FindNode(p)), answer)
    requires Handle(info, tree, KadMessage.Request(sender, FindNode(p)), answer).tree.Some?
    ensures var e := Handle(info, tree, KadMessage.Request(sender, FindNode(p)), answer);
            && Updated(tree, info.key, sender, 0).Some?
            && var t := Updated(tree, info.key, sender, 0).value;
            && Answer(t, info.key, p.key, 8, answer)
            && e.tree == Updated(t, info.key, p, 0)
            && |e.sent| == 1 + |answer|
            && e.sent[0] == Out(p.address, Response(Nodes(answer)))
            && forall i :: 0 <= i < |answer| ==>
                 e.sent[1 + i] == Out(answer[i].address, KadMessage.Request(info, NewPeer(p)))
  {
    hide Updated, Answer, QueryPanics;
  }

  /** What a FindNode for p adds to a queue: one Nodes with the answer for p, then word of p for each peer of
      the answer. */
  predicate Replied(before: seq<Out>, after: seq<Out>, info: PeerInfo, p: PeerInfo, answer: seq<PeerInfo>) {
    && |after| == |before| + 1 + |answer| && after[..|before|] == before
    && after[|before|] == Out(p.address, Response(Nodes(answer)))
    && forall i :: 0 <= i < |answer| ==>
         after[|before| + 1 + i] == Out(answer[i].address, KadMessage.Request(info, NewPeer(p)))
  }

  lemma LookupIs(queue: seq<Out>, info: PeerInfo, tree: Tree, p: PeerInfo, answer: seq<PeerInfo>)
    ensures QueryPanics(info, tree, p) || Updated(tree, info.key, p, 0).None? ==>
              Lookup(info, tree, p, answer) == Effect(None, [])
    ensures !QueryPanics(info, tree, p) && Updated(tree, info.key, p, 0).Some? ==>
              && Lookup(info, tree, p, answer).tree == Updated(tree, info.key, p, 0)
              && queue + Lookup(info, tree, p, answer).sent
                 == queue + [Out(p.address, Response(Nodes(answer)))] + NewPeerTo(info, p, answer)
              && Replied(queue, queue + Lookup(info, tree, p, answer).sent, info, p, answer)
  {
    hide Updated, QueryPanics;
  }

  /** The other requests: a Ping gets one Pong, sent to whoever it names as its sender; the rest get
      nothing. All of them enter the sender, and a NewPeer the new peer as well. */
  lemma OtherRequestsAreAnswered(info: PeerInfo, tree: Tree, sender: PeerInfo, rpc: Rpc, answer: seq<PeerInfo>)
    requires !rpc.FindNode?
    ensures var e := Handle(info, tree, KadMessage.Request(sender, rpc), answer);
            match Updated(tree, info.key, sender, 0)
            case None => e.tree == None && e.sent == []
            case Some(t) =>
              && e.tree == (if rpc.NewPeer? then Updated(t, info.key, rpc.peer, 0) else Some(t))
              && e.sent == if rpc.Ping? then [Out(sender.address, Response(Pong(info)))] else []
  {
    hide Updated;
  }

  /** Of responses, only a Nodes causes anything to be sent, and only it and a Pong enter peers. */
  lemma OtherResponsesAreSilent(info: PeerInfo, tree: Tree, rpc: Rpc, answer: seq<PeerInfo>)
    requires !rpc.Nodes?
    ensures var e := Handle(info, tree, Response(rpc), answer);
            && e.sent == []
            && e.tree == if rpc.Pong? then Updated(tree, info.key, rpc.peer, 0) else Some(tree)
  {
    hide Updated;
  }

  // ---------- a Nodes response ----------

  /** The peers of a list whose ids are new, each id at its first place. */
  function Newcomers(known: set<PeerId>, peers: seq<PeerInfo>): seq<PeerInfo>
    decreases |peers|
  {
    if peers == [] then []
    else if peers[0].id in known then Newcomers(known, peers[1..])
    else [peers[0]] + Newcomers(known + {peers[0].id}, peers[1..])
  }

  predicate FirstOfItsId(known: set<PeerId>, peers: seq<PeerInfo>, i: nat)
    requires i < |peers|
  {
    peers[i].id !in known && forall j :: 0 <= j < i ==> peers[j].id != peers[i].id
  }

  lemma {:induction false} NewcomersAre(known: set<PeerId>, peers: seq<PeerInfo>, p: PeerInfo)
    ensures p in Newcomers(known, peers) <==>
              exists i: nat :: i < |peers| && peers[i] == p && FirstOfItsId(known, peers, i)
    ensures DistinctIds(Newcomers(known, peers)) && forall q :: q in Newcomers(known, peers) ==> q.id !in known
    decreases |peers|
  {
    if peers != [] {
      var rest, more := peers[1..], known + {peers[0].id};
      NewcomersAre(more, rest, p);
      if peers[0].id in known {
        assert more == known;
      } else {
        Prepended(peers[0], Newcomers(more, rest));
      }
      hide DistinctIds;
      forall i: nat | 1 <= i < |peers|
        ensures FirstOfItsId(known, peers, i) <==> FirstOfItsId(more, rest, i - 1)
      {
        ShiftedPlace(known, peers, i);
      }
      if i: nat :| i < |peers| && peers[i] == p && FirstOfItsId(known, peers, i) && i > 0 {
        assert rest[i - 1] == p;
      }
      if i: nat :| i < |rest| && rest[i] == p && FirstOfItsId(more, rest, i) {
        assert peers[i + 1] == p && FirstOfItsId(known, peers, i + 1);
      }
    }
  }

  lemma ShiftedPlace(known: set<PeerId>, peers: seq<PeerInfo>, i: nat)
    requires 1 <= i < |peers|
    ensures FirstOfItsId(known, peers, i) <==> FirstOfItsId(known + {peers[0].id}, peers[1..], i - 1)
  {
    assert forall j :: 1 <= j < i ==> peers[1..][j - 1] == peers[j];
    if FirstOfItsId(known + {peers[0].id}, peers[1..], i - 1) {
      forall j | 0 <= j < i ensures peers[j].id != peers[i].id {
        if j > 0 { assert peers[1..][j - 1] == peers[j]; }
      }
    }
  }

  /** A node that survives a Nodes response asks each newcomer of the list, in its order and at its
      address, for its own neighbours, and sends nothing else. */
  lemma {:induction false} NewcomersAreAsked(info: PeerInfo, tree: Tree, peers: seq<PeerInfo>, answer: seq<PeerInfo>)
    requires TrieInv(tree, info.key) && info.id in KnownIds(tree)
    requires Handle(info, tree, Response(Nodes(peers)), answer).tree.Some?
    ensures var asked := Newcomers(KnownIds(tree), peers);
            var sent := Handle(info, tree, Response(Nodes(peers)), answer).sent;
            && |sent| == |asked|
            && forall i :: 0 <= i < |asked| ==>
                 sent[i] == Out(asked[i].address, KadMessage.Request(info, FindNode(info)))
    decreases |peers|
  {
    hide TrieInv, KnownIds, Updated, IsNew;
    if peers != [] {
      var t := Updated(tree, info.key, peers[0], 0).value;
      AddPeerLearns(info.key, tree, peers[0]);
      IsNewIs(tree, peers[0]);
      if IsNew(tree, peers[0]) {
        AddPeerLearns(info.key, t, info);
        assert KnownIds(t) + {info.id} == KnownIds(t);
      } else {
        assert KnownIds(tree) + {peers[0].id} == KnownIds(tree);
      }
      NewcomersAreAsked(info, Meet(info, tree, peers[0]).tree.value, peers[1..], answer);
    }
  }

  /** What a Nodes response enters, in order: each peer of the list, and after a newcomer the node itself
      once more, as bootstrap does. */
  function Entered(info: PeerInfo, known: set<PeerId>, peers: seq<PeerInfo>): seq<PeerInfo>
    decreases |peers|
  {
    if peers == [] then []
    else (if peers[0].id in known then [peers[0]] else [peers[0], info])
         + Entered(info, known + {peers[0].id}, peers[1..])
  }

  /** The table after a Nodes response is the one after these insertions, and the node panics exactly if one
      of them does. */
  lemma {:induction false} NodesAreEntered(info: PeerInfo, tree: Tree, peers: seq<PeerInfo>, answer: seq<PeerInfo>)
    requires TrieInv(tree, info.key) && info.id in KnownIds(tree)
    ensures Handle(info, tree, Response(Nodes(peers)), answer).tree
         == Trie.Run(tree, info.key, Entered(info, KnownIds(tree), peers))
    decreases |peers|
  {
    hide TrieInv, KnownIds, Updated, IsNew;
    if peers != [] {
      var p, rest := peers[0], Entered(info, KnownIds(tree) + {peers[0].id}, peers[1..]);
      var first := Updated(tree, info.key, p, 0);
      IsNewIs(tree, p);
      RunNext(tree, info.key, p, if IsNew(tree, p) then [info] + rest else rest);
      if first.Some? {
        AddPeerLearns(info.key, tree, p);
        if IsNew(tree, p) {
          RunNext(first.value, info.key, info, rest);
          assert [p, info] + rest == [p] + ([info] + rest);
          if Updated(first.value, info.key, info, 0).Some? {
            AddPeerLearns(info.key, first.value, info);
            assert KnownIds(first.value) + {info.id} == KnownIds(first.value);
            NodesAreEntered(info, Updated(first.value, info.key, info, 0).value, peers[1..], answer);
          }
        } else {
          NodesAreEntered(info, first.value, peers[1..], answer);
        }
      }
    }
  }

  lemma RunNext(tree: Tree, local: Key, p: PeerInfo, rest: seq<PeerInfo>)
    ensures Trie.Run(tree, local, [p] + rest)
         == match Updated(tree, local, p, 0) case None => None case Some(t) => Trie.Run(t, local, rest)
  {
    assert ([p] + rest)[1..] == rest;
    hide Updated;
  }

  // ---------- progress ----------

  lemma SmallAnswerNamesAll(tree: Tree, local: Key, target: Key, answer: seq<PeerInfo>)
    requires Answer(tree, local, target, 8, answer) && |All(tree)| <= 8
    ensures IdsOf(answer) == KnownIds(tree)
  {
    assert multiset(answer) == All(tree);
    hide All, Answer, Stored;
    forall p: PeerInfo ensures p in answer <==> p in Stored(tree) {
      AllIsStored(tree, p);
      assert p in multiset(answer) <==> p in answer;
    }
  }

  lemma {:induction false} SpreadHas(sent: seq<Out>, copies: seq<nat>, i: nat)
    requires |sent| == |copies| && i < |sent| && copies[i] > 0
    ensures sent[i] in Spread(sent, copies)
  {
    if i > 0 {
      SpreadHas(sent[1..], copies[1..], i - 1);
    }
  }

  function Question(p: PeerInfo, b: Packets.SocketAddr): Out {
    Out(b, KadMessage.Request(p, FindNode(p)))
  }

  /** A node that can be asked, or be told: its table is a reached one, with the node itself in it. */
  ghost predicate Ready(s: State, a: Packets.SocketAddr) {
    && a in s.nodes && s.nodes[a].tree.Some?
    && TrieInv(s.nodes[a].tree.value, s.nodes[a].info.key)
    && s.nodes[a].info.id in KnownIds(s.nodes[a].tree.value)
  }

  /** A question and its answer, in any network: the node asked knows the asker, and the asker knows
      everybody in the answer; and if the node asked knows few peers, everybody that it knows. */
  lemma OneQuestionTeaches(c: nat, s: State, m: State, t: State, a: Packets.SocketAddr, b: Packets.SocketAddr,
                           p: PeerInfo, answer: seq<PeerInfo>, copies: seq<nat>, copies': seq<nat>)
    requires a != b && p.address == a && Ready(s, a) && Ready(s, b)
    requires Next(c, s, Deliver(Question(p, b), answer, copies), m) && m.nodes[b].tree.Some?
    requires Next(c, m, Deliver(Out(a, Response(Nodes(answer))), [], copies'), t) && t.nodes[a].tree.Some?
    ensures t.nodes.Keys == s.nodes.Keys && t.nodes[b].tree.Some?
    ensures KnownIds(t.nodes[b].tree.value) == KnownIds(s.nodes[b].tree.value) + {p.id}
    ensures KnownIds(t.nodes[a].tree.value) == KnownIds(s.nodes[a].tree.value) + IdsOf(answer)
    ensures Updated(s.nodes[b].tree.value, s.nodes[b].info.key, p, 0).Some?
    ensures |All(Updated(s.nodes[b].tree.value, s.nodes[b].info.key, p, 0).value)| <= 8 ==>
              KnownIds(t.nodes[a].tree.value)
              == KnownIds(s.nodes[a].tree.value) + KnownIds(s.nodes[b].tree.value) + {p.id}
  {
    var asked, asker := s.nodes[b], s.nodes[a];
    hide *;
    ReadyIs(s, a);
    ReadyIs(s, b);
    QuestionIs(p, b);
    DeliveredAt(c, s, m, Question(p, b), answer, copies);
    DeliveredAt(c, m, t, Out(a, Response(Nodes(answer))), [], copies');
    TwoNodesChange(s, m, t, a, b);
    AskedLearns(asked.info, asked.tree.value, p, answer);
    ToldLearns(asker.info, asker.tree.value, answer);
  }

  lemma TwoNodesChange(s: State, m: State, t: State, a: Packets.SocketAddr, b: Packets.SocketAddr)
    requires a != b && a in s.nodes && b in s.nodes && b in m.nodes && m.nodes == s.nodes[b := m.nodes[b]]
    requires a in t.nodes && t.nodes == m.nodes[a := t.nodes[a]]
    ensures m.nodes[a] == s.nodes[a] && b in t.nodes && t.nodes[b] == m.nodes[b] && t.nodes.Keys == s.nodes.Keys
  {}

  lemma ToldLearns(info: PeerInfo, tree: Tree, answer: seq<PeerInfo>)
    requires TrieInv(tree, info.key) && info.id in KnownIds(tree)
    requires Handle(info, tree, Response(Nodes(answer)), []).tree.Some?
    ensures KnownIds(Handle(info, tree, Response(Nodes(answer)), []).tree.value) == KnownIds(tree) + IdsOf(answer)
  {
    hide *;
    LearnsWhatItIsTold(info, tree, Response(Nodes(answer)), []);
    NodesTell(answer);
  }

  lemma ReadyIs(s: State, a: Packets.SocketAddr)
    requires Ready(s, a)
    ensures a in s.nodes && s.nodes[a].tree.Some?
    ensures TrieInv(s.nodes[a].tree.value, s.nodes[a].info.key)
    ensures s.nodes[a].info.id in KnownIds(s.nodes[a].tree.value)
  {}

  lemma QuestionIs(p: PeerInfo, b: Packets.SocketAddr)
    ensures Question(p, b).dst == b && Question(p, b).msg == KadMessage.Request(p, FindNode(p))
  {}

  lemma QuestionTells(p: PeerInfo)
    ensures Told(KadMessage.Request(p, FindNode(p))) == {p.id}
  {}

  lemma NodesTell(answer: seq<PeerInfo>)
    ensures Told(Response(Nodes(answer))) == IdsOf(answer)
  {}

  /** A delivery by its effect on the nodes. */
  lemma DeliveredAt(c: nat, s: State, t: State, o: Out, answer: seq<PeerInfo>, copies: seq<nat>)
    requires Next(c, s, Deliver(o, answer, copies), t)
    ensures o.dst in s.nodes && s.nodes[o.dst].tree.Some?
    ensures AnswerFits(s.nodes[o.dst].info, s.nodes[o.dst].tree.value, o.msg, answer)
    ensures var n := s.nodes[o.dst];
            t.nodes == s.nodes[o.dst := n.(tree := Handle(n.info, n.tree.value, o.msg, answer).tree)]
  {
    hide Handle, AnswerFits, Spread;
  }

  lemma AskedLearns(info: PeerInfo, tree: Tree, p: PeerInfo, answer: seq<PeerInfo>)
    requires TrieInv(tree, info.key) && info.id in KnownIds(tree)
    requires AnswerFits(info, tree, KadMessage.Request(p, FindNode(p)), answer)
    requires Handle(info, tree, KadMessage.Request(p, FindNode(p)), answer).tree.Some?
    ensures var e := Handle(info, tree, KadMessage.Request(p, FindNode(p)), answer);
            KnownIds(e.tree.value) == KnownIds(tree) + {p.id}
    ensures Updated(tree, info.key, p, 0).Some?
    ensures |All(Updated(tree, info.key, p, 0).value)| <= 8 ==>
              IdsOf(answer) == KnownIds(tree) + {p.id}
  {
    hide *;
    FindNodeIsAnswered(info, tree, p, p, answer);
    LearnsWhatItIsTold(info, tree, KadMessage.Request(p, FindNode(p)), answer);
    QuestionTells(p);
    AddPeerLearns(info.key, tree, p);
    var t := Updated(tree, info.key, p, 0).value;
    if |All(t)| <= 8 {
      SmallAnswerNamesAll(t, info.key, p.key, answer);
    }
  }

  // ---------- two fresh nodes ----------

  /** Node a, with information p, has asked b, with information q, for its neighbours, as bootstrap
      does; each of them knows nobody but itself. */
  ghost predicate JustAsked(s: State, a: Packets.SocketAddr, b: Packets.SocketAddr, p: PeerInfo, q: PeerInfo) {
    && a != b && p.address == a && a in s.nodes && b in s.nodes
    && Updated(New(p), p.key, p, 0).Some?
    && s.nodes[a] == Peer(p, Updated(New(p), p.key, p, 0)) && s.nodes[b] == Peer(q, Some(New(q)))
    && Question(p, b) in s.net
  }

  lemma FreshIsReady(s: State, a: Packets.SocketAddr, b: Packets.SocketAddr, p: PeerInfo, q: PeerInfo)
    requires JustAsked(s, a, b, p, q)
    ensures Ready(s, a) && Ready(s, b) && KnownIds(s.nodes[b].tree.value) == {q.id}
    ensures KnownIds(s.nodes[a].tree.value) == {p.id}
  {
    hide New, TrieInv, Updated, KnownIds;
    NewInv(p);
    NewInv(q);
    AddPeerLearns(p.key, New(p), p);
  }

  /** A fresh node has a single entry, and two once it has been asked. */
  lemma FewEntries(p: PeerInfo, q: PeerInfo)
    requires Updated(New(q), q.key, p, 0).Some?
    ensures |All(Updated(New(q), q.key, p, 0).value)| <= 2
  {
    NewInv(q);
    OneEntry(q);
    hide New, All, Updated, FirstOpen, Ids, BucketAt, TrieInv, Copies;
    UpdateAddsOneEntry(New(q), q.key, p);
  }

  lemma OneEntry(q: PeerInfo)
    ensures |All(New(q))| == 1
  {
    var k := Binary(Distance(q.key, q.key))[..1];
    AllSplit(New(q), k);
    assert New(q) - {k} == map[];
    NoEntries(New(q) - {k});
  }

  /** Once its question and the reply have been delivered, whatever else is in flight, each of two fresh
      nodes knows the other. */
  lemma TwoFreshNodesMeet(c: nat, s: State, m: State, t: State, a: Packets.SocketAddr, b: Packets.SocketAddr,
                          p: PeerInfo, q: PeerInfo, answer: seq<PeerInfo>, copies: seq<nat>, copies': seq<nat>)
    requires JustAsked(s, a, b, p, q)
    requires Next(c, s, Deliver(Question(p, b), answer, copies), m) && m.nodes[b].tree.Some?
    requires Next(c, m, Deliver(Out(a, Response(Nodes(answer))), [], copies'), t) && t.nodes[a].tree.Some?
    ensures t.nodes.Keys == s.nodes.Keys && t.nodes[b].tree.Some?
    ensures KnownIds(t.nodes[a].tree.value) == {p.id, q.id} == KnownIds(t.nodes[b].tree.value)
  {
    hide *;
    FreshIsReady(s, a, b, p, q);
    AskedIs(s, a, b, p, q);
    OneQuestionTeaches(c, s, m, t, a, b, p, answer, copies, copies');
    FewEntries(p, q);
  }

  lemma AskedIs(s: State, a: Packets.SocketAddr, b: Packets.SocketAddr, p: PeerInfo, q: PeerInfo)
    requires JustAsked(s, a, b, p, q)
    ensures a != b && p.address == a && a in s.nodes && b in s.nodes && Question(p, b) in s.net
    ensures s.nodes[a].info == p && s.nodes[b].info == q && s.nodes[b].tree == Some(New(q))
  {}

  /** Such deliveries there are: neither node panics, and the reply is in flight. */
  lemma TwoFreshNodesCanMeet(c: nat, s: State, a: Packets.SocketAddr, b: Packets.SocketAddr, p: PeerInfo, q: PeerInfo)
      returns (m: State, t: State, answer: seq<PeerInfo>, copies: seq<nat>, copies': seq<nat>)
    requires JustAsked(s, a, b, p, q) && c >= 1
    ensures Next(c, s, Deliver(Question(p, b), answer, copies), m) && m.nodes[b].tree.Some?
    ensures Next(c, m, Deliver(Out(a, Response(Nodes(answer))), [], copies'), t) && t.nodes[a].tree.Some?
  {
    hide *;
    FreshIsReady(s, a, b, p, q);
    AskedIs(s, a, b, p, q);
    ReadyIs(s, a);
    ReadyIs(s, b);
    QuestionIs(p, b);
    answer := AnswerToFresh(p, q);
    m, copies := Deliverable(c, s, Question(p, b), answer);
    FindNodeIsAnswered(q, New(q), p, p, answer);
    FewEntries(p, q);
    AskedLearns(q, New(q), p, answer);
    ReplySurvives(p, q, s.nodes[a].tree.value, answer);
    t, copies' := Deliverable(c, m, Out(a, Response(Nodes(answer))), []);
  }

  lemma AnswerToFresh(p: PeerInfo, q: PeerInfo) returns (answer: seq<PeerInfo>)
    ensures AnswerFits(q, New(q), KadMessage.Request(p, FindNode(p)), answer)
    ensures Handle(q, New(q), KadMessage.Request(p, FindNode(p)), answer).tree.Some?
    ensures TrieInv(New(q), q.key) && KnownIds(New(q)) == {q.id}
  {
    var ids, m := {p.id, q.id}, KadMessage.Request(p, FindNode(p));
    NewInv(q);
    assert TableIn(ids, q.key, New(q)) && MessageIn(ids, m);
    hide New, TrieInv, TableIn, KnownIds, Updated, Handle, Answer, QueryPanics;
    RequestSurvives(ids, q, New(q), m);
    answer := AnswerExists(Updated(New(q), q.key, p, 0).value, q.key, p.key, DEFAULT_N_PEERS);
    SmallNetworksSurvive(ids, q, New(q), m, answer);
  }

  lemma ReplySurvives(p: PeerInfo, q: PeerInfo, tree: Tree, answer: seq<PeerInfo>)
    requires TrieInv(tree, p.key) && KnownIds(tree) == {p.id} && IdsOf(answer) == {q.id} + {p.id}
    ensures Handle(p, tree, Response(Nodes(answer)), []).tree.Some?
    ensures AnswerFits(p, tree, Response(Nodes(answer)), [])
  {
    var ids := {p.id, q.id};
    assert TableIn(ids, p.key, tree) && MessageIn(ids, Response(Nodes(answer)));
    hide TrieInv, TableIn, KnownIds, IdsOf, Handle, Answer;
    SmallNetworksSurvive(ids, p, tree, Response(Nodes(answer)), []);
  }

  /** Any message in flight to a node that has not panicked can be delivered, with one copy of
      everything that is sent in turn. */
  lemma Deliverable(c: nat, s: State, o: Out, answer: seq<PeerInfo>) returns (t: State, copies: seq<nat>)
    requires c >= 1 && o in s.net && o.dst in s.nodes && s.nodes[o.dst].tree.Some?
    requires AnswerFits(s.nodes[o.dst].info, s.nodes[o.dst].tree.value, o.msg, answer)
    ensures Next(c, s, Deliver(o, answer, copies), t)
    ensures var e := Handle(s.nodes[o.dst].info, s.nodes[o.dst].tree.value, o.msg, answer);
            && t.nodes == s.nodes[o.dst := s.nodes[o.dst].(tree := e.tree)]
            && forall x :: x in e.sent ==> x in t.net
  {
    var n := s.nodes[o.dst];
    var e := Handle(n.info, n.tree.value, o.msg, answer);
    hide Handle, AnswerFits;
    copies := seq(|e.sent|, i => 1);
    t := State(s.nodes[o.dst := n.(tree := e.tree)], s.net - multiset{o} + Spread(e.sent, copies));
    hide Spread;
    forall x | x in e.sent ensures x in t.net {
      var i: nat :| i < |e.sent| && e.sent[i] == x;
      SpreadHas(e.sent, copies, i);
    }
  }
}
