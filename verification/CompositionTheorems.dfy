/** Runs of discovery over the transport: the work of discovery is bounded, and all traffic ends. */
module CompositionTheorems {
  import opened Bytes
  import opened Packets
  import opened Reassembly
  import opened Handler
  import opened Network
  import opened NetworkInvariant
  import opened NetworkDeliveries
  import opened Composition
  import NetworkTermination
  import NetworkTheorems
  import Discovery
  import Trie

  // ---------- runs ----------

  /** Reached without a datagram repeated by the medium. */
  ghost predicate Reached(c: Config, s: Sys) {
    exists t :: Leads(c, t, s)
  }

  predicate Leads(c: Config, t: Trace, s: Sys) {
    Exec(c, t) == Some(s) && NoDuplicates(t)
  }

  /** No message but an acknowledgement takes more than p packets. */
  ghost predicate Small(s: Sys, p: nat) {
    forall id :: id in s.letters && s.letters[id].message.head != Ack ==> s.letters[id].origin.Count() <= p
  }

  /** How often one message is handled at most. */
  function Most(p: nat): nat {
    9 * p + 1
  }

  lemma ReachedIs(c: Config, s: Sys, p: nat)
    requires c.codec.RoundTrips() && Reached(c, s) && Small(s, p)
    ensures Inv(c, s) && Capped(c, Most(p), s)
  {
    var t :| Leads(c, t, s);
    ReachableInv(c, t);
    hide Exec, NoDuplicates, TimesHandled, History.Seen, Origin.Count, Numbers, Inv;
    forall id | id in s.letters ensures HandledAt(c, s.nodes, id, s.letters[id]) <= Most(p) {
      var x := c.owner(s.letters[id].from, s.letters[id].to);
      if x in s.nodes {
        assert s.nodes.Keys == c.nodes by { NetworkTheorems.NodesStay(c, s); }
        DeliveriesAreBounded(c, t, x, id);
      }
    }
  }

  lemma NetReached(c: Config, s: Sys, act: Action)
    requires Reached(c, s) && Enabled(c, s, act) && !act.Duplicate?
    ensures Reached(c, Next(c, s, act))
  {
    var t :| Leads(c, t, s);
    hide Next, Enabled;
    assert Leads(c, Do(t, act), Next(c, s, act));
  }

  lemma {:induction false} SubmitsReached(c: Config, s: Sys, a: SocketAddr, sent: seq<Discovery.Out>,
                                          wires: seq<Message>)
    requires Reached(c, s) && a in s.nodes && |sent| == |wires|
    requires forall i :: 0 <= i < |wires| ==> wires[i].head != Ack
    ensures Reached(c, s.(nodes := s.nodes[a := s.nodes[a].(om := Submitted(s.nodes[a].om, sent, wires))]))
  {
    hide Reached;
    if sent == [] {
      assert s.nodes[a := s.nodes[a].(om := s.nodes[a].om)] == s.nodes;
    } else {
      var n := |sent| - 1;
      SubmitsReached(c, s, a, sent[..n], wires[..n]);
      var om := Submitted(s.nodes[a].om, sent[..n], wires[..n]);
      var mid := s.(nodes := s.nodes[a := s.nodes[a].(om := om)]);
      OneSubmit(c, s, mid, a, om, sent[n].dst, wires[n]);
      hide Next, Enabled;
      NetReached(c, mid, Submit(a, sent[n].dst, wires[n]));
    }
  }

  lemma OneSubmit(c: Config, s: Sys, mid: Sys, a: SocketAddr, om: seq<(SocketAddr, Message)>, dst: SocketAddr,
                  m: Message)
    requires a in s.nodes && mid == s.(nodes := s.nodes[a := s.nodes[a].(om := om)]) && m.head != Ack
    ensures Enabled(c, mid, Submit(a, dst, m))
    ensures Next(c, mid, Submit(a, dst, m)) == s.(nodes := s.nodes[a := s.nodes[a].(om := om + [(dst, m)])])
  {}

  lemma ReadIsNoAck(c: Config, read: Reading, m: Message)
    requires KadOf(c, read, m).Some?
    ensures m.head != Ack
  {}

  lemma StepReached(c: Config, read: Reading, s: Joint, st: Step, t: Joint)
    requires Reached(c, s.sys) && JointStep(c, read, s, st, t)
    ensures Reached(c, t.sys)
  {
    hide Reached, Next, Enabled, KadOf, Discovery.Handle, Discovery.AnswerFits;
    match st
    case Net(act) => NetReached(c, s.sys, act);
    case Work(a, answer, wires) =>
      var e := EffectAt(s, a, answer);
      forall i | 0 <= i < |wires| ensures wires[i].head != Ack { ReadIsNoAck(c, read, wires[i]); }
      hide Submitted;
      SubmitsReached(c, s.sys, a, e.sent, wires);
  }

  // ---------- finite and infinite runs ----------

  /** Where a run may start: at a reached state of the transport, with ids, queues and tables within
      the given ids. */
  ghost predicate Started(c: Config, read: Reading, ids: set<Trie.PeerId>, s: Joint) {
    c.codec.RoundTrips() && Shaped(c, s) && Reached(c, s.sys) && Closed(c, read, ids, s)
  }

  lemma StepOn(c: Config, read: Reading, p: nat, ids: set<Trie.PeerId>, s: Joint, st: Step, t: Joint)
    requires Started(c, read, ids, s) && JointStep(c, read, s, st, t) && Small(s.sys, p) && Small(t.sys, p)
    ensures Started(c, read, ids, t)
    ensures Potential(c, read, Most(p), ids, t) + (if st.Work? then 1 else 0) <= Potential(c, read, Most(p), ids, s)
  {
    hide Shaped, Reached, Closed, JointStep, Small, Potential, Inv, Capped;
    ReachedIs(c, s.sys, p);
    StepReached(c, read, s, st, t);
    ReachedIs(c, t.sys, p);
    StepPays(c, read, Most(p), ids, s, st, t);
  }

  ghost predicate JointRun(c: Config, read: Reading, states: seq<Joint>, steps: seq<Step>) {
    && |states| == |steps| + 1
    && forall i :: 0 <= i < |steps| ==> JointStep(c, read, states[i], steps[i], states[i + 1])
  }

  function Works(steps: seq<Step>): nat {
    if steps == [] then 0 else Works(steps[..|steps| - 1]) + if steps[|steps| - 1].Work? then 1 else 0
  }

  /** The work of discovery over the transport is bounded by the potential of the state it starts
      from, at 9p + 1 times for each message when p packets carry any of them: whatever is lost,
      delayed, resent and handled again. */
  lemma {:induction false} WorkIsBounded(c: Config, read: Reading, p: nat, ids: set<Trie.PeerId>, states: seq<Joint>,
                                         steps: seq<Step>)
    requires JointRun(c, read, states, steps) && Started(c, read, ids, states[0])
    requires forall i :: 0 <= i < |states| ==> Small(states[i].sys, p)
    ensures Started(c, read, ids, states[|steps|])
    ensures Works(steps) + Potential(c, read, Most(p), ids, states[|steps|])
         <= Potential(c, read, Most(p), ids, states[0])
    decreases |steps|
  {
    hide JointStep, Started, Potential, Small;
    if steps != [] {
      var k := |steps| - 1;
      assert JointRun(c, read, states[..k + 1], steps[..k]);
      WorkIsBounded(c, read, p, ids, states[..k + 1], steps[..k]);
      assert states[..k + 1][k] == states[k];
      StepOn(c, read, p, ids, states[k], steps[k], states[k + 1]);
    }
  }

  /** An infinite schedule of both, in which no other service submits anything. */
  ghost predicate JointSchedule(c: Config, read: Reading, p: nat, states: nat -> Joint, steps: nat -> Step) {
    forall i: nat :: JointScheduled(c, read, p, states, steps, i)
  }

  ghost predicate JointScheduled(c: Config, read: Reading, p: nat, states: nat -> Joint, steps: nat -> Step, i: nat) {
    && JointStep(c, read, states(i), steps(i), states(i + 1)) && Small(states(i).sys, p)
    && !(steps(i).Net? && steps(i).act.Submit?)
  }

  /** From step i on there are rounds with nothing to send only, and nothing changes. */
  ghost predicate JointRests(states: nat -> Joint, steps: nat -> Step, i: nat) {
    forall j: nat :: j >= i ==>
      steps(j).Net? && NetworkTermination.Idle(states(j).sys, steps(j).act) && states(j) == states(i)
  }

  lemma ScheduledAt(c: Config, read: Reading, p: nat, states: nat -> Joint, steps: nat -> Step, k: nat)
    requires JointSchedule(c, read, p, states, steps)
    ensures JointStep(c, read, states(k), steps(k), states(k + 1)) && !(steps(k).Net? && steps(k).act.Submit?)
    ensures Small(states(k).sys, p) && Small(states(k + 1).sys, p)
  {
    hide JointStep, Small;
    assert JointScheduled(c, read, p, states, steps, k) && JointScheduled(c, read, p, states, steps, k + 1);
  }

  lemma {:induction false} StartedAt(c: Config, read: Reading, p: nat, ids: set<Trie.PeerId>, states: nat -> Joint,
                                     steps: nat -> Step, i: nat, j: nat)
    requires JointSchedule(c, read, p, states, steps) && i <= j && Started(c, read, ids, states(i))
    ensures Started(c, read, ids, states(j))
    ensures Potential(c, read, Most(p), ids, states(j)) <= Potential(c, read, Most(p), ids, states(i))
    decreases j - i
  {
    hide *;
    if i < j {
      StartedAt(c, read, p, ids, states, steps, i, j - 1);
      ScheduledAt(c, read, p, states, steps, j - 1);
      StepOn(c, read, p, ids, states(j - 1), steps(j - 1), states(j));
    }
  }

  /** Discovery is done at some point. */
  lemma {:induction false} LastWork(c: Config, read: Reading, p: nat, ids: set<Trie.PeerId>, states: nat -> Joint,
                                    steps: nat -> Step, i: nat) returns (end: nat)
    requires JointSchedule(c, read, p, states, steps) && Started(c, read, ids, states(i))
    ensures end >= i && Started(c, read, ids, states(end)) && forall j: nat :: j >= end ==> steps(j).Net?
    decreases Potential(c, read, Most(p), ids, states(i))
  {
    hide *;
    if k: nat :| k >= i && steps(k).Work? {
      StartedAt(c, read, p, ids, states, steps, i, k);
      ScheduledAt(c, read, p, states, steps, k);
      StepOn(c, read, p, ids, states(k), steps(k), states(k + 1));
      end := LastWork(c, read, p, ids, states, steps, k + 1);
    } else {
      end := i;
    }
  }

  function ActOf(st: Step): Action {
    match st
    case Net(act) => act
    case Work(a, _, _) => TakeAck(a)
  }

  function SysFrom(states: nat -> Joint, end: nat): nat -> Sys {
    (n: nat) => states(end + n).sys
  }

  function ActsFrom(steps: nat -> Step, end: nat): nat -> Action {
    (n: nat) => ActOf(steps(end + n))
  }

  lemma From(states: nat -> Joint, steps: nat -> Step, end: nat, n: nat, k: nat)
    requires k == end + n
    ensures SysFrom(states, end)(n) == states(k).sys
    ensures steps(k).Net? ==> ActsFrom(steps, end)(n) == steps(k).act
  {
    assert SysFrom(states, end)(n) == states(end + n).sys;
    assert ActsFrom(steps, end)(n) == ActOf(steps(end + n));
    assert end + n == k;
  }

  /** From then on there is a schedule of the transport alone. */
  lemma NetPart(c: Config, read: Reading, p: nat, states: nat -> Joint, steps: nat -> Step, end: nat)
    requires JointSchedule(c, read, p, states, steps) && forall j: nat :: j >= end ==> steps(j).Net?
    ensures NetworkTermination.Schedule(c, SysFrom(states, end), ActsFrom(steps, end))
  {
    hide *;
    forall i: nat ensures NetworkTermination.Scheduled(c, SysFrom(states, end), ActsFrom(steps, end), i) {
      NetPartAt(c, read, p, states, steps, end, i, end + i);
    }
    ScheduleIs(c, SysFrom(states, end), ActsFrom(steps, end));
  }

  lemma ScheduleIs(c: Config, states: nat -> Sys, acts: nat -> Action)
    requires forall i: nat :: NetworkTermination.Scheduled(c, states, acts, i)
    ensures NetworkTermination.Schedule(c, states, acts)
  {
    hide NetworkTermination.Scheduled;
  }

  lemma NetPartAt(c: Config, read: Reading, p: nat, states: nat -> Joint, steps: nat -> Step, end: nat, i: nat, k: nat)
    requires JointSchedule(c, read, p, states, steps) && k == end + i && steps(k).Net?
    ensures NetworkTermination.Scheduled(c, SysFrom(states, end), ActsFrom(steps, end), i)
  {
    hide *;
    From(states, steps, end, i, k);
    From(states, steps, end, i + 1, k + 1);
    ScheduledAt(c, read, p, states, steps, k);
    NetScheduled(c, read, states(k), steps(k), states(k + 1), SysFrom(states, end), ActsFrom(steps, end), i);
  }

  lemma NetScheduled(c: Config, read: Reading, s: Joint, st: Step, t: Joint, states: nat -> Sys, acts: nat -> Action,
                     i: nat)
    requires JointStep(c, read, s, st, t) && st.Net? && !st.act.Submit?
    requires states(i) == s.sys && states(i + 1) == t.sys && acts(i) == st.act
    ensures NetworkTermination.Scheduled(c, states, acts, i)
  {
    hide Next, Enabled, KadOf, Passed;
  }

  lemma IdleChangesNothing(c: Config, read: Reading, s: Joint, act: Action, t: Joint)
    requires Shaped(c, s) && NetStep(c, read, s, act, t) && NetworkTermination.Idle(s.sys, act)
    ensures t == s
  {
    NetworkTermination.IdleRoundChangesNothing(c, s.sys, act.a);
    hide KadOf, Enabled, Passed;
    assert act == Action.Round(act.a);
    hide Next;
    SameTodo(c, read, s, act, t);
  }

  lemma {:induction false} RestGoesOn(c: Config, read: Reading, p: nat, ids: set<Trie.PeerId>, states: nat -> Joint,
                                      steps: nat -> Step, i: nat, j: nat)
    requires JointSchedule(c, read, p, states, steps) && Started(c, read, ids, states(i)) && i <= j
    requires forall k: nat :: k >= i ==> steps(k).Net? && NetworkTermination.Idle(states(k).sys, steps(k).act)
    ensures states(j) == states(i)
    decreases j - i
  {
    hide *;
    if i < j {
      RestGoesOn(c, read, p, ids, states, steps, i, j - 1);
      StartedAt(c, read, p, ids, states, steps, i, j - 1);
      ScheduledAt(c, read, p, states, steps, j - 1);
      StartIsShaped(c, read, ids, states(j - 1));
      NetIs(c, read, states(j - 1), steps(j - 1).act, states(j));
      IdleChangesNothing(c, read, states(j - 1), steps(j - 1).act, states(j));
    }
  }

  lemma StartIsShaped(c: Config, read: Reading, ids: set<Trie.PeerId>, s: Joint)
    requires Started(c, read, ids, s)
    ensures Shaped(c, s) && Reached(c, s.sys) && c.codec.RoundTrips()
  {}

  /** Discovery over the transport comes to rest: in every infinite schedule without other services'
      messages, in which p packets carry any message, there is a point after which nothing changes. */
  lemma EverythingComesToRest(c: Config, read: Reading, p: nat, ids: set<Trie.PeerId>, states: nat -> Joint,
                              steps: nat -> Step)
    requires JointSchedule(c, read, p, states, steps) && Started(c, read, ids, states(0))
    ensures exists i: nat :: JointRests(states, steps, i)
  {
    hide *;
    var end := LastWork(c, read, p, ids, states, steps, 0);
    NetPart(c, read, p, states, steps, end);
    StartIsShaped(c, read, ids, states(end));
    var i := NetRests(c, states, steps, end);
    StartedAt(c, read, p, ids, states, steps, end, i);
    forall j: nat | j >= i ensures states(j) == states(i) {
      RestGoesOn(c, read, p, ids, states, steps, i, j);
    }
    RestsIs(states, steps, i);
  }

  lemma RestsIs(states: nat -> Joint, steps: nat -> Step, i: nat)
    requires forall j: nat :: j >= i ==> steps(j).Net? && NetworkTermination.Idle(states(j).sys, steps(j).act)
    requires forall j: nat :: j >= i ==> states(j) == states(i)
    ensures JointRests(states, steps, i)
  {}

  lemma NetRests(c: Config, states: nat -> Joint, steps: nat -> Step, end: nat) returns (i: nat)
    requires c.codec.RoundTrips() && Reached(c, states(end).sys)
    requires NetworkTermination.Schedule(c, SysFrom(states, end), ActsFrom(steps, end))
    requires forall j: nat :: j >= end ==> steps(j).Net?
    ensures i >= end
    ensures forall j: nat :: j >= i ==> steps(j).Net? && NetworkTermination.Idle(states(j).sys, steps(j).act)
  {
    var t :| Leads(c, t, states(end).sys);
    assert Exec(c, t) == Some(states(end).sys);
    hide *;
    From(states, steps, end, 0, end);
    NetworkTermination.TrafficDiesOut(c, t, SysFrom(states, end), ActsFrom(steps, end));
    var n: nat :| NetworkTermination.RestsFrom(SysFrom(states, end), ActsFrom(steps, end), n);
    i := end + n;
    forall j: nat | j >= i ensures steps(j).Net? && NetworkTermination.Idle(states(j).sys, steps(j).act) {
      From(states, steps, end, j - end, j);
      RestAt(SysFrom(states, end), ActsFrom(steps, end), n, j - end);
    }
  }

  lemma RestAt(states: nat -> Sys, acts: nat -> Action, i: nat, j: nat)
    requires NetworkTermination.RestsFrom(states, acts, i) && j >= i
    ensures NetworkTermination.Idle(states(j), acts(j))
  {}

  // ---------- where runs start ----------

  /** Nodes that know only themselves, with nothing sent, make a start ... */
  lemma FreshIsStarted(c: Config, read: Reading, ids: set<Trie.PeerId>, s: Joint)
    requires c.codec.RoundTrips() && s.sys == Init(c)
    requires s.peers.Keys == c.nodes && s.todo.Keys == c.nodes && forall a :: a in s.todo ==> s.todo[a] == []
    requires forall a :: a in s.peers ==>
               s.peers[a].info.id in ids && s.peers[a].tree == Some(Trie.New(s.peers[a].info))
    ensures Started(c, read, ids, s)
  {
    StartIsReached(c);
    hide PeerIn, KadIn, Reached, Codec.RoundTrips, Trie.New, Discovery.MessageIn;
    forall a | a in s.peers ensures PeerIn(ids, s.peers[a]) {
      FreshPeerIn(ids, s.peers[a]);
    }
  }

  lemma StartIsReached(c: Config)
    ensures Reached(c, Init(c))
  {
    assert Leads(c, Start, Init(c));
  }

  lemma FreshPeerIn(ids: set<Trie.PeerId>, p: Discovery.Peer)
    requires p.info.id in ids && p.tree == Some(Trie.New(p.info))
    ensures PeerIn(ids, p)
  {
    hide Trie.New, Trie.TrieInv, Trie.KnownIds;
    Trie.NewInv(p.info);
  }

  /** ... and so does what they are once one of them has asked somebody for its neighbours. */
  lemma BootstrapKeepsStarted(c: Config, read: Reading, ids: set<Trie.PeerId>, s: Joint, a: SocketAddr, to: SocketAddr,
                              wire: Message, t: Joint)
    requires Started(c, read, ids, s) && a in s.sys.nodes && a in s.peers && s.peers[a].tree.Some?
    requires KadOf(c, read, wire) == Some(Discovery.Bootstrap(s.peers[a].info, to).msg)
    requires var p, node := s.peers[a], s.sys.nodes[a];
             t == Joint(s.sys.(nodes := s.sys.nodes[a := node.(om := node.om + [(to, wire)])]),
                        s.peers[a := p.(tree := Trie.Updated(p.tree.value, p.info.key, p.info, 0))], s.todo)
    ensures Started(c, read, ids, t)
  {
    hide *;
    var node := s.sys.nodes[a];
    StartIsShaped(c, read, ids, s);
    ReadIsNoAck(c, read, wire);
    ShapeKept(c, s, t);
    assert s.sys == s.sys.(nodes := s.sys.nodes[a := node.(om := node.om)]);
    OneSubmit(c, s.sys, s.sys, a, node.om, to, wire);
    NetReached(c, s.sys, Submit(a, to, wire));
    BootstrapClosed(c, read, ids, s, a, to, wire, t);
    StartedFrom(c, read, ids, s, t);
  }

  lemma StartedFrom(c: Config, read: Reading, ids: set<Trie.PeerId>, s: Joint, t: Joint)
    requires Started(c, read, ids, s) && Shaped(c, t) && Reached(c, t.sys) && Closed(c, read, ids, t)
    ensures Started(c, read, ids, t)
  {}

  lemma ShapeKept(c: Config, s: Joint, t: Joint)
    requires Shaped(c, s) && t.sys.nodes.Keys == s.sys.nodes.Keys && t.peers.Keys == s.peers.Keys && t.todo == s.todo
    ensures Shaped(c, t)
  {}

  lemma BootstrapClosed(c: Config, read: Reading, ids: set<Trie.PeerId>, s: Joint, a: SocketAddr, to: SocketAddr,
                        wire: Message, t: Joint)
    requires Started(c, read, ids, s) && a in s.sys.nodes && a in s.peers && s.peers[a].tree.Some?
    requires KadOf(c, read, wire) == Some(Discovery.Bootstrap(s.peers[a].info, to).msg)
    requires var p, node := s.peers[a], s.sys.nodes[a];
             t == Joint(s.sys.(nodes := s.sys.nodes[a := node.(om := node.om + [(to, wire)])]),
                        s.peers[a := p.(tree := Trie.Updated(p.tree.value, p.info.key, p.info, 0))], s.todo)
    ensures Closed(c, read, ids, t)
  {
    var p, node := s.peers[a], s.sys.nodes[a];
    var after := p.(tree := Trie.Updated(p.tree.value, p.info.key, p.info, 0));
    hide *;
    StartIsClosed(c, read, ids, s);
    PeerIsIn(c, read, ids, s, a);
    BootstrapIn(c, read, ids, p, to, wire);
    ClosedAfter(c, read, ids, s, a, (to, wire), after, t);
  }

  lemma StartIsClosed(c: Config, read: Reading, ids: set<Trie.PeerId>, s: Joint)
    requires Started(c, read, ids, s)
    ensures Closed(c, read, ids, s)
  {}

  lemma PeerIsIn(c: Config, read: Reading, ids: set<Trie.PeerId>, s: Joint, a: SocketAddr)
    requires Closed(c, read, ids, s) && a in s.peers
    ensures PeerIn(ids, s.peers[a])
  {
    hide PeerIn, KadIn, Discovery.MessageIn;
  }

  lemma BootstrapIn(c: Config, read: Reading, ids: set<Trie.PeerId>, p: Discovery.Peer, to: SocketAddr, wire: Message)
    requires PeerIn(ids, p) && p.tree.Some? && KadOf(c, read, wire) == Some(Discovery.Bootstrap(p.info, to).msg)
    ensures KadIn(c, read, ids, wire)
    ensures PeerIn(ids, p.(tree := Trie.Updated(p.tree.value, p.info.key, p.info, 0)))
  {
    hide KadOf, Trie.Updated;
    if Trie.Updated(p.tree.value, p.info.key, p.info, 0).Some? {
      Discovery.AddPeerKnows(ids, p.info.key, p.tree.value, p.info);
    }
  }

  lemma ClosedAfter(c: Config, read: Reading, ids: set<Trie.PeerId>, s: Joint, a: SocketAddr, x: (SocketAddr, Message),
                    p: Discovery.Peer, t: Joint)
    requires Closed(c, read, ids, s) && a in s.sys.nodes && a in s.peers && PeerIn(ids, p) && KadIn(c, read, ids, x.1)
    requires var node := s.sys.nodes[a];
             t == Joint(s.sys.(nodes := s.sys.nodes[a := node.(om := node.om + [x])]), s.peers[a := p], s.todo)
    ensures Closed(c, read, ids, t)
  {
    hide PeerIn, KadIn, Discovery.MessageIn;
  }
}
