/** What the transport owes to discovery: a request or a response is passed on, to the node it was sent
    to, once all its packets have arrived there. */
module CompositionDelivery {
  import opened Bytes
  import opened Packets
  import opened Reassembly
  import opened Network
  import opened NetworkInvariant
  import opened NetworkDeliveries
  import opened Composition
  import opened CompositionTheorems
  import Discovery
  import Trie

  /** All packets of a letter have arrived at a node. */
  predicate Complete(s: Sys, x: SocketAddr, id: InnerKey) {
    id in s.letters && s.SeenAt(x, id) == Numbers(s.letters[id].origin.Count())
  }

  /** A request or a response whose content discovery reads as k. */
  predicate ForDiscovery(c: Config, read: Reading, m: Message, k: Discovery.KadMessage) {
    (m.head == Request || m.head == Response) && c.codec.isKad(m.msg) && read(m.msg) == Some(k)
  }

  /** An arrival adds the message to what discovery has yet to do at that node if all packets have
      arrived by then, and nothing otherwise; nowhere else does anything change. */
  lemma ArrivalIsPassedOn(c: Config, read: Reading, s: Joint, d: Datagram, t: Joint, k: Discovery.KadMessage)
    requires c.codec.RoundTrips() && Shaped(c, s) && Inv(c, s.sys) && NetStep(c, read, s, Receive(d), t)
    ensures d.packet.id in s.sys.letters && c.owner(d.from, d.dst) in s.todo && t.todo.Keys == s.todo.Keys
    ensures ForDiscovery(c, read, s.sys.letters[d.packet.id].message, k) ==>
              var x := c.owner(d.from, d.dst);
              t.todo[x] == s.todo[x] + if Complete(t.sys, x, d.packet.id) then [k] else []
    ensures forall a :: a in s.todo && a != c.owner(d.from, d.dst) ==> t.todo[a] == s.todo[a]
  {
    var x, id := c.owner(d.from, d.dst), d.packet.id;
    var more := ArrivalEffect(c, read, 0, s.sys, d);
    CanArrive(c, s.sys, d);
    hide Inv, Next, Enabled, Codec.RoundTrips;
    PassedOn(c, read, s, t, x, id, more, k);
  }

  lemma CanArrive(c: Config, s: Sys, d: Datagram)
    requires Enabled(c, s, Receive(d))
    ensures c.owner(d.from, d.dst) in s.nodes
  {}

  lemma PassedOn(c: Config, read: Reading, s: Joint, t: Joint, x: SocketAddr, id: InnerKey, more: bool,
                 k: Discovery.KadMessage)
    requires Shaped(c, s) && ArrivalStep(c, read, 0, s.sys, t.sys, x, id, more) && t.todo.Keys == s.todo.Keys
    requires forall a :: a in s.todo ==> t.todo[a] == s.todo[a] + Passed(c, read, s.sys.nodes[a], t.sys.nodes[a])
    requires id in s.sys.letters
    ensures ForDiscovery(c, read, s.sys.letters[id].message, k) ==>
              t.todo[x] == s.todo[x] + if more then [k] else []
    ensures forall a :: a in s.todo && a != x ==> t.todo[a] == s.todo[a]
  {
    hide QueueWorth;
    forall a | a in s.todo && a != x ensures t.todo[a] == s.todo[a] {
      NothingArrives(c, read, s.sys.nodes[a], t.sys.nodes[a]);
    }
  }

  // ---------- over runs ----------

  /** What a step leaves alone. */
  ghost predicate Keeps(s: Sys, t: Sys) {
    && (forall id :: id in s.letters ==> id in t.letters && t.letters[id] == s.letters[id])
    && t.nodes.Keys == s.nodes.Keys
    && forall a :: a in s.nodes ==> t.nodes[a].history == s.nodes[a].history
  }

  lemma OthersKeep(c: Config, s: Sys, act: Action)
    requires Enabled(c, s, act) && !act.Receive?
    ensures Keeps(s, Next(c, s, act))
  {
    OtherHandled(c, s, act);
    if act.Outgoing? {
      var l := OutgoingEffect(c, s, act.a, act.id);
      hide Next, Enabled;
    }
  }

  lemma StepKeeps(c: Config, read: Reading, s: Joint, st: Step, t: Joint)
    requires JointStep(c, read, s, st, t) && !(st.Net? && st.act.Receive?)
    ensures Keeps(s.sys, t.sys)
  {
    hide KadOf, Submitted, Discovery.Handle, Discovery.AnswerFits, Next, Enabled, Passed, History.Seen;
    match st
    case Net(act) => OthersKeep(c, s.sys, act);
    case Work(_, _, _) =>
  }

  /** A message that is new in this step has not arrived anywhere. */
  lemma NothingArrivedYet(c: Config, s: Sys, x: SocketAddr, id: InnerKey)
    requires Inv(c, s) && x in s.nodes && id !in s.letters
    ensures s.SeenAt(x, id) == {}
  {
    var h := s.nodes[x].history;
    assert NodeOk(c, s, x, s.nodes[x]) by { hide NodeOk, LetterOk, DatagramOk; }
    assert forall p :: p in h.Set() ==> p.id != id by { hide Inv, EntryOk, HandledOk; }
    hide Inv, NodeOk;
    SeenSet(h, id);
  }

  lemma OthersComplete(c: Config, s: Sys, t: Sys, x: SocketAddr, id: InnerKey)
    requires Inv(c, s) && Keeps(s, t) && x in s.nodes
    ensures Complete(t, x, id) ==> Complete(s, x, id)
  {
    if id !in s.letters {
      NothingArrivedYet(c, s, x, id);
      hide Inv, History.Seen;
      if id in t.letters {
        assert 1 in Numbers(t.letters[id].origin.Count());
      }
    }
  }

  /** Only an arrival of one of its packets completes a message at a node. */
  lemma OnlyArrivalsComplete(c: Config, read: Reading, s: Joint, st: Step, t: Joint, x: SocketAddr, id: InnerKey)
    requires Inv(c, s.sys) && JointStep(c, read, s, st, t) && x in s.sys.nodes
    requires !Complete(s.sys, x, id) && Complete(t.sys, x, id)
    ensures st.Net? && st.act.Receive? && st.act.d.packet.id == id && c.owner(st.act.d.from, st.act.d.dst) == x
  {
    hide Inv, JointStep, Keeps;
    if st.Net? && st.act.Receive? {
      NetIsNext(c, read, s, st.act, t);
      ReceiveOne(c, s.sys, st.act.d, x, id);
    } else {
      StepKeeps(c, read, s, st, t);
      OthersComplete(c, s.sys, t.sys, x, id);
    }
  }

  lemma NetIsNext(c: Config, read: Reading, s: Joint, act: Action, t: Joint)
    requires JointStep(c, read, s, Net(act), t)
    ensures Enabled(c, s.sys, act) && t.sys == Next(c, s.sys, act)
  {
    hide KadOf, Next, Enabled, Passed;
  }

  lemma ReceiveOne(c: Config, s: Sys, d: Datagram, x: SocketAddr, id: InnerKey)
    requires Enabled(c, s, Receive(d)) && x in s.nodes
    ensures var t := Next(c, s, Receive(d));
            && t.letters == s.letters && t.nodes.Keys == s.nodes.Keys
            && (d.packet.id != id || c.owner(d.from, d.dst) != x ==> t.SeenAt(x, id) == s.SeenAt(x, id))
  {
    ReceiveEffect(c, s, d);
    hide Next, Enabled, ReceiveNode;
  }

  lemma StepKeepsLetters(c: Config, read: Reading, s: Joint, st: Step, t: Joint, x: SocketAddr)
    requires JointStep(c, read, s, st, t) && x in s.sys.nodes
    ensures forall id :: id in s.sys.letters ==> id in t.sys.letters && t.sys.letters[id] == s.sys.letters[id]
  {
    hide JointStep;
    if st.Net? && st.act.Receive? {
      NetIsNext(c, read, s, st.act, t);
      ReceiveOne(c, s.sys, st.act.d, x, st.act.d.packet.id);
    } else {
      StepKeeps(c, read, s, st, t);
    }
  }

  lemma ReachedStep(c: Config, read: Reading, s: Joint, st: Step, t: Joint)
    requires Shaped(c, s) && Reached(c, s.sys) && JointStep(c, read, s, st, t)
    ensures Shaped(c, t) && Reached(c, t.sys)
  {
    hide *;
    StepReached(c, read, s, st, t);
    match st
    case Work(a, answer, wires) => WorkIs(c, read, s, a, answer, wires, t);
    case Net(act) => NetIs(c, read, s, act, t);
  }

  lemma ReachedInv(c: Config, s: Sys)
    requires c.codec.RoundTrips() && Reached(c, s)
    ensures Inv(c, s)
  {
    var t :| Leads(c, t, s);
    hide NoDuplicates, Inv;
    ReachableInv(c, t);
  }

  lemma {:induction false} RunReached(c: Config, read: Reading, states: seq<Joint>, steps: seq<Step>, i: nat)
    requires JointRun(c, read, states, steps) && i <= |steps| && Shaped(c, states[0]) && Reached(c, states[0].sys)
    ensures Shaped(c, states[i]) && Reached(c, states[i].sys)
  {
    hide Shaped, Reached, JointStep;
    if i > 0 {
      RunReached(c, read, states, steps, i - 1);
      ReachedStep(c, read, states[i - 1], steps[i - 1], states[i]);
    }
  }

  /** The step of a run in which a message is completed at a node. */
  lemma {:induction false} Completion(c: Config, read: Reading, states: seq<Joint>, steps: seq<Step>, n: nat,
                                      x: SocketAddr, id: InnerKey) returns (i: nat)
    requires JointRun(c, read, states, steps) && c.codec.RoundTrips() && n <= |steps| && x in c.nodes
    requires Shaped(c, states[0]) && Reached(c, states[0].sys)
    requires !Complete(states[0].sys, x, id) && Complete(states[n].sys, x, id)
    ensures i < n && Complete(states[i + 1].sys, x, id)
    ensures steps[i].Net? && steps[i].act.Receive?
    ensures steps[i].act.d.packet.id == id && c.owner(steps[i].act.d.from, steps[i].act.d.dst) == x
    ensures id in states[i + 1].sys.letters && id in states[n].sys.letters
    ensures states[i + 1].sys.letters[id] == states[n].sys.letters[id]
  {
    var k: nat := n - 1;
    RunReached(c, read, states, steps, k);
    assert JointStep(c, read, states[k], steps[k], states[n]);
    assert x in states[k].sys.nodes;
    hide Shaped, Reached, JointStep, Sys.SeenAt;
    if Complete(states[k].sys, x, id) {
      i := Completion(c, read, states, steps, k, x, id);
      StepKeepsLetters(c, read, states[k], steps[k], states[n], x);
    } else {
      i := k;
      ReachedInv(c, states[k].sys);
      OnlyArrivalsComplete(c, read, states[k], steps[k], states[n], x, id);
    }
  }

  /** At the end of a run all packets of a request or a response have arrived at the node it was sent
      to, which they had not at its start: then some step of the run gave the message to discovery. */
  lemma RequestsAreDelivered(c: Config, read: Reading, states: seq<Joint>, steps: seq<Step>, x: SocketAddr,
                             id: InnerKey, k: Discovery.KadMessage) returns (i: nat)
    requires JointRun(c, read, states, steps) && c.codec.RoundTrips() && x in c.nodes
    requires Shaped(c, states[0]) && Reached(c, states[0].sys) && !Complete(states[0].sys, x, id)
    requires Complete(states[|steps|].sys, x, id)
    requires ForDiscovery(c, read, states[|steps|].sys.letters[id].message, k)
    ensures i < |steps| && x in states[i].todo && x in states[i + 1].todo
    ensures states[i + 1].todo[x] == states[i].todo[x] + [k]
  {
    hide Shaped, Reached, ForDiscovery, Complete, JointStep;
    i := Completion(c, read, states, steps, |steps|, x, id);
    RunReached(c, read, states, steps, i);
    ReachedInv(c, states[i].sys);
    assert JointStep(c, read, states[i], steps[i], states[i + 1]);
    var d := steps[i].act.d;
    DeliveredHere(c, read, states[i], d, states[i + 1], k);
  }

  lemma DeliveredHere(c: Config, read: Reading, s: Joint, d: Datagram, t: Joint, k: Discovery.KadMessage)
    requires c.codec.RoundTrips() && Shaped(c, s) && Inv(c, s.sys) && JointStep(c, read, s, Net(Receive(d)), t)
    requires Complete(t.sys, c.owner(d.from, d.dst), d.packet.id)
    requires ForDiscovery(c, read, t.sys.letters[d.packet.id].message, k)
    ensures var x := c.owner(d.from, d.dst); x in s.todo && x in t.todo && t.todo[x] == s.todo[x] + [k]
  {
    hide ForDiscovery, Inv, Codec.RoundTrips, Sys.SeenAt;
    NetIs(c, read, s, Receive(d), t);
    NetIsNext(c, read, s, Receive(d), t);
    CanArrive(c, s.sys, d);
    ReceiveOne(c, s.sys, d, c.owner(d.from, d.dst), d.packet.id);
    hide Shaped, Next, Enabled, NetStep, JointStep;
    ArrivalIsPassedOn(c, read, s, d, t, k);
  }

  // ---------- what discovery sends ----------

  lemma {:induction false} SubmittedAre(om: seq<(SocketAddr, Message)>, sent: seq<Discovery.Out>, wires: seq<Message>)
    requires |sent| == |wires|
    ensures |Submitted(om, sent, wires)| == |om| + |sent| && Submitted(om, sent, wires)[..|om|] == om
    ensures forall i :: 0 <= i < |sent| ==> Submitted(om, sent, wires)[|om| + i] == (sent[i].dst, wires[i])
  {
    if sent != [] {
      var n := |sent| - 1;
      SubmittedAre(om, sent[..n], wires[..n]);
    }
  }

  lemma KadIsForDiscovery(c: Config, read: Reading, m: Message, k: Discovery.KadMessage)
    ensures KadOf(c, read, m) == Some(k) <==> ForDiscovery(c, read, m, k)
  {}

  /** Working on a message gives the transport, in order, one message for each that discovery sends, to its
      address and with its content; what was waiting stays in front. */
  lemma WorkIsSubmitted(c: Config, read: Reading, s: Joint, a: SocketAddr, answer: seq<Trie.PeerInfo>,
                        wires: seq<Message>, t: Joint)
    requires JointStep(c, read, s, Work(a, answer, wires), t)
    ensures Busy(s, a) && a in t.sys.nodes
    ensures var e, om := EffectAt(s, a, answer), s.sys.nodes[a].om;
            && |t.sys.nodes[a].om| == |om| + |e.sent| && t.sys.nodes[a].om[..|om|] == om
            && forall i :: 0 <= i < |e.sent| ==>
                 && t.sys.nodes[a].om[|om| + i].0 == e.sent[i].dst
                 && ForDiscovery(c, read, t.sys.nodes[a].om[|om| + i].1, e.sent[i].msg)
  {
    hide Discovery.Handle, Discovery.AnswerFits, KadOf, Submitted, ForDiscovery;
    var e := EffectAt(s, a, answer);
    hide EffectAt;
    SubmittedAre(s.sys.nodes[a].om, e.sent, wires);
    forall i | 0 <= i < |e.sent| ensures ForDiscovery(c, read, wires[i], e.sent[i].msg) {
      KadIsForDiscovery(c, read, wires[i], e.sent[i].msg);
    }
  }
}
