/** What holds in every state the network can reach. */
module NetworkTheorems {
  import opened Packets
  import opened Reassembly
  import opened Outbox
  import opened Handler
  import opened Transport
  import opened Network
  import opened NetworkInvariant

  // ---------- end-to-end safety ----------

  /** Whatever a node passes to handle_message is, byte for byte, a message that some node's
      outgoing_msg took under that id and sent to an address of this node, all of whose packets
      have arrived here. */
  lemma Safety(c: Config, t: Trace, a: SocketAddr, i: nat)
    requires c.codec.RoundTrips() && Exec(c, t).Some?
    requires a in Exec(c, t).value.nodes && i < |Exec(c, t).value.nodes[a].handled|
    ensures var s := Exec(c, t).value;
            var (id, m) := s.nodes[a].handled[i];
            && id in s.letters
            && s.letters[id].message == m
            && s.letters[id].from in c.nodes
            && c.owner(s.letters[id].from, s.letters[id].to) == a
            && s.SeenAt(a, id) == Numbers(NumPackets(|c.codec.encode(m)|))
  {
    ReachableInv(c, t);
    hide *;
    SafeAt(c, Exec(c, t).value, a, i);
  }

  lemma SafeAt(c: Config, s: Sys, a: SocketAddr, i: nat)
    requires Inv(c, s) && a in s.nodes && i < |s.nodes[a].handled|
    ensures var (id, m) := s.nodes[a].handled[i];
            && id in s.letters
            && s.letters[id].message == m
            && s.letters[id].from in c.nodes
            && c.owner(s.letters[id].from, s.letters[id].to) == a
            && s.SeenAt(a, id) == Numbers(NumPackets(|c.codec.encode(m)|))
  {
    var (id, m) := s.nodes[a].handled[i];
    HandledIsOk(c, s, a, i);
    SeenIsPart(c, s, a, id);
    LetterIsOk(c, s, id);
    hide Inv, Numbers, NumPackets, History.Seen;
  }

  lemma HandledIsOk(c: Config, s: Sys, a: SocketAddr, i: nat)
    requires Inv(c, s) && a in s.nodes && i < |s.nodes[a].handled|
    ensures HandledOk(c, s, a, s.nodes[a].handled[i].0, s.nodes[a].handled[i].1)
  {
    assert NodeOk(c, s, a, s.nodes[a]) by { hide NodeOk, LetterOk, DatagramOk; }
    hide Inv, HandledOk, EntryOk, ArrivalOk, AckMessageTrue, AckTrue;
  }

  lemma LetterIsOk(c: Config, s: Sys, id: InnerKey)
    requires Inv(c, s) && id in s.letters
    ensures LetterOk(c, s, s.letters[id])
  {
    hide NodeOk, LetterOk, DatagramOk;
  }

  lemma SeenIsPart(c: Config, s: Sys, a: SocketAddr, id: InnerKey)
    requires Inv(c, s) && a in s.nodes && id in s.letters
    ensures s.SeenAt(a, id) <= Numbers(s.letters[id].origin.Count())
  {
    assert NodeOk(c, s, a, s.nodes[a]) by { hide NodeOk, LetterOk, DatagramOk; }
    hide Inv, HandledOk, EntryOk, AckMessageTrue, AckTrue, FromOrigin, Numbers, NumPackets, History.Set, History.Seen,
         Honest;
    HonestAll(s.nodes[a].history, s.Origins());
    SeenWithin(s.nodes[a].history, s.Origins(), id);
  }

  /** No datagram in flight can make a handler panic: no packet number is missing from a full
      table, and every payload is hexadecimal. */
  lemma NoPanic(c: Config, t: Trace, d: Datagram)
    requires c.codec.RoundTrips() && Exec(c, t).Some? && Enabled(c, Exec(c, t).value, Receive(d))
    ensures Insert(Exec(c, t).value.nodes[c.owner(d.from, d.dst)].pending, d.packet).1 != Panic
  {
    ReachableInv(c, t);
    var s, x := Exec(c, t).value, c.owner(d.from, d.dst);
    assert DatagramOk(c, s, d) && ArrivalOk(c, s, x, d.packet);
    assert NodeOk(c, s, x, s.nodes[x]) && LetterOk(c, s, s.letters[d.packet.id]);
    ReceiveOutcome(c, s, x, s.nodes[x], d.packet);
  }

  // ---------- acknowledgements ----------

  /** An address is recorded as having acknowledged a packet only if it belongs to a node that has
      received it; and it is the node that the packet was addressed to. */
  lemma AcknowledgedMeansReceived(c: Config, t: Trace, a: SocketAddr, k: Slot, x: SocketAddr)
    requires c.codec.RoundTrips() && Exec(c, t).Some? && a in Exec(c, t).value.nodes
    requires k in Exec(c, t).value.nodes[a].outbox && x in Exec(c, t).value.nodes[a].outbox[k].acked
    ensures var s := Exec(c, t).value;
            && x in s.nodes && k.n in s.nodes[x].history.Seen(k.id)
            && k.id in s.letters && x == c.owner(s.letters[k.id].from, s.letters[k.id].to)
  {
    ReachableInv(c, t);
    var s := Exec(c, t).value;
    assert NodeOk(c, s, a, s.nodes[a]) && EntryOk(c, s, a, k, s.nodes[a].outbox[k]);
  }

  /** When maintain gives an entry up, every destination has received the packet or the ten
      attempts are used up. */
  lemma GivingUpIsJustified(c: Config, t: Trace, a: SocketAddr, k: Slot)
    requires c.codec.RoundTrips() && Exec(c, t).Some? && a in Exec(c, t).value.nodes
    requires k in Exec(c, t).value.nodes[a].outbox && k !in Maintained(Exec(c, t).value.nodes[a].outbox)
    ensures var s := Exec(c, t).value;
            var e := s.nodes[a].outbox[k];
            || e.attempts == MAX_ATTEMPTS
            || forall x :: x in e.sent ==> x in s.nodes && k.n in s.nodes[x].history.Seen(k.id)
  {
    ReachableInv(c, t);
    var s := Exec(c, t).value;
    assert NodeOk(c, s, a, s.nodes[a]) && EntryOk(c, s, a, k, s.nodes[a].outbox[k]);
    DropsExactly(s.nodes[a].outbox, k);
  }

  /** When an entry is dropped, exactly: when its attempts are used up, or it has been acknowledged and
      the address it was sent to is the one its owner puts in acknowledgements. */
  lemma DroppedIff(c: Config, t: Trace, a: SocketAddr, k: Slot)
    requires c.codec.RoundTrips() && Exec(c, t).Some? && a in Exec(c, t).value.nodes
    requires k in Exec(c, t).value.nodes[a].outbox
    ensures var s := Exec(c, t).value;
            var e := s.nodes[a].outbox[k];
            && k.id in s.letters
            && (k !in Maintained(s.nodes[a].outbox) <==>
                  || e.attempts == MAX_ATTEMPTS
                  || (e.acked != {} && c.owner(s.letters[k.id].from, s.letters[k.id].to) == s.letters[k.id].to))
  {
    EntryAt(c, t, a, k);
    var s := Exec(c, t).value;
    hide Exec;
    DropsExactly(s.nodes[a].outbox, k);
    hide Maintained;
    EntryDropped(c, s, a, k, s.nodes[a].outbox[k]);
  }

  lemma EntryAt(c: Config, t: Trace, a: SocketAddr, k: Slot)
    requires c.codec.RoundTrips() && Exec(c, t).Some? && a in Exec(c, t).value.nodes
    requires k in Exec(c, t).value.nodes[a].outbox
    ensures var s := Exec(c, t).value;
            && EntryOk(c, s, a, k, s.nodes[a].outbox[k])
            && k.id in s.letters && LetterOk(c, s, s.letters[k.id]) && s.nodes.Keys == c.nodes
  {
    hide Exec, EntryOk, LetterOk, DatagramOk;
    ReachableInv(c, t);
    var s := Exec(c, t).value;
    assert NodeOk(c, s, a, s.nodes[a]);
    EntryLetter(c, s, a, k, s.nodes[a].outbox[k]);
  }

  lemma EntryLetter(c: Config, s: Sys, a: SocketAddr, k: Slot, e: Entry)
    requires EntryOk(c, s, a, k, e)
    ensures k.id in s.letters
  {
  }

  lemma EntryDropped(c: Config, s: Sys, a: SocketAddr, k: Slot, e: Entry)
    requires EntryOk(c, s, a, k, e)
    ensures k.id in s.letters && e.attempts <= MAX_ATTEMPTS
    ensures e.sent == e.acked <==>
              e.acked != {} && c.owner(s.letters[k.id].from, s.letters[k.id].to) == s.letters[k.id].to
  {
    var from, to := s.letters[k.id].from, s.letters[k.id].to;
    assert e.sent == {to} && forall x :: x in e.acked ==> x == c.owner(from, to);
    hide EntryOk, FromOrigin;
    if e.acked != {} {
      var x :| x in e.acked;
      assert e.acked == {c.owner(from, to)};
      assert to in e.sent;
    }
  }

  /** What the loopback rewrite does to acknowledgements: where no node lives on the loopback host, an
      entry is dropped before its attempts are used up if and only if it has been acknowledged and the
      address the client gave is not on the sender's own host and is its owner's own address. */
  lemma LoopbackIsNeverSettled(c: Config, t: Trace, a: SocketAddr, k: Slot)
    requires c.codec.RoundTrips() && Exec(c, t).Some? && a in Exec(c, t).value.nodes
    requires forall x :: x in c.nodes ==> x.host != LOOPBACK
    requires k in Exec(c, t).value.nodes[a].outbox
    ensures var s := Exec(c, t).value;
            && k.id in s.letters
            && var e, dst := s.nodes[a].outbox[k], s.letters[k.id].dst;
               k !in Maintained(s.nodes[a].outbox) <==>
                 e.attempts == MAX_ATTEMPTS || (e.acked != {} && a.host != dst.host && c.owner(a, dst) == dst)
  {
    EntryAt(c, t, a, k);
    DroppedIff(c, t, a, k);
    var s := Exec(c, t).value;
    var e := s.nodes[a].outbox[k];
    assert s.letters[k.id].from == a && s.letters[k.id].message.head != Ack;
    if x :| x in e.acked {
      AcknowledgedMeansReceived(c, t, a, k, x);
      hide Exec, Maintained, EntryOk, LetterOk, FromOrigin;
      assert x in c.nodes && x == c.owner(s.letters[k.id].from, s.letters[k.id].to);
    }
  }

  // ---------- draining ----------

  function Rounds(u: Trace, a: SocketAddr): nat {
    if u.Start? then 0 else Rounds(u.before, a) + if u.act == Round(a) then 1 else 0
  }

  /** Node a sends nothing new during u. */
  predicate NoSends(u: Trace, a: SocketAddr) {
    u.Do? ==> NoSends(u.before, a) && !(u.act.Outgoing? && u.act.a == a)
  }

  predicate AttemptsAtLeast(o: Outbox, j: nat) {
    forall k :: k in o ==> o[k].attempts >= j
  }

  lemma RoundRaises(c: Config, s: Sys, a: SocketAddr, o: Outbox, j: nat)
    requires forall k :: k in o ==> EntryOk(c, s, a, k, o[k])
    requires AttemptsAtLeast(o, j)
    ensures AttemptsAtLeast(Maintained(o), j + 1)
  {
    forall k | k in Maintained(o) ensures Maintained(o)[k].attempts >= j + 1 {
      assert EntryOk(c, s, a, k, o[k]);
      RaisesOne(c, s, a, k, o[k]);
    }
  }

  lemma RaisesOne(c: Config, s: Sys, a: SocketAddr, k: Slot, e: Entry)
    requires EntryOk(c, s, a, k, e) && e.Live()
    ensures e.Resent().attempts >= e.attempts + 1
  {
    var to := s.letters[k.id].to;
    assert to in e.acked ==> e.acked == {to};
    assert e.Missing() == {to};
  }

  lemma StepKeepsAttempts(c: Config, s: Sys, act: Action, a: SocketAddr, j: nat)
    requires Enabled(c, s, act) && a in s.nodes && AttemptsAtLeast(s.nodes[a].outbox, j)
    requires act != Round(a) && !(act.Outgoing? && act.a == a)
    ensures a in Next(c, s, act).nodes && AttemptsAtLeast(Next(c, s, act).nodes[a].outbox, j)
  {
    hide Insert, Handed, RouteOf, AcksFor, Maintained, SentAll, OnWire, Burst;
  }

  lemma {:induction false} RoundsRaise(c: Config, s: Sys, u: Trace, a: SocketAddr)
    requires c.codec.RoundTrips() && Inv(c, s) && a in s.nodes
    requires ExecFrom(c, s, u).Some? && NoSends(u, a)
    ensures a in ExecFrom(c, s, u).value.nodes
    ensures AttemptsAtLeast(ExecFrom(c, s, u).value.nodes[a].outbox, 1 + Rounds(u, a))
  {
    hide Inv, Next, Enabled, AttemptsAtLeast;
    if u.Start? {
      OneAttempt(c, s, a);
    } else {
      RoundsRaise(c, s, u.before, a);
      RunInv(c, s, u.before);
      StepRaises(c, ExecFrom(c, s, u.before).value, u.act, a, 1 + Rounds(u.before, a));
    }
  }

  lemma OneAttempt(c: Config, s: Sys, a: SocketAddr)
    requires Inv(c, s) && a in s.nodes
    ensures AttemptsAtLeast(s.nodes[a].outbox, 1)
  {
    assert NodeOk(c, s, a, s.nodes[a]);
    forall k | k in s.nodes[a].outbox ensures s.nodes[a].outbox[k].attempts >= 1 {
      assert EntryOk(c, s, a, k, s.nodes[a].outbox[k]);
    }
  }

  lemma StepRaises(c: Config, s: Sys, act: Action, a: SocketAddr, j: nat)
    requires Inv(c, s) && Enabled(c, s, act) && a in s.nodes && AttemptsAtLeast(s.nodes[a].outbox, j)
    requires !(act.Outgoing? && act.a == a)
    ensures a in Next(c, s, act).nodes
    ensures AttemptsAtLeast(Next(c, s, act).nodes[a].outbox, if act == Round(a) then j + 1 else j)
  {
    if act == Round(a) {
      assert NodeOk(c, s, a, s.nodes[a]);
      RoundEffect(c, s, a);
      hide Inv, Next, Enabled, AttemptsAtLeast, Maintained, OnWire, Resends, EntryOk;
      RoundRaises(c, s, a, s.nodes[a].outbox, j);
    } else {
      hide Inv, Next, Enabled, AttemptsAtLeast;
      StepKeepsAttempts(c, s, act, a, j);
    }
  }

  /** Wherever a run has got to, ten more rounds of a node, with anything else going on in between
      but no new sends of its own, empty its outbox. */
  lemma OutboxDrains(c: Config, t: Trace, u: Trace, a: SocketAddr)
    requires c.codec.RoundTrips() && Exec(c, t).Some? && a in c.nodes
    requires ExecFrom(c, Exec(c, t).value, u).Some?
    requires NoSends(u, a) && Rounds(u, a) >= MAX_ATTEMPTS
    ensures a in ExecFrom(c, Exec(c, t).value, u).value.nodes
    ensures ExecFrom(c, Exec(c, t).value, u).value.nodes[a].outbox == map[]
  {
    hide *;
    var s := Exec(c, t).value;
    ReachableInv(c, t);
    NodesStay(c, s);
    RoundsRaise(c, s, u, a);
    RunInv(c, s, u);
    NothingLeft(c, ExecFrom(c, s, u).value, a, 1 + Rounds(u, a));
  }

  lemma NodesStay(c: Config, s: Sys)
    requires Inv(c, s)
    ensures s.nodes.Keys == c.nodes
  {}

  lemma NothingLeft(c: Config, s: Sys, a: SocketAddr, j: nat)
    requires Inv(c, s) && a in s.nodes && AttemptsAtLeast(s.nodes[a].outbox, j) && j > MAX_ATTEMPTS
    ensures s.nodes[a].outbox == map[]
  {
    var o := s.nodes[a].outbox;
    assert NodeOk(c, s, a, s.nodes[a]);
    assert forall k :: k in o ==> EntryOk(c, s, a, k, o[k]);
    assert o.Keys == {};
  }

  // ---------- no acknowledgement of acknowledgements ----------

  /** Only receipt-requesting packets of other messages ever wait for acknowledgement. */
  lemma OutboxHoldsNoAcks(c: Config, t: Trace, a: SocketAddr, k: Slot)
    requires c.codec.RoundTrips() && Exec(c, t).Some? && a in Exec(c, t).value.nodes
    requires k in Exec(c, t).value.nodes[a].outbox
    ensures var s := Exec(c, t).value;
            && s.nodes[a].outbox[k].packet.ret == RETURN_RECEIPT
            && k.id in s.letters && s.letters[k.id].message.head != Ack
  {
    ReachableInv(c, t);
    var s := Exec(c, t).value;
    assert NodeOk(c, s, a, s.nodes[a]) && EntryOk(c, s, a, k, s.nodes[a].outbox[k]);
    assert LetterOk(c, s, s.letters[k.id]);
  }

  function AcksQueued(om: seq<(SocketAddr, Message)>): nat {
    if om == [] then 0 else (if om[0].1.head == Ack then 1 else 0) + AcksQueued(om[1..])
  }

  function Receipts(h: History): nat {
    if h.Fresh? then 0 else Receipts(h.before) + if h.last.ret == RETURN_RECEIPT then 1 else 0
  }

  /** The ids under which a has sent acknowledgements. */
  function AckLetters(s: Sys, a: SocketAddr): set<InnerKey> {
    set id | id in s.letters && s.letters[id].from == a && s.letters[id].message.head == Ack
  }

  lemma {:induction false} AcksQueuedAppend(om: seq<(SocketAddr, Message)>, x: (SocketAddr, Message))
    ensures AcksQueued(om + [x]) == AcksQueued(om) + if x.1.head == Ack then 1 else 0
  {
    if om == [] {
    } else {
      AcksQueuedAppend(om[1..], x);
      assert (om + [x])[1..] == om[1..] + [x];
    }
  }

  ghost predicate Balanced(s: Sys) {
    forall a :: a in s.nodes ==> BalancedAt(s, a)
  }

  predicate BalancedAt(s: Sys, a: SocketAddr)
    requires a in s.nodes
  {
    AcksQueued(s.nodes[a].om) + |AckLetters(s, a)| == Receipts(s.nodes[a].history)
  }

  lemma NewAckLetter(s: Sys, t: Sys, id: InnerKey, l: Letter, a: SocketAddr)
    requires id !in s.letters && t.letters == s.letters[id := l]
    ensures |AckLetters(t, a)| == |AckLetters(s, a)| + if l.from == a && l.message.head == Ack then 1 else 0
  {
    assert AckLetters(t, a) == AckLetters(s, a) + if l.from == a && l.message.head == Ack then {id} else {};
  }

  lemma OutgoingBalanced(c: Config, s: Sys, a: SocketAddr, id: InnerKey)
    requires Balanced(s) && Enabled(c, s, Outgoing(a, id))
    ensures Balanced(Next(c, s, Outgoing(a, id)))
  {
    var t := Next(c, s, Outgoing(a, id));
    var l := OutgoingEffect(c, s, a, id);
    var om := s.nodes[a].om;
    assert l.message == om[0].1 && OutgoingNode(s.nodes[a], l, id).om == om[1..];
    assert AcksQueued(om) == (if l.message.head == Ack then 1 else 0) + AcksQueued(om[1..]);
    hide Next, Receipts, AckLetters, OutgoingNode, LetterFor, AcksQueued, Enabled, OnWire, Burst;
    forall b | b in t.nodes ensures BalancedAt(t, b) {
      assert BalancedAt(s, b);
      NewAckLetter(s, t, id, l, b);
    }
  }

  lemma ReceiveBalanced(c: Config, s: Sys, d: Datagram)
    requires Balanced(s) && Enabled(c, s, Receive(d))
    ensures Balanced(Next(c, s, Receive(d)))
  {
    var t, x := Next(c, s, Receive(d)), c.owner(d.from, d.dst);
    var node, acks := s.nodes[x], AcksFor(c.codec, d.packet, x, d.src);
    var after := ReceiveNode(c, x, node, d);
    assert t.nodes == s.nodes[x := after] && t.letters == s.letters;
    assert after.om == node.om + acks && after.history == Then(node.history, d.packet);
    AcksQueuedAppend(node.om, (d.src, c.codec.AckFor(d.packet, x)));
    assert node.om + [] == node.om;
    assert BalancedAt(s, x);
    hide Next, ReceiveNode, Enabled;
    SameLetters(s, t);
    forall b | b in t.nodes ensures BalancedAt(t, b) {
      assert BalancedAt(s, b);
    }
  }

  lemma StepBalanced(c: Config, s: Sys, act: Action)
    requires Balanced(s) && Enabled(c, s, act)
    ensures Balanced(Next(c, s, act))
  {
    hide Next, Enabled, Balanced;
    match act
    case Outgoing(a, id) => OutgoingBalanced(c, s, a, id);
    case Receive(d) => ReceiveBalanced(c, s, d);
    case _ =>
      OtherQueues(c, s, act);
      SameQueues(s, Next(c, s, act));
  }

  lemma OtherQueues(c: Config, s: Sys, act: Action)
    requires Enabled(c, s, act) && !act.Outgoing? && !act.Receive?
    ensures var t := Next(c, s, act);
            && t.letters == s.letters && t.nodes.Keys == s.nodes.Keys
            && forall b :: b in s.nodes ==>
                 t.nodes[b].history == s.nodes[b].history && AcksQueued(t.nodes[b].om) == AcksQueued(s.nodes[b].om)
  {
    hide Maintained, Resends, OnWire, Acked;
    if act.Submit? {
      AcksQueuedAppend(s.nodes[act.a].om, (act.dst, act.message));
    }
    hide AcksQueued;
    match act
    case Round(a) =>
      RoundEffect(c, s, a);
      hide Next, Enabled;
    case TakeAck(a) =>
      assert TakeAckNode(s.nodes[a]).om == s.nodes[a].om && TakeAckNode(s.nodes[a]).history == s.nodes[a].history;
    case _ =>
  }

  lemma SameQueues(s: Sys, t: Sys)
    requires Balanced(s) && t.letters == s.letters && t.nodes.Keys == s.nodes.Keys
    requires forall b :: b in s.nodes ==>
               t.nodes[b].history == s.nodes[b].history && AcksQueued(t.nodes[b].om) == AcksQueued(s.nodes[b].om)
    ensures Balanced(t)
  {
    hide AcksQueued, Receipts, AckLetters;
    SameLetters(s, t);
    forall b | b in t.nodes ensures BalancedAt(t, b) { assert BalancedAt(s, b); }
  }

  lemma SameLetters(s: Sys, t: Sys)
    requires s.letters == t.letters
    ensures forall a :: AckLetters(s, a) == AckLetters(t, a)
  {
  }

  /** Every acknowledgement a node queued or sent answers one arrival of a receipt-requesting
      packet, and every such arrival was answered once: acknowledgements breed none. */
  lemma {:induction false} AcksMatchReceipts(c: Config, t: Trace, a: SocketAddr)
    requires Exec(c, t).Some? && a in Exec(c, t).value.nodes
    ensures var s := Exec(c, t).value;
            AcksQueued(s.nodes[a].om) + |AckLetters(s, a)| == Receipts(s.nodes[a].history)
  {
    RunBalanced(c, t);
    assert BalancedAt(Exec(c, t).value, a);
  }

  lemma {:induction false} RunBalanced(c: Config, t: Trace)
    requires Exec(c, t).Some?
    ensures Balanced(Exec(c, t).value)
  {
    if t.Start? {
      assert forall a :: AckLetters(Init(c), a) == {};
    } else {
      RunBalanced(c, t.before);
      StepBalanced(c, Exec(c, t.before).value, t.act);
    }
  }
}
