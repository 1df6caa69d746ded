/** The bound on deliveries is reached: every packet of a message is sent ten times, as nothing is
    acknowledged, and every copy arrives, the first ones before all others. */
module NetworkTightness {
  import opened Bytes
  import opened Packets
  import opened Reassembly
  import opened Outbox
  import opened Transport
  import opened Network
  import opened NetworkInvariant
  import opened NetworkDeliveries

  // ---------- the arrivals ----------

  /** The first k packets of a message, one copy of each. */
  function Each(o: Origin, id: InnerKey, k: nat): History
    requires k <= o.Count()
  {
    if k == 0 then Fresh else Then(Each(o, id, k - 1), PacketAt(o.bytes, id, o.ret, k - 1))
  }

  function Again(once: History, n: nat): History {
    if n == 0 then Fresh else Again(once, n - 1).Append(once)
  }

  /** Every packet once, and then n times more. */
  function Copied(o: Origin, id: InnerKey, n: nat): History {
    Each(o, id, o.Count()).Append(Again(Each(o, id, o.Count()), n))
  }

  lemma {:induction false} EachIs(o: Origin, id: InnerKey, k: nat, origins: Origins)
    requires k <= o.Count() && id in origins && origins[id] == o
    ensures var h := Each(o, id, k);
            Honest(h, origins) && h.Seen(id) == Numbers(k) && h.Only(id).Length() == k
  {
    if k > 0 {
      EachIs(o, id, k - 1, origins);
      hide NumPackets, Origin.Count;
      assert Numbers(k) == Numbers(k - 1) + {k};
    }
  }

  lemma {:induction false} AppendIs(h: History, more: History, id: InnerKey, origins: Origins)
    requires Honest(h, origins) && Honest(more, origins)
    ensures Honest(h.Append(more), origins)
    ensures h.Append(more).Only(id).Length() == h.Only(id).Length() + more.Only(id).Length()
  {
    if more.Then? {
      hide FromOrigin;
      AppendIs(h, more.before, id, origins);
    }
  }

  lemma {:induction false} AgainIs(once: History, n: nat, id: InnerKey, origins: Origins)
    requires Honest(once, origins)
    ensures Honest(Again(once, n), origins)
    ensures Again(once, n).Only(id).Length() == Times(n, once.Only(id).Length())
  {
    hide Honest, History.Only, History.Length, History.Append, Times;
    OneTimeMore(n, once.Only(id).Length());
    if n == 0 {
      NothingAgain(id, origins);
    } else {
      AgainIs(once, n - 1, id, origins);
      AppendIs(Again(once, n - 1), once, id, origins);
    }
  }

  lemma NothingAgain(id: InnerKey, origins: Origins)
    ensures Honest(Fresh, origins) && Fresh.Only(id).Length() == 0
  {}

  lemma OneTimeMore(n: nat, k: nat)
    ensures Times(n, k) == if n == 0 then 0 else Times(n - 1, k) + k
  {}

  lemma DeliveriesOfCopies(o: Origin, id: InnerKey, n: nat)
    ensures DeliveryCount(Copied(o, id, n), id) == Times(n, o.Count()) + 1
  {
    var origins: Origins := map[id := o];
    var once := Each(o, id, o.Count());
    EachIs(o, id, o.Count(), origins);
    hide *;
    AgainIs(once, n, id, origins);
    AppendIs(once, Again(once, n), id, origins);
    assert Copied(o, id, n) == once.Append(Again(once, n)) by { CopiedIs(o, id, n); }
    FirstDelivery(once, id, o, origins);
    RedeliversOnEveryArrival(once, Again(once, n), id, origins);
  }

  lemma CopiedIs(o: Origin, id: InnerKey, n: nat)
    ensures Copied(o, id, n) == Each(o, id, o.Count()).Append(Again(Each(o, id, o.Count()), n))
  {}

  lemma FirstDelivery(once: History, id: InnerKey, o: Origin, origins: Origins)
    requires id in origins && origins[id] == o && Honest(once, origins)
    requires once.Seen(id) == Numbers(o.Count()) && once.Only(id).Length() == o.Count()
    ensures Complete(once, id, origins) && DeliveryCount(once, id) == 1
  {
    hide Honest, History.Seen, History.Only, DeliveryCount, Numbers;
    CountBound(once, id, origins);
  }

  // ---------- the wire ----------

  function Carrier(c: Config, l: Letter, p: Packet): Datagram {
    Datagram(l.from, c.visible(l.from, l.to), l.to, p)
  }

  /** The datagrams whose arrival makes up a history. */
  function Bag(c: Config, l: Letter, h: History): multiset<Datagram> {
    if h.Fresh? then multiset{} else Bag(c, l, h.before) + multiset{Carrier(c, l, h.last)}
  }

  function Repeated(ds: multiset<Datagram>, n: nat): multiset<Datagram> {
    if n == 0 then multiset{} else Repeated(ds, n - 1) + ds
  }

  function Wired(c: Config, l: Letter, id: InnerKey): multiset<Datagram> {
    multiset(OnWire(c, l.from, Burst(l.to, l.origin, id)))
  }

  lemma {:induction false} BagAppends(c: Config, l: Letter, h: History, more: History)
    ensures Bag(c, l, h.Append(more)) == Bag(c, l, h) + Bag(c, l, more)
  {
    if more.Then? { BagAppends(c, l, h, more.before); }
  }

  lemma {:induction false} BagAgain(c: Config, l: Letter, once: History, n: nat)
    ensures Bag(c, l, Again(once, n)) == Repeated(Bag(c, l, once), n)
  {
    if n > 0 {
      BagAgain(c, l, once, n - 1);
      BagAppends(c, l, Again(once, n - 1), once);
    }
  }

  lemma {:induction false} BagOfEach(c: Config, l: Letter, id: InnerKey, k: nat)
    requires k <= l.origin.Count()
    ensures Bag(c, l, Each(l.origin, id, k)) == multiset(OnWire(c, l.from, BurstOf(l.to, l.origin, id, k)))
  {
    if k > 0 {
      var x := (l.to, PacketAt(l.origin.bytes, id, l.origin.ret, k - 1));
      BurstGains(l.to, l.origin, id, k, x);
      BagGains(c, l, id, k);
      hide *;
      BagOfEach(c, l, id, k - 1);
      WireOneMore(c, l.from, BurstOf(l.to, l.origin, id, k - 1), x);
    }
  }

  lemma BagGains(c: Config, l: Letter, id: InnerKey, k: nat)
    requires 1 <= k <= l.origin.Count()
    ensures var x := (l.to, PacketAt(l.origin.bytes, id, l.origin.ret, k - 1));
            Bag(c, l, Each(l.origin, id, k))
            == Bag(c, l, Each(l.origin, id, k - 1)) + multiset{Datagram(l.from, c.visible(l.from, x.0), x.0, x.1)}
  {
    hide PacketAt, NumPackets;
  }

  lemma BurstGains(to: SocketAddr, o: Origin, id: InnerKey, k: nat, x: (SocketAddr, Packet))
    requires 1 <= k <= o.Count() && x == (to, PacketAt(o.bytes, id, o.ret, k - 1))
    ensures x !in BurstOf(to, o, id, k - 1) && BurstOf(to, o, id, k) == BurstOf(to, o, id, k - 1) + {x}
  {
    BurstLists(to, o, id, k - 1, x);
    assert x.1.n == k;
    hide PacketAt, NumPackets;
  }

  lemma WireOneMore(c: Config, a: SocketAddr, pairs: set<(SocketAddr, Packet)>, x: (SocketAddr, Packet))
    requires x !in pairs
    ensures multiset(OnWire(c, a, pairs + {x}))
         == multiset(OnWire(c, a, pairs)) + multiset{Datagram(a, c.visible(a, x.0), x.0, x.1)}
  {
    var d := Datagram(a, c.visible(a, x.0), x.0, x.1);
    assert OnWire(c, a, pairs + {x}) == OnWire(c, a, pairs) + {d};
    forall y | y in pairs ensures Datagram(a, c.visible(a, y.0), y.0, y.1) != d {
      assert y == (y.0, y.1) && x == (x.0, x.1);
    }
    assert d !in OnWire(c, a, pairs);
    hide OnWire;
    BagInsert(OnWire(c, a, pairs), d);
  }

  /** All copies of ten transmissions. */
  lemma BagOfCopies(c: Config, l: Letter, id: InnerKey, n: nat)
    ensures Bag(c, l, Copied(l.origin, id, n)) == Repeated(Wired(c, l, id), n + 1)
  {
    var once := Each(l.origin, id, l.origin.Count());
    BagOfEach(c, l, id, l.origin.Count());
    hide BurstOf, OnWire, Each, Bag, Origin.Count;
    BagAppends(c, l, once, Again(once, n));
    BagAgain(c, l, once, n);
  }

  // ---------- the rounds ----------

  /** The entries of the message's packets after j transmissions and no receipt. */
  function Aged(to: SocketAddr, o: Origin, id: InnerKey, j: nat): Outbox {
    map k | k in NewEntries(to, o, id, o.Count()) :: NewEntries(to, o, id, o.Count())[k].(attempts := j)
  }

  lemma AgedListed(to: SocketAddr, o: Origin, id: InnerKey, j: nat, k: Slot)
    ensures k in Aged(to, o, id, j) <==> k.id == id && 1 <= k.n <= o.Count()
    ensures k in Aged(to, o, id, j) ==>
              && Aged(to, o, id, j)[k] == Entry({to}, {}, PacketAt(o.bytes, id, o.ret, k.n - 1), j)
              && Aged(to, o, id, j)[k].packet.n == k.n
  {
    NewEntriesListed(to, o, id, o.Count());
    hide NewEntries, NumPackets;
  }

  lemma AgedIsNew(to: SocketAddr, o: Origin, id: InnerKey)
    ensures Aged(to, o, id, 1) == NewEntries(to, o, id, o.Count())
  {
    NewEntriesListed(to, o, id, o.Count());
    hide NewEntries, PacketAt, NumPackets;
  }

  lemma AgedMaintained(to: SocketAddr, o: Origin, id: InnerKey, j: nat)
    requires j < MAX_ATTEMPTS
    ensures Maintained(Aged(to, o, id, j)) == Aged(to, o, id, j + 1)
  {
    hide Aged, PacketAt, NumPackets, Origin.Count;
    forall k
      ensures k in Maintained(Aged(to, o, id, j)) <==> k in Aged(to, o, id, j + 1)
      ensures k in Aged(to, o, id, j + 1) ==> Maintained(Aged(to, o, id, j))[k] == Aged(to, o, id, j + 1)[k]
    {
      AgedListed(to, o, id, j, k);
      AgedListed(to, o, id, j + 1, k);
      OneMissing(to);
    }
  }

  lemma OneMissing(to: SocketAddr)
    ensures {to} - {} == {to} && |{to} - {}| == 1
  {}

  lemma AgedResends(to: SocketAddr, o: Origin, id: InnerKey, j: nat)
    requires j < MAX_ATTEMPTS
    ensures Resends(Aged(to, o, id, j), Aged(to, o, id, j).Keys) == Burst(to, o, id)
  {
    hide Aged, PacketAt, NumPackets, Origin.Count, BurstOf;
    var aged, keys := Aged(to, o, id, j), Aged(to, o, id, j).Keys;
    forall x ensures x in Resends(aged, keys) <==> x in Burst(to, o, id) {
      BurstLists(to, o, id, o.Count(), x);
      if x in Resends(aged, keys) {
        var k, y :| k in aged && y in aged[k].Missing() && x == (y, aged[k].packet);
        AgedListed(to, o, id, j, k);
      }
      if x in Burst(to, o, id) {
        var k := Slot(id, x.1.n);
        AgedListed(to, o, id, j, k);
        assert x.0 in aged[k].Missing() && x == (x.0, aged[k].packet);
      }
    }
  }

  // ---------- the run ----------

  /** After j transmissions, of which nothing has arrived yet. */
  ghost predicate Waiting(c: Config, s: Sys, a: SocketAddr, id: InnerKey, l: Letter, j: nat) {
    && s.nodes.Keys == c.nodes && a in s.nodes && l.from == a
    && s.letters == map[id := l]
    && s.nodes[a].outbox == Aged(l.to, l.origin, id, j)
    && s.net == Repeated(Wired(c, l, id), j)
    && (forall b :: b in s.nodes ==> s.nodes[b].history == Fresh)
  }

  function Waits(t: Trace, a: SocketAddr, n: nat): Trace {
    if n == 0 then t else Do(Waits(t, a, n - 1), Network.Round(a))
  }

  function Arrivals(c: Config, t: Trace, l: Letter, h: History): Trace {
    if h.Fresh? then t else Do(Arrivals(c, t, l, h.before), Receive(Carrier(c, l, h.last)))
  }

  lemma SendRuns(c: Config, a: SocketAddr, dst: SocketAddr, m: Message, id: InnerKey) returns (s: Sys)
    requires a in c.nodes && m.head != Ack
    ensures Exec(c, Do(Do(Start, Submit(a, dst, m)), Outgoing(a, id))) == Some(s)
    ensures Waiting(c, s, a, id, LetterFor(c, a, dst, m), 1)
  {
    var s0 := Init(c);
    var s1 := Next(c, s0, Submit(a, dst, m));
    assert s0.nodes[a].om + [(dst, m)] == [(dst, m)];
    assert Exec(c, Start) == Some(s0) && Enabled(c, s0, Submit(a, dst, m)) && Enabled(c, s1, Outgoing(a, id));
    var l := OutgoingEffect(c, s1, a, id);
    s := Next(c, s1, Outgoing(a, id));
    assert s1.nodes.Keys == c.nodes && s1.letters == map[] && s1.net == multiset{} && s1.nodes[a].om == [(dst, m)];
    assert s1.nodes[a].outbox == map[] && forall b :: b in s1.nodes ==> s1.nodes[b].history == Fresh;
    hide *;
    Continue(c, Start, Submit(a, dst, m), s0, s1);
    Continue(c, Do(Start, Submit(a, dst, m)), Outgoing(a, id), s1, s);
    FirstWaiting(c, s1, s, a, dst, m, id, l);
  }

  lemma FirstWaiting(c: Config, s1: Sys, s: Sys, a: SocketAddr, dst: SocketAddr, m: Message, id: InnerKey, l: Letter)
    requires OutgoingStep(c, s1, s, a, id, l) && s1.nodes[a].om == [(dst, m)] && m.head != Ack
    requires s1.nodes.Keys == c.nodes && s1.letters == map[] && s1.net == multiset{} && s1.nodes[a].outbox == map[]
    requires forall b :: b in s1.nodes ==> s1.nodes[b].history == Fresh
    ensures Waiting(c, s, a, id, LetterFor(c, a, dst, m), 1)
  {
    assert l.message.head != Ack && l == LetterFor(c, a, dst, m);
    FirstOutbox(s1.nodes[a], l, id);
    hide OutgoingNode, Aged, Burst, OnWire, LetterFor;
    assert s.letters == map[id := l];
    assert multiset{} + Wired(c, l, id) == Wired(c, l, id);
    assert Repeated(Wired(c, l, id), 0) == multiset{};
  }

  lemma FirstOutbox(node: Node, l: Letter, id: InnerKey)
    requires node.om != [] && node.outbox == map[] && l.message.head != Ack
    ensures OutgoingNode(node, l, id).outbox == Aged(l.to, l.origin, id, 1)
  {
    SentAllFresh(map[], l.to, l.origin, id, l.origin.Count());
    AgedIsNew(l.to, l.origin, id);
    hide SentAll, Aged, NewEntries;
    assert map[] + NewEntries(l.to, l.origin, id, l.origin.Count()) == NewEntries(l.to, l.origin, id, l.origin.Count());
  }

  lemma OneRound(c: Config, s: Sys, a: SocketAddr, id: InnerKey, l: Letter, j: nat)
    requires Waiting(c, s, a, id, l, j) && j < MAX_ATTEMPTS
    ensures Enabled(c, s, Network.Round(a)) && Waiting(c, Next(c, s, Network.Round(a)), a, id, l, j + 1)
  {
    RoundEffect(c, s, a);
    CanRound(c, s, a);
    hide *;
    NextWaiting(c, s, Next(c, s, Network.Round(a)), a, id, l, j);
  }

  lemma CanRound(c: Config, s: Sys, a: SocketAddr)
    requires a in s.nodes
    ensures Enabled(c, s, Network.Round(a))
  {}

  lemma NextWaiting(c: Config, s: Sys, t: Sys, a: SocketAddr, id: InnerKey, l: Letter, j: nat)
    requires Waiting(c, s, a, id, l, j) && j < MAX_ATTEMPTS && RoundStep(c, s, t, a)
    ensures Waiting(c, t, a, id, l, j + 1)
  {
    AgedMaintained(l.to, l.origin, id, j);
    AgedResends(l.to, l.origin, id, j);
    hide Aged, Maintained, Resends, Burst, OnWire;
  }

  lemma {:induction false} WaitsRun(c: Config, t: Trace, s: Sys, a: SocketAddr, id: InnerKey, l: Letter, n: nat)
      returns (s': Sys)
    requires Exec(c, t) == Some(s) && Waiting(c, s, a, id, l, 1) && n < MAX_ATTEMPTS
    ensures Exec(c, Waits(t, a, n)) == Some(s') && Waiting(c, s', a, id, l, n + 1)
  {
    hide Exec, Next, Enabled, Waiting;
    if n == 0 {
      s' := s;
    } else {
      var mid := WaitsRun(c, t, s, a, id, l, n - 1);
      OneRound(c, mid, a, id, l, n);
      s' := Next(c, mid, Network.Round(a));
      Continue(c, Waits(t, a, n - 1), Network.Round(a), mid, s');
    }
  }

  lemma {:induction false} ArrivalsRun(c: Config, t: Trace, s: Sys, l: Letter, h: History) returns (s': Sys)
    requires Exec(c, t) == Some(s)
    requires c.owner(l.from, l.to) in s.nodes && s.nodes[c.owner(l.from, l.to)].history == Fresh
    requires Bag(c, l, h) <= s.net
    ensures Exec(c, Arrivals(c, t, l, h)) == Some(s')
    ensures c.owner(l.from, l.to) in s'.nodes && s'.nodes[c.owner(l.from, l.to)].history == h
    ensures s'.letters == s.letters && s'.net == s.net - Bag(c, l, h)
  {
    hide Exec, Next, Enabled;
    if h.Fresh? {
      s' := s;
    } else {
      var mid := ArrivalsRun(c, t, s, l, h.before);
      var d := Carrier(c, l, h.last);
      assert d in mid.net;
      assert Enabled(c, mid, Receive(d)) by { CanReceive(c, mid, d); }
      ReceiveEffect(c, mid, d);
      s' := Next(c, mid, Receive(d));
      hide ReceiveNode;
      Continue(c, Arrivals(c, t, l, h.before), Receive(d), mid, s');
    }
  }

  lemma CanReceive(c: Config, s: Sys, d: Datagram)
    requires d in s.net && c.owner(d.from, d.dst) in s.nodes
    ensures Enabled(c, s, Receive(d))
  {}

  lemma {:induction false} WaitsRepeatNothing(t: Trace, a: SocketAddr, n: nat)
    requires NoDuplicates(t)
    ensures NoDuplicates(Waits(t, a, n))
  {
    if n > 0 { WaitsRepeatNothing(t, a, n - 1); }
  }

  lemma {:induction false} ArrivalsRepeatNothing(c: Config, t: Trace, l: Letter, h: History)
    requires NoDuplicates(t)
    ensures NoDuplicates(Arrivals(c, t, l, h))
  {
    if h.Then? { ArrivalsRepeatNothing(c, t, l, h.before); }
  }

  /** The message is sent, nine rounds send its packets again, and then everything arrives. */
  function LateRun(c: Config, a: SocketAddr, dst: SocketAddr, m: Message, id: InnerKey): Trace {
    var l := LetterFor(c, a, dst, m);
    Arrivals(c, Waits(Do(Do(Start, Submit(a, dst, m)), Outgoing(a, id)), a, MAX_ATTEMPTS - 1), l,
             Copied(l.origin, id, MAX_ATTEMPTS - 1))
  }

  /** The bound of 9p + 1 deliveries is reached, in every network whose message has a node to go to:
      for whatever message and id, with a medium that repeats nothing. */
  lemma DeliveriesReachTheBound(c: Config, a: SocketAddr, dst: SocketAddr, m: Message, id: InnerKey)
    requires c.codec.RoundTrips() && a in c.nodes && c.owner(a, Rewrite(a, dst)) in c.nodes && m.head != Ack
    ensures Exec(c, LateRun(c, a, dst, m, id)).Some? && NoDuplicates(LateRun(c, a, dst, m, id))
    ensures var s, x := Exec(c, LateRun(c, a, dst, m, id)).value, c.owner(a, Rewrite(a, dst));
            && id in s.letters && s.letters[id].message == m && x in s.nodes
            && TimesHandled(s.nodes[x].handled, id) == 9 * s.letters[id].origin.Count() + 1
  {
    var l, t := LetterFor(c, a, dst, m), Do(Do(Start, Submit(a, dst, m)), Outgoing(a, id));
    var h := Copied(l.origin, id, MAX_ATTEMPTS - 1);
    assert NoDuplicates(Do(Start, Submit(a, dst, m))) && NoDuplicates(t) && l.to == Rewrite(a, dst) && l.message == m;
    BagOfCopies(c, l, id, MAX_ATTEMPTS - 1);
    DeliveriesOfCopies(l.origin, id, MAX_ATTEMPTS - 1);
    assert Times(9, l.origin.Count()) == 9 * l.origin.Count();
    hide Exec, Bag, Repeated, Wired, Copied, NoDuplicates, LetterFor, Times, DeliveryCount, TimesHandled, Origin.Count,
         Aged;
    var s1 := SendRuns(c, a, dst, m, id);
    var s2 := WaitsRun(c, t, s1, a, id, l, MAX_ATTEMPTS - 1);
    var s3 := ArrivalsRun(c, Waits(t, a, MAX_ATTEMPTS - 1), s2, l, h);
    WaitsRepeatNothing(t, a, MAX_ATTEMPTS - 1);
    ArrivalsRepeatNothing(c, Waits(t, a, MAX_ATTEMPTS - 1), l, h);
    RunMatches(c, LateRun(c, a, dst, m, id));
    assert HandledMatches(s3);
  }
}
