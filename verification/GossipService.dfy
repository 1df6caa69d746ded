/** The gossip object of src/gossip/gossip.rs, proved against the functions of GossipCache. The
    readings of the clock are parameters. */
module GossipService {
  import opened Bytes
  import opened Keys
  import opened Packets
  import opened Trie
  import opened Closest
  import opened RoutingTables
  import opened Channels
  import opened GossipCache

  /** Number of peers asked for when publishing. */
  const GOSSIP_PEERS: nat := 30

  /** peers.len() as f64 * factor, cast to an unsigned integer. */
  function Picks(n: nat, factor: real): nat {
    if factor <= 0.0 then 0 else (n as real * factor).Floor
  }

  /** The number of picks is the product rounded down, and none for a factor that is not positive. */
  lemma PicksAre(n: nat, factor: real)
    ensures factor <= 0.0 ==> Picks(n, factor) == 0
    ensures factor > 0.0 ==> Picks(n, factor) as real <= n as real * factor < Picks(n, factor) as real + 1.0
  {
    if factor > 0.0 {
      assert n as real * factor >= 0.0;
    }
  }

  ghost function Targets(peers: seq<PeerInfo>, self: SocketAddr, src: SocketAddr): set<SocketAddr> {
    (set p | p in peers :: p.address) - {self, src}
  }

  /** The addresses at the indices picked. */
  ghost function Picked(peers: seq<PeerInfo>, picks: seq<nat>): set<SocketAddr>
    requires forall k :: k in picks ==> k < |peers|
  {
    set k | k in picks :: peers[k].address
  }

  /** What as many picks as the factor allows leave, without the source and the node itself. */
  ghost predicate Drawn(peers: seq<PeerInfo>, self: SocketAddr, src: SocketAddr, factor: real, picks: seq<nat>,
                        sample: set<SocketAddr>) {
    && |picks| == Picks(|peers|, factor)
    && (forall k :: k in picks ==> k < |peers|)
    && sample == Picked(peers, picks) - {self, src}
  }

  ghost function Served(sent: seq<(SocketAddr, Message)>): set<SocketAddr> {
    set x | x in sent :: x.0
  }

  /** One publication: each copy goes to another peer, none back to the source or to the node
      itself. With more than seven peers those picked are served, otherwise everybody is. */
  ghost predicate Publication(peers: seq<PeerInfo>, self: SocketAddr, src: SocketAddr, factor: real, message: Message,
                              sent: seq<(SocketAddr, Message)>) {
    && (forall i :: 0 <= i < |sent| ==> sent[i].1 == message)
    && (forall i, j :: 0 <= i < j < |sent| ==> sent[i].0 != sent[j].0)
    && if |peers| > 7 then exists picks :: Drawn(peers, self, src, factor, picks, Served(sent))
       else Served(sent) == Targets(peers, self, src)
  }

  /** No more copies are sent than picks are made, and at least one if there is a pick and none of the
      peers is the source or the node. */
  lemma PublicationSize(peers: seq<PeerInfo>, self: SocketAddr, src: SocketAddr, factor: real, message: Message,
                        sent: seq<(SocketAddr, Message)>)
    requires Publication(peers, self, src, factor, message, sent)
    ensures Served(sent) <= Targets(peers, self, src)
    ensures |peers| > 7 ==> |sent| <= Picks(|peers|, factor)
    ensures |peers| <= 7 ==> |sent| == |Targets(peers, self, src)|
    ensures |peers| > 7 && Picks(|peers|, factor) > 0 && (forall p :: p in peers ==> p.address !in {self, src}) ==>
              sent != []
  {
    DistinctServed(sent);
    hide Picks, Served, Targets, Drawn;
    if |peers| > 7 {
      var picks :| Drawn(peers, self, src, factor, picks, Served(sent));
      DrawnSize(peers, self, src, factor, picks, Served(sent));
    }
  }

  lemma DrawnSize(peers: seq<PeerInfo>, self: SocketAddr, src: SocketAddr, factor: real, picks: seq<nat>,
                  sample: set<SocketAddr>)
    requires Drawn(peers, self, src, factor, picks, sample)
    ensures sample <= Targets(peers, self, src) && |sample| <= Picks(|peers|, factor)
    ensures Picks(|peers|, factor) > 0 && (forall p :: p in peers ==> p.address !in {self, src}) ==> sample != {}
  {
    PickedAre(peers, picks);
    hide Picked, Picks;
    Smaller(sample, Picked(peers, picks));
    if |picks| > 0 {
      assert picks[0] in picks && peers[picks[0]] in peers;
      assert peers[picks[0]].address in Picked(peers, picks);
    }
  }

  lemma {:induction false} DistinctServed(sent: seq<(SocketAddr, Message)>)
    requires forall i, j :: 0 <= i < j < |sent| ==> sent[i].0 != sent[j].0
    ensures |Served(sent)| == |sent|
  {
    if sent != [] {
      var last := |sent| - 1;
      DistinctServed(sent[..last]);
      assert Served(sent) == Served(sent[..last]) + {sent[last].0} by {
        assert sent == sent[..last] + [sent[last]];
      }
      assert sent[last].0 !in Served(sent[..last]);
    }
  }

  lemma {:induction false} PickedAre(peers: seq<PeerInfo>, picks: seq<nat>)
    requires forall k :: k in picks ==> k < |peers|
    ensures |Picked(peers, picks)| <= |picks|
    ensures forall k :: k in picks ==> peers[k].address in Picked(peers, picks)
    ensures Picked(peers, picks) <= (set p | p in peers :: p.address)
  {
    if picks != [] {
      var last := |picks| - 1;
      assert forall k :: k in picks[..last] ==> k in picks;
      assert picks[last] in picks;
      PickedAre(peers, picks[..last]);
      PickedMore(peers, picks[..last], picks[last]);
      assert picks == picks[..last] + [picks[last]];
      assert peers[picks[last]] in peers;
    }
  }

  lemma PickedMore(peers: seq<PeerInfo>, picks: seq<nat>, k: nat)
    requires (forall j :: j in picks ==> j < |peers|) && k < |peers|
    ensures forall j :: j in picks + [k] ==> j < |peers|
    ensures Picked(peers, picks + [k]) == Picked(peers, picks) + {peers[k].address}
  {}

  lemma Smaller(a: set<SocketAddr>, b: set<SocketAddr>)
    requires a <= b
    ensures |a| <= |b|
  {
    assert b == a + (b - a);
  }

  /** The random picks from more than seven peers. */
  method Sample(peers: seq<PeerInfo>, self: SocketAddr, src: SocketAddr, factor: real)
    returns (sample: set<SocketAddr>)
    requires peers != []
    ensures exists picks :: Drawn(peers, self, src, factor, picks, sample)
  {
    sample := {};
    ghost var picks: seq<nat> := [];
    for i := 0 to Picks(|peers|, factor)
      invariant |picks| == i && forall k :: k in picks ==> k < |peers|
      invariant sample == Picked(peers, picks) - {self, src}
    {
      var rn :| 0 <= rn < |peers|;
      var address := peers[rn].address;
      PickedMore(peers, picks, rn);
      picks := picks + [rn];
      if address != src && address != self {
        sample := sample + {address};
      }
    }
    assert Drawn(peers, self, src, factor, picks, sample);
  }

  method Others(peers: seq<PeerInfo>, self: SocketAddr) returns (sample: set<SocketAddr>)
    ensures sample == (set p | p in peers :: p.address) - {self}
  {
    sample := {};
    for i := 0 to |peers|
      invariant sample == (set p | p in peers[..i] :: p.address) - {self}
    {
      assert peers[..i + 1] == peers[..i] + [peers[i]];
      if peers[i].address != self {
        sample := sample + {peers[i].address};
      }
    }
    assert peers[..|peers|] == peers;
  }

  lemma LessLeft(to: set<SocketAddr>, left: set<SocketAddr>, src: SocketAddr, a: SocketAddr)
    requires left <= to && a in left
    ensures left - {a} <= to && a !in to - left - {src}
    ensures to - (left - {a}) - {src} == if a != src then to - left - {src} + {a} else to - left - {src}
  {}

  /** One copy to each of the addresses. */
  ghost predicate SentTo(to: set<SocketAddr>, message: Message, sent: seq<(SocketAddr, Message)>) {
    && |sent| == |to|
    && (forall i :: 0 <= i < |sent| ==> sent[i].0 in to && sent[i].1 == message)
    && (forall i, j :: 0 <= i < j < |sent| ==> sent[i].0 != sent[j].0)
    && (forall a :: a in to ==> exists i :: 0 <= i < |sent| && sent[i].0 == a)
  }

  lemma NothingSent(message: Message)
    ensures SentTo({}, message, [])
  {}

  lemma OneMoreSent(to: set<SocketAddr>, a: SocketAddr, message: Message, sent: seq<(SocketAddr, Message)>)
    requires SentTo(to, message, sent) && a !in to
    ensures SentTo(to + {a}, message, sent + [(a, message)])
  {
    forall b | b in to + {a} ensures exists i :: 0 <= i < |sent| + 1 && (sent + [(a, message)])[i].0 == b {
      if b == a {
        assert (sent + [(a, message)])[|sent|].0 == b;
      } else {
        var i :| 0 <= i < |sent| && sent[i].0 == b;
        assert (sent + [(a, message)])[i].0 == b;
      }
    }
  }

  lemma SentIsServed(to: set<SocketAddr>, message: Message, sent: seq<(SocketAddr, Message)>)
    requires SentTo(to, message, sent)
    ensures Served(sent) == to
  {}

  lemma SentIsPublication(peers: seq<PeerInfo>, self: SocketAddr, src: SocketAddr, factor: real, message: Message,
                          gossipTo: set<SocketAddr>, sent: seq<(SocketAddr, Message)>)
    requires SentTo(gossipTo - {src}, message, sent)
    requires if |peers| > 7 then exists picks :: Drawn(peers, self, src, factor, picks, gossipTo)
             else gossipTo == (set p | p in peers :: p.address) - {self}
    ensures Publication(peers, self, src, factor, message, sent)
  {
    SentIsServed(gossipTo - {src}, message, sent);
    if |peers| > 7 {
      assert gossipTo - {src} == gossipTo by {
        var picks :| Drawn(peers, self, src, factor, picks, gossipTo);
        hide Picked, Picks;
      }
      hide Drawn;
    } else {
      assert gossipTo - {src} == Targets(peers, self, src);
    }
  }

  datatype Publishing = Publishing(id: InnerKey, sent: seq<(SocketAddr, Message)>)

  ghost function Flatten(log: seq<Publishing>): seq<(SocketAddr, Message)> {
    if log == [] then [] else Flatten(log[..|log| - 1]) + log[|log| - 1].sent
  }

  ghost predicate PublishedFrom(p: Publishing, view: Tree, local: Key, factor: real, cfg: Config,
                                cache: map<InnerKey, Cached>) {
    && p.id in cache && cfg.decode(cache[p.id].message.msg).Some?
    && var src := cfg.decode(cache[p.id].message.msg).value.sender;
       exists peers ::
         && Answer(view, local, local, GOSSIP_PEERS, peers)
         && Publication(peers, cfg.address, src, factor, cache[p.id].message, p.sent)
  }

  /** The publications of one heartbeat: exactly one for each id that is due. */
  ghost predicate LogOf(log: seq<Publishing>, due: set<InnerKey>, view: Tree, local: Key, factor: real, cfg: Config,
                        cache: map<InnerKey, Cached>) {
    && (forall i, j :: 0 <= i < j < |log| ==> log[i].id != log[j].id)
    && (forall k :: k in due <==> exists i :: 0 <= i < |log| && log[i].id == k)
    && (forall i :: 0 <= i < |log| ==> PublishedFrom(log[i], view, local, factor, cfg, cache))
  }

  lemma LogEmpty(view: Tree, local: Key, factor: real, cfg: Config, cache: map<InnerKey, Cached>)
    ensures Flatten([]) == [] && LogOf([], {}, view, local, factor, cfg, cache)
  {}

  lemma LogMore(log: seq<Publishing>, due: set<InnerKey>, view: Tree, local: Key, factor: real, cfg: Config,
                cache: map<InnerKey, Cached>, k: InnerKey, peers: seq<PeerInfo>, sent: seq<(SocketAddr, Message)>)
    requires LogOf(log, due, view, local, factor, cfg, cache) && k !in due
    requires k in cache && cfg.decode(cache[k].message.msg).Some?
    requires Answer(view, local, local, GOSSIP_PEERS, peers)
    requires var src := cfg.decode(cache[k].message.msg).value.sender;
             Publication(peers, cfg.address, src, factor, cache[k].message, sent)
    ensures LogOf(log + [Publishing(k, sent)], due + {k}, view, local, factor, cfg, cache)
    ensures Flatten(log + [Publishing(k, sent)]) == Flatten(log) + sent
  {
    hide Answer, Publication;
    var more := log + [Publishing(k, sent)];
    assert more[..|log|] == log;
    assert PublishedFrom(more[|log|], view, local, factor, cfg, cache);
    hide PublishedFrom;
    forall j ensures j in due + {k} <==> exists i :: 0 <= i < |more| && more[i].id == j {
      if j == k { assert more[|log|].id == j; }
      if j in due {
        var i :| 0 <= i < |log| && log[i].id == j;
        assert more[i].id == j;
      }
    }
  }

  /** The cache in the middle of a heartbeat, when the entries in left are still to be looked at. */
  function Swept(cache: map<InnerKey, Cached>, left: set<InnerKey>, now: nat, keep: nat): map<InnerKey, Cached> {
    map k | k in cache && (k in left || Since(now, cache[k].stamp) <= keep) :: cache[k]
  }

  lemma SweptAll(cfg: Config, st: State, now: nat, beat: nat)
    requires Fires(cfg, st, beat)
    ensures Swept(st.cache, st.cache.Keys, now, cfg.KeepFor()) == st.cache
    ensures Ticked(cfg, st, now, beat) == State(Swept(st.cache, {}, now, cfg.KeepFor()), beat)
    ensures Republished(cfg, st, now, beat) <= st.cache.Keys
  {}

  lemma SweptStep(cache: map<InnerKey, Cached>, left: set<InnerKey>, now: nat, keep: nat, k: InnerKey)
    requires k in left && k in cache
    ensures Swept(cache, left - {k}, now, keep)
         == Swept(cache, left, now, keep) - if Since(now, cache[k].stamp) > keep then {k} else {}
  {}

  lemma ServedStep(all: set<InnerKey>, left: set<InnerKey>, k: InnerKey)
    requires k in left
    ensures all - (left - {k}) == if k in all then all - left + {k} else all - left
  {}

  lemma DueIs(cfg: Config, st: State, now: nat, beat: nat, k: InnerKey)
    requires Fires(cfg, st, beat) && k in st.cache
    ensures k in Republished(cfg, st, now, beat)
       <==> Since(now, st.cache[k].stamp) < cfg.GossipFor() && cfg.decode(st.cache[k].message.msg).Some?
  {}

  class GossipService {
    const address: SocketAddr
    const cfg: Config
    const factor: real
    const table: RoutingTable
    const toTransport: Channel<(SocketAddr, Message)>
    const toApp: Channel<GossipMessage>
    var cache: map<InnerKey, Cached>
    var heartbeatAt: nat

    ghost predicate Valid()
      reads this, table, table.tree.Values
    {
      table.Valid() && cfg.address == address && toApp as object != toTransport
    }

    function View(): State
      reads this
    {
      State(cache, heartbeatAt)
    }

    constructor (address: SocketAddr, cfg: Config, factor: real, table: RoutingTable,
                 toTransport: Channel<(SocketAddr, Message)>, toApp: Channel<GossipMessage>, now: nat)
      requires table.Valid() && cfg.address == address && toApp as object != toTransport
      ensures Valid() && View() == State(map[], now)
      ensures this.address == address && this.cfg == cfg && this.factor == factor && this.table == table
      ensures this.toTransport == toTransport && this.toApp == toApp
    {
      this.address, this.cfg, this.factor, this.table := address, cfg, factor, table;
      this.toTransport, this.toApp := toTransport, toApp;
      this.cache, this.heartbeatAt := map[], now;
    }

    /** A false result stands for a panic in the routing table. */
    method Publish(src: SocketAddr, message: Message)
      returns (ok: bool, ghost peers: seq<PeerInfo>, ghost sent: seq<(SocketAddr, Message)>)
      requires Valid()
      modifies toTransport
      ensures toTransport.queue == old(toTransport.queue) + sent
      ensures ok ==> Answer(table.View(), table.localInfo.key, table.localInfo.key, GOSSIP_PEERS, peers)
      ensures ok ==> Publication(peers, address, src, factor, message, sent)
      ensures !ok ==> sent == []
    {
      hide All, TooDeep, Publication, SentTo, Targets, Bin;
      var closest := table.GetClosestPeers(table.localInfo, GOSSIP_PEERS);
      if closest.None? {
        return false, [], [];
      }
      hide Answer, Drawn;
      var gossipTo: set<SocketAddr>;
      if |closest.value| > 7 {
        gossipTo := Sample(closest.value, address, src, factor);
      } else {
        gossipTo := Others(closest.value, address);
      }
      ok, peers := true, closest.value;
      sent := SendToEach(gossipTo, src, message);
      SentIsPublication(peers, address, src, factor, message, gossipTo, sent);
    }

    method SendToEach(gossipTo: set<SocketAddr>, src: SocketAddr, message: Message)
      returns (ghost sent: seq<(SocketAddr, Message)>)
      modifies toTransport
      ensures toTransport.queue == old(toTransport.queue) + sent
      ensures SentTo(gossipTo - {src}, message, sent)
    {
      hide SentTo;
      sent := [];
      NothingSent(message);
      var left := gossipTo;
      assert gossipTo - left - {src} == {};
      while left != {}
        invariant left <= gossipTo
        invariant toTransport.queue == old(toTransport.queue) + sent
        invariant SentTo(gossipTo - left - {src}, message, sent)
      {
        var peer :| peer in left;
        LessLeft(gossipTo, left, src, peer);
        if peer != src {
          toTransport.Send((peer, message));
          OneMoreSent(gossipTo - left - {src}, peer, message, sent);
          sent := sent + [(peer, message)];
        }
        left := left - {peer};
      }
      assert gossipTo - left - {src} == gossipTo - {src};
    }

    /** Delivery comes before publication, and publication before the message is remembered. */
    method HandleMessage(src: SocketAddr, msg: Message, now: nat)
      returns (ok: bool, r: Option<GossipMessage>, ghost peers: seq<PeerInfo>, ghost sent: seq<(SocketAddr, Message)>)
      requires Valid()
      modifies this`cache, toTransport, toApp
      ensures var g := Delivered(cfg, old(View()), src, msg);
              && toApp.queue == old(toApp.queue) + (if g.Some? then [g.value] else [])
              && toTransport.queue == old(toTransport.queue) + sent
              && (g.None? ==> ok && sent == [])
              && (ok ==> r == g)
              && (ok && g.Some? ==> Answer(table.View(), table.localInfo.key, table.localInfo.key, GOSSIP_PEERS, peers))
              && (ok && g.Some? ==> Publication(peers, address, src, factor, msg, sent))
      ensures View() == if ok then Arrived(cfg, old(View()), msg, now) else old(View())
      ensures var g := cfg.decode(msg.msg);
              if g.Some? && g.value.id !in old(cache) && src != address then
                && toApp.queue == old(toApp.queue) + [g.value]
                && toTransport.queue == old(toTransport.queue) + sent
                && (ok ==> r == g && cache == old(cache)[g.value.id := Cached(msg, now)])
                && (ok ==> Publication(peers, address, src, factor, msg, sent))
              else
                && ok && r == None && toApp.queue == old(toApp.queue) && toTransport.queue == old(toTransport.queue)
                && cache == if g.Some? && g.value.id !in old(cache) then old(cache)[g.value.id := Cached(msg, now)]
                            else old(cache)
    {
      hide Answer, Publication;
      ok, r, peers, sent := true, None, [], [];
      var decoded := cfg.decode(msg.msg);
      if decoded.Some? && decoded.value.id !in cache {
        var message := decoded.value;
        if src != address {
          toApp.Send(message);
          ok, peers, sent := Publish(src, msg);
          if !ok {
            return;
          }
          cache := cache[message.id := Cached(msg, now)];
          return true, Some(message), peers, sent;
        } else {
          cache := cache[message.id := Cached(msg, now)];
        }
      }
    }

    method Heartbeat(now: nat) returns (fired: bool)
      modifies this`heartbeatAt
      ensures fired == Fires(cfg, old(View()), now)
      ensures heartbeatAt == if fired then now else old(heartbeatAt)
    {
      if Since(now, heartbeatAt) > cfg.interval {
        heartbeatAt := now;
        return true;
      }
      return false;
    }

    /** Publishes a cached message again if it is young enough. */
    method Repeat(entry: Cached, now: nat)
      returns (ok: bool, ghost due: bool, ghost peers: seq<PeerInfo>, ghost sent: seq<(SocketAddr, Message)>)
      requires Valid()
      modifies toTransport
      ensures due <==> Since(now, entry.stamp) < cfg.GossipFor() && cfg.decode(entry.message.msg).Some?
      ensures toTransport.queue == old(toTransport.queue) + sent
      ensures !ok || !due ==> sent == []
      ensures !due ==> ok
      ensures ok && due ==> Answer(table.View(), table.localInfo.key, table.localInfo.key, GOSSIP_PEERS, peers)
      ensures ok && due ==>
                Publication(peers, address, cfg.decode(entry.message.msg).value.sender, factor, entry.message, sent)
    {
      hide Answer, Publication;
      ok, due, peers, sent := true, false, [], [];
      if Since(now, entry.stamp) < cfg.GossipFor() {
        var gossipMessage := cfg.decode(entry.message.msg);
        if gossipMessage.Some? {
          due := true;
          ok, peers, sent := Publish(gossipMessage.value.sender, entry.message);
        }
      }
    }

    /** One call of gossip(): the first reading of the clock dates the messages, the second decides
        whether it is time for a heartbeat. The log lists the publications, one for each message
        that is due. */
    method Gossip(now: nat, beat: nat) returns (ok: bool, ghost log: seq<Publishing>)
      requires Valid()
      modifies this, toTransport
      ensures toTransport.queue == old(toTransport.queue) + Flatten(log)
      ensures ok ==> View() == Ticked(cfg, old(View()), now, beat)
      ensures ok ==> LogOf(log, Republished(cfg, old(View()), now, beat), table.View(), table.localInfo.key, factor,
                           cfg, old(cache))
    {
      hide LogOf, Publication, Answer, Flatten, Swept, Config.KeepFor, Config.GossipFor, Fires;
      var cacheClone := cache;
      ghost var before, view := View(), table.View();
      ghost var all := Republished(cfg, before, now, beat);
      log, ok := [], true;
      LogEmpty(view, table.localInfo.key, factor, cfg, cacheClone);
      var fired := Heartbeat(beat);
      if fired {
        var left := cacheClone.Keys;
        SweptAll(cfg, before, now, beat);
        assert all - left == {};
        hide Republished, Ticked;
        while left != {}
          invariant ok && left <= cacheClone.Keys && heartbeatAt == beat
          invariant cache == Swept(cacheClone, left, now, cfg.KeepFor())
          invariant toTransport.queue == old(toTransport.queue) + Flatten(log)
          invariant LogOf(log, all - left, view, table.localInfo.key, factor, cfg, cacheClone)
        {
          var key :| key in left;
          var entry := cacheClone[key];
          DueIs(cfg, before, now, beat, key);
          SweptStep(cacheClone, left, now, cfg.KeepFor(), key);
          ServedStep(all, left, key);
          ghost var due, peers, sent;
          ok, due, peers, sent := Repeat(entry, now);
          if !ok {
            return;
          }
          if due {
            LogMore(log, all - left, view, table.localInfo.key, factor, cfg, cacheClone, key, peers, sent);
            log := log + [Publishing(key, sent)];
          }
          if Since(now, entry.stamp) > cfg.KeepFor() {
            cache := cache - {key};
          }
          left := left - {key};
        }
        assert all - left == all;
      } else {
        assert all == {};
      }
    }

    /** Takes a message off the channel, if there is one, and passes on what the handler returns: what is
        new and from another node goes to the application twice and to the transport, and nothing else. */
    method Recv(incoming: Channel<(SocketAddr, Message)>, tx: Channel<GossipMessage>, now: nat)
      returns (ok: bool, ghost peers: seq<PeerInfo>, ghost sent: seq<(SocketAddr, Message)>)
      requires Valid() && incoming as object != toTransport && incoming as object != toApp
      requires tx as object != toTransport && tx as object != toApp && incoming as object != tx
      modifies this`cache, toTransport, toApp, incoming, tx
      ensures old(incoming.queue) == [] ==>
                && ok && View() == old(View()) && incoming.queue == []
                && tx.queue == old(tx.queue) && toApp.queue == old(toApp.queue)
                && toTransport.queue == old(toTransport.queue)
      ensures old(incoming.queue) != [] ==>
                var (src, msg) := old(incoming.queue)[0];
                var g := cfg.decode(msg.msg);
                && incoming.queue == old(incoming.queue)[1..]
                && (ok ==> View() == Arrived(cfg, old(View()), msg, now))
                && if g.Some? && g.value.id !in old(cache) && src != address then
                     && toApp.queue == old(toApp.queue) + [g.value]
                     && toTransport.queue == old(toTransport.queue) + sent
                     && (ok ==> tx.queue == old(tx.queue) + [g.value])
                     && (ok ==> Publication(peers, address, src, factor, msg, sent))
                   else
                     && ok && tx.queue == old(tx.queue) && toApp.queue == old(toApp.queue)
                     && toTransport.queue == old(toTransport.queue)
    {
      hide Answer, Publication, Arrived, Delivered;
      peers, sent := [], [];
      var res := incoming.TryRecv();
      if res.None? {
        return true, [], [];
      }
      var message;
      ok, message, peers, sent := HandleMessage(res.value.0, res.value.1, now);
      if ok && message.Some? {
        tx.Send(message.value);
      }
    }
  }
}
