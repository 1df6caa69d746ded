/** The timed duplicate filter of src/gossip/gossip.rs as a value, and what it promises over every
    run with a monotone clock. Times are in nanoseconds. */
module GossipCache {
  import opened Bytes
  import opened Packets

  datatype GossipMessage = GossipMessage(id: InnerKey, data: seq<byte>, sender: SocketAddr)

  datatype Config = Config(address: SocketAddr, interval: nat, historyLen: nat, historyGossip: nat,
                           decode: seq<byte> -> Option<GossipMessage>)
  {
    /** How long an id is remembered for sure. */
    function KeepFor(): nat {
      Times(AsU32(historyLen), interval)
    }

    /** How long a message is repeated. */
    function GossipFor(): nat {
      Times(AsU32(historyGossip), interval)
    }
  }

  /** The cast of a 64-bit count to 32 bits drops the high half. */
  function AsU32(n: nat): nat {
    n % 0x1_0000_0000
  }

  datatype Cached = Cached(message: Message, stamp: nat)

  datatype State = State(cache: map<InnerKey, Cached>, heartbeat: nat)

  /** A message that is taken from the channel at one time and stamped at another, or a call of
      gossip() with its two readings of the clock. */
  datatype Event =
    | Arrive(src: SocketAddr, msg: Message, at: nat, stamp: nat)
    | Tick(now: nat, beat: nat)

  /** Instant::duration_since, which does not go below zero. */
  function Since(now: nat, past: nat): nat {
    if now >= past then now - past else 0
  }

  /** What an arrival passes to the application. */
  function Delivered(cfg: Config, st: State, src: SocketAddr, msg: Message): Option<GossipMessage> {
    match cfg.decode(msg.msg)
    case None => None
    case Some(g) => if g.id in st.cache || src == cfg.address then None else Some(g)
  }

  function Arrived(cfg: Config, st: State, msg: Message, stamp: nat): State {
    match cfg.decode(msg.msg)
    case None => st
    case Some(g) => if g.id in st.cache then st else st.(cache := st.cache[g.id := Cached(msg, stamp)])
  }

  predicate Fires(cfg: Config, st: State, beat: nat) {
    Since(beat, st.heartbeat) > cfg.interval
  }

  /** What a call of gossip() publishes again. */
  function Republished(cfg: Config, st: State, now: nat, beat: nat): set<InnerKey> {
    if Fires(cfg, st, beat) then
      set k | k in st.cache && Since(now, st.cache[k].stamp) < cfg.GossipFor()
              && cfg.decode(st.cache[k].message.msg).Some?
    else {}
  }

  function Ticked(cfg: Config, st: State, now: nat, beat: nat): State {
    if Fires(cfg, st, beat) then
      State(map k | k in st.cache && Since(now, st.cache[k].stamp) <= cfg.KeepFor() :: st.cache[k], beat)
    else st
  }

  /** A heartbeat comes when more than the interval has passed since the last; it publishes what decodes
      and is younger than interval times history_gossip, and keeps what is no older than interval
      times history_len, both counts taken modulo 2^32. */
  lemma HeartbeatMeans(cfg: Config, st: State, now: nat, beat: nat, id: InnerKey)
    ensures var gossip := cfg.historyGossip % 4294967296 * cfg.interval;
            var keep := cfg.historyLen % 4294967296 * cfg.interval;
            var t := Ticked(cfg, st, now, beat);
            if beat > st.heartbeat + cfg.interval then
              && t.heartbeat == beat
              && (id in t.cache <==> id in st.cache && now <= st.cache[id].stamp + keep)
              && (id in t.cache ==> t.cache[id] == st.cache[id])
              && (id in Republished(cfg, st, now, beat) <==>
                    && id in st.cache && cfg.decode(st.cache[id].message.msg).Some?
                    && gossip > 0 && now < st.cache[id].stamp + gossip)
            else t == st && id !in Republished(cfg, st, now, beat)
  {
    SameProducts(cfg);
    hide Config.KeepFor, Config.GossipFor;
  }

  lemma SameProducts(cfg: Config)
    ensures cfg.KeepFor() == cfg.historyLen % 4294967296 * cfg.interval
    ensures cfg.GossipFor() == cfg.historyGossip % 4294967296 * cfg.interval
  {}

  function Step(cfg: Config, st: State, ev: Event): State {
    match ev
    case Arrive(_, msg, _, stamp) => Arrived(cfg, st, msg, stamp)
    case Tick(now, beat) => Ticked(cfg, st, now, beat)
  }

  function StateAfter(cfg: Config, st: State, events: seq<Event>): State {
    if events == [] then st
    else Step(cfg, StateAfter(cfg, st, events[..|events| - 1]), events[|events| - 1])
  }

  // ---------- the clock ----------

  function Start(ev: Event): nat {
    if ev.Arrive? then ev.at else ev.now
  }

  function End(ev: Event): nat {
    if ev.Arrive? then ev.stamp else ev.beat
  }

  function ClockAfter(clock: nat, events: seq<Event>): nat {
    if events == [] then clock else End(events[|events| - 1])
  }

  /** No reading of the clock is below an earlier one. */
  predicate Timely(clock: nat, events: seq<Event>) {
    events != [] ==>
      var k := |events| - 1;
      Timely(clock, events[..k]) && ClockAfter(clock, events[..k]) <= Start(events[k]) <= End(events[k])
  }

  lemma {:induction false} TimelyPrefix(clock: nat, events: seq<Event>, n: nat)
    requires Timely(clock, events) && n <= |events|
    ensures Timely(clock, events[..n]) && ClockAfter(clock, events[..n]) <= ClockAfter(clock, events)
  {
    if n < |events| {
      var k := |events| - 1;
      TimelyPrefix(clock, events[..k], n);
      assert events[..k][..n] == events[..n];
    } else {
      assert events[..n] == events;
    }
  }

  // ---------- how long an id is remembered ----------

  predicate Holds(st: State, id: InnerKey, stamp: nat) {
    id in st.cache && st.cache[id].stamp == stamp
  }

  /** Some heartbeat of the run found an entry of that age too old. */
  predicate Expired(cfg: Config, st: State, events: seq<Event>, stamp: nat) {
    events != [] &&
    var k := |events| - 1;
    var before := StateAfter(cfg, st, events[..k]);
    || Expired(cfg, st, events[..k], stamp)
    || (events[k].Tick? && Fires(cfg, before, events[k].beat) && Since(events[k].now, stamp) > cfg.KeepFor())
  }

  /** An id stays in the cache exactly until a heartbeat finds it older than interval * history_len. */
  lemma {:induction false} CachedUntilExpired(cfg: Config, st: State, clock: nat, events: seq<Event>,
                                              id: InnerKey, stamp: nat)
    requires Holds(st, id, stamp) && stamp <= clock && Timely(clock, events)
    ensures Holds(StateAfter(cfg, st, events), id, stamp) <==> !Expired(cfg, st, events, stamp)
    ensures Expired(cfg, st, events, stamp) ==> ClockAfter(clock, events) > stamp + cfg.KeepFor()
  {
    if events != [] {
      var k := |events| - 1;
      CachedUntilExpired(cfg, st, clock, events[..k], id, stamp);
      hide Times, AsU32;
      var before := StateAfter(cfg, st, events[..k]);
      assert StateAfter(cfg, st, events) == Step(cfg, before, events[k]);
    }
  }

  predicate Delivers(cfg: Config, st: State, ev: Event, id: InnerKey) {
    ev.Arrive? && Delivered(cfg, st, ev.src, ev.msg).Some? && Delivered(cfg, st, ev.src, ev.msg).value.id == id
  }

  lemma {:induction false} StateAfterSplits(cfg: Config, st: State, a: seq<Event>, b: seq<Event>)
    ensures StateAfter(cfg, st, a + b) == StateAfter(cfg, StateAfter(cfg, st, a), b)
  {
    if b == [] {
      assert a + b == a;
    } else {
      var k := |b| - 1;
      StateAfterSplits(cfg, st, a, b[..k]);
      assert (a + b)[..|a + b| - 1] == a + b[..k];
    }
  }

  lemma {:induction false} TimelySplits(clock: nat, a: seq<Event>, b: seq<Event>)
    requires Timely(clock, a + b)
    ensures Timely(ClockAfter(clock, a), b) && ClockAfter(clock, a + b) == ClockAfter(ClockAfter(clock, a), b)
  {
    if b == [] {
      assert a + b == a;
    } else {
      var k := |b| - 1;
      assert (a + b)[..|a + b| - 1] == a + b[..k];
      TimelySplits(clock, a, b[..k]);
    }
  }

  /** Two deliveries of one id to the application are more than interval * history_len apart. */
  lemma DeliveriesAreFarApart(cfg: Config, st: State, clock: nat, events: seq<Event>, i: nat, j: nat, id: InnerKey)
    requires Timely(clock, events) && i < j < |events|
    requires Delivers(cfg, StateAfter(cfg, st, events[..i]), events[i], id)
    requires Delivers(cfg, StateAfter(cfg, st, events[..j]), events[j], id)
    ensures events[j].at > events[i].stamp + cfg.KeepFor()
  {
    var first, between := events[..i + 1], events[i + 1..j];
    CutTwice(events, i, j);
    var seen := StateAfter(cfg, st, first);
    assert seen == Step(cfg, StateAfter(cfg, st, events[..i]), events[i]);
    DeliveryIsCached(cfg, StateAfter(cfg, st, events[..i]), events[i], id);
    DeliveryIsNew(cfg, StateAfter(cfg, st, events[..j]), events[j], id);
    TimelyPrefix(clock, events, j + 1);
    assert Timely(clock, events[..j]) && ClockAfter(clock, events[..j]) <= events[j].at;
    assert ClockAfter(clock, first) == events[i].stamp;
    hide *;
    StateAfterSplits(cfg, st, first, between);
    TimelySplits(clock, first, between);
    CachedUntilExpired(cfg, seen, events[i].stamp, between, id, events[i].stamp);
  }

  lemma CutTwice(events: seq<Event>, i: nat, j: nat)
    requires i < j < |events|
    ensures events[..j] == events[..i + 1] + events[i + 1..j]
    ensures events[..i + 1][..i] == events[..i] && events[..j + 1][..j] == events[..j]
  {}

  lemma DeliveryIsCached(cfg: Config, st: State, ev: Event, id: InnerKey)
    requires Delivers(cfg, st, ev, id)
    ensures ev.Arrive? && Holds(Step(cfg, st, ev), id, ev.stamp)
  {}

  lemma DeliveryIsNew(cfg: Config, st: State, ev: Event, id: InnerKey)
    requires Delivers(cfg, st, ev, id)
    ensures ev.Arrive? && forall stamp :: !Holds(st, id, stamp)
  {}

  // ---------- how a lifetime begins ----------

  /** The id is not in the cache before event i of the run, and from then on it is. */
  predicate Begins(cfg: Config, st: State, events: seq<Event>, id: InnerKey, i: nat) {
    && i < |events| && id !in StateAfter(cfg, st, events[..i]).cache
    && forall j :: i < j <= |events| ==> id in StateAfter(cfg, st, events[..j]).cache
  }

  lemma BeginsOnce(cfg: Config, st: State, events: seq<Event>, id: InnerKey, i: nat, k: nat)
    requires Begins(cfg, st, events, id, i) && Begins(cfg, st, events, id, k)
    ensures i == k
  {
    hide StateAfter;
  }

  /** An id enters the cache by an arrival, which is delivered if and only if it is from another node;
      while it is there it keeps its entry, and nothing is delivered under it. */
  lemma EntersByArrival(cfg: Config, before: State, ev: Event, id: InnerKey)
    ensures id in Step(cfg, before, ev).cache && id in before.cache ==>
              Step(cfg, before, ev).cache[id] == before.cache[id]
    ensures id in Step(cfg, before, ev).cache && id !in before.cache ==>
              && ev.Arrive? && cfg.decode(ev.msg.msg).Some? && cfg.decode(ev.msg.msg).value.id == id
              && Step(cfg, before, ev).cache[id] == Cached(ev.msg, ev.stamp)
              && (Delivers(cfg, before, ev, id) <==> ev.src != cfg.address)
    ensures id in before.cache ==> !Delivers(cfg, before, ev, id)
  {
    hide Times, AsU32;
  }

  /** Whatever a new service has in its cache at the end of a run came there by one arrival, and stayed;
      that arrival was delivered to the application if and only if it came from another node, and no
      later one was. */
  lemma {:induction false} LifetimeBegins(cfg: Config, st: State, events: seq<Event>, id: InnerKey) returns (i: nat)
    requires st.cache == map[] && id in StateAfter(cfg, st, events).cache
    ensures Begins(cfg, st, events, id, i) && events[i].Arrive?
    ensures forall m: nat :: Begins(cfg, st, events, id, m) ==> m == i
    ensures var g := cfg.decode(events[i].msg.msg); g.Some? && g.value.id == id
    ensures StateAfter(cfg, st, events).cache[id] == Cached(events[i].msg, events[i].stamp)
    ensures Delivers(cfg, StateAfter(cfg, st, events[..i]), events[i], id) <==> events[i].src != cfg.address
    ensures QuietAfter(cfg, st, events, id, i)
  {
    var k := |events| - 1;
    var before := StateAfter(cfg, st, events[..k]);
    EntersByArrival(cfg, before, events[k], id);
    assert StateAfter(cfg, st, events) == Step(cfg, before, events[k]);
    hide Step, StateAfter, Delivers, Begins, QuietAfter;
    if id in before.cache {
      i := LifetimeBegins(cfg, st, events[..k], id);
      BeginsStill(cfg, st, events, id, i);
      QuietStill(cfg, st, events, id, i);
    } else {
      i := k;
      BeginsHere(cfg, st, events, id);
    }
    forall m: nat | Begins(cfg, st, events, id, m) ensures m == i {
      BeginsOnce(cfg, st, events, id, i, m);
    }
  }

  /** Nothing is delivered under the id after event i. */
  predicate QuietAfter(cfg: Config, st: State, events: seq<Event>, id: InnerKey, i: nat) {
    forall j :: i < j < |events| ==> !Delivers(cfg, StateAfter(cfg, st, events[..j]), events[j], id)
  }

  lemma BeginsHere(cfg: Config, st: State, events: seq<Event>, id: InnerKey)
    requires events != [] && id in StateAfter(cfg, st, events).cache
    requires id !in StateAfter(cfg, st, events[..|events| - 1]).cache
    ensures Begins(cfg, st, events, id, |events| - 1) && QuietAfter(cfg, st, events, id, |events| - 1)
  {
    hide StateAfter;
    assert events[..|events|] == events;
  }

  lemma BeginsStill(cfg: Config, st: State, events: seq<Event>, id: InnerKey, i: nat)
    requires events != [] && id in StateAfter(cfg, st, events).cache
    requires Begins(cfg, st, events[..|events| - 1], id, i)
    ensures Begins(cfg, st, events, id, i) && events[..|events| - 1][..i] == events[..i]
  {
    hide StateAfter;
    var front := events[..|events| - 1];
    assert front[..i] == events[..i] && events[..|events|] == events;
    forall j | i < j <= |events| ensures id in StateAfter(cfg, st, events[..j]).cache {
      if j < |events| { assert front[..j] == events[..j]; }
    }
  }

  lemma QuietStill(cfg: Config, st: State, events: seq<Event>, id: InnerKey, i: nat)
    requires events != [] && i < |events| - 1 && QuietAfter(cfg, st, events[..|events| - 1], id, i)
    requires !Delivers(cfg, StateAfter(cfg, st, events[..|events| - 1]), events[|events| - 1], id)
    ensures QuietAfter(cfg, st, events, id, i)
  {
    hide StateAfter, Delivers;
    var front := events[..|events| - 1];
    forall j | i < j < |events| ensures !Delivers(cfg, StateAfter(cfg, st, events[..j]), events[j], id) {
      if j < |events| - 1 { assert front[..j] == events[..j] && front[j] == events[j]; }
    }
  }

  // ---------- how often a message is repeated ----------

  /** Nothing is dated in the future. */
  predicate Dated(st: State, clock: nat) {
    st.heartbeat <= clock && forall k :: k in st.cache ==> st.cache[k].stamp <= clock
  }

  lemma {:induction false} StaysDated(cfg: Config, st: State, clock: nat, events: seq<Event>)
    requires Dated(st, clock) && Timely(clock, events)
    ensures Dated(StateAfter(cfg, st, events), ClockAfter(clock, events))
  {
    if events != [] {
      StaysDated(cfg, st, clock, events[..|events| - 1]);
    }
  }

  /** A call of gossip() publishes the entry of the id with that stamp. */
  predicate RepeatsAt(cfg: Config, before: State, ev: Event, id: InnerKey, stamp: nat) {
    ev.Tick? && id in Republished(cfg, before, ev.now, ev.beat) && before.cache[id].stamp == stamp
  }

  /** How many calls of gossip() in the run do. */
  function Repeats(cfg: Config, st: State, events: seq<Event>, id: InnerKey, stamp: nat): nat {
    if events == [] then 0
    else
      var k := |events| - 1;
      Repeats(cfg, st, events[..k], id, stamp)
      + if RepeatsAt(cfg, StateAfter(cfg, st, events[..k]), events[k], id, stamp) then 1 else 0
  }

  /** The two readings of the clock in a call are at most d apart. */
  predicate SkewWithin(events: seq<Event>, d: nat) {
    forall i :: 0 <= i < |events| && events[i].Tick? ==> events[i].beat <= events[i].now + d
  }

  /** A run by its last event. */
  lemma LastEvent(cfg: Config, st: State, clock: nat, events: seq<Event>, id: InnerKey, stamp: nat)
    requires events != []
    ensures var k := |events| - 1;
            var before := StateAfter(cfg, st, events[..k]);
            && StateAfter(cfg, st, events) == Step(cfg, before, events[k])
            && Repeats(cfg, st, events, id, stamp)
               == Repeats(cfg, st, events[..k], id, stamp)
                  + (if RepeatsAt(cfg, before, events[k], id, stamp) then 1 else 0)
            && (Timely(clock, events)
                <==> Timely(clock, events[..k]) && ClockAfter(clock, events[..k]) <= Start(events[k]) <= End(events[k]))
            && ClockAfter(clock, events) == End(events[k])
  {
    hide Step, RepeatsAt;
  }

  /** An event that repeats an entry finds it young enough, and keeps it unless it is too old. */
  lemma RepeatIs(cfg: Config, before: State, ev: Event, id: InnerKey, stamp: nat)
    requires RepeatsAt(cfg, before, ev, id, stamp) && stamp <= ev.now
    ensures Holds(before, id, stamp) && ev.now - stamp < cfg.GossipFor()
    ensures Since(ev.beat, before.heartbeat) > cfg.interval && Step(cfg, before, ev).heartbeat == ev.beat
    ensures Holds(Step(cfg, before, ev), id, stamp) <==> ev.now - stamp <= cfg.KeepFor()
  {
    hide Times, AsU32;
  }

  /** Any event: an entry comes by an arrival and goes by a heartbeat that finds it too old. */
  lemma EventIs(cfg: Config, before: State, ev: Event, id: InnerKey, stamp: nat)
    ensures var after := Step(cfg, before, ev);
            && (after.heartbeat == before.heartbeat || (ev.Tick? && after.heartbeat == ev.beat))
            && (Holds(after, id, stamp) && !Holds(before, id, stamp) ==> ev.Arrive? && stamp == ev.stamp)
            && (Holds(before, id, stamp) && !Holds(after, id, stamp) ==>
                  ev.Tick? && Since(ev.now, stamp) > cfg.KeepFor())
  {
    hide Times, AsU32;
  }

  /** One cached lifetime of a message is repeated by at most history_gossip + 1 heartbeats, and by at
      most history_gossip if the two readings in a call are no more nanoseconds apart than that; so
      in particular if a call were to read the clock once. */
  lemma {:induction false} RepeatsAreBounded(cfg: Config, st: State, clock: nat, events: seq<Event>,
                                             id: InnerKey, stamp: nat)
    requires Dated(st, clock) && Timely(clock, events)
    ensures var n := Repeats(cfg, st, events, id, stamp);
            && n <= AsU32(cfg.historyGossip) + 1
            && (SkewWithin(events, AsU32(cfg.historyGossip)) ==> n <= AsU32(cfg.historyGossip))
            && (n >= 1 ==> StateAfter(cfg, st, events).heartbeat >= stamp + Times(n - 1, cfg.interval + 1))
  {
    hide Times, AsU32, Step, RepeatsAt;
    if events != [] {
      var k := |events| - 1;
      var before, n := StateAfter(cfg, st, events[..k]), Repeats(cfg, st, events[..k], id, stamp);
      LastEvent(cfg, st, clock, events, id, stamp);
      hide StateAfter, Repeats, Timely;
      StaysDated(cfg, st, clock, events[..k]);
      RepeatsAreBounded(cfg, st, clock, events[..k], id, stamp);
      EventIs(cfg, before, events[k], id, stamp);
      if RepeatsAt(cfg, before, events[k], id, stamp) {
        RepeatIsDated(cfg, before, events[k], id, stamp, ClockAfter(clock, events[..k]));
        OneMoreRepeat(n, AsU32(cfg.historyGossip), cfg.interval, stamp, before.heartbeat,
                      events[k].now, events[k].beat);
      }
    }
  }

  lemma RepeatIsDated(cfg: Config, before: State, ev: Event, id: InnerKey, stamp: nat, clock: nat)
    requires Dated(before, clock) && RepeatsAt(cfg, before, ev, id, stamp) && clock <= Start(ev) <= End(ev)
    ensures ev.Tick? && stamp <= ev.now <= ev.beat && before.heartbeat <= ev.now
    ensures Holds(before, id, stamp) && ev.now - stamp < Times(AsU32(cfg.historyGossip), cfg.interval)
    ensures ev.beat - before.heartbeat > cfg.interval && Step(cfg, before, ev).heartbeat == ev.beat
    ensures Holds(Step(cfg, before, ev), id, stamp) <==> ev.now - stamp <= cfg.KeepFor()
  {
    hide Times, AsU32;
    assert stamp <= clock;
    RepeatIs(cfg, before, ev, id, stamp);
  }

  /** What a further repetition says of its place in time. */
  lemma OneMoreRepeat(n: nat, most: nat, interval: nat, stamp: nat, heartbeat: nat, now: nat, beat: nat)
    requires n >= 1 ==> heartbeat >= stamp + Times(n - 1, interval + 1)
    requires stamp <= now <= beat && heartbeat <= now && beat - heartbeat > interval
    requires now - stamp < Times(most, interval)
    ensures n <= most && beat >= stamp + Times(n, interval + 1)
    ensures beat <= now + most || interval < most ==> n + 1 <= most
    ensures most >= 1
  {
    if n >= 1 {
      assert Times(n, interval + 1) == Times(n - 1, interval + 1) + interval + 1;
      assert Times(n, interval + 1) == Times(n, interval) + n;
      assert Times(n - 1, interval + 1) == Times(n - 1, interval) + n - 1;
      if most <= n - 1 { TimesMonotone(most, n - 1, interval); }
      if most <= n { TimesMonotone(most, n, interval); }
    }
  }

  // ---------- the exact condition for history_gossip ----------

  /** Some run of a new service can exceed history_gossip, with gossip and keep for the two history
      lengths: the readings have to be further apart than history_gossip nanoseconds, and the
      message has to stay in the cache for that long. */
  predicate CanExceed(gossip: nat, keep: nat, interval: nat, d: nat) {
    && 1 <= gossip <= interval && gossip < d
    && (gossip <= keep + 1 || (gossip == 2 && keep == 0 && interval < d))
  }

  /** An entry that is still there after n repetitions has not been found too old by the n-th. */
  lemma {:induction false} StillThere(cfg: Config, st: State, clock: nat, events: seq<Event>,
                                      id: InnerKey, stamp: nat, d: nat)
    requires Dated(st, clock) && Timely(clock, events) && SkewWithin(events, d)
    ensures var n, there := Repeats(cfg, st, events, id, stamp), Holds(StateAfter(cfg, st, events), id, stamp);
            && (there && n >= 2 ==> Times(n - 2, cfg.interval + 1) <= cfg.KeepFor())
            && (there && n >= 1 ==> Times(n - 1, cfg.interval + 1) <= cfg.KeepFor() + d)
            && (!there && n >= 1 ==> ClockAfter(clock, events) > stamp)
  {
    hide Times, AsU32, Step, RepeatsAt;
    if events != [] {
      var k := |events| - 1;
      var before, n := StateAfter(cfg, st, events[..k]), Repeats(cfg, st, events[..k], id, stamp);
      LastEvent(cfg, st, clock, events, id, stamp);
      RepeatsAreBounded(cfg, st, clock, events, id, stamp);
      hide StateAfter, Repeats, Timely;
      StaysDated(cfg, st, clock, events[..k]);
      RepeatsAreBounded(cfg, st, clock, events[..k], id, stamp);
      StillThere(cfg, st, clock, events[..k], id, stamp, d);
      EventIs(cfg, before, events[k], id, stamp);
      hide Holds, Config.KeepFor;
      if RepeatsAt(cfg, before, events[k], id, stamp) {
        RepeatIsDated(cfg, before, events[k], id, stamp, ClockAfter(clock, events[..k]));
      }
    }
  }

  /** No run exceeds history_gossip unless it can. */
  lemma {:induction false} NeverExceeds(cfg: Config, st: State, clock: nat, events: seq<Event>,
                                        id: InnerKey, stamp: nat, d: nat)
    requires Dated(st, clock) && Timely(clock, events) && SkewWithin(events, d)
    requires !CanExceed(AsU32(cfg.historyGossip), AsU32(cfg.historyLen), cfg.interval, d)
    ensures Repeats(cfg, st, events, id, stamp) <= AsU32(cfg.historyGossip)
  {
    hide Times, AsU32, Step, RepeatsAt, CanExceed;
    if events != [] {
      var k, most := |events| - 1, AsU32(cfg.historyGossip);
      var before, n := StateAfter(cfg, st, events[..k]), Repeats(cfg, st, events[..k], id, stamp);
      LastEvent(cfg, st, clock, events, id, stamp);
      hide StateAfter, Repeats, Timely;
      StaysDated(cfg, st, clock, events[..k]);
      RepeatsAreBounded(cfg, st, clock, events[..k], id, stamp);
      NeverExceeds(cfg, st, clock, events[..k], id, stamp, d);
      StillThere(cfg, st, clock, events[..k], id, stamp, d);
      if RepeatsAt(cfg, before, events[k], id, stamp) {
        RepeatIsDated(cfg, before, events[k], id, stamp, ClockAfter(clock, events[..k]));
        OneMoreRepeat(n, most, cfg.interval, stamp, before.heartbeat, events[k].now, events[k].beat);
        if n == most {
          OneTooMany(most, AsU32(cfg.historyLen), cfg.interval, stamp, events[k].now, events[k].beat, d);
        }
      }
    }
  }

  /** The arithmetic of one repetition too many. */
  lemma OneTooMany(most: nat, keep: nat, interval: nat, stamp: nat, now: nat, beat: nat, d: nat)
    requires 1 <= most <= interval
    requires beat >= stamp + Times(most, interval + 1) && now < stamp + Times(most, interval) && beat <= now + d
    requires most >= 2 ==> Times(most - 2, interval + 1) <= Times(keep, interval)
    requires Times(most - 1, interval + 1) <= Times(keep, interval) + d
    ensures CanExceed(most, keep, interval, d)
  {
    assert Times(most, interval + 1) == Times(most, interval) + most;
    if most >= 2 && keep <= most - 2 {
      assert Times(most - 2, interval + 1) == Times(most - 2, interval) + most - 2;
      TimesMonotone(keep, most - 2, interval);
      assert most == 2 && keep == 0;
      assert Times(1, interval + 1) == interval + 1 && Times(0, interval) == 0;
    }
  }

  // ---------- runs that exceed it ----------

  /** Evenly spaced heartbeats, as close to each other as they can be, with the given first readings. */
  function Beats(first: nat, nows: seq<nat>): seq<Event> {
    if nows == [] then []
    else Beats(first, nows[..|nows| - 1]) + [Tick(nows[|nows| - 1], Times(|nows|, first))]
  }

  /** The readings are in order, d before the beats at most, and early enough to repeat a message that
      is stamped first. */
  predicate InTime(cfg: Config, nows: seq<nat>, first: nat, d: nat) {
    forall j :: 0 <= j < |nows| ==>
      && first <= nows[j] && Times(j, first) <= nows[j] <= Times(j + 1, first) <= nows[j] + d
      && nows[j] < first + cfg.GossipFor()
  }

  /** All readings but the last are early enough for the message to stay. */
  predicate Stays(cfg: Config, nows: seq<nat>, first: nat) {
    forall j :: 0 <= j < |nows| - 1 ==> nows[j] <= first + cfg.KeepFor()
  }

  function OneCached(id: InnerKey, message: Message, first: nat): State {
    State(map[id := Cached(message, first)], 0)
  }

  lemma {:induction false} BeatsAreTimely(cfg: Config, nows: seq<nat>, first: nat, d: nat)
    requires InTime(cfg, nows, first, d)
    ensures var events := Beats(first, nows);
            && |events| == |nows| && Timely(first, events) && SkewWithin(events, d)
            && (nows != [] ==> ClockAfter(first, events) == Times(|nows|, first))
  {
    hide Times, AsU32, Timely;
    var n := |nows|;
    if n > 0 {
      var had := nows[..n - 1];
      FrontInTime(cfg, nows, first, d);
      assert Beats(first, nows) == Beats(first, had) + [Tick(nows[n - 1], Times(n, first))];
      BeatsAreTimely(cfg, had, first, d);
      hide Beats, InTime;
      TimelyMore(first, Beats(first, had), Tick(nows[n - 1], Times(n, first)));
    } else {
      NothingIsTimely(first);
    }
  }

  lemma FrontInTime(cfg: Config, nows: seq<nat>, first: nat, d: nat)
    requires nows != [] && InTime(cfg, nows, first, d)
    ensures var n := |nows|;
            && InTime(cfg, nows[..n - 1], first, d)
            && first <= nows[n - 1] && 0 <= Times(n - 1, first) <= nows[n - 1] <= Times(n, first) <= nows[n - 1] + d
            && nows[n - 1] < first + cfg.GossipFor()
            && (Stays(cfg, nows, first) ==> Stays(cfg, nows[..n - 1], first))
            && (Stays(cfg, nows, first) && n > 1 ==> nows[..n - 1][n - 2] <= first + cfg.KeepFor())
  {
    hide AsU32, Config.GossipFor, Config.KeepFor;
  }

  lemma NothingIsTimely(clock: nat)
    ensures Timely(clock, [])
  {}

  lemma TimelyMore(clock: nat, events: seq<Event>, ev: Event)
    requires Timely(clock, events) && ClockAfter(clock, events) <= Start(ev) <= End(ev)
    ensures Timely(clock, events + [ev])
  {
    assert (events + [ev])[..|events|] == events;
  }

  lemma {:induction false} EachBeatRepeats(cfg: Config, id: InnerKey, message: Message, nows: seq<nat>, d: nat)
    requires cfg.decode(message.msg).Some?
    requires InTime(cfg, nows, cfg.interval + 1, d) && Stays(cfg, nows, cfg.interval + 1)
    ensures var first, events := cfg.interval + 1, Beats(cfg.interval + 1, nows);
            var st := OneCached(id, message, first);
            && Repeats(cfg, st, events, id, first) == |nows|
            && (nows == [] || nows[|nows| - 1] <= first + cfg.KeepFor() ==>
                  StateAfter(cfg, st, events) == st.(heartbeat := Times(|nows|, first)))
  {
    hide AsU32, Config.GossipFor, Config.KeepFor;
    var first, n := cfg.interval + 1, |nows|;
    if n == 0 {
      assert Times(0, first) == 0;
    } else {
      var had := nows[..n - 1];
      FrontInTime(cfg, nows, first, d);
      assert Times(n, first) == Times(n - 1, first) + first;
      hide Times, InTime, Stays, Ticked, Republished, StateAfter, Repeats;
      EachBeatRepeats(cfg, id, message, had, d);
      assert Beats(first, nows) == Beats(first, had) + [Tick(nows[n - 1], Times(n, first))];
      hide Beats;
      BeatAfter(cfg, id, message, Beats(first, had), n - 1, nows[n - 1], Times(n - 1, first), Times(n, first));
    }
  }

  lemma BeatAfter(cfg: Config, id: InnerKey, message: Message, beats: seq<Event>, n: nat, now: nat, was: nat, beat: nat)
    requires cfg.decode(message.msg).Some? && beat == was + cfg.interval + 1
    requires cfg.interval + 1 <= now < cfg.interval + 1 + cfg.GossipFor()
    requires var st := OneCached(id, message, cfg.interval + 1);
             && StateAfter(cfg, st, beats) == st.(heartbeat := was)
             && Repeats(cfg, st, beats, id, cfg.interval + 1) == n
    ensures var st, events := OneCached(id, message, cfg.interval + 1), beats + [Tick(now, beat)];
            && Repeats(cfg, st, events, id, cfg.interval + 1) == n + 1
            && (now <= cfg.interval + 1 + cfg.KeepFor() ==> StateAfter(cfg, st, events) == st.(heartbeat := beat))
  {
    var st, last := OneCached(id, message, cfg.interval + 1), Tick(now, beat);
    hide StateAfter, Repeats, Republished, Ticked, Config.GossipFor, Config.KeepFor;
    OneMoreEvent(cfg, st, beats, last, id, cfg.interval + 1);
    TheBeat(cfg, st.(heartbeat := was), id, cfg.interval + 1, now, beat);
  }

  lemma OneMoreEvent(cfg: Config, st: State, events: seq<Event>, ev: Event, id: InnerKey, stamp: nat)
    ensures StateAfter(cfg, st, events + [ev]) == Step(cfg, StateAfter(cfg, st, events), ev)
    ensures var before := StateAfter(cfg, st, events);
            Repeats(cfg, st, events + [ev], id, stamp)
            == Repeats(cfg, st, events, id, stamp) + if RepeatsAt(cfg, before, ev, id, stamp) then 1 else 0
  {
    assert (events + [ev])[..|events|] == events;
    hide Step, RepeatsAt;
  }

  lemma TheBeat(cfg: Config, before: State, id: InnerKey, first: nat, now: nat, beat: nat)
    requires id in before.cache && before.cache.Keys == {id} && before.cache[id].stamp == first
    requires cfg.decode(before.cache[id].message.msg).Some?
    requires beat == before.heartbeat + cfg.interval + 1 && first <= now < first + cfg.GossipFor()
    ensures id in Republished(cfg, before, now, beat)
    ensures now <= first + cfg.KeepFor() ==> Ticked(cfg, before, now, beat) == before.(heartbeat := beat)
  {
    hide Times, AsU32;
  }

  lemma {:induction false} RepeatsSplit(cfg: Config, st: State, a: seq<Event>, b: seq<Event>, id: InnerKey, stamp: nat)
    ensures Repeats(cfg, st, a + b, id, stamp)
         == Repeats(cfg, st, a, id, stamp) + Repeats(cfg, StateAfter(cfg, st, a), b, id, stamp)
  {
    if b == [] {
      assert a + b == a;
    } else {
      var k := |b| - 1;
      RepeatsSplit(cfg, st, a, b[..k], id, stamp);
      StateAfterSplits(cfg, st, a, b[..k]);
      assert (a + b)[..|a + b| - 1] == a + b[..k];
      hide RepeatsAt, StateAfter;
    }
  }

  lemma {:induction false} TimelyJoins(clock: nat, a: seq<Event>, b: seq<Event>)
    requires Timely(clock, a) && Timely(ClockAfter(clock, a), b)
    ensures Timely(clock, a + b)
  {
    if b == [] {
      assert a + b == a;
    } else {
      var k := |b| - 1;
      TimelyJoins(clock, a, b[..k]);
      assert (a + b)[..|a + b| - 1] == a + b[..k];
      TimelySplits(clock, a, b[..k]);
    }
  }

  /** A new service that takes the message in and then has those heartbeats. */
  function RunOf(cfg: Config, src: SocketAddr, message: Message, nows: seq<nat>): seq<Event> {
    var first := cfg.interval + 1;
    [Arrive(src, message, first, first)] + Beats(first, nows)
  }

  lemma RunIs(cfg: Config, src: SocketAddr, message: Message, nows: seq<nat>, d: nat)
    ensures var first := cfg.interval + 1;
            var arrival, beats := [Arrive(src, message, first, first)], Beats(first, nows);
            && RunOf(cfg, src, message, nows) == arrival + beats
            && (SkewWithin(beats, d) ==> SkewWithin(arrival + beats, d))
  {
    hide Beats;
  }

  lemma RunRepeats(cfg: Config, src: SocketAddr, message: Message, nows: seq<nat>, d: nat)
    requires cfg.decode(message.msg).Some?
    requires InTime(cfg, nows, cfg.interval + 1, d) && Stays(cfg, nows, cfg.interval + 1)
    ensures var id, events := cfg.decode(message.msg).value.id, RunOf(cfg, src, message, nows);
            && Timely(0, events) && SkewWithin(events, d)
            && Repeats(cfg, State(map[], 0), events, id, cfg.interval + 1) == |nows|
  {
    var first, id := cfg.interval + 1, cfg.decode(message.msg).value.id;
    var arrival, beats := [Arrive(src, message, first, first)], Beats(first, nows);
    RunIs(cfg, src, message, nows, d);
    hide *;
    BeatsAreTimely(cfg, nows, first, d);
    EachBeatRepeats(cfg, id, message, nows, d);
    ArrivalIs(cfg, src, message, first);
    RepeatsSplit(cfg, State(map[], 0), arrival, beats, id, first);
    TimelyJoins(0, arrival, beats);
  }

  lemma ArrivalIs(cfg: Config, src: SocketAddr, message: Message, first: nat)
    requires cfg.decode(message.msg).Some?
    ensures var id, arrival := cfg.decode(message.msg).value.id, [Arrive(src, message, first, first)];
            && Timely(0, arrival) && ClockAfter(0, arrival) == first
            && StateAfter(cfg, State(map[], 0), arrival) == OneCached(id, message, first)
            && Repeats(cfg, State(map[], 0), arrival, id, first) == 0
  {
    var id, arrival := cfg.decode(message.msg).value.id, [Arrive(src, message, first, first)];
    assert [] + arrival == arrival;
    OneMoreEvent(cfg, State(map[], 0), [], arrival[0], id, first);
    assert arrival[..0] == [];
    hide Republished;
  }

  /** First readings that are late enough for one heartbeat too many: each is an interval after the
      one before, and the last is just in time. */
  function Readings(first: nat, interval: nat, n: nat): seq<nat> {
    seq(n, (j: int) requires 0 <= j => first + Times(j, interval))
  }

  function LateReadings(gossip: nat, keep: nat, interval: nat): seq<nat> {
    var first := interval + 1;
    (if gossip <= keep + 1 then Readings(first, interval, gossip) else [first, first])
    + [first + Times(gossip, interval) - 1]
  }

  lemma LateIsInTime(cfg: Config, d: nat)
    requires CanExceed(AsU32(cfg.historyGossip), AsU32(cfg.historyLen), cfg.interval, d)
    ensures var nows := LateReadings(AsU32(cfg.historyGossip), AsU32(cfg.historyLen), cfg.interval);
            && InTime(cfg, nows, cfg.interval + 1, d) && Stays(cfg, nows, cfg.interval + 1)
            && |nows| == AsU32(cfg.historyGossip) + 1
  {
    var gossip, keep, first := AsU32(cfg.historyGossip), AsU32(cfg.historyLen), cfg.interval + 1;
    var nows := LateReadings(gossip, keep, cfg.interval);
    assert |nows| == gossip + 1;
    forall j: nat | j < |nows| ensures Punctual(gossip, keep, cfg.interval, d, nows, j) {
      if j == gossip {
        LastReading(gossip, keep, cfg.interval, d);
      } else if gossip <= keep + 1 {
        EvenReading(gossip, keep, cfg.interval, d, j);
      } else {
        EarlyReading(gossip, cfg.interval, d, j);
      }
    }
    hide AsU32, Times, LateReadings;
    forall j: nat | j < |nows|
      ensures first <= nows[j] && Times(j, first) <= nows[j] <= Times(j + 1, first) <= nows[j] + d
      ensures nows[j] < first + cfg.GossipFor() && (j < gossip ==> nows[j] <= first + cfg.KeepFor())
    {
      assert Punctual(gossip, keep, cfg.interval, d, nows, j);
    }
  }

  predicate Punctual(gossip: nat, keep: nat, interval: nat, d: nat, nows: seq<nat>, j: nat)
    requires j < |nows|
  {
    var first, now := interval + 1, nows[j];
    && first <= now && Times(j, first) <= now <= Times(j + 1, first) <= now + d
    && now < first + Times(gossip, interval) && (j < gossip ==> now <= first + Times(keep, interval))
  }

  lemma LastReading(gossip: nat, keep: nat, interval: nat, d: nat)
    requires CanExceed(gossip, keep, interval, d)
    ensures var nows := LateReadings(gossip, keep, interval);
            |nows| == gossip + 1 && Punctual(gossip, keep, interval, d, nows, gossip)
  {
    var first := interval + 1;
    assert Times(gossip, first) == Times(gossip, interval) + gossip;
    assert Times(gossip + 1, first) == Times(gossip, first) + first;
    TimesMonotone(1, gossip, interval);
    assert Times(1, interval) == interval;
    assert LateReadings(gossip, keep, interval)[gossip] == first + Times(gossip, interval) - 1;
  }

  lemma EvenReading(gossip: nat, keep: nat, interval: nat, d: nat, j: nat)
    requires CanExceed(gossip, keep, interval, d) && gossip <= keep + 1 && j < gossip
    ensures var nows := LateReadings(gossip, keep, interval);
            |nows| == gossip + 1 && Punctual(gossip, keep, interval, d, nows, j)
  {
    var first := interval + 1;
    assert Times(j, first) == Times(j, interval) + j;
    assert Times(j + 1, first) == Times(j, first) + first;
    assert Times(j + 1, interval) == Times(j, interval) + interval;
    TimesMonotone(j + 1, gossip, interval);
    TimesMonotone(j, keep, interval);
    assert LateReadings(gossip, keep, interval)[j] == first + Times(j, interval);
  }

  lemma EarlyReading(gossip: nat, interval: nat, d: nat, j: nat)
    requires gossip == 2 && CanExceed(gossip, 0, interval, d) && j < gossip
    ensures var nows := LateReadings(gossip, 0, interval);
            |nows| == gossip + 1 && Punctual(gossip, 0, interval, d, nows, j)
  {
    var first := interval + 1;
    assert Times(0, first) == 0 && Times(1, first) == first && Times(2, first) == 2 * first;
    assert Times(2, interval) == 2 * interval && Times(0, interval) == 0;
    assert LateReadings(gossip, 0, interval)[j] == first;
  }

  /** Repetitions do exceed history_gossip: with the message taken in by a new service and dated by
      itself, whenever the condition holds. */
  lemma OneRepeatTooMany(cfg: Config, src: SocketAddr, message: Message, d: nat) returns (events: seq<Event>)
    requires cfg.decode(message.msg).Some?
    requires CanExceed(AsU32(cfg.historyGossip), AsU32(cfg.historyLen), cfg.interval, d)
    ensures Timely(0, events) && SkewWithin(events, d)
    ensures var id := cfg.decode(message.msg).value.id;
            Repeats(cfg, State(map[], 0), events, id, cfg.interval + 1) == AsU32(cfg.historyGossip) + 1
  {
    var nows := LateReadings(AsU32(cfg.historyGossip), AsU32(cfg.historyLen), cfg.interval);
    LateIsInTime(cfg, d);
    hide *;
    RunRepeats(cfg, src, message, nows, d);
    events := RunOf(cfg, src, message, nows);
  }

  /** history_gossip is kept by every run of a new service whose calls read the clock at most d apart. */
  ghost predicate KeepsHistory(cfg: Config, d: nat) {
    forall start: nat, events: seq<Event>, id: InnerKey, stamp: nat ::
      Timely(start, events) && SkewWithin(events, d) ==>
        Repeats(cfg, State(map[], start), events, id, stamp) <= AsU32(cfg.historyGossip)
  }

  /** The exact condition, for every configuration. */
  lemma HistoryKeptIff(cfg: Config, d: nat, message: Message)
    requires cfg.decode(message.msg).Some?
    ensures KeepsHistory(cfg, d)
       <==> !CanExceed(AsU32(cfg.historyGossip), AsU32(cfg.historyLen), cfg.interval, d)
  {
    hide Repeats, Timely, CanExceed, AsU32, SkewWithin;
    if CanExceed(AsU32(cfg.historyGossip), AsU32(cfg.historyLen), cfg.interval, d) {
      var events := OneRepeatTooMany(cfg, cfg.address, message, d);
    } else {
      forall start: nat, events: seq<Event>, id: InnerKey, stamp: nat | Timely(start, events) && SkewWithin(events, d)
        ensures Repeats(cfg, State(map[], start), events, id, stamp) <= AsU32(cfg.historyGossip)
      {
        assert Dated(State(map[], start), start);
        NeverExceeds(cfg, State(map[], start), start, events, id, stamp, d);
      }
    }
  }
}
