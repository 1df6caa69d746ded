/** Where messages end up: whatever the loopback rewrite does to the address, a message given for a node
    is handled by that node and by no other. */
module NetworkAddressing {
  import opened Bytes
  import opened Packets
  import opened Reassembly
  import opened Network
  import opened NetworkInvariant
  import opened NetworkTheorems
  import opened NetworkDeliveries

  /** Every node is reached under its own address, and from its own host under its port at 127.0.0.1. */
  ghost predicate Housed(c: Config) {
    forall a, n :: a in c.nodes && n in c.nodes ==>
      && c.owner(a, n) == n
      && (a.host == n.host ==> c.owner(a, SocketAddr(0x7F000001, n.port)) == n)
  }

  /** There are such networks, with any number of hosts, and with the same ports in use on all of them. */
  lemma HousedExists(c: Config)
    requires forall n :: n in c.nodes ==> n.host != 0x7F000001
    ensures Housed(c.(owner := (a: SocketAddr, x: SocketAddr) =>
              if x.host == 0x7F000001 then SocketAddr(a.host, x.port) else x))
  {}

  /** The node that the datagrams of a letter reach is the one the client meant. */
  lemma ReachesTheNodeMeant(c: Config, s: Sys, id: InnerKey)
    requires Housed(c) && Inv(c, s) && id in s.letters
    requires s.letters[id].message.head != Ack && s.letters[id].dst in c.nodes
    ensures c.owner(s.letters[id].from, s.letters[id].to) == s.letters[id].dst
  {
    LetterIsOk(c, s, id);
    hide Inv, AckMessageTrue;
    var l := s.letters[id];
    assert l.from in c.nodes && l.dst in c.nodes;
  }

  /** In every reachable state, a client's message for a node is handled nowhere else, and there it is
      handled once all its packets have arrived. */
  lemma HandledWhereItIsMeant(c: Config, t: Trace, a: SocketAddr, id: InnerKey)
    requires c.codec.RoundTrips() && Housed(c) && Exec(c, t).Some? && a in c.nodes
    requires var s := Exec(c, t).value;
             id in s.letters && s.letters[id].message.head != Ack && s.letters[id].dst in c.nodes
    ensures a in Exec(c, t).value.nodes
    ensures var s := Exec(c, t).value;
            TimesHandled(s.nodes[a].handled, id) > 0 <==>
              a == s.letters[id].dst && s.nodes[a].history.Seen(id) == Numbers(s.letters[id].origin.Count())
  {
    ReachableInv(c, t);
    RunMatches(c, t);
    var s := Exec(c, t).value;
    ReachesTheNodeMeant(c, s, id);
    assert s.nodes.Keys == c.nodes;
    hide *;
    HandledOnArrival(c, s, a, id);
    if TimesHandled(s.nodes[a].handled, id) > 0 {
      var i := WhenHandled(s.nodes[a].handled, id);
      HandledIsOk(c, s, a, i);
      HandledByOwner(c, s, a, id, s.nodes[a].handled[i].1);
    }
  }

  lemma HandledByOwner(c: Config, s: Sys, a: SocketAddr, id: InnerKey, m: Message)
    requires HandledOk(c, s, a, id, m)
    ensures id in s.letters && c.owner(s.letters[id].from, s.letters[id].to) == a
  {}

  lemma {:induction false} WhenHandled(handled: seq<(InnerKey, Message)>, id: InnerKey) returns (i: nat)
    requires TimesHandled(handled, id) > 0
    ensures i < |handled| && handled[i].0 == id
  {
    if handled[|handled| - 1].0 == id {
      i := |handled| - 1;
    } else {
      i := WhenHandled(handled[..|handled| - 1], id);
    }
  }

  /** A node handles a message exactly when it has seen all its packets. */
  lemma HandledOnArrival(c: Config, s: Sys, a: SocketAddr, id: InnerKey)
    requires Inv(c, s) && HandledMatches(s) && a in s.nodes && id in s.letters
    ensures TimesHandled(s.nodes[a].handled, id) > 0 <==>
              s.nodes[a].history.Seen(id) == Numbers(s.letters[id].origin.Count())
  {
    var h := s.nodes[a].history;
    assert NodeOk(c, s, a, s.nodes[a]) by { hide NodeOk, LetterOk, DatagramOk; }
    assert forall p :: p in h.Set() ==> FromOrigin(p, s.Origins()) by { hide Inv, FromOrigin, EntryOk, HandledOk; }
    assert id in s.Origins() && s.Origins()[id] == s.letters[id].origin;
    assert TimesHandled(s.nodes[a].handled, id) == DeliveryCount(h, id);
    hide Inv, NodeOk, HandledMatches, Sys.Origins, TimesHandled, DeliveryCount, Honest, FromOrigin, Numbers,
         History.Seen;
    HonestAll(h, s.Origins());
    CountBound(h, id, s.Origins());
  }
}
