/** Tables that updates do reach: any prefix of any peer's binary form can be filled up to. So the
    shortcomings of the routing table are shown on tables of running nodes. */
module Filling {
  import opened Bytes
  import opened Keys
  import opened Packets
  import opened Prefixes
  import opened Trie
  import opened Closest

  // ---------- fresh ids ----------

  lemma {:induction false} LongerThanAll(ids: set<PeerId>) returns (n: nat)
    ensures forall id :: id in ids ==> |id.hash| < n
  {
    if ids == {} {
      n := 0;
    } else {
      var id :| id in ids;
      var m := LongerThanAll(ids - {id});
      n := m + |id.hash| + 1;
    }
  }

  /** A new peer with a given key. */
  lemma FreshPeer(ids: set<PeerId>, key: Key) returns (p: PeerInfo)
    ensures p.id !in ids && p.key == key
  {
    var n := LongerThanAll(ids);
    p := PeerInfo(PeerId(seq(n, i => 'x')), key, SocketAddr(0, 0));
    assert |p.id.hash| == n;
  }

  // ---------- filling the chain above a prefix ----------

  function Room(b: Bucket): nat {
    if |b| <= MAX_BUCKET_LEN then MAX_BUCKET_LEN - |b| else 0
  }

  /** The free places under the first m prefixes of bin. */
  function Free(tree: Tree, bin: string, m: nat): nat
    requires m <= |bin|
  {
    if m == 0 then 0 else Free(tree, bin, m - 1) + Room(BucketAt(tree, bin[..m]))
  }

  lemma {:induction false} FreeDrops(tree: Tree, t: Tree, bin: string, m: nat, i: nat)
    requires m <= |bin| && 1 <= i <= |bin| && bin[..i] in t && t == tree[bin[..i] := t[bin[..i]]]
    requires |BucketAt(tree, bin[..i])| < MAX_BUCKET_LEN && |t[bin[..i]]| == |BucketAt(tree, bin[..i])| + 1
    ensures Free(t, bin, m) + (if i <= m then 1 else 0) == Free(tree, bin, m)
  {
    if m > 0 {
      FreeDrops(tree, t, bin, m - 1, i);
      assert m != i ==> bin[..m] != bin[..i] by { assert |bin[..m]| == m && |bin[..i]| == i; }
    }
  }

  /** What grows when new peers with one key enter along its binary form: buckets under its prefixes
      of at most n characters, and nobody else's copies. */
  ghost predicate Grown(tree: Tree, t: Tree, bin: string, n: nat, key: Key) {
    && (forall k, q :: k in t && q in t[k] ==>
          (k in tree && q in tree[k]) || (q.key == key && q.id !in KnownIds(tree)))
    && (forall k :: k in t ==> k in tree || (k <= bin && |k| <= n))
    && (forall id :: id in KnownIds(tree) ==> id in KnownIds(t) && Copies(t, id) == Copies(tree, id))
    && (forall q :: q in Stored(tree) ==> q in Stored(t))
  }

  /** Peers that fill the chain of a key's prefixes until the bucket of the prefix of n characters has
      size entries. */
  ghost predicate Fills(tree: Tree, local: Key, key: Key, n: nat, size: nat, peers: seq<PeerInfo>) {
    && (forall p :: p in peers ==> p.key == key)
    && Run(tree, local, peers).Some?
    && var t, bin := Run(tree, local, peers).value, Binary(Distance(local, key));
    && n <= |bin| && TrieInv(t, local) && Grown(tree, t, bin, n, key)
    && |BucketAt(t, bin[..n])| == size
  }

  /** One more peer. */
  lemma OneMore(tree: Tree, local: Key, p: PeerInfo, n: nat)
    requires TrieInv(tree, local) && p.id !in KnownIds(tree)
    requires 1 <= n <= |Bin(local, p)| && |BucketAt(tree, Bin(local, p)[..n])| < MAX_BUCKET_LEN
    ensures Updated(tree, local, p, 0).Some?
    ensures var t, i := Updated(tree, local, p, 0).value, FirstOpen(tree, Bin(local, p), 0).value + 1;
            && 1 <= i <= n && TrieInv(t, local) && Inserted(tree, t, Bin(local, p)[..i], p)
            && |BucketAt(tree, Bin(local, p)[..i])| < MAX_BUCKET_LEN
            && |BucketAt(t, Bin(local, p)[..n])| == |BucketAt(tree, Bin(local, p)[..n])| + (if i == n then 1 else 0)
            && Free(t, Bin(local, p), n) < Free(tree, Bin(local, p), n)
  {
    var bin := Bin(local, p);
    hide Bin, TrieInv, Inserted, Upsert, KnownIds, Ids, Free;
    var i := FirstRoom(tree, local, p, n);
    hide Updated, FirstOpen, Open;
    UpdateRefinesInsertion(tree, local, p);
    UpdateKeepsInv(tree, local, p);
    UpdateSize(tree, local, p, bin[..i]);
    var t := Updated(tree, local, p, 0).value;
    HeldIsKnown(tree, bin[..i]);
    FreeDrops(tree, t, bin, n, i);
    assert |bin[..n]| == n && |bin[..i]| == i;
  }

  lemma FirstRoom(tree: Tree, local: Key, p: PeerInfo, n: nat) returns (i: nat)
    requires 1 <= n <= |Bin(local, p)| && |BucketAt(tree, Bin(local, p)[..n])| < MAX_BUCKET_LEN
    ensures Updated(tree, local, p, 0).Some? && FirstOpen(tree, Bin(local, p), 0) == Some(i - 1) && 1 <= i <= n
    ensures |BucketAt(tree, Bin(local, p)[..i])| < MAX_BUCKET_LEN
  {
    var bin := Bin(local, p);
    hide Bin, Upsert;
    FirstOpenIs(tree, bin, 0);
    assert Open(tree, bin, n - 1);
    i := FirstOpen(tree, bin, 0).value + 1;
    assert Open(tree, bin, i - 1);
  }

  lemma HeldIsKnown(tree: Tree, k: string)
    ensures Ids(BucketAt(tree, k)) <= KnownIds(tree)
  {
    forall id | id in Ids(BucketAt(tree, k)) ensures id in KnownIds(tree) {
      var q :| q in BucketAt(tree, k) && q.id == id;
      assert q in Stored(tree);
    }
  }

  lemma NothingGrown(tree: Tree, bin: string, n: nat, key: Key)
    ensures Grown(tree, tree, bin, n, key)
  {}

  lemma GrownOnce(tree: Tree, t: Tree, bin: string, i: nat, n: nat, p: PeerInfo)
    requires i <= n <= |bin| && Inserted(tree, t, bin[..i], p) && p.id !in KnownIds(tree)
    ensures Grown(tree, t, bin, n, p.key)
  {
    forall q | q in Stored(tree) ensures q in Stored(t) {
      assert q.id in KnownIds(tree);
      var j :| j in tree && q in tree[j];
      if j == bin[..i] { assert q in t[j]; }
      assert j in t && q in t[j];
    }
  }

  lemma GrownTwice(tree: Tree, m: Tree, t: Tree, bin: string, n: nat, key: Key)
    requires Grown(tree, m, bin, n, key) && Grown(m, t, bin, n, key)
    ensures Grown(tree, t, bin, n, key)
  {
    hide KnownIds, Copies, Stored;
  }

  lemma {:induction false} Fill(tree: Tree, local: Key, key: Key, n: nat, size: nat) returns (peers: seq<PeerInfo>)
    requires TrieInv(tree, local) && 1 <= n <= |Binary(Distance(local, key))|
    requires |BucketAt(tree, Binary(Distance(local, key))[..n])| <= size <= MAX_BUCKET_LEN
    ensures Fills(tree, local, key, n, size, peers)
    decreases Free(tree, Binary(Distance(local, key)), n)
  {
    var bin := Binary(Distance(local, key));
    hide *;
    if |BucketAt(tree, bin[..n])| == size {
      peers := [];
      FillsNone(tree, local, key, n);
    } else {
      var p, t := Enter(tree, local, key, n);
      var rest := Fill(t, local, key, n, size);
      peers := [p] + rest;
      FillsLater(tree, t, local, p, n, size, rest);
    }
  }

  /** One step of filling up. */
  lemma Enter(tree: Tree, local: Key, key: Key, n: nat) returns (p: PeerInfo, t: Tree)
    requires TrieInv(tree, local) && 1 <= n <= |Binary(Distance(local, key))|
    requires |BucketAt(tree, Binary(Distance(local, key))[..n])| < MAX_BUCKET_LEN
    ensures p.key == key && Updated(tree, local, p, 0) == Some(t) && TrieInv(t, local)
    ensures var bin := Binary(Distance(local, p.key));
            && Grown(tree, t, bin, n, p.key) && Free(t, bin, n) < Free(tree, bin, n)
            && |BucketAt(t, bin[..n])| <= |BucketAt(tree, bin[..n])| + 1
  {
    var bin := Binary(Distance(local, key));
    p := FreshPeer(KnownIds(tree), key);
    assert Bin(local, p) == bin;
    hide *;
    OneMore(tree, local, p, n);
    t := Updated(tree, local, p, 0).value;
    GrownOnce(tree, t, bin, FirstOpen(tree, bin, 0).value + 1, n, p);
  }

  lemma FillsNone(tree: Tree, local: Key, key: Key, n: nat)
    requires TrieInv(tree, local) && n <= |Binary(Distance(local, key))|
    ensures Fills(tree, local, key, n, |BucketAt(tree, Binary(Distance(local, key))[..n])|, [])
  {
    hide TrieInv, Binary, Distance, Grown, BucketAt;
    NothingGrown(tree, Binary(Distance(local, key)), n, key);
  }

  lemma FillsLater(tree: Tree, t: Tree, local: Key, p: PeerInfo, n: nat, size: nat, rest: seq<PeerInfo>)
    requires Updated(tree, local, p, 0) == Some(t)
    requires Grown(tree, t, Binary(Distance(local, p.key)), n, p.key) && Fills(t, local, p.key, n, size, rest)
    ensures Fills(tree, local, p.key, n, size, [p] + rest)
  {
    hide TrieInv, Updated, Binary, Distance, Grown, BucketAt;
    var peers := [p] + rest;
    assert peers[1..] == rest;
    assert Run(tree, local, peers) == Run(t, local, rest);
    GrownTwice(tree, t, Run(t, local, rest).value, Binary(Distance(local, p.key)), n, p.key);
  }

  // ---------- what such tables show ----------

  lemma {:induction false} RunConcat(tree: Tree, local: Key, peers: seq<PeerInfo>, more: seq<PeerInfo>)
    requires Run(tree, local, peers).Some?
    ensures Run(tree, local, peers + more) == Run(Run(tree, local, peers).value, local, more)
    decreases |peers|
  {
    hide Updated;
    if peers == [] {
      assert peers + more == more;
    } else {
      assert (peers + more)[1..] == peers[1..] + more;
      RunConcat(Updated(tree, local, peers[0], 0).value, local, peers[1..], more);
    }
  }

  lemma RunAppend(tree: Tree, local: Key, peers: seq<PeerInfo>, p: PeerInfo)
    requires Run(tree, local, peers).Some?
    ensures Run(tree, local, peers + [p]) == Updated(Run(tree, local, peers).value, local, p, 0)
  {
    RunConcat(tree, local, peers, [p]);
    assert [p][1..] == [];
  }

  /** Whatever the local peer, a reachable table holds two copies of it: the bucket of "0" fills up,
      and entering the local peer again, as a bootstrap does, puts it under "00" as well. */
  lemma TwoCopies(info: PeerInfo) returns (peers: seq<PeerInfo>)
    ensures Run(New(info), info.key, peers + [info]).Some?
    ensures Copies(Run(New(info), info.key, peers + [info]).value, info.id) == {"0", "00"}
  {
    var local, tree := info.key, New(info);
    NewInv(info);
    ZeroForm(local);
    LocalCopy(info);
    assert "00" !in tree;
    hide New, TrieInv, Binary, Distance, Copies;
    peers := Fill(tree, local, local, 2, 1);
    var t := Run(tree, local, peers).value;
    RunAppend(tree, local, peers, info);
    hide Run;
    assert TrieInv(t, local) && "00" in t && Copies(t, info.id) == {"0"};
    hide Fills, KnownIds, Grown;
    SecondCopy(t, info);
  }

  lemma SecondCopy(t: Tree, info: PeerInfo)
    requires TrieInv(t, info.key) && "00" in t && |t["00"]| == 1 && Copies(t, info.id) == {"0"}
    ensures Updated(t, info.key, info, 0).Some?
    ensures Copies(Updated(t, info.key, info, 0).value, info.id) == {"0", "00"}
  {
    hide TrieInv, Copies, Inserted;
    var bin := Bin(info.key, info);
    ZeroForm(info.key);
    hide Binary, Distance;
    assert "00"[..1] == "0";
    FullAbove(t, info.key, "00", 1);
    assert Open(t, bin, 1) && !Open(t, bin, 0);
    FirstOpenIs(t, bin, 0);
    assert FirstOpen(t, bin, 0) == Some(1) && Updated(t, info.key, info, 0).Some?;
    hide Updated, FirstOpen, Open, Bin;
    UpdateRefinesInsertion(t, info.key, info);
    InsertedCopies(t, Updated(t, info.key, info, 0).value, "00", info);
  }

  lemma FullAbove(t: Tree, local: Key, k: string, n: nat)
    requires TrieInv(t, local) && k in t && 1 <= n < |k|
    ensures k[..n] in t && Full(t[k[..n]])
  {
    assert KeyOk(t, local, k);
  }

  lemma ZeroForm(local: Key)
    ensures var bin := Binary(Distance(local, local)); |bin| >= 2 && bin[..1] == "0" && bin[..2] == "00"
  {
    var d := Distance(local, local);
    BinaryLength(d);
    XorZero(local[0], local[0]);
    XorZero(local[1], local[1]);
    ZeroPrefixIsZeroBytes(d, 2);
    assert Zeros(2) == "00" && Zeros(2) <= Binary(d);
  }

  lemma LocalCopy(info: PeerInfo)
    ensures Copies(New(info), info.id) == {"0"}
  {
    NewInv(info);
    assert New(info)["0"] == [info];
  }

  // ---------- the bound on small tables is exact ----------

  /** Whatever the local peer, updates lead to a table of exactly 960 entries that refuses the next
      update of any peer with the local key, the local peer itself among them. */
  lemma SmallTablesBoundIsTight(info: PeerInfo) returns (peers: seq<PeerInfo>)
    ensures Run(New(info), info.key, peers).Some?
    ensures var t := Run(New(info), info.key, peers).value;
            && |All(t)| == KEY_LEN * MAX_BUCKET_LEN
            && forall p: PeerInfo :: p.key == info.key ==> Updated(t, info.key, p, 0) == None
  {
    var local, tree, bin := info.key, New(info), Binary(Distance(info.key, info.key));
    NewInv(info);
    LocalForm(local);
    assert bin[..KEY_LEN] == bin && bin[..1] == "0" && bin !in tree;
    hide New, Run, Binary, Distance, TrieInv, Updated, All;
    peers := Fill(tree, local, local, KEY_LEN, MAX_BUCKET_LEN);
    var t := Run(tree, local, peers).value;
    assert forall k :: k in t ==> k <= bin;
    hide Fills, Grown;
    FullTable(t, local, bin);
    forall p: PeerInfo | p.key == info.key ensures Updated(t, local, p, 0) == None {
      RefusedWhenFull(t, local, p, bin);
    }
  }

  lemma FullTable(t: Tree, local: Key, bin: string)
    requires TrieInv(t, local) && |bin| == KEY_LEN && bin in t && Full(t[bin]) && forall k :: k in t ==> k <= bin
    ensures |All(t)| == KEY_LEN * MAX_BUCKET_LEN
    ensures forall n :: 1 <= n <= |bin| ==> bin[..n] in t && Full(t[bin[..n]])
  {
    assert bin[..KEY_LEN] == bin;
    forall k | k in t ensures k != "" { assert KeyOk(t, local, k); }
    hide All, Deep, TrieInv, Full;
    forall n | 1 <= n <= KEY_LEN ensures bin[..n] in t && Full(t[bin[..n]]) {
      if n < KEY_LEN { FullAbove(t, local, bin, n); }
    }
    FullChain(t, bin, 1);
    AtMostThirtyEach(t, local, bin, 1);
    OnOneChain(t, bin);
  }

  lemma LocalForm(local: Key)
    ensures Binary(Distance(local, local)) == Zeros(KEY_LEN) && "0" <= Zeros(KEY_LEN)
  {
    BlankIsNeutral(local, local);
    BlankForm(KEY_LEN);
    assert Zeros(KEY_LEN)[..1] == "0";
  }

  lemma {:induction false} AtMostThirtyEach(t: Tree, local: Key, bin: string, n: nat)
    requires TrieInv(t, local) && 1 <= n <= |bin| + 1
    ensures |Deep(t, bin, n)| <= (|bin| + 1 - n) * MAX_BUCKET_LEN
    decreases |bin| + 1 - n
  {
    if n <= |bin| {
      AtMostThirtyEach(t, local, bin, n + 1);
      assert bin[..n] in t ==> KeyOk(t, local, bin[..n]);
    }
  }

  lemma OnOneChain(t: Tree, bin: string)
    requires "" !in t && forall k :: k in t ==> k <= bin
    ensures All(t) == Deep(t, bin, 1)
  {
    RetainedIsDeep(t, bin);
    assert Retained(t, bin) == t;
  }

  lemma RefusedWhenFull(t: Tree, local: Key, p: PeerInfo, bin: string)
    requires bin == Bin(local, p) && forall n :: 1 <= n <= |bin| ==> bin[..n] in t && Full(t[bin[..n]])
    ensures Updated(t, local, p, 0) == None
  {
    hide Bin;
    FirstOpenIs(t, bin, 0);
    assert forall i :: 0 <= i < |bin| ==> !Open(t, bin, i);
  }
}
