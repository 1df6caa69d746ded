/** The routing table of src/discovery/routing.rs as a value: buckets of peers under prefixes of
    the binary form of their distance from the local peer. */
module Trie {
  import opened Bytes
  import opened Keys
  import opened Packets

  const MAX_BUCKET_LEN: nat := 30

  datatype PeerId = PeerId(hash: string)

  datatype PeerInfo = PeerInfo(id: PeerId, key: Key, address: SocketAddr)

  /** A bucket, least recently inserted peer first. */
  type Bucket = seq<PeerInfo>

  type Tree = map<string, Bucket>

  function Without(b: Bucket, id: PeerId): Bucket {
    if b == [] then []
    else if b[0].id == id then Without(b[1..], id)
    else [b[0]] + Without(b[1..], id)
  }

  /** Inserting a known id replaces its entry and moves it to the back. */
  function Upsert(b: Bucket, p: PeerInfo): Bucket {
    Without(b, p.id) + [p]
  }

  predicate Full(b: Bucket) {
    |b| >= MAX_BUCKET_LEN
  }

  function Ids(b: Bucket): set<PeerId> {
    set p | p in b :: p.id
  }

  predicate DistinctIds(b: Bucket) {
    forall i, j :: 0 <= i < j < |b| ==> b[i].id != b[j].id
  }

  lemma {:induction false} WithoutIs(b: Bucket, id: PeerId)
    ensures forall p :: p in Without(b, id) <==> p in b && p.id != id
    ensures id !in Ids(b) ==> Without(b, id) == b
  {
    if b != [] {
      WithoutIs(b[1..], id);
      assert b == [b[0]] + b[1..];
    }
  }

  lemma Prepended(x: PeerInfo, rest: Bucket)
    requires DistinctIds(rest) && forall p :: p in rest ==> p.id != x.id
    ensures DistinctIds([x] + rest)
  {}

  lemma {:induction false} WithoutDistinct(b: Bucket, id: PeerId)
    requires DistinctIds(b)
    ensures DistinctIds(Without(b, id))
    ensures id in Ids(b) ==> |Without(b, id)| == |b| - 1
  {
    if b != [] {
      WithoutIs(b, id);
      WithoutIs(b[1..], id);
      assert b == [b[0]] + b[1..];
      forall p | p in b[1..] ensures p.id != b[0].id {
        var j :| 0 <= j < |b[1..]| && b[1..][j] == p;
        assert b[j + 1] == p;
      }
      WithoutDistinct(b[1..], id);
      hide DistinctIds;
      if b[0].id != id {
        Prepended(b[0], Without(b[1..], id));
      }
    }
  }

  /** What an upsert does to a bucket: the peer is there once, at the back, and nobody else moved out. */
  lemma UpsertIs(b: Bucket, p: PeerInfo)
    requires DistinctIds(b)
    ensures DistinctIds(Upsert(b, p))
    ensures Ids(Upsert(b, p)) == Ids(b) + {p.id}
    ensures |Upsert(b, p)| == if p.id in Ids(b) then |b| else |b| + 1
    ensures forall q :: q in Upsert(b, p) <==> q == p || (q in b && q.id != p.id)
  {
    WithoutIs(b, p.id);
    WithoutDistinct(b, p.id);
    var rest := Without(b, p.id);
    forall i, j | 0 <= i < j < |Upsert(b, p)| ensures Upsert(b, p)[i].id != Upsert(b, p)[j].id {
      assert rest[i] in rest;
    }
    forall q ensures q in Upsert(b, p) <==> q in rest || q == p {
      if q in rest { var i :| 0 <= i < |rest| && rest[i] == q; assert Upsert(b, p)[i] == q; }
      if q == p { assert Upsert(b, p)[|rest|] == p; }
    }
    hide Upsert, Without, DistinctIds;
    forall id ensures id in Ids(Upsert(b, p)) <==> id in Ids(b) + {p.id} {
      if id in Ids(b) && id != p.id {
        var q :| q in b && q.id == id;
        assert q in Upsert(b, p);
      }
      if id == p.id { assert p in Upsert(b, p); }
    }
  }

  lemma {:induction false} WithoutOne(b: Bucket, i: nat)
    requires DistinctIds(b) && i < |b|
    ensures Without(b, b[i].id) == b[..i] + b[i + 1..]
  {
    if i == 0 {
      assert b[0].id !in Ids(b[1..]) by {
        forall p | p in b[1..] ensures p.id != b[0].id {
          var j :| 0 <= j < |b[1..]| && b[1..][j] == p;
          assert b[j + 1] == p;
        }
      }
      WithoutIs(b[1..], b[0].id);
    } else {
      assert b[0].id != b[i].id;
      WithoutOne(b[1..], i - 1);
      assert b[..i] == [b[0]] + b[1..][..i - 1];
    }
  }

  /** The order of a bucket: a new peer goes to the back, a known one is taken out of its place and
      goes to the back, and the others stay in their order. */
  lemma UpsertOrder(b: Bucket, p: PeerInfo)
    requires DistinctIds(b)
    ensures (forall q :: q in b ==> q.id != p.id) ==> Upsert(b, p) == b + [p]
    ensures forall i :: 0 <= i < |b| && b[i].id == p.id ==> Upsert(b, p) == b[..i] + b[i + 1..] + [p]
  {
    WithoutIs(b, p.id);
    forall i | 0 <= i < |b| && b[i].id == p.id ensures Upsert(b, p) == b[..i] + b[i + 1..] + [p] {
      WithoutOne(b, i);
    }
  }

  // ---------- update_peer ----------

  /** The binary form of a peer's distance from the local peer. */
  function Bin(local: Key, p: PeerInfo): string {
    Binary(Distance(local, p.key))
  }

  predicate Open(tree: Tree, bin: string, i: nat)
    requires i < |bin|
  {
    bin[..i + 1] !in tree || !Full(tree[bin[..i + 1]])
  }

  /** The recursion of update_peer: the first prefix from traverse on that has room. Running past
      the end of the binary form is a panic. */
  function FirstOpen(tree: Tree, bin: string, traverse: nat): (r: Option<nat>)
    ensures r.Some? ==> traverse <= r.value < |bin|
    decreases |bin| - traverse
  {
    if traverse >= |bin| then None
    else if Open(tree, bin, traverse) then Some(traverse)
    else FirstOpen(tree, bin, traverse + 1)
  }

  lemma {:induction false} FirstOpenIs(tree: Tree, bin: string, traverse: nat)
    ensures FirstOpen(tree, bin, traverse) == None
       <==> forall i :: traverse <= i < |bin| ==> !Open(tree, bin, i)
    ensures FirstOpen(tree, bin, traverse).Some? ==>
              var i := FirstOpen(tree, bin, traverse).value;
              traverse <= i < |bin| && Open(tree, bin, i) && forall j :: traverse <= j < i ==> !Open(tree, bin, j)
    decreases |bin| - traverse
  {
    if traverse < |bin| && !Open(tree, bin, traverse) {
      FirstOpenIs(tree, bin, traverse + 1);
    }
  }

  function BucketAt(tree: Tree, k: string): Bucket {
    if k in tree then tree[k] else []
  }

  function Updated(tree: Tree, local: Key, p: PeerInfo, traverse: nat): Option<Tree> {
    var bin := Bin(local, p);
    match FirstOpen(tree, bin, traverse)
    case None => None
    case Some(i) => Some(tree[bin[..i + 1] := Upsert(BucketAt(tree, bin[..i + 1]), p)])
  }

  ghost function Stored(tree: Tree): set<PeerInfo> {
    set k, p | k in tree && p in tree[k] :: p
  }

  ghost function KnownIds(tree: Tree): set<PeerId> {
    set p | p in Stored(tree) :: p.id
  }

  /** is_new: no bucket has an entry under the peer's id. */
  predicate IsNew(tree: Tree, p: PeerInfo) {
    forall k :: k in tree ==> p.id !in Ids(tree[k])
  }

  lemma IsNewIs(tree: Tree, p: PeerInfo)
    ensures IsNew(tree, p) <==> p.id !in KnownIds(tree)
  {
    if !IsNew(tree, p) {
      var k :| k in tree && p.id in Ids(tree[k]);
      var q :| q in tree[k] && q.id == p.id;
      assert q in Stored(tree);
    }
  }

  /** The buckets that hold an entry for the id. */
  ghost function Copies(tree: Tree, id: PeerId): set<string> {
    set k | k in tree && id in Ids(tree[k])
  }

  /** The invariant of the overflow trie. */
  predicate KeyOk(tree: Tree, local: Key, k: string)
    requires k in tree
  {
    && k != ""
    && |tree[k]| <= MAX_BUCKET_LEN
    && DistinctIds(tree[k])
    && (forall p :: p in tree[k] ==> k <= Bin(local, p))
    && (forall j :: 1 <= j < |k| ==> k[..j] in tree && Full(tree[k[..j]]))
  }

  ghost predicate TrieInv(tree: Tree, local: Key) {
    forall k :: k in tree ==> KeyOk(tree, local, k)
  }

  /** The insertion of p under k: one bucket changes, nobody is evicted, and the known ids grow by
      exactly p's. An id that has an entry elsewhere keeps it, and gets one more copy here. */
  ghost predicate Inserted(tree: Tree, t: Tree, k: string, p: PeerInfo) {
    && t.Keys == tree.Keys + {k}
    && (forall j :: j in tree && j != k ==> t[j] == tree[j])
    && (forall q :: q in t[k] <==> q == p || (q in BucketAt(tree, k) && q.id != p.id))
    && KnownIds(t) == KnownIds(tree) + {p.id}
    && Copies(t, p.id) == Copies(tree, p.id) + {k}
    && (forall id :: id != p.id ==> Copies(t, id) == Copies(tree, id))
    && Stored(t) <= Stored(tree) + {p}
  }

  /** update_peer refines set insertion, at the shortest prefix that has room. */
  lemma UpdateRefinesInsertion(tree: Tree, local: Key, p: PeerInfo)
    requires TrieInv(tree, local) && Updated(tree, local, p, 0).Some?
    ensures var bin := Bin(local, p);
            var i := FirstOpen(tree, bin, 0).value;
            && Inserted(tree, Updated(tree, local, p, 0).value, bin[..i + 1], p)
            && Open(tree, bin, i) && forall j :: 0 <= j < i ==> !Open(tree, bin, j)
  {
    assert FirstOpen(tree, Bin(local, p), 0).Some?;
    hide TrieInv, Updated, FirstOpen, Upsert, Bin, DistinctIds, Inserted, Ids, BucketAt;
    var i := FirstOpen(tree, Bin(local, p), 0).value;
    FirstOpenIs(tree, Bin(local, p), 0);
    hide Open;
    UpdateChanges(tree, local, p, Bin(local, p)[..i + 1]);
    InsertedInto(tree, Updated(tree, local, p, 0).value, Bin(local, p)[..i + 1], p);
  }

  lemma UpdateChanges(tree: Tree, local: Key, p: PeerInfo, k: string)
    requires TrieInv(tree, local) && Updated(tree, local, p, 0).Some?
    requires k == Bin(local, p)[..FirstOpen(tree, Bin(local, p), 0).value + 1]
    ensures var t, had := Updated(tree, local, p, 0).value, BucketAt(tree, k);
            && k in t && t == tree[k := t[k]]
            && Ids(t[k]) == Ids(had) + {p.id}
            && (forall q :: q in t[k] <==> q == p || (q in had && q.id != p.id))
            && DistinctIds(t[k]) && |t[k]| <= |had| + 1
            && (k in tree ==> KeyOk(tree, local, k))
  {
    assert k in tree ==> KeyOk(tree, local, k);
    hide Bin, Ids, FirstOpen;
    UpsertIs(BucketAt(tree, k), p);
  }

  lemma InsertedInto(tree: Tree, t: Tree, k: string, p: PeerInfo)
    requires k in t && t == tree[k := t[k]]
    requires Ids(t[k]) == Ids(BucketAt(tree, k)) + {p.id}
    requires forall q :: q in t[k] <==> q == p || (q in BucketAt(tree, k) && q.id != p.id)
    ensures Inserted(tree, t, k, p)
  {
    hide Ids;
    assert p in t[k];
    assert p in Stored(t);
    forall q | q in Stored(tree) ensures q in Stored(t) || q.id == p.id {
      var j :| j in tree && q in tree[j];
      assert j in t;
      if j == k && q.id != p.id { assert q in t[k]; }
    }
    forall id | id != p.id ensures Copies(t, id) == Copies(tree, id) {
      if k !in tree { assert Ids(BucketAt(tree, k)) == {} by { NoIds(); } }
      assert id in Ids(t[k]) <==> id in Ids(BucketAt(tree, k));
    }
  }

  lemma NoIds()
    ensures Ids([]) == {}
  {}

  lemma UpdateKeepsInv(tree: Tree, local: Key, p: PeerInfo)
    requires TrieInv(tree, local) && Updated(tree, local, p, 0).Some?
    ensures TrieInv(Updated(tree, local, p, 0).value, local)
  {
    assert FirstOpen(tree, Bin(local, p), 0).Some?;
    hide Updated, FirstOpen, Upsert, Bin, DistinctIds, Ids, Without, TrieInv;
    var bin := Bin(local, p);
    FirstOpenIs(tree, bin, 0);
    var k := bin[..FirstOpen(tree, bin, 0).value + 1];
    UpdateChanges(tree, local, p, k);
    forall j | 1 <= j < |k| ensures k[..j] in tree && Full(tree[k[..j]]) {
      assert k[..j] == bin[..j - 1 + 1] && !Open(tree, bin, j - 1);
    }
    assert |BucketAt(tree, k)| < MAX_BUCKET_LEN && (k in tree ==> !Full(tree[k]));
    hide BucketAt, Open;
    InsertKeepsInv(tree, Updated(tree, local, p, 0).value, local, k, p);
  }

  lemma InsertKeepsInv(tree: Tree, t: Tree, local: Key, k: string, p: PeerInfo)
    requires TrieInv(tree, local)
    requires k in t && t == tree[k := t[k]] && k != "" && k <= Bin(local, p)
    requires |t[k]| <= MAX_BUCKET_LEN && DistinctIds(t[k])
    requires k in tree ==> KeyOk(tree, local, k) && !Full(tree[k])
    requires forall q :: q in t[k] <==> q == p || (q in BucketAt(tree, k) && q.id != p.id)
    requires forall j :: 1 <= j < |k| ==> k[..j] in tree && Full(tree[k[..j]])
    ensures TrieInv(t, local)
  {
    hide KeyOk, Bin, DistinctIds, Full, BucketAt;
    forall m | m in t ensures KeyOk(t, local, m) {
      if m == k {
        InsertedKeyOk(tree, t, local, k, p);
      } else {
        OtherKeyOk(tree, t, local, k, m);
      }
    }
  }

  lemma InsertedKeyOk(tree: Tree, t: Tree, local: Key, k: string, p: PeerInfo)
    requires k in t && t == tree[k := t[k]] && k != "" && k <= Bin(local, p)
    requires |t[k]| <= MAX_BUCKET_LEN && DistinctIds(t[k])
    requires k in tree ==> KeyOk(tree, local, k)
    requires forall q :: q in t[k] <==> q == p || (q in BucketAt(tree, k) && q.id != p.id)
    requires forall j :: 1 <= j < |k| ==> k[..j] in tree && Full(tree[k[..j]])
    ensures KeyOk(t, local, k)
  {
    hide Bin, DistinctIds;
    forall q | q in t[k] ensures k <= Bin(local, q) {
      if q != p { assert q in BucketAt(tree, k); }
    }
  }

  lemma OtherKeyOk(tree: Tree, t: Tree, local: Key, k: string, m: string)
    requires k in t && t == tree[k := t[k]] && (k in tree ==> !Full(tree[k]))
    requires m in tree && m != k && KeyOk(tree, local, m)
    ensures KeyOk(t, local, m)
  {
    hide Bin, DistinctIds;
    forall j | 1 <= j < |m| ensures m[..j] in t && Full(t[m[..j]]) {
      assert m[..j] in tree && Full(tree[m[..j]]);
      assert m[..j] != k;
    }
  }

  // ---------- whole runs ----------

  /** The table of a node that knows only itself. */
  function New(info: PeerInfo): Tree {
    map[Binary(Distance(info.key, info.key))[..1] := [info]]
  }

  /** Inserting peers one after the other, each from prefix length zero. */
  function Run(tree: Tree, local: Key, peers: seq<PeerInfo>): Option<Tree>
    decreases |peers|
  {
    if peers == [] then Some(tree)
    else match Updated(tree, local, peers[0], 0)
      case None => None
      case Some(t) => Run(t, local, peers[1..])
  }

  ghost function IdsOf(peers: seq<PeerInfo>): set<PeerId> {
    set p | p in peers :: p.id
  }

  ghost predicate Gained(tree: Tree, t: Tree, local: Key, peers: seq<PeerInfo>) {
    && TrieInv(t, local)
    && KnownIds(t) == KnownIds(tree) + IdsOf(peers)
    && Stored(t) <= Stored(tree) + (set p | p in peers)
  }

  lemma UpdateGains(tree: Tree, local: Key, p: PeerInfo)
    requires TrieInv(tree, local) && Updated(tree, local, p, 0).Some?
    ensures Gained(tree, Updated(tree, local, p, 0).value, local, [p])
  {
    hide TrieInv, KnownIds, Stored, Updated, FirstOpen, Bin, Binary, Copies, BucketAt;
    UpdateKeepsInv(tree, local, p);
    UpdateRefinesInsertion(tree, local, p);
    hide Open;
    assert IdsOf([p]) == {p.id};
  }

  lemma GainedTwice(tree: Tree, m: Tree, t: Tree, local: Key, peers: seq<PeerInfo>)
    requires peers != [] && Gained(tree, m, local, [peers[0]]) && Gained(m, t, local, peers[1..])
    ensures Gained(tree, t, local, peers)
  {
    hide TrieInv, KnownIds, Stored;
    assert peers == [peers[0]] + peers[1..];
    assert IdsOf(peers) == IdsOf([peers[0]]) + IdsOf(peers[1..]);
  }

  lemma {:induction false} RunKeeps(tree: Tree, local: Key, peers: seq<PeerInfo>)
    requires TrieInv(tree, local) && Run(tree, local, peers).Some?
    ensures Gained(tree, Run(tree, local, peers).value, local, peers)
    decreases |peers|
  {
    hide Updated, TrieInv, KnownIds, Stored;
    if peers == [] {
      assert KnownIds(tree) == KnownIds(tree) + IdsOf(peers);
    } else {
      UpdateGains(tree, local, peers[0]);
      var m := Updated(tree, local, peers[0], 0).value;
      RunKeeps(m, local, peers[1..]);
      GainedTwice(tree, m, Run(m, local, peers[1..]).value, local, peers);
    }
  }

  lemma {:induction false} NewInv(info: PeerInfo)
    ensures TrieInv(New(info), info.key) && KnownIds(New(info)) == {info.id} && Stored(New(info)) == {info}
    ensures New(info).Keys == {"0"}
  {
    var bin := Binary(Distance(info.key, info.key));
    BinaryLength(Distance(info.key, info.key));
    FirstPrefix(Distance(info.key, info.key));
    assert Distance(info.key, info.key)[0] == 0 by { XorZero(info.key[0], info.key[0]); }
    var k := bin[..1];
    assert k == "0" && New(info) == map[k := [info]];
    assert Stored(New(info)) == {info} by { assert info in New(info)[k]; }
    assert Bin(info.key, info) == bin;
    assert KeyOk(New(info), info.key, k);
  }

  /** Every table that is reached by updates from a new one satisfies the trie invariant, and its
      known ids are exactly the local id and the ids inserted. */
  lemma ReachableTables(info: PeerInfo, peers: seq<PeerInfo>)
    requires Run(New(info), info.key, peers).Some?
    ensures var t := Run(New(info), info.key, peers).value;
            && TrieInv(t, info.key)
            && KnownIds(t) == {info.id} + IdsOf(peers)
            && Stored(t) <= {info} + (set p | p in peers)
  {
    NewInv(info);
    RunKeeps(New(info), info.key, peers);
  }

  /** With an id that fixes the key, there is at most one copy of a peer for each prefix length. */
  lemma OneCopyPerLength(info: PeerInfo, peers: seq<PeerInfo>, p: PeerInfo, a: string, b: string)
    requires Run(New(info), info.key, peers).Some?
    requires forall q, q' :: q in [info] + peers && q' in [info] + peers && q.id == q'.id ==> q.key == q'.key
    requires var t := Run(New(info), info.key, peers).value; a in Copies(t, p.id) && b in Copies(t, p.id)
    ensures |a| == |b| ==> a == b
  {
    ReachableTables(info, peers);
    var t := Run(New(info), info.key, peers).value;
    hide Run;
    assert KeyOk(t, info.key, a) && KeyOk(t, info.key, b);
    var x: PeerInfo :| x in t[a] && x.id == p.id;
    var y: PeerInfo :| y in t[b] && y.id == p.id;
    assert x in Stored(t) && y in Stored(t);
    assert x in [info] + peers && y in [info] + peers;
    assert a <= Bin(info.key, x) && b <= Bin(info.key, y);
    assert Bin(info.key, x) == Bin(info.key, y);
  }
}
