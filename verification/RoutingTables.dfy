/** The buckets and the routing table of src/discovery/routing.rs as objects, proved against the
    functions on values in Trie and Closest. */
module RoutingTables {
  import opened Bytes
  import opened Keys
  import opened Trie
  import opened Closest

  class KBucket {
    /** The linked hash map, least recently inserted first. */
    var nodes: Bucket

    constructor ()
      ensures nodes == []
    {
      nodes := [];
    }

    method Upsert(peer: PeerInfo)
      modifies this
      ensures nodes == Trie.Upsert(old(nodes), peer)
    {
      nodes := Without(nodes, peer.id) + [peer];
    }

    predicate Contains(peer: PeerInfo)
      reads this
    {
      peer.id in Ids(nodes)
    }

    predicate IsFull()
      reads this
    {
      Size() >= MAX_BUCKET_LEN
    }

    function Size(): nat
      reads this
    {
      |nodes|
    }
  }

  // ---------- loops over a table in the order its map happens to have ----------

  method CountPeers(tree: Tree) returns (n: nat)
    ensures n == |All(tree)|
  {
    n := 0;
    var left := tree;
    while left != map[]
      invariant n + |All(left)| == |All(tree)|
      decreases |left|
    {
      var k :| k in left;
      AllSplit(left, k);
      n := n + |left[k]|;
      assert |left - {k}| < |left|;
      left := left - {k};
    }
  }

  method CollectPeers(tree: Tree) returns (r: seq<PeerInfo>)
    ensures multiset(r) == All(tree)
  {
    r := [];
    var left := tree;
    while left != map[]
      invariant multiset(r) + All(left) == All(tree)
      decreases |left|
    {
      var k :| k in left;
      AllSplit(left, k);
      r := r + left[k];
      assert |left - {k}| < |left|;
      left := left - {k};
    }
  }

  /** The retain step; None stands for the panic of slicing at a longer key. */
  method RetainPrefixes(tree: Tree, distance: seq<byte>) returns (r: Option<Tree>)
    requires "" !in tree
    ensures r.None? <==> TooDeep(tree, Binary(distance))
    ensures r.Some? ==> r.value == Retained(tree, Binary(distance))
  {
    var kept: Tree := map[];
    var left := tree.Keys;
    while left != {}
      invariant left <= tree.Keys
      invariant forall k :: k in tree && k !in left ==> |k| <= |Binary(distance)|
      invariant forall k :: k in kept <==> k in tree && k !in left && k <= Binary(distance)
      invariant forall k :: k in kept ==> kept[k] == tree[k]
    {
      var k :| k in left;
      var prefix := GetPrefix(distance, |k| - 1);
      if prefix.None? {
        return None;
      }
      hide Binary;
      if prefix.value == k {
        kept := kept[k := tree[k]];
      }
      left := left - {k};
    }
    return Some(kept);
  }

  ghost predicate SortedBy<T(!new)>(s: seq<T>, key: T -> nat) {
    forall i, j :: 0 <= i < j < |s| ==> key(s[i]) <= key(s[j])
  }

  /** The library sort, as an insertion sort: a sorted permutation. */
  method SortByKey<T(!new)>(s: seq<T>, key: T -> nat) returns (r: seq<T>)
    ensures multiset(r) == multiset(s) && SortedBy(r, key)
  {
    hide SortedBy;
    r := [];
    NothingToSort(key);
    for i := 0 to |s|
      invariant multiset(r) == multiset(s[..i]) && SortedBy(r, key)
    {
      var j := PlaceFor(s[i], r, key);
      assert s[..i + 1] == s[..i] + [s[i]];
      InsertAt(r, j, s[i], key);
      r := r[..j] + [s[i]] + r[j..];
    }
    assert s[..|s|] == s;
  }

  method PlaceFor<T(!new)>(x: T, r: seq<T>, key: T -> nat) returns (j: nat)
    ensures j <= |r| && (j > 0 ==> key(r[j - 1]) <= key(x))
    ensures forall m :: j <= m < |r| ==> key(x) <= key(r[m])
  {
    j := |r|;
    while j > 0 && key(x) < key(r[j - 1])
      invariant j <= |r|
      invariant forall m :: j <= m < |r| ==> key(x) <= key(r[m])
    {
      j := j - 1;
    }
  }

  lemma NothingToSort<T(!new)>(key: T -> nat)
    ensures SortedBy([], key)
  {}

  lemma InsertAt<T(!new)>(r: seq<T>, j: nat, x: T, key: T -> nat)
    requires j <= |r| && SortedBy(r, key)
    requires j > 0 ==> key(r[j - 1]) <= key(x)
    requires forall m :: j <= m < |r| ==> key(x) <= key(r[m])
    ensures SortedBy(r[..j] + [x] + r[j..], key)
    ensures multiset(r[..j] + [x] + r[j..]) == multiset(r) + multiset{x}
  {
    InsertPermutes(r, j, x);
    var t := r[..j] + [x] + r[j..];
    forall a, b | 0 <= a < b < |t| ensures key(t[a]) <= key(t[b]) {
      assert t[a] == if a < j then r[a] else if a == j then x else r[a - 1];
      assert t[b] == if b < j then r[b] else if b == j then x else r[b - 1];
    }
  }

  lemma InsertPermutes<T(!new)>(r: seq<T>, j: nat, x: T)
    requires j <= |r|
    ensures multiset(r[..j] + [x] + r[j..]) == multiset(r) + multiset{x}
  {
    assert r == r[..j] + r[j..];
  }

  /** Sorting and truncating leaves the count nearest. */
  method SortAndTruncate(peers: seq<PeerInfo>, target: Key, count: nat) returns (r: seq<PeerInfo>)
    ensures NearestOf(r, multiset(peers), target, count)
  {
    var s := SortByKey(peers, (p: PeerInfo) => DistanceTo(p, target));
    r := s[..Min(count, |s|)];
    TruncatedIsNearest(s, target, count);
    assert |s| == |multiset(s)| == |multiset(peers)|;
  }

  lemma TruncatedIsNearest(s: seq<PeerInfo>, target: Key, count: nat)
    requires SortedBy(s, (p: PeerInfo) => DistanceTo(p, target))
    ensures NearestOf(s[..Min(count, |s|)], multiset(s), target, count)
  {
    var m := Min(count, |s|);
    SortedIsAscending(s, target);
    hide DistanceTo, Ascending;
    assert s == s[..m] + s[m..];
    FrontIsNearest(s[..m], s[m..], target);
    assert |multiset(s)| == |s|;
  }

  lemma SortedIsAscending(s: seq<PeerInfo>, target: Key)
    requires SortedBy(s, (p: PeerInfo) => DistanceTo(p, target))
    ensures Ascending(s, target)
  {
    hide DistanceTo;
    var key := (p: PeerInfo) => DistanceTo(p, target);
    forall i, j | 0 <= i < j < |s| ensures DistanceTo(s[i], target) <= DistanceTo(s[j], target) {
      assert key(s[i]) <= key(s[j]);
    }
  }

  lemma FrontIsNearest(a: seq<PeerInfo>, b: seq<PeerInfo>, target: Key)
    requires Ascending(a + b, target)
    ensures Ascending(a, target) && multiset(a) <= multiset(a + b)
    ensures forall p, q :: p in a && q in multiset(a + b) - multiset(a) ==>
              DistanceTo(p, target) <= DistanceTo(q, target)
  {
    hide DistanceTo;
    assert multiset(a + b) - multiset(a) == multiset(b);
    forall i, j | 0 <= i < j < |a| ensures DistanceTo(a[i], target) <= DistanceTo(a[j], target) {
      assert (a + b)[i] == a[i] && (a + b)[j] == a[j];
    }
    forall p, q | p in a && q in b ensures DistanceTo(p, target) <= DistanceTo(q, target) {
      var i :| 0 <= i < |a| && a[i] == p;
      var j :| 0 <= j < |b| && b[j] == q;
      assert (a + b)[i] == p && (a + b)[|a| + j] == q;
    }
  }

  // ---------- the prefix path ----------

  type Entry = (string, Bucket)

  /** The entries of a retained table, longest prefix first. */
  ghost predicate LongestFirst(lists: seq<Entry>, kept: Tree) {
    && (forall i :: 0 <= i < |lists| ==> lists[i].0 in kept && kept[lists[i].0] == lists[i].1)
    && (forall i, j :: 0 <= i < j < |lists| ==> |lists[i].0| > |lists[j].0|)
    && (forall k :: k in kept ==> exists i :: 0 <= i < |lists| && lists[i].0 == k)
  }

  /** Collecting the tuples, sorting them by prefix length and reversing them. */
  method SortLongestFirst(kept: Tree, ghost bin: string) returns (lists: seq<Entry>)
    requires forall k :: k in kept ==> k <= bin
    ensures LongestFirst(lists, kept)
  {
    var tuples: seq<Entry> := [];
    var left := kept.Items;
    while left != {}
      invariant multiset(tuples) + multiset(left) == multiset(kept.Items)
      decreases |left|
    {
      var item :| item in left;
      tuples := tuples + [item];
      left := left - {item};
    }
    var s := SortByKey(tuples, (e: Entry) => |e.0|);
    lists := seq(|s|, i requires 0 <= i < |s| => s[|s| - 1 - i]);
    ReversedIsLongestFirst(s, lists, kept, bin);
  }

  lemma ReversedIsLongestFirst(s: seq<Entry>, lists: seq<Entry>, kept: Tree, bin: string)
    requires forall k :: k in kept ==> k <= bin
    requires multiset(s) == multiset(kept.Items)
    requires SortedBy(s, (e: Entry) => |e.0|)
    requires |lists| == |s| && forall i :: 0 <= i < |s| ==> lists[i] == s[|s| - 1 - i]
    ensures LongestFirst(lists, kept)
  {
    forall i | 0 <= i < |lists| ensures lists[i].0 in kept && kept[lists[i].0] == lists[i].1 {
      ItemAt(s, kept, |s| - 1 - i);
    }
    forall i, j | 0 <= i < j < |lists| ensures |lists[i].0| > |lists[j].0| {
      LaterIsLonger(s, kept, bin, |s| - 1 - j, |s| - 1 - i);
    }
    forall k | k in kept ensures exists i :: 0 <= i < |lists| && lists[i].0 == k {
      assert (k, kept[k]) in multiset(s);
      var a :| 0 <= a < |s| && s[a] == (k, kept[k]);
      assert lists[|s| - 1 - a].0 == k;
    }
  }

  lemma ItemAt(s: seq<Entry>, kept: Tree, a: nat)
    requires multiset(s) == multiset(kept.Items) && a < |s|
    ensures s[a].0 in kept && kept[s[a].0] == s[a].1
  {
    assert s[a] in multiset(kept.Items);
  }

  lemma LaterIsLonger(s: seq<Entry>, kept: Tree, bin: string, a: nat, b: nat)
    requires forall k :: k in kept ==> k <= bin
    requires multiset(s) == multiset(kept.Items) && a < b < |s|
    requires SortedBy(s, (e: Entry) => |e.0|)
    ensures |s[a].0| < |s[b].0|
  {
    var key := (e: Entry) => |e.0|;
    assert key(s[a]) <= key(s[b]);
    ItemAt(s, kept, a);
    ItemAt(s, kept, b);
    Distinct(s, kept.Items, a, b);
    if |s[a].0| == |s[b].0| {
      PrefixesOfOne(s[a].0, s[b].0, bin);
    }
  }

  lemma PrefixesOfOne(x: string, y: string, bin: string)
    requires x <= bin && y <= bin && |x| == |y|
    ensures x == y
  {
    assert x == bin[..|x|] && y == bin[..|y|];
  }

  lemma Distinct<T(!new)>(s: seq<T>, all: set<T>, a: nat, b: nat)
    requires multiset(s) == multiset(all) && a < b < |s|
    ensures s[a] != s[b]
  {
    assert s == s[..b] + s[b..];
    assert s[a] in s[..b] && s[b] in s[b..];
    assert multiset(s)[s[b]] == multiset(s[..b])[s[b]] + multiset(s[b..])[s[b]];
    assert multiset(all)[s[b]] <= 1;
  }

  /** The while loop: buckets are taken, longest prefix first, until there are count entries. */
  method GatherPeers(lists: seq<Entry>, count: nat, ghost tree: Tree, ghost bin: string) returns (r: seq<PeerInfo>)
    requires LongestFirst(lists, Retained(tree, bin)) && "" !in tree
    requires Retained(tree, bin) != map[] && |Deep(tree, bin, 1)| >= count
    ensures multiset(r) == Pool(tree, bin, count)
  {
    assert lists != [] by { var k :| k in Retained(tree, bin); }
    FirstGathered(lists, tree, bin);
    hide Deep, LongestFirst, Pool, Retained, Gathered;
    r := lists[0].1;
    var next := 1;
    while |r| < count && next < |lists|
      invariant 1 <= next <= |lists|
      invariant Gathered(lists, count, tree, bin, next, multiset(r))
    {
      NextGathered(lists, count, tree, bin, next, multiset(r));
      r := r + lists[next].1;
      next := next + 1;
    }
    GatheredAll(lists, count, tree, bin, next, multiset(r));
  }

  ghost predicate Gathered(lists: seq<Entry>, count: nat, tree: Tree, bin: string, next: nat, r: multiset<PeerInfo>)
    requires 1 <= next <= |lists|
  {
    && r == Deep(tree, bin, |lists[next - 1].0|)
    && forall i :: 0 <= i < next - 1 ==> |Deep(tree, bin, |lists[i].0|)| < count
  }

  lemma ListedLength(lists: seq<Entry>, tree: Tree, bin: string, i: nat)
    requires LongestFirst(lists, Retained(tree, bin)) && "" !in tree && i < |lists|
    ensures 1 <= |lists[i].0| <= |bin| && lists[i].0 == bin[..|lists[i].0|]
    ensures lists[i].0 in tree && BucketAt(tree, lists[i].0) == lists[i].1
  {}

  lemma ListedAt(lists: seq<Entry>, tree: Tree, bin: string, n: nat) returns (i: nat)
    requires LongestFirst(lists, Retained(tree, bin)) && n <= |bin| && bin[..n] in tree
    ensures i < |lists| && |lists[i].0| == n
  {
    assert bin[..n] in Retained(tree, bin);
    i :| 0 <= i < |lists| && lists[i].0 == bin[..n];
  }

  lemma FirstGathered(lists: seq<Entry>, tree: Tree, bin: string)
    requires LongestFirst(lists, Retained(tree, bin)) && "" !in tree && lists != []
    ensures multiset(lists[0].1) == Deep(tree, bin, |lists[0].0|)
  {
    var n := |lists[0].0|;
    ListedLength(lists, tree, bin, 0);
    forall m | n + 1 <= m < |bin| + 1 ensures bin[..m] !in tree {
      if bin[..m] in tree { var i := ListedAt(lists, tree, bin, m); }
    }
    DeepSkip(tree, bin, n + 1, |bin| + 1);
  }

  lemma NextGathered(lists: seq<Entry>, count: nat, tree: Tree, bin: string, next: nat, r: multiset<PeerInfo>)
    requires LongestFirst(lists, Retained(tree, bin)) && "" !in tree
    requires 1 <= next < |lists| && Gathered(lists, count, tree, bin, next, r) && |r| < count
    ensures Gathered(lists, count, tree, bin, next + 1, r + multiset(lists[next].1))
  {
    var n, above := |lists[next].0|, |lists[next - 1].0|;
    ListedLength(lists, tree, bin, next);
    ListedLength(lists, tree, bin, next - 1);
    assert n < above;
    forall m | n + 1 <= m < above ensures bin[..m] !in tree {
      if bin[..m] in tree { var i := ListedAt(lists, tree, bin, m); }
    }
    DeepSkip(tree, bin, n + 1, above);
    assert Deep(tree, bin, n) == multiset(lists[next].1) + Deep(tree, bin, n + 1);
  }

  lemma NothingShorter(lists: seq<Entry>, tree: Tree, bin: string)
    requires LongestFirst(lists, Retained(tree, bin)) && "" !in tree && lists != []
    ensures Deep(tree, bin, 1) == Deep(tree, bin, |lists[|lists| - 1].0|)
  {
    var n := |lists[|lists| - 1].0|;
    ListedLength(lists, tree, bin, |lists| - 1);
    forall m | 1 <= m < n ensures bin[..m] !in tree {
      if bin[..m] in tree { var i := ListedAt(lists, tree, bin, m); }
    }
    hide Deep;
    DeepSkip(tree, bin, 1, n);
  }

  lemma NothingLongerSuffices(lists: seq<Entry>, count: nat, tree: Tree, bin: string, next: nat,
                              r: multiset<PeerInfo>, m: nat)
    requires LongestFirst(lists, Retained(tree, bin))
    requires 1 <= next <= |lists| && Gathered(lists, count, tree, bin, next, r)
    requires |lists[next - 1].0| < m <= |bin| && bin[..m] in tree
    ensures |Deep(tree, bin, m)| < count
  {
    hide Deep;
    var i := ListedAt(lists, tree, bin, m);
    assert i < next - 1;
  }

  lemma GatheredAll(lists: seq<Entry>, count: nat, tree: Tree, bin: string, next: nat, r: multiset<PeerInfo>)
    requires LongestFirst(lists, Retained(tree, bin)) && "" !in tree && |Deep(tree, bin, 1)| >= count
    requires 1 <= next <= |lists| && Gathered(lists, count, tree, bin, next, r)
    requires |r| >= count || next == |lists|
    ensures r == Pool(tree, bin, count)
  {
    hide Deep, Pool, LongestFirst, Retained, BucketAt;
    var n := |lists[next - 1].0|;
    ListedLength(lists, tree, bin, next - 1);
    NothingShorter(lists, tree, bin);
    assert r == Deep(tree, bin, n) && |r| >= count;
    forall m {:trigger bin[..m]} | n < m <= |bin| && bin[..m] in tree ensures |Deep(tree, bin, m)| < count {
      NothingLongerSuffices(lists, count, tree, bin, next, r, m);
    }
    hide Gathered;
    assert IsCut(tree, bin, count, n);
    PoolAt(tree, bin, count, n);
  }

  lemma PoolIs(tree: Tree, bin: string, count: nat)
    requires "" !in tree
    ensures Retained(tree, bin) == map[] || |All(Retained(tree, bin))| < count ==> Pool(tree, bin, count) == All(tree)
    ensures |All(Retained(tree, bin))| == |Deep(tree, bin, 1)|
    ensures forall k :: k in Retained(tree, bin) ==> k <= bin
  {
    CutExists(tree, bin, count);
    RetainedIsDeep(tree, bin);
  }

  /** The body of get_closest_peers after its early return, on the cloned tree. */
  method ClosestInClone(tree: Tree, distance: seq<byte>, target: Key, count: nat) returns (r: Option<seq<PeerInfo>>)
    requires "" !in tree
    ensures r.None? <==> TooDeep(tree, Binary(distance))
    ensures r.Some? ==> NearestOf(r.value, Pool(tree, Binary(distance), count), target, count)
  {
    ghost var bin := Binary(distance);
    hide Binary;
    var kept := RetainPrefixes(tree, distance);
    if kept.None? {
      return None;
    }
    var clonedTree := kept.value;
    var total := CountPeers(clonedTree);
    PoolIs(tree, bin, count);
    hide Pool, All, Retained, NearestOf, Deep, LongestFirst;
    if clonedTree == map[] || total < count {
      var all := CollectPeers(tree);
      var closest := SortAndTruncate(all, target, count);
      return Some(closest);
    }
    var closest := SortLongestFirst(clonedTree, bin);
    var ret := GatherPeers(closest, count, tree, bin);
    ret := SortAndTruncate(ret, target, count);
    return Some(ret);
  }

  // ---------- the table ----------

  /** The prefix of the distance between two keys. */
  method PrefixOf(a: Key, b: Key, size: nat) returns (prefix: Option<string>)
    ensures prefix == GetPrefix(Distance(a, b), size)
    ensures prefix.Some? ==> size < 8 * KEY_LEN && prefix.value != ""
  {
    var distance := ComputeDistance(a, b);
    BinaryLength(distance[..]);
    prefix := GetPrefix(distance[..], size);
  }

  /** One level of the recursion of update_peer. */
  lemma UpdatedHere(tree: Tree, local: Key, p: PeerInfo, traverse: nat)
    ensures match GetPrefix(Distance(local, p.key), traverse)
            case None => Updated(tree, local, p, traverse) == None
            case Some(k) =>
              if k in tree && Full(tree[k])
              then Updated(tree, local, p, traverse) == Updated(tree, local, p, traverse + 1)
              else Updated(tree, local, p, traverse) == Some(tree[k := Trie.Upsert(BucketAt(tree, k), p)])
  {
    hide Binary, Distance, Trie.Upsert;
  }

  class RoutingTable {
    var tree: map<string, KBucket>
    const localInfo: PeerInfo

    ghost predicate Valid()
      reads this, tree.Values
    {
      && "" !in tree
      && (forall j, k :: j in tree && k in tree && j != k ==> tree[j] != tree[k])
    }

    /** A clone of the tree. */
    function View(): (t: Tree)
      reads this, tree.Values
      ensures t.Keys == tree.Keys
    {
      map k | k in tree :: tree[k].nodes
    }

    constructor (info: PeerInfo)
      ensures Valid() && fresh(tree.Values) && localInfo == info && View() == New(info)
    {
      var distance := ComputeDistance(info.key, info.key);
      BinaryLength(distance[..]);
      var bucket := new KBucket();
      bucket.Upsert(info);
      tree := map[GetPrefix(distance[..], 0).value := bucket];
      localInfo := info;
      new;
      assert bucket.nodes == [info];
      assert View() == New(info);
    }

    /** False stands for the panic of slicing past the end of the distance's binary form. */
    method UpdatePeer(peer: PeerInfo, traverse: nat) returns (ok: bool)
      requires Valid()
      modifies this, tree.Values
      ensures Valid() && fresh(tree.Values - old(tree.Values))
      ensures Updated(old(View()), localInfo.key, peer, traverse) == if ok then Some(View()) else None
      ensures !ok ==> View() == old(View())
      decreases 8 * KEY_LEN - traverse
    {
      hide Updated, FirstOpen, Binary, Bin, Distance, Trie.Upsert, Without, GetPrefix;
      var prefix := PrefixOf(localInfo.key, peer.key, traverse);
      UpdatedHere(View(), localInfo.key, peer, traverse);
      if prefix.None? {
        return false;
      }
      if prefix.value in tree {
        if !tree[prefix.value].IsFull() {
          UpsertAt(prefix.value, peer);
          return true;
        } else {
          ok := UpdatePeer(peer, traverse + 1);
        }
      } else {
        InsertBucket(prefix.value, peer);
        return true;
      }
    }

    method UpsertAt(prefix: string, peer: PeerInfo)
      requires Valid() && prefix in tree
      modifies tree.Values
      ensures Valid()
      ensures View() == old(View())[prefix := Trie.Upsert(BucketAt(old(View()), prefix), peer)]
    {
      tree[prefix].Upsert(peer);
      assert View() == old(View())[prefix := tree[prefix].nodes];
    }

    method InsertBucket(prefix: string, peer: PeerInfo)
      requires Valid() && prefix !in tree && prefix != ""
      modifies this
      ensures Valid() && fresh(tree.Values - old(tree.Values))
      ensures View() == old(View())[prefix := Trie.Upsert(BucketAt(old(View()), prefix), peer)]
    {
      var newBucket := new KBucket();
      newBucket.Upsert(peer);
      tree := tree[prefix := newBucket];
      assert View() == old(View())[prefix := newBucket.nodes];
    }

    method IsNew(peer: PeerInfo) returns (isNew: bool)
      requires Valid()
      ensures isNew <==> Trie.IsNew(View(), peer)
    {
      var left := tree.Keys;
      while left != {}
        invariant left <= tree.Keys
        invariant forall k :: k in tree && k !in left ==> peer.id !in Ids(View()[k])
      {
        var k :| k in left;
        if tree[k].Contains(peer) {
          return false;
        }
        left := left - {k};
      }
      return true;
    }

    method TotalPeers() returns (n: nat)
      requires Valid()
      ensures n == |All(View())|
    {
      n := CountPeers(View());
    }

    method GetAllPeers() returns (r: seq<PeerInfo>)
      requires Valid()
      ensures multiset(r) == All(View())
    {
      r := CollectPeers(View());
    }

    /** None stands for the panic of slicing the target's binary form at a longer key. */
    method GetClosestPeers(peerInfo: PeerInfo, count: nat) returns (r: Option<seq<PeerInfo>>)
      requires Valid()
      ensures r.None? <==> |All(View())| > count && TooDeep(View(), Bin(localInfo.key, peerInfo))
      ensures r.Some? ==> Answer(View(), localInfo.key, peerInfo.key, count, r.value)
    {
      hide All, TooDeep, Pool, NearestOf, Binary, Distance;
      var known := TotalPeers();
      if known <= count {
        var all := GetAllPeers();
        return Some(all);
      }
      var distance := ComputeDistance(localInfo.key, peerInfo.key);
      r := ClosestInClone(View(), distance[..], peerInfo.key, count);
    }
  }
}
