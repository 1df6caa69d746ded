/** The closest-peers query of src/discovery/routing.rs:166-241: what it answers, and what the
    answer is worth on tables that updates can reach. */
module Closest {
  import opened Bytes
  import opened Keys
  import opened Trie

  /** Every entry of the table, copies included. */
  ghost function All(tree: Tree): multiset<PeerInfo>
    decreases |tree|
  {
    if tree == map[] then multiset{}
    else
      var k :| k in tree;
      assert |tree - {k}| < |tree|;
      multiset(tree[k]) + All(tree - {k})
  }

  lemma {:induction false} AllSplit(tree: Tree, k: string)
    requires k in tree
    ensures All(tree) == multiset(tree[k]) + All(tree - {k})
    decreases |tree|
  {
    var j :| j in tree && All(tree) == multiset(tree[j]) + All(tree - {j});
    if j != k {
      AllSplit(tree - {j}, k);
      AllSplit(tree - {k}, j);
      assert tree - {j} - {k} == tree - {k} - {j};
    }
  }

  predicate Part(sub: Tree, tree: Tree) {
    forall k :: k in sub ==> k in tree && sub[k] == tree[k]
  }

  lemma {:induction false} AllOfPart(sub: Tree, tree: Tree)
    requires Part(sub, tree)
    ensures All(sub) <= All(tree)
    decreases |sub|
  {
    if sub != map[] {
      var k :| k in sub;
      AllSplit(sub, k);
      AllSplit(tree, k);
      AllOfPart(sub - {k}, tree - {k});
    }
  }

  lemma {:induction false} AllIsStored(tree: Tree, p: PeerInfo)
    ensures p in All(tree) <==> p in Stored(tree)
    decreases |tree|
  {
    if tree != map[] {
      var k :| k in tree;
      AllSplit(tree, k);
      AllIsStored(tree - {k}, p);
      hide All;
      assert p in multiset(tree[k]) <==> p in tree[k];
      if p in Stored(tree) && p !in tree[k] {
        var j :| j in tree && p in tree[j];
        assert j in tree - {k} && p in (tree - {k})[j];
      }
      if p in Stored(tree - {k}) {
        var j :| j in tree - {k} && p in (tree - {k})[j];
        assert j in tree && p in tree[j];
      }
    }
  }

  /** Conservation: an update adds one entry to the table and one copy for the id, unless the bucket
      it lands in has an entry for the id already. So a peer whose bucket has filled up is entered
      once more, under a longer prefix, each time that one fills up too. */
  lemma UpdateAddsOneEntry(tree: Tree, local: Key, p: PeerInfo)
    requires TrieInv(tree, local) && Updated(tree, local, p, 0).Some?
    ensures var t := Updated(tree, local, p, 0).value;
            var k := Bin(local, p)[..FirstOpen(tree, Bin(local, p), 0).value + 1];
            var more := if p.id in Ids(BucketAt(tree, k)) then 0 else 1;
            && |All(t)| == |All(tree)| + more
            && |Copies(t, p.id)| == |Copies(tree, p.id)| + more
  {
    assert FirstOpen(tree, Bin(local, p), 0).Some?;
    hide TrieInv, Updated, FirstOpen, Upsert, Bin, Ids, All, Inserted, Without, Open, Copies, BucketAt;
    var k := Bin(local, p)[..FirstOpen(tree, Bin(local, p), 0).value + 1];
    UpdateRefinesInsertion(tree, local, p);
    UpdateSize(tree, local, p, k);
    CountsOfInsertion(tree, Updated(tree, local, p, 0).value, k, p);
  }

  lemma CountsOfInsertion(tree: Tree, t: Tree, k: string, p: PeerInfo)
    requires Inserted(tree, t, k, p) && k in t && t == tree[k := t[k]]
    requires |t[k]| == |BucketAt(tree, k)| + if p.id in Ids(BucketAt(tree, k)) then 0 else 1
    ensures var more := if p.id in Ids(BucketAt(tree, k)) then 0 else 1;
            && |All(t)| == |All(tree)| + more
            && |Copies(t, p.id)| == |Copies(tree, p.id)| + more
  {
    hide All, Ids, Inserted, Copies, BucketAt;
    AllReplaced(tree, t, k);
    InsertedCopies(tree, t, k, p);
    CopyAt(tree, k, p.id);
    if p.id in Ids(BucketAt(tree, k)) {
      assert Copies(tree, p.id) + {k} == Copies(tree, p.id);
    }
  }

  lemma InsertedCopies(tree: Tree, t: Tree, k: string, p: PeerInfo)
    requires Inserted(tree, t, k, p)
    ensures Copies(t, p.id) == Copies(tree, p.id) + {k}
  {}

  lemma CopyAt(tree: Tree, k: string, id: PeerId)
    ensures k in Copies(tree, id) <==> id in Ids(BucketAt(tree, k))
  {
    if k !in tree { NoIds(); }
  }

  lemma UpdateSize(tree: Tree, local: Key, p: PeerInfo, k: string)
    requires TrieInv(tree, local) && Updated(tree, local, p, 0).Some?
    requires k == Bin(local, p)[..FirstOpen(tree, Bin(local, p), 0).value + 1]
    ensures var t, had := Updated(tree, local, p, 0).value, BucketAt(tree, k);
            k in t && t == tree[k := t[k]] && |t[k]| == |had| + if p.id in Ids(had) then 0 else 1
  {
    assert k in tree ==> KeyOk(tree, local, k);
    hide Bin, Ids, FirstOpen;
    UpsertIs(BucketAt(tree, k), p);
  }

  lemma AllReplaced(tree: Tree, t: Tree, k: string)
    requires k in t && t == tree[k := t[k]]
    ensures |All(t)| + |BucketAt(tree, k)| == |All(tree)| + |t[k]|
  {
    hide All;
    AllSplit(t, k);
    if k in tree {
      AllSplit(tree, k);
      assert t - {k} == tree - {k};
    } else {
      assert t - {k} == tree;
    }
  }

  // ---------- buckets on the path of one binary form ----------

  /** The entries under the prefixes of bin that have at least n characters. */
  ghost function Deep(tree: Tree, bin: string, n: nat): multiset<PeerInfo>
    decreases |bin| + 1 - n
  {
    if n > |bin| then multiset{}
    else multiset(BucketAt(tree, bin[..n])) + Deep(tree, bin, n + 1)
  }

  lemma {:induction false} DeepSkip(tree: Tree, bin: string, a: nat, b: nat)
    requires a <= b <= |bin| + 1
    requires forall n :: a <= n < b ==> bin[..n] !in tree
    ensures Deep(tree, bin, a) == Deep(tree, bin, b)
    decreases b - a
  {
    if a < b {
      DeepSkip(tree, bin, a + 1, b);
      assert multiset(BucketAt(tree, bin[..a])) == multiset{};
    }
  }

  lemma {:induction false} DeepShrinks(tree: Tree, bin: string, a: nat, b: nat)
    requires a <= b
    ensures Deep(tree, bin, b) <= Deep(tree, bin, a)
    decreases b - a
  {
    if a < b && a <= |bin| {
      DeepShrinks(tree, bin, a + 1, b);
    }
  }

  /** The buckets the query retains: those whose key is a prefix of bin. */
  function Retained(tree: Tree, bin: string): Tree {
    map k | k in tree && k <= bin :: tree[k]
  }

  function RetainedFrom(tree: Tree, bin: string, n: nat): Tree {
    map k | k in tree && k <= bin && n <= |k| :: tree[k]
  }

  lemma {:induction false} RetainedFromIsDeep(tree: Tree, bin: string, n: nat)
    ensures All(RetainedFrom(tree, bin, n)) == Deep(tree, bin, n)
    decreases |bin| + 1 - n
  {
    var here := RetainedFrom(tree, bin, n);
    if n > |bin| {
      assert here.Keys == {};
    } else {
      var k := bin[..n];
      RetainedFromIsDeep(tree, bin, n + 1);
      RetainedStep(tree, bin, n);
      if k in tree {
        AllSplit(here, k);
      }
    }
  }

  lemma RetainedStep(tree: Tree, bin: string, n: nat)
    requires n <= |bin|
    ensures bin[..n] in tree ==> bin[..n] in RetainedFrom(tree, bin, n)
    ensures bin[..n] in tree ==> RetainedFrom(tree, bin, n)[bin[..n]] == tree[bin[..n]]
    ensures bin[..n] in tree ==> RetainedFrom(tree, bin, n) - {bin[..n]} == RetainedFrom(tree, bin, n + 1)
    ensures bin[..n] !in tree ==> RetainedFrom(tree, bin, n) == RetainedFrom(tree, bin, n + 1)
  {
    forall k | k <= bin ensures |k| == n <==> k == bin[..n] {}
  }

  lemma RetainedIsDeep(tree: Tree, bin: string)
    requires "" !in tree
    ensures All(Retained(tree, bin)) == Deep(tree, bin, 1)
  {
    RetainedFromIsDeep(tree, bin, 1);
    assert Retained(tree, bin) == RetainedFrom(tree, bin, 1);
  }

  lemma DeepIsPart(tree: Tree, bin: string, n: nat)
    ensures Deep(tree, bin, n) <= All(tree)
  {
    RetainedFromIsDeep(tree, bin, n);
    AllOfPart(RetainedFrom(tree, bin, n), tree);
  }

  // ---------- the answer ----------

  function DistanceTo(p: PeerInfo, target: Key): nat {
    Value(Distance(p.key, target))
  }

  function Min(a: nat, b: nat): nat {
    if a <= b then a else b
  }

  predicate Ascending(r: seq<PeerInfo>, target: Key) {
    forall i, j :: 0 <= i < j < |r| ==> DistanceTo(r[i], target) <= DistanceTo(r[j], target)
  }

  /** The count nearest of the pool, nearest first: nobody left out is nearer than anybody chosen. */
  ghost predicate NearestOf(r: seq<PeerInfo>, pool: multiset<PeerInfo>, target: Key, count: nat) {
    && |r| == Min(count, |pool|)
    && multiset(r) <= pool
    && Ascending(r, target)
    && (forall p, q :: p in r && q in pool - multiset(r) ==> DistanceTo(p, target) <= DistanceTo(q, target))
  }

  /** The longest prefix of bin from which on the buckets hold count entries. */
  ghost predicate IsCut(tree: Tree, bin: string, count: nat, n: nat) {
    && 1 <= n <= |bin| && bin[..n] in tree
    && |Deep(tree, bin, n)| >= count
    && (forall m {:trigger bin[..m]} :: n < m <= |bin| && bin[..m] in tree ==> |Deep(tree, bin, m)| < count)
  }

  /** What the answer is chosen from: the buckets down to the cut, or the whole table without one. */
  ghost function Pool(tree: Tree, bin: string, count: nat): multiset<PeerInfo> {
    if exists n: nat :: IsCut(tree, bin, count, n)
    then var n: nat :| IsCut(tree, bin, count, n); Deep(tree, bin, n)
    else All(tree)
  }

  lemma CutUnique(tree: Tree, bin: string, count: nat, m: nat, n: nat)
    requires IsCut(tree, bin, count, m) && IsCut(tree, bin, count, n)
    ensures m == n
  {
    hide Deep;
  }

  lemma PoolAt(tree: Tree, bin: string, count: nat, n: nat)
    requires IsCut(tree, bin, count, n)
    ensures Pool(tree, bin, count) == Deep(tree, bin, n)
  {
    hide IsCut, Deep;
    var m: nat :| IsCut(tree, bin, count, m) && Pool(tree, bin, count) == Deep(tree, bin, m);
    CutUnique(tree, bin, count, m, n);
  }

  /** There is a cut exactly when something is retained and it holds count entries. */
  lemma CutExists(tree: Tree, bin: string, count: nat)
    requires "" !in tree
    ensures (exists n: nat :: IsCut(tree, bin, count, n))
       <==> Retained(tree, bin) != map[] && |All(Retained(tree, bin))| >= count
  {
    RetainedIsDeep(tree, bin);
    RetainedSome(tree, bin);
    hide All, Deep, Retained, IsCut;
    if n: nat :| IsCut(tree, bin, count, n) {
      CutHolds(tree, bin, count, n);
    }
    if Retained(tree, bin) != map[] && |Deep(tree, bin, 1)| >= count {
      CutBelow(tree, bin, count, |bin|);
    }
  }

  lemma RetainedSome(tree: Tree, bin: string)
    requires "" !in tree
    ensures Retained(tree, bin) != map[] <==> exists n :: 1 <= n <= |bin| && bin[..n] in tree
  {
    if Retained(tree, bin) != map[] {
      var k :| k in Retained(tree, bin);
      assert k == bin[..|k|];
    }
    if n :| 1 <= n <= |bin| && bin[..n] in tree {
      assert bin[..n] in Retained(tree, bin);
    }
  }

  lemma CutHolds(tree: Tree, bin: string, count: nat, n: nat)
    requires IsCut(tree, bin, count, n)
    ensures 1 <= n <= |bin| && bin[..n] in tree && |Deep(tree, bin, 1)| >= count
  {
    DeepShrinks(tree, bin, 1, n);
    hide Deep;
    assert |Deep(tree, bin, 1)| == |Deep(tree, bin, n)| + |Deep(tree, bin, 1) - Deep(tree, bin, n)|;
  }

  lemma {:induction false} CutBelow(tree: Tree, bin: string, count: nat, top: nat)
    requires top <= |bin| && |Deep(tree, bin, 1)| >= count
    requires exists n :: 1 <= n <= |bin| && bin[..n] in tree
    requires forall m {:trigger bin[..m]} :: top < m <= |bin| && bin[..m] in tree ==> |Deep(tree, bin, m)| < count
    ensures exists n: nat :: IsCut(tree, bin, count, n)
    decreases top
  {
    hide Deep;
    if top == 0 {
      var n := Shortest(tree, bin, 1);
      DeepSkip(tree, bin, 1, n);
      assert false;
    } else if bin[..top] in tree && |Deep(tree, bin, top)| >= count {
      assert IsCut(tree, bin, count, top);
    } else {
      CutBelow(tree, bin, count, top - 1);
    }
  }

  ghost function Shortest(tree: Tree, bin: string, from: nat): (n: nat)
    requires exists n :: from <= n <= |bin| && bin[..n] in tree
    ensures from <= n <= |bin| && bin[..n] in tree
    ensures forall m :: from <= m < n ==> bin[..m] !in tree
    decreases |bin| - from
  {
    if from <= |bin| && bin[..from] in tree then from else Shortest(tree, bin, from + 1)
  }

  /** The answers get_closest_peers may give; ties and the order of the buckets are left open. */
  ghost predicate Answer(tree: Tree, local: Key, target: Key, count: nat, r: seq<PeerInfo>) {
    if |All(tree)| <= count then multiset(r) == All(tree)
    else NearestOf(r, Pool(tree, Binary(Distance(local, target)), count), target, count)
  }

  /** Slicing the target's binary form at a longer key is a panic. */
  predicate TooDeep(tree: Tree, bin: string) {
    exists k :: k in tree && |k| > |bin|
  }

  /** An answer has exactly the number of entries asked for, or all there are, and makes none up. */
  lemma AnswerSize(tree: Tree, local: Key, target: Key, count: nat, r: seq<PeerInfo>)
    requires Answer(tree, local, target, count, r)
    ensures |r| == Min(count, |All(tree)|) && multiset(r) <= All(tree)
    ensures |All(tree)| > count ==> Ascending(r, target)
  {
    var bin := Binary(Distance(local, target));
    if |All(tree)| <= count {
      assert |multiset(r)| == |r|;
    } else if n: nat :| IsCut(tree, bin, count, n) {
      PoolAt(tree, bin, count, n);
      DeepIsPart(tree, bin, n);
    }
  }

  lemma {:induction false} NearestIn(pool: multiset<PeerInfo>, target: Key) returns (p: PeerInfo)
    requires pool != multiset{}
    ensures p in pool && forall q :: q in pool ==> DistanceTo(p, target) <= DistanceTo(q, target)
    decreases |pool|
  {
    hide DistanceTo;
    p :| p in pool;
    var rest := pool - multiset{p};
    if rest != multiset{} {
      var q := NearestIn(rest, target);
      if DistanceTo(q, target) < DistanceTo(p, target) {
        p := q;
      }
    }
  }

  lemma {:induction false} NearestExists(pool: multiset<PeerInfo>, target: Key, count: nat) returns (r: seq<PeerInfo>)
    ensures NearestOf(r, pool, target, count)
    decreases count
  {
    hide DistanceTo;
    if count == 0 {
      r := [];
    } else {
      r := NearestExists(pool, target, count - 1);
      if count <= |pool| {
        hide NearestOf;
        var p := NearestIn(LeftOver(r, pool, target, count - 1), target);
        OneMoreNearest(r, p, pool, target, count);
        r := r + [p];
      }
    }
  }

  ghost function LeftOver(r: seq<PeerInfo>, pool: multiset<PeerInfo>, target: Key, count: nat): (m: multiset<PeerInfo>)
    requires NearestOf(r, pool, target, count) && count < |pool|
    ensures m == pool - multiset(r) && m != multiset{}
  {
    assert |pool - multiset(r)| == |pool| - |multiset(r)| && |multiset(r)| == |r|;
    pool - multiset(r)
  }

  lemma OneMoreNearest(r: seq<PeerInfo>, p: PeerInfo, pool: multiset<PeerInfo>, target: Key, count: nat)
    requires 1 <= count <= |pool| && NearestOf(r, pool, target, count - 1) && p in pool - multiset(r)
    requires forall q :: q in pool - multiset(r) ==> DistanceTo(p, target) <= DistanceTo(q, target)
    ensures NearestOf(r + [p], pool, target, count)
  {
    hide DistanceTo;
    assert multiset(r + [p]) == multiset(r) + multiset{p};
    assert forall x :: x in r ==> DistanceTo(x, target) <= DistanceTo(p, target);
    AscendingTo(r, p, target);
    hide Ascending;
    forall x, q | x in r + [p] && q in pool - multiset(r + [p]) ensures DistanceTo(x, target) <= DistanceTo(q, target) {
      assert q in pool - multiset(r);
      assert x in r || x == p;
    }
  }

  lemma AscendingTo(r: seq<PeerInfo>, p: PeerInfo, target: Key)
    requires Ascending(r, target) && forall x :: x in r ==> DistanceTo(x, target) <= DistanceTo(p, target)
    ensures Ascending(r + [p], target)
  {
    hide DistanceTo;
    assert forall i :: 0 <= i < |r| ==> r[i] in r;
  }

  /** The query always has an answer. */
  lemma AnswerExists(tree: Tree, local: Key, target: Key, count: nat) returns (r: seq<PeerInfo>)
    ensures Answer(tree, local, target, count, r)
  {
    if |All(tree)| <= count {
      r := NearestExists(All(tree), target, |All(tree)|);
      assert |multiset(r)| == |r| == |All(tree)|;
      assert |All(tree) - multiset(r)| == 0;
      assert All(tree) == multiset(r) + (All(tree) - multiset(r));
    } else {
      r := NearestExists(Pool(tree, Binary(Distance(local, target)), count), target, count);
    }
  }

  // ---------- reachable tables ----------

  /** How far the chain of prefixes of bin reaches into the table. */
  function Depth(tree: Tree, bin: string, n: nat): (d: nat)
    requires n <= |bin|
    ensures d <= n
  {
    if n == 0 || bin[..n] in tree then n else Depth(tree, bin, n - 1)
  }

  lemma {:induction false} DepthIs(tree: Tree, bin: string, n: nat)
    requires n <= |bin|
    ensures forall m :: Depth(tree, bin, n) < m <= n ==> bin[..m] !in tree
    ensures Depth(tree, bin, n) > 0 ==> bin[..Depth(tree, bin, n)] in tree
  {
    if n > 0 && bin[..n] !in tree {
      DepthIs(tree, bin, n - 1);
    }
  }

  /** On a reachable table the retained buckets are the prefixes of one chain without gaps, and all
      but the deepest are full. */
  lemma ChainIsFull(tree: Tree, local: Key, bin: string, n: nat)
    requires TrieInv(tree, local) && 1 <= n <= |bin|
    ensures bin[..n] in tree <==> n <= Depth(tree, bin, |bin|)
    ensures n < Depth(tree, bin, |bin|) ==> |tree[bin[..n]]| == MAX_BUCKET_LEN
  {
    var d := Depth(tree, bin, |bin|);
    DepthIs(tree, bin, |bin|);
    if n < d {
      var k := bin[..d];
      assert KeyOk(tree, local, k);
      assert k[..n] == bin[..n];
      assert KeyOk(tree, local, bin[..n]);
    }
  }

  lemma DeepFromDepth(tree: Tree, local: Key, bin: string)
    requires TrieInv(tree, local)
    ensures var d := Depth(tree, bin, |bin|);
            && (d >= 1 ==> |Deep(tree, bin, d)| == |BucketAt(tree, bin[..d])|)
            && (d >= 2 ==> |Deep(tree, bin, d - 1)| >= MAX_BUCKET_LEN)
            && (forall n :: d < n <= |bin| ==> bin[..n] !in tree)
            && (d >= 1 ==> bin[..d] in tree) && (d >= 2 ==> bin[..d - 1] in tree)
  {
    hide Depth, TrieInv, Deep;
    var d := Depth(tree, bin, |bin|);
    DepthIs(tree, bin, |bin|);
    DeepSkip(tree, bin, d + 1, |bin| + 1);
    DeepEnds(tree, bin);
    if d >= 1 {
      DeepHere(tree, bin, d);
    }
    if d >= 2 {
      ChainIsFull(tree, local, bin, d - 1);
      DeepHere(tree, bin, d - 1);
    }
  }

  lemma DeepEnds(tree: Tree, bin: string)
    ensures Deep(tree, bin, |bin| + 1) == multiset{}
  {}

  lemma DeepHere(tree: Tree, bin: string, n: nat)
    requires n <= |bin|
    ensures Deep(tree, bin, n) == multiset(BucketAt(tree, bin[..n])) + Deep(tree, bin, n + 1)
    ensures |Deep(tree, bin, n)| == |BucketAt(tree, bin[..n])| + |Deep(tree, bin, n + 1)|
  {}

  /** For the counts the program uses, the answer is chosen from the deepest retained bucket, or from
      that one and the full one above it when the deepest is short; so the loop takes at most one
      extra bucket. The whole table is searched, for want of a cut, exactly when the chain is empty
      or is a single one-character bucket with too few entries. */
  lemma WhereTheAnswerComesFrom(tree: Tree, local: Key, bin: string, count: nat, n: nat)
    requires TrieInv(tree, local) && 1 <= count <= MAX_BUCKET_LEN
    ensures var d := Depth(tree, bin, |bin|);
            IsCut(tree, bin, count, n) <==>
              if |BucketAt(tree, bin[..d])| >= count then n == d >= 1 else n == d - 1 >= 1
  {
    DeepFromDepth(tree, local, bin);
    assert "" in tree ==> KeyOk(tree, local, "");
    hide Deep, Depth, TrieInv;
    CutAmong(tree, bin, count, Depth(tree, bin, |bin|), n);
  }

  lemma CutAmong(tree: Tree, bin: string, count: nat, d: nat, n: nat)
    requires "" !in tree && 1 <= count <= MAX_BUCKET_LEN && d <= |bin|
    requires d >= 1 ==> bin[..d] in tree && |Deep(tree, bin, d)| == |BucketAt(tree, bin[..d])|
    requires d >= 2 ==> bin[..d - 1] in tree && |Deep(tree, bin, d - 1)| >= MAX_BUCKET_LEN
    requires forall m :: d < m <= |bin| ==> bin[..m] !in tree
    ensures IsCut(tree, bin, count, n) <==>
              if |BucketAt(tree, bin[..d])| >= count then n == d >= 1 else n == d - 1 >= 1
  {
    hide Deep;
    if IsCut(tree, bin, count, n) {
      assert n <= d;
    }
    if d >= 1 && |BucketAt(tree, bin[..d])| >= count {
      CutUnless(tree, bin, count, d, n);
    } else if d >= 2 {
      CutUnless(tree, bin, count, d - 1, n);
    }
  }

  lemma CutUnless(tree: Tree, bin: string, count: nat, m: nat, n: nat)
    requires IsCut(tree, bin, count, m)
    ensures IsCut(tree, bin, count, n) <==> n == m
  {
    hide Deep;
    if IsCut(tree, bin, count, n) {
      CutUnique(tree, bin, count, m, n);
    }
  }

  /** A table with fewer than 960 entries (thirty under each of the thirty-two prefixes that every
      binary form has) neither refuses an update nor trips a query. */
  lemma SmallTablesNeverPanic(tree: Tree, local: Key, p: PeerInfo)
    requires TrieInv(tree, local) && |All(tree)| < KEY_LEN * MAX_BUCKET_LEN
    ensures Updated(tree, local, p, 0).Some? && !TooDeep(tree, Bin(local, p))
  {
    var bin := Bin(local, p);
    BinaryLength(Distance(local, p.key));
    if Updated(tree, local, p, 0) == None {
      FirstOpenIs(tree, bin, 0);
      forall n | 1 <= n <= KEY_LEN ensures bin[..n] in tree && Full(tree[bin[..n]]) {
        assert !Open(tree, bin, n - 1);
      }
      FullChain(tree, bin, 1);
    }
    if k :| k in tree && |k| > |bin| {
      assert KeyOk(tree, local, k);
      FullChain(tree, k, 1);
    }
  }

  lemma {:induction false} FullChain(tree: Tree, bin: string, n: nat)
    requires KEY_LEN <= |bin| && 1 <= n <= KEY_LEN + 1
    requires forall n :: 1 <= n <= KEY_LEN ==> bin[..n] in tree && Full(tree[bin[..n]])
    ensures |All(tree)| >= |Deep(tree, bin, n)| >= (KEY_LEN + 1 - n) * MAX_BUCKET_LEN
    decreases KEY_LEN + 1 - n
  {
    DeepIsPart(tree, bin, n);
    assert |All(tree)| == |Deep(tree, bin, n)| + |All(tree) - Deep(tree, bin, n)|;
    if n <= KEY_LEN {
      FullChain(tree, bin, n + 1);
      assert Full(tree[bin[..n]]);
    }
  }

  /** What the prefix path is worth below an all-zero prefix: everybody it returns is nearer to the
      target than every entry whose distance from the local peer lacks that prefix. */
  lemma ZeroPrefixAnswer(tree: Tree, local: Key, target: Key, count: nat, r: seq<PeerInfo>, n: nat,
                         p: PeerInfo, q: PeerInfo)
    requires TrieInv(tree, local) && Answer(tree, local, target, count, r) && |All(tree)| > count
    requires IsCut(tree, Binary(Distance(local, target)), count, n) && Zeros(n) <= Binary(Distance(local, target))
    requires p in r && q in Stored(tree) && !(Zeros(n) <= Bin(local, q))
    ensures Less(Distance(p.key, target), Distance(q.key, target))
  {
    var bin := Binary(Distance(local, target));
    PoolAt(tree, bin, count, n);
    assert p in multiset(r);
    assert p in Deep(tree, bin, n);
    DeepHasPrefix(tree, local, bin, n, p);
    assert bin[..n] == Zeros(n);
    ZeroPrefixIsNearer(local, target, p.key, q.key, n);
  }

  lemma {:induction false} DeepHasPrefix(tree: Tree, local: Key, bin: string, n: nat, p: PeerInfo)
    requires TrieInv(tree, local) && n <= |bin| && p in Deep(tree, bin, n)
    ensures bin[..n] <= Bin(local, p)
    decreases |bin| + 1 - n
  {
    if p in BucketAt(tree, bin[..n]) {
      assert KeyOk(tree, local, bin[..n]);
    } else {
      assert p in Deep(tree, bin, n + 1);
      DeepHasPrefix(tree, local, bin, n + 1, p);
    }
  }

  lemma {:induction false} AllSplitAt(sub: Tree, tree: Tree)
    requires Part(sub, tree)
    ensures All(tree) == All(sub) + All(tree - sub.Keys)
    decreases |sub|
  {
    hide All;
    if sub == map[] {
      NoEntries(sub);
      assert tree - sub.Keys == tree;
    } else {
      var k :| k in sub;
      AllSplit(sub, k);
      AllSplit(tree, k);
      AllSplitAt(sub - {k}, tree - {k});
      assert tree - {k} - (sub - {k}).Keys == tree - sub.Keys;
    }
  }

  /** An entry that is not on the path of bin is under a key that is no prefix of bin. */
  lemma OffThePath(tree: Tree, bin: string, q: PeerInfo) returns (k: string)
    requires "" !in tree && q in All(tree) - Deep(tree, bin, 1)
    ensures k in tree && !(k <= bin) && q in tree[k]
  {
    var kept := Retained(tree, bin);
    RetainedIsDeep(tree, bin);
    AllSplitAt(kept, tree);
    AllIsStored(tree - kept.Keys, q);
    k :| k in tree - kept.Keys && q in (tree - kept.Keys)[k];
  }

  lemma OffZeroIsFarther(tree: Tree, local: Key, target: Key, p: PeerInfo, q: PeerInfo)
    requires TrieInv(tree, local) && Zeros(1) <= Binary(Distance(local, target))
    requires Zeros(1) in tree && !Full(tree[Zeros(1)])
    requires var pool := Deep(tree, Binary(Distance(local, target)), 1); p in pool && q in All(tree) - pool
    ensures DistanceTo(p, target) <= DistanceTo(q, target)
  {
    var bin := Binary(Distance(local, target));
    forall k | k in tree ensures k != "" { assert KeyOk(tree, local, k); }
    var k := OffThePath(tree, bin, q);
    OffZero(tree, local, k, q);
    DeepHasPrefix(tree, local, bin, 1, p);
    hide Deep, All, TrieInv, Binary, Distance, Value;
    assert Zeros(1) == bin[..1];
    ZeroPrefixIsNearer(local, target, p.key, q.key, 1);
    OrderIsNumeric(Distance(p.key, target), Distance(q.key, target));
  }

  /** A key that does not open with a zero, other than "0" itself, when "0" has room. */
  lemma OffZero(tree: Tree, local: Key, k: string, q: PeerInfo)
    requires TrieInv(tree, local) && Zeros(1) in tree && !Full(tree[Zeros(1)])
    requires k in tree && k != Zeros(1) && q in tree[k]
    ensures !(Zeros(1) <= Bin(local, q))
  {
    assert KeyOk(tree, local, k);
    hide Bin, TrieInv;
    if |k| == 1 { assert k[..1] == k; }
    assert k[..1] != Zeros(1);
    assert Bin(local, q)[..1] == k[..1];
  }

  /** Where the prefix path is exact: when the target's chain is the bucket of the prefix "0" alone,
      with room to spare, the count nearest in it are the count nearest of the whole table. */
  lemma ShallowZeroAnswerIsGlobal(tree: Tree, local: Key, target: Key, count: nat, r: seq<PeerInfo>)
    requires TrieInv(tree, local) && Answer(tree, local, target, count, r) && |All(tree)| > count
    requires Zeros(1) <= Binary(Distance(local, target)) && Zeros(1) in tree && !Full(tree[Zeros(1)])
    ensures NearestOf(r, All(tree), target, count)
  {
    var bin := Binary(Distance(local, target));
    if n: nat :| IsCut(tree, bin, count, n) {
      OnlyTheFirst(tree, local, bin, n);
      PoolAt(tree, bin, count, n);
      DeepIsPart(tree, bin, 1);
      var pool := Deep(tree, bin, 1);
      assert NearestOf(r, pool, target, count) && |pool| >= count;
      hide Deep, IsCut, TrieInv, All, Binary, Distance, DistanceTo, Zeros, NearestOf;
      forall p, q | p in pool && q in All(tree) - pool ensures DistanceTo(p, target) <= DistanceTo(q, target) {
        OffZeroIsFarther(tree, local, target, p, q);
      }
      NearestInMore(r, pool, All(tree), target, count);
    }
  }

  lemma NearestInMore(r: seq<PeerInfo>, pool: multiset<PeerInfo>, all: multiset<PeerInfo>, target: Key, count: nat)
    requires NearestOf(r, pool, target, count) && |pool| >= count && pool <= all
    requires forall p, q :: p in pool && q in all - pool ==> DistanceTo(p, target) <= DistanceTo(q, target)
    ensures NearestOf(r, all, target, count)
  {
    hide DistanceTo, Ascending;
    assert all == pool + (all - pool);
    forall p, q | p in r && q in all - multiset(r) ensures DistanceTo(p, target) <= DistanceTo(q, target) {
      assert p in multiset(r);
      assert q in pool - multiset(r) || q in all - pool;
    }
  }

  lemma OnlyTheFirst(tree: Tree, local: Key, bin: string, n: nat)
    requires TrieInv(tree, local) && 1 <= n <= |bin| && bin[..n] in tree
    requires Zeros(1) <= bin && Zeros(1) in tree && !Full(tree[Zeros(1)])
    ensures n == 1
  {
    assert bin[..n][..1] == bin[..1] == Zeros(1);
    assert KeyOk(tree, local, bin[..n]);
  }

  /** The prefix path need not find the nearest entries of the table: on a two-entry table that one
      update reaches, the only answer of length one is the farther entry. */
  lemma PrefixPathIsNotGlobal(info: PeerInfo, near: PeerInfo, target: Key)
    requires info.key == SmallKey(0) && near.key == SmallKey(2) && target == SmallKey(1)
    ensures Run(New(info), info.key, [near]).Some?
    ensures var t := Run(New(info), info.key, [near]).value;
            && |All(t)| == 2 && info in All(t)
            && (forall r :: Answer(t, info.key, target, 1, r) <==> r == [near])
            && Less(Distance(info.key, target), Distance(near.key, target))
  {
    TwoPeerTable(info, near);
    var bin := Binary(Distance(info.key, target));
    assert Xor(0, 1) == 1 && Xor(2, 1) == 3;
    assert Distance(info.key, target)[0] == 1 && Distance(near.key, target)[0] == 3;
    FirstPrefix(Distance(info.key, target));
    BinaryLength(Distance(info.key, target));
    hide Binary, Distance, Value, Run, New;
    var t := Run(New(info), info.key, [near]).value;
    TwoEntries(t, info, near);
    OnlyNearInPool(t, bin, info, near);
    forall r ensures Answer(t, info.key, target, 1, r) <==> r == [near] {
      OnlyOne(r, near, target);
    }
  }

  lemma TwoPeerTable(info: PeerInfo, near: PeerInfo)
    requires info.key == SmallKey(0) && near.key == SmallKey(2)
    ensures Run(New(info), info.key, [near]) == Some(map["0" := [info], "1" := [near]])
  {
    assert Xor(0, 0) == 0 && Xor(0, 2) == 2;
    assert Distance(info.key, info.key)[0] == 0 && Distance(info.key, near.key)[0] == 2;
    FirstPrefix(Distance(info.key, info.key));
    FirstPrefix(Distance(info.key, near.key));
    NewInv(info);
    var before: Tree := map["0" := [info]];
    assert New(info) == before;
    assert Bin(info.key, near)[..0 + 1] == "1";
    hide Binary, Distance;
    assert Upsert([], near) == [near];
    assert before["1" := [near]] == map["0" := [info], "1" := [near]];
    assert FirstOpen(before, Bin(info.key, near), 0) == Some(0);
    assert Updated(before, info.key, near, 0) == Some(before["1" := [near]]);
    assert [near][1..] == [];
  }

  lemma OnlyNearInPool(t: Tree, bin: string, info: PeerInfo, near: PeerInfo)
    requires t == map["0" := [info], "1" := [near]] && bin != "" && bin[..1] == "1"
    ensures Pool(t, bin, 1) == multiset{near}
  {
    assert forall n :: 2 <= n <= |bin| ==> |bin[..n]| == n;
    DeepSkip(t, bin, 2, |bin| + 1);
    assert Deep(t, bin, 1) == multiset([near]) + Deep(t, bin, 2);
    assert IsCut(t, bin, 1, 1);
    PoolAt(t, bin, 1, 1);
  }

  lemma NoEntries(t: Tree)
    requires t == map[]
    ensures All(t) == multiset{}
  {}

  lemma TwoEntries(t: Tree, a: PeerInfo, b: PeerInfo)
    requires t == map["0" := [a], "1" := [b]]
    ensures All(t) == multiset{a, b}
  {
    hide All;
    AllSplit(t, "0");
    assert t - {"0"} == map["1" := [b]];
    AllSplit(t - {"0"}, "1");
    assert t - {"0"} - {"1"} == map[];
    NoEntries(t - {"0"} - {"1"});
  }

  lemma OnlyOne(r: seq<PeerInfo>, p: PeerInfo, target: Key)
    ensures NearestOf(r, multiset{p}, target, 1) <==> r == [p]
  {
    if NearestOf(r, multiset{p}, target, 1) {
      assert r == [r[0]] && r[0] in multiset(r);
    }
  }
}
