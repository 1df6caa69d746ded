/** When the closest-peers query is exact: for which prefixes the entries it finds by way of that
    prefix are always the nearest of the whole table. */
module Exactness {
  import opened Bytes
  import opened Keys
  import opened Prefixes
  import opened Separation
  import opened Trie
  import opened Closest
  import opened Filling

  /** The query takes the buckets from s on, of which s is full or has room, and may answer r. */
  ghost predicate FoundBy(t: Tree, local: Key, s: string, full: bool, target: Key, count: nat, r: seq<PeerInfo>) {
    var bin := Binary(Distance(local, target));
    && |All(t)| > count && !TooDeep(t, bin)
    && s <= bin && IsCut(t, bin, count, |s|) && s in t && Full(t[s]) == full
    && Answer(t, local, target, count, r)
  }

  /** The same on the table that these updates lead to. */
  ghost predicate Returned(info: PeerInfo, s: string, full: bool, peers: seq<PeerInfo>, target: Key, count: nat,
                           r: seq<PeerInfo>) {
    && Run(New(info), info.key, peers).Some?
    && FoundBy(Run(New(info), info.key, peers).value, info.key, s, full, target, count, r)
  }

  /** Whatever the updates, the target and the count: what is found by way of s is the nearest of all. */
  ghost predicate AlwaysNearest(info: PeerInfo, s: string, full: bool) {
    forall peers: seq<PeerInfo>, target: Key, count: nat, r: seq<PeerInfo> ::
      Returned(info, s, full, peers, target, count, r)
      ==> NearestOf(r, All(Run(New(info), info.key, peers).value), target, count)
  }

  // ---------- where it is ----------

  lemma SharedByOneIsNearest(info: PeerInfo, s: string, full: bool)
    requires OneKeyOnly(info.key, s)
    ensures AlwaysNearest(info, s, full)
  {
    hide IsCut, Answer, TooDeep, Full, All, Run, New, TrieInv, OneKeyOnly, NearestOf;
    forall peers: seq<PeerInfo>, target: Key, count: nat, r: seq<PeerInfo>
      | Returned(info, s, full, peers, target, count, r)
      ensures NearestOf(r, All(Run(New(info), info.key, peers).value), target, count)
    {
      ReachableTables(info, peers);
      AtDistanceZero(Run(New(info), info.key, peers).value, info.key, s, target, count, r);
    }
  }

  lemma AtDistanceZero(t: Tree, local: Key, s: string, target: Key, count: nat, r: seq<PeerInfo>)
    requires OneKeyOnly(local, s) && TrieInv(t, local) && |All(t)| > count
    requires s <= Binary(Distance(local, target)) && IsCut(t, Binary(Distance(local, target)), count, |s|)
    requires Answer(t, local, target, count, r)
    ensures NearestOf(r, All(t), target, count)
  {
    var bin := Binary(Distance(local, target));
    var pool := Deep(t, bin, |s|);
    assert bin[..|s|] == s;
    PoolAt(t, bin, count, |s|);
    DeepIsPart(t, bin, |s|);
    assert NearestOf(r, pool, target, count) && |pool| >= count;
    hide Deep, IsCut, TrieInv, All, Binary, Distance, DistanceTo, NearestOf;
    forall p, q | p in pool && q in All(t) - pool ensures DistanceTo(p, target) <= DistanceTo(q, target) {
      DeepHasPrefix(t, local, bin, |s|, p);
      assert p.key == target;
      NoFurther(p, q);
    }
    NearestInMore(r, pool, All(t), target, count);
  }

  lemma NoFurther(p: PeerInfo, q: PeerInfo)
    ensures DistanceTo(p, p.key) <= DistanceTo(q, p.key)
  {
    DistanceZero(p.key, p.key);
  }

  lemma ShallowZeroIsNearest(info: PeerInfo)
    ensures AlwaysNearest(info, "0", false)
  {
    hide IsCut, Answer, TooDeep, Full, All, Run, New, TrieInv, NearestOf, Binary;
    assert Zeros(1) == "0";
    forall peers: seq<PeerInfo>, target: Key, count: nat, r: seq<PeerInfo>
      | Returned(info, "0", false, peers, target, count, r)
      ensures NearestOf(r, All(Run(New(info), info.key, peers).value), target, count)
    {
      ReachableTables(info, peers);
      ShallowZeroAnswerIsGlobal(Run(New(info), info.key, peers).value, info.key, target, count, r);
    }
  }

  // ---------- where it is not ----------

  /** What the query for one peer misses: an entry outside the bucket it takes that is nearer than
      everybody in there. */
  lemma Missed(t: Tree, local: Key, s: string, target: Key, q: PeerInfo)
    requires s != "" && s in t && t[s] != [] && q in Stored(t)
    requires s <= Binary(Distance(local, target))
    requires forall k :: k in t && k <= Binary(Distance(local, target)) ==> |k| <= |s|
    requires forall p :: p in t[s] ==> Less(Distance(q.key, target), Distance(p.key, target))
    ensures IsCut(t, Binary(Distance(local, target)), 1, |s|) && |All(t)| > 1 && q in All(t)
    ensures forall r :: Answer(t, local, target, 1, r) ==>
              && |r| == 1 && r[0] in t[s] && !NearestOf(r, All(t), target, 1)
  {
    var bin, p := Binary(Distance(local, target)), t[s][0];
    assert p in t[s];
    hide Binary, Distance, Less, All, Pool, IsCut, Stored, Answer, NearestOf;
    CutHere(t, bin, s);
    AllIsStored(t, q);
    AllIsStored(t, p);
    StoredAt(t, s, p);
    NotNearerThanItself(q, target);
    TwoOf(All(t), q, p);
    forall r | Answer(t, local, target, 1, r)
      ensures |r| == 1 && r[0] in t[s] && !NearestOf(r, All(t), target, 1)
    {
      OneOf(t, local, s, target, r);
      NotNearest(t, q, r, target);
    }
  }

  lemma StoredAt(t: Tree, k: string, p: PeerInfo)
    requires k in t && p in t[k]
    ensures p in Stored(t)
  {}

  lemma NotNearerThanItself(q: PeerInfo, target: Key)
    ensures !Less(Distance(q.key, target), Distance(q.key, target))
  {
    OrderIsNumeric(Distance(q.key, target), Distance(q.key, target));
  }

  lemma OneOf(t: Tree, local: Key, s: string, target: Key, r: seq<PeerInfo>)
    requires s in t && t[s] != [] && |All(t)| > 1 && Answer(t, local, target, 1, r)
    requires Pool(t, Binary(Distance(local, target)), 1) == multiset(t[s])
    ensures |r| == 1 && r[0] in t[s]
  {
    assert |multiset(t[s])| == |t[s]| >= 1;
    assert r[0] in multiset(r);
  }

  lemma CutHere(t: Tree, bin: string, s: string)
    requires s != "" && s <= bin && s in t && t[s] != [] && forall k :: k in t && k <= bin ==> |k| <= |s|
    ensures IsCut(t, bin, 1, |s|) && Pool(t, bin, 1) == multiset(t[s])
  {
    assert bin[..|s|] == s;
    forall m | |s| < m <= |bin| ensures bin[..m] !in t { assert bin[..m] <= bin; }
    DeepSkip(t, bin, |s| + 1, |bin| + 1);
    DeepEnds(t, bin);
    DeepHere(t, bin, |s|);
    PoolAt(t, bin, 1, |s|);
  }

  lemma TwoOf(all: multiset<PeerInfo>, a: PeerInfo, b: PeerInfo)
    requires a in all && b in all && a != b
    ensures |all| > 1
  {
    assert all == multiset{a, b} + (all - multiset{a, b});
  }

  lemma NotNearest(t: Tree, q: PeerInfo, r: seq<PeerInfo>, target: Key)
    requires q in All(t) && |r| == 1 && q != r[0] && Less(Distance(q.key, target), Distance(r[0].key, target))
    ensures !NearestOf(r, All(t), target, 1)
  {
    OrderIsNumeric(Distance(q.key, target), Distance(r[0].key, target));
    assert r == [r[0]] && q in All(t) - multiset(r) && r[0] in r;
  }

  /** The bucket of s can be filled, to either state, with peers that are farther from the target than
      an entry that was there before. */
  lemma Overlooked(info: PeerInfo, early: seq<PeerInfo>, q: PeerInfo, s: string, near: Key, target: Key, full: bool)
      returns (peers: seq<PeerInfo>, r: seq<PeerInfo>)
    requires Run(New(info), info.key, early).Some?
    requires var start := Run(New(info), info.key, early).value;
             q in Stored(start) && s !in start && forall k :: k in start ==> |k| <= |s|
    requires s != "" && s <= Binary(Distance(info.key, near)) && s <= Binary(Distance(info.key, target))
    requires Less(Distance(q.key, target), Distance(near, target))
    ensures Returned(info, s, full, peers, target, 1, r)
    ensures var t := Run(New(info), info.key, peers).value;
            && q in All(t)
            && forall a: seq<PeerInfo> :: Answer(t, info.key, target, 1, a) ==>
                 && |a| == 1 && a[0].key == near && !NearestOf(a, All(t), target, 1)
  {
    var local, start := info.key, Run(New(info), info.key, early).value;
    ReachableTables(info, early);
    assert Binary(Distance(local, near))[..|s|] == s;
    hide Binary, Distance, Less, Run, New, TrieInv, Stored, Grown, FoundBy, NearestOf, Answer;
    var late := Fill(start, local, near, |s|, if full then MAX_BUCKET_LEN else 1);
    peers := early + late;
    RunConcat(New(info), local, early, late);
    r := OverlookedIn(start, Run(start, local, late).value, local, q, s, near, target, full);
  }

  lemma OverlookedIn(start: Tree, t: Tree, local: Key, q: PeerInfo, s: string, near: Key, target: Key, full: bool)
      returns (r: seq<PeerInfo>)
    requires q in Stored(start) && s !in start && forall k :: k in start ==> |k| <= |s|
    requires s != "" && s <= Binary(Distance(local, target)) && Less(Distance(q.key, target), Distance(near, target))
    requires Grown(start, t, Binary(Distance(local, near)), |s|, near)
    requires |BucketAt(t, s)| == if full then MAX_BUCKET_LEN else 1
    ensures FoundBy(t, local, s, full, target, 1, r) && q in All(t)
    ensures forall a: seq<PeerInfo> :: Answer(t, local, target, 1, a) ==>
              && |a| == 1 && a[0].key == near && !NearestOf(a, All(t), target, 1)
  {
    hide Binary, Distance, Less, All, IsCut, Answer, NearestOf, KnownIds, Copies;
    assert s in t && forall k :: k in t ==> |k| <= |s|;
    assert forall p: PeerInfo :: p in t[s] ==> p.key == near;
    assert q in Stored(t);
    hide Grown, Stored;
    Missed(t, local, s, target, q);
    r := AnswerExists(t, local, target, 1);
  }

  lemma OverlookedIsNotNearest(info: PeerInfo, early: seq<PeerInfo>, q: PeerInfo, s: string, near: Key, target: Key,
                               full: bool)
    requires Run(New(info), info.key, early).Some?
    requires var start := Run(New(info), info.key, early).value;
             q in Stored(start) && s !in start && forall k :: k in start ==> |k| <= |s|
    requires s != "" && s <= Binary(Distance(info.key, near)) && s <= Binary(Distance(info.key, target))
    requires Less(Distance(q.key, target), Distance(near, target))
    ensures !AlwaysNearest(info, s, full)
  {
    hide Run, New, Binary, Distance, Less, Stored, NearestOf;
    var peers, r := Overlooked(info, early, q, s, near, target, full);
    assert Returned(info, s, full, peers, target, 1, r);
  }

  /** Whatever the local peer and the prefix of at most 32 characters that has a one in it, on some
      reachable table the query for one peer takes the bucket of that prefix and has an answer, and
      every answer it may give is farther from the target than the local peer, which the table holds. */
  lemma OnesAreNotGlobal(info: PeerInfo, s: string) returns (peers: seq<PeerInfo>, r: seq<PeerInfo>)
    requires |s| <= KEY_LEN && IsBinary(s) && '1' in s
    ensures Run(New(info), info.key, peers).Some?
    ensures var t, target := Run(New(info), info.key, peers).value, Target(info.key, s);
            && s <= Binary(Distance(info.key, target))
            && IsCut(t, Binary(Distance(info.key, target)), 1, |s|)
            && !TooDeep(t, Binary(Distance(info.key, target)))
            && |All(t)| > 1 && info in All(t)
            && Answer(t, info.key, target, 1, r)
            && forall a: seq<PeerInfo> :: Answer(t, info.key, target, 1, a) ==>
                 && |a| == 1 && Less(Distance(info.key, target), Distance(a[0].key, target))
                 && !NearestOf(a, All(t), target, 1)
  {
    SharingIsFarther(info.key, s);
    OnlyZeroIsNew(info, s);
    hide Run, New, Binary, Distance, Less, Near, Target, Stored, NearestOf, Answer, TooDeep, IsCut, All;
    peers, r := Overlooked(info, [], info, s, Near(info.key, s), Target(info.key, s), false);
  }

  lemma OnlyZeroIsNew(info: PeerInfo, s: string)
    requires '1' in s
    ensures Run(New(info), info.key, []) == Some(New(info)) && info in Stored(New(info)) && s !in New(info)
    ensures forall k :: k in New(info) ==> |k| <= |s|
  {
    NewInv(info);
    hide New;
    assert '1' !in "0" && |s| >= 1;
  }

  lemma OneIsNotNearest(info: PeerInfo, full: bool)
    ensures !AlwaysNearest(info, "1", full)
  {
    var local, s := info.key, "1";
    SharingIsFarther(local, s);
    OnlyZeroIsNew(info, s);
    hide AlwaysNearest, Run, New, Binary, Distance, Less, Near, Target, Stored;
    OverlookedIsNotNearest(info, [], info, s, Near(local, s), Target(local, s), full);
  }

  /** The first update of a new table puts the peer under one character. */
  lemma FirstEntry(info: PeerInfo, key: Key) returns (p: PeerInfo)
    ensures p.key == key && Run(New(info), info.key, [p]).Some?
    ensures var t := Run(New(info), info.key, [p]).value; p in Stored(t) && forall k :: k in t ==> |k| == 1
  {
    var local, tree, bin := info.key, New(info), Binary(Distance(info.key, key));
    NewInv(info);
    BinaryLength(Distance(local, key));
    SmallNew(info, bin[..1]);
    p := FreshPeer(KnownIds(tree), key);
    hide *;
    var t := EntersFirst(tree, local, p);
    RunAppend(tree, local, [], p);
    RunNone(tree, local);
    assert [] + [p] == [p];
  }

  lemma EntersFirst(tree: Tree, local: Key, p: PeerInfo) returns (t: Tree)
    requires TrieInv(tree, local) && p.id !in KnownIds(tree) && 1 <= |Binary(Distance(local, p.key))|
    requires |BucketAt(tree, Binary(Distance(local, p.key))[..1])| < MAX_BUCKET_LEN
    ensures Updated(tree, local, p, 0) == Some(t)
    ensures p in Stored(t) && t.Keys == tree.Keys + {Binary(Distance(local, p.key))[..1]}
  {
    assert Bin(local, p) == Binary(Distance(local, p.key));
    hide *;
    OneMore(tree, local, p, 1);
    t := Updated(tree, local, p, 0).value;
    InsertedHere(tree, t, Binary(Distance(local, p.key))[..1], p);
  }

  lemma SmallNew(info: PeerInfo, k: string)
    ensures |BucketAt(New(info), k)| < MAX_BUCKET_LEN
  {}

  lemma RunNone(tree: Tree, local: Key)
    ensures Run(tree, local, []) == Some(tree)
  {}

  lemma InsertedHere(tree: Tree, t: Tree, k: string, p: PeerInfo)
    requires Inserted(tree, t, k, p)
    ensures t.Keys == tree.Keys + {k} && p in Stored(t) && forall j :: j in tree && j != k ==> t[j] == tree[j]
  {
    assert p in t[k];
  }

  /** An entry that came before the bucket of s did is under a shorter prefix, though it shares s. */
  lemma TwoKeysAreTooMany(info: PeerInfo, s: string, full: bool, x: Key, near: Key)
    requires |s| >= 2 && x != near
    requires s <= Binary(Distance(info.key, x)) && s <= Binary(Distance(info.key, near))
    ensures !AlwaysNearest(info, s, full)
  {
    DistanceZero(x, x);
    DistanceZero(near, x);
    OrderIsNumeric(Distance(x, x), Distance(near, x));
    var p := FirstEntry(info, x);
    hide AlwaysNearest, Run, New, Binary, Distance, Less, Stored;
    OverlookedIsNotNearest(info, [p], p, s, near, x, full);
  }

  // ---------- the bucket "0" once it is full ----------

  /** Two keys: Late(local) shares "00" with the local peer, but both the local peer and another key
      under "0" are farther than it from a target under "01". */
  function Late(local: Key): Key {
    Target(local, "001")
  }

  lemma LateIsNearer(local: Key)
    ensures Less(Distance(Late(local), Target(local, "011")), Distance(local, Target(local, "011")))
    ensures Less(Distance(Late(local), Target(local, "011")), Distance(Near(local, "011"), Target(local, "011")))
  {
    var x, t := Spelled("001", KEY_LEN), Spelled("011", KEY_LEN);
    AtDistance(local, x);
    AtDistance(local, t);
    Translation(local, Late(local), Target(local, "011"));
    SharingIsFarther(local, "011");
    ThirdByteDecides();
    hide Less, Distance, Spelled;
    var a, b, c := Distance(Late(local), Target(local, "011")), Distance(local, Target(local, "011")),
                   Distance(Near(local, "011"), Target(local, "011"));
    OrderIsNumeric(a, b);
    OrderIsNumeric(b, c);
    OrderIsNumeric(a, c);
  }

  lemma ThirdByteDecides()
    ensures Less(Distance(Spelled("001", KEY_LEN), Spelled("011", KEY_LEN)), Spelled("011", KEY_LEN))
  {
    var rest := Spelled("", 29);
    assert "001"[1..] == "01" && "01"[1..] == "1" == "11"[1..] && "011"[1..] == "11" && "1"[1..] == "";
    assert Spelled("1", 30) == [1] + rest && Spelled("01", 31) == [0] + ([1] + rest);
    assert Spelled("11", 31) == [1] + ([1] + rest);
    assert Spelled("001", 32) == [0] + ([0] + ([1] + rest)) && Spelled("011", 32) == [0] + ([1] + ([1] + rest));
    SmallXors();
    assert Xor(1, 1) == 0;
    hide Spelled, Xor;
    FirstStep(1, 1, rest, rest);
    FirstStep(0, 1, [1] + rest, [1] + rest);
    FirstStep(0, 0, [0] + ([1] + rest), [1] + ([1] + rest));
    var d := Distance(rest, rest);
    assert Less([0] + d, [1] + rest);
    LessLater(1, [0] + d, [1] + rest);
    LessLater(0, [1] + ([0] + d), [1] + ([1] + rest));
  }

  /** With "0" full, the first peer whose form opens with two zeros goes under "00". */
  lemma SecondLevel(tree: Tree, local: Key, key: Key) returns (p: PeerInfo, t: Tree)
    requires TrieInv(tree, local) && "0" in tree && Full(tree["0"]) && "00" !in tree
    requires "00" <= Binary(Distance(local, key))
    ensures p.key == key && Updated(tree, local, p, 0) == Some(t)
    ensures t.Keys == tree.Keys + {"00"} && t["0"] == tree["0"] && p in Stored(t)
  {
    var bin := Binary(Distance(local, key));
    assert bin[..2] == "00" && bin[..1] == "0";
    p := FreshPeer(KnownIds(tree), key);
    assert Bin(local, p) == bin;
    hide Binary, Distance, TrieInv, Bin, KnownIds, Upsert, Stored, Inserted, Updated;
    OneMore(tree, local, p, 2);
    t := Updated(tree, local, p, 0).value;
    InsertedHere(tree, t, "00", p);
  }

  /** Filled up by one other key, "0" holds the local peer and peers of that key. */
  lemma FillZero(info: PeerInfo, key: Key) returns (peers: seq<PeerInfo>)
    requires "0" <= Binary(Distance(info.key, key))
    ensures Run(New(info), info.key, peers).Some?
    ensures var t := Run(New(info), info.key, peers).value;
            && TrieInv(t, info.key) && "0" in t && Full(t["0"])
            && (forall p :: p in t["0"] ==> p == info || p.key == key)
            && (forall k :: k in t ==> |k| <= 1)
  {
    var local, tree, bin := info.key, New(info), Binary(Distance(info.key, key));
    NewInv(info);
    assert tree["0"] == [info] && bin[..1] == "0";
    hide New, Run, Binary, Distance, TrieInv, KnownIds, Stored, Copies;
    peers := Fill(tree, local, key, 1, MAX_BUCKET_LEN);
  }

  lemma FullZeroIsNotNearest(info: PeerInfo)
    ensures !AlwaysNearest(info, "0", true)
  {
    var local, near, target := info.key, Near(info.key, "011"), Target(info.key, "011");
    ZeroForms(local);
    LateIsNearer(local);
    hide *;
    var early := FillZero(info, near);
    var start := Run(New(info), local, early).value;
    var p, t := SecondLevel(start, local, Late(local));
    RunAppend(New(info), local, early, p);
    FarInZero(info, start, t, near, target, p);
    var r := AnswerExists(t, local, target, 1);
    FullZeroFails(info, early + [p], t, target, r);
  }

  lemma ZeroForms(local: Key)
    ensures "0" <= Binary(Distance(local, Near(local, "011"))) && "00" <= Binary(Distance(local, Late(local)))
    ensures var bin := Binary(Distance(local, Target(local, "011"))); "0" <= bin && !("00" <= bin)
  {
    SharingIsFarther(local, "011");
    SharingIsFarther(local, "001");
    hide Binary, Distance, Near, Target, Less;
    var bin := Binary(Distance(local, Target(local, "011")));
    assert bin[..2] == "01" && "011" <= Binary(Distance(local, Near(local, "011")));
    assert "001" <= Binary(Distance(local, Late(local)));
  }

  lemma FarInZero(info: PeerInfo, start: Tree, t: Tree, near: Key, target: Key, p: PeerInfo)
    requires "0" in start && Full(start["0"]) && forall q :: q in start["0"] ==> q == info || q.key == near
    requires forall k :: k in start ==> |k| <= 1
    requires t.Keys == start.Keys + {"00"} && t["0"] == start["0"] && p in Stored(t)
    requires var bin := Binary(Distance(info.key, target)); "0" <= bin && !("00" <= bin)
    requires Less(Distance(p.key, target), Distance(info.key, target))
    requires Less(Distance(p.key, target), Distance(near, target))
    ensures "0" in t && Full(t["0"]) && "0" <= Binary(Distance(info.key, target))
    ensures IsCut(t, Binary(Distance(info.key, target)), 1, 1) && |All(t)| > 1
    ensures !TooDeep(t, Binary(Distance(info.key, target)))
    ensures forall r :: Answer(t, info.key, target, 1, r) ==> !NearestOf(r, All(t), target, 1)
  {
    BinaryLength(Distance(info.key, target));
    hide Binary, Distance, Less, All, IsCut, Answer, NearestOf, Stored;
    Missed(t, info.key, "0", target, p);
  }

  lemma FullZeroFails(info: PeerInfo, peers: seq<PeerInfo>, t: Tree, target: Key, r: seq<PeerInfo>)
    requires Run(New(info), info.key, peers) == Some(t)
    requires "0" in t && Full(t["0"]) && "0" <= Binary(Distance(info.key, target))
    requires IsCut(t, Binary(Distance(info.key, target)), 1, 1) && |All(t)| > 1
    requires !TooDeep(t, Binary(Distance(info.key, target)))
    requires Answer(t, info.key, target, 1, r) && !NearestOf(r, All(t), target, 1)
    ensures !AlwaysNearest(info, "0", true)
  {
    hide Run, New, All, IsCut, TooDeep, Answer, NearestOf, Full, Binary, Distance;
    assert FoundBy(t, info.key, "0", true, target, 1, r);
    assert Returned(info, "0", true, peers, target, 1, r);
  }

  // ---------- the exact condition ----------

  /** For the prefix s of any length, whatever the local peer: what the query finds by way of s is
      always the nearest of the whole table if and only if s is "0" with room in its bucket, or s is
      longer than one character and so long that no two keys share it. */
  lemma NearestIff(info: PeerInfo, s: string, full: bool)
    requires s != "" && IsBinary(s)
    ensures AlwaysNearest(info, s, full) <==> if |s| == 1 then s == "0" && !full else OneKeyOnly(info.key, s)
  {
    if |s| == 1 {
      assert s == [s[0]];
      hide AlwaysNearest;
      if s == "1" {
        OneIsNotNearest(info, full);
      } else if full {
        FullZeroIsNotNearest(info);
      } else {
        ShallowZeroIsNearest(info);
      }
    } else {
      hide AlwaysNearest, Binary, Distance;
      if OneKeyOnly(info.key, s) {
        SharedByOneIsNearest(info, s, full);
      } else {
        var x: Key, y: Key :| s <= Binary(Distance(info.key, x)) && s <= Binary(Distance(info.key, y)) && x != y;
        TwoKeysAreTooMany(info, s, full, x, y);
      }
    }
  }

  /** The same in terms a caller can check, for prefixes of at most 32 characters. */
  lemma GlobalIff(info: PeerInfo, s: string, full: bool)
    requires 1 <= |s| <= KEY_LEN && IsBinary(s)
    ensures AlwaysNearest(info, s, full) <==> s == Zeros(KEY_LEN) || (s == "0" && !full)
  {
    NearestIff(info, s, full);
    OneKeyIff(info.key, s);
  }

  /** None of this is vacuous: any prefix of any key's form is one by which some reachable table is
      queried, with room in its bucket as well as with none. */
  lemma EveryPrefixIsUsed(info: PeerInfo, s: string, key: Key, full: bool)
      returns (peers: seq<PeerInfo>, r: seq<PeerInfo>)
    requires s != "" && s <= Binary(Distance(info.key, key))
    ensures Returned(info, s, full, peers, key, 1, r)
  {
    var local, tree, size := info.key, New(info), if full then MAX_BUCKET_LEN else 2;
    NewInv(info);
    assert Binary(Distance(local, key))[..|s|] == s;
    assert |BucketAt(tree, s)| <= 1;
    hide New, Run, Binary, Distance, TrieInv, All, FoundBy;
    peers := Fill(tree, local, key, |s|, size);
    var t := Run(tree, local, peers).value;
    assert forall k :: k in t ==> |k| <= |s|;
    hide Fills, Grown;
    r := AnswerExists(t, local, key, 1);
    UsedAtCut(t, local, s, key, full, r);
  }

  lemma UsedAtCut(t: Tree, local: Key, s: string, key: Key, full: bool, r: seq<PeerInfo>)
    requires s != "" && s <= Binary(Distance(local, key)) && forall k :: k in t ==> |k| <= |s|
    requires |BucketAt(t, s)| == if full then MAX_BUCKET_LEN else 2
    requires Answer(t, local, key, 1, r)
    ensures FoundBy(t, local, s, full, key, 1, r)
  {
    hide Binary, Distance, All, IsCut, Answer;
    CutHere(t, Binary(Distance(local, key)), s);
    AllSplit(t, s);
    assert |multiset(t[s])| == |t[s]|;
  }
}
