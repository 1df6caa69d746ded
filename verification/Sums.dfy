/** Sums of weights over maps, sets and multisets, in no particular order. */
module Sums {
  import opened Bytes

  ghost function OverMap<K(!new), V(!new)>(m: map<K, V>, w: (K, V) -> nat): nat
    decreases |m|
  {
    if m == map[] then 0
    else
      var k :| k in m;
      assert |m - {k}| < |m|;
      w(k, m[k]) + OverMap(m - {k}, w)
  }

  lemma {:induction false} MapSplit<K(!new), V(!new)>(m: map<K, V>, w: (K, V) -> nat, k: K)
    requires k in m
    ensures OverMap(m, w) == w(k, m[k]) + OverMap(m - {k}, w)
    decreases |m|
  {
    var j :| j in m && OverMap(m, w) == w(j, m[j]) + OverMap(m - {j}, w);
    if j != k {
      MapSplit(m - {j}, w, k);
      MapSplit(m - {k}, w, j);
      assert m - {j} - {k} == m - {k} - {j};
    }
  }

  lemma MapUpdate<K(!new), V(!new)>(m: map<K, V>, w: (K, V) -> nat, k: K, v: V)
    requires k in m
    ensures OverMap(m[k := v], w) + w(k, m[k]) == OverMap(m, w) + w(k, v)
  {
    MapSplit(m, w, k);
    MapSplit(m[k := v], w, k);
    assert m[k := v] - {k} == m - {k};
  }

  lemma {:induction false} MapAgree<K(!new), V(!new)>(m: map<K, V>, n: map<K, V>, w: (K, V) -> nat, v: (K, V) -> nat)
    requires m.Keys == n.Keys && forall k :: k in m ==> w(k, m[k]) == v(k, n[k])
    ensures OverMap(m, w) == OverMap(n, v)
    decreases |m|
  {
    if m != map[] {
      var k :| k in m;
      MapSplit(m, w, k);
      MapSplit(n, v, k);
      assert (m - {k}).Keys == (n - {k}).Keys;
      MapAgree(m - {k}, n - {k}, w, v);
    } else {
      assert n == map[];
    }
  }

  /** Sums that differ at one key. */
  lemma MapChanged<K(!new), V(!new)>(m: map<K, V>, n: map<K, V>, w: (K, V) -> nat, v: (K, V) -> nat, k: K)
    requires k in m && m.Keys == n.Keys && forall j :: j in m && j != k ==> w(j, m[j]) == v(j, n[j])
    ensures OverMap(n, v) + w(k, m[k]) == OverMap(m, w) + v(k, n[k])
  {
    MapSplit(m, w, k);
    MapSplit(n, v, k);
    assert (m - {k}).Keys == (n - {k}).Keys;
    MapAgree(m - {k}, n - {k}, w, v);
  }

  ghost function OverBag<T(!new)>(b: multiset<T>, w: T -> nat): nat
    decreases |b|
  {
    if b == multiset{} then 0
    else
      var x :| x in b;
      w(x) + OverBag(b - multiset{x}, w)
  }

  lemma {:induction false} BagSplit<T(!new)>(b: multiset<T>, w: T -> nat, x: T)
    requires x in b
    ensures OverBag(b, w) == w(x) + OverBag(b - multiset{x}, w)
    decreases |b|
  {
    var y :| y in b && OverBag(b, w) == w(y) + OverBag(b - multiset{y}, w);
    if y != x {
      BagSplit(b - multiset{y}, w, x);
      BagSplit(b - multiset{x}, w, y);
      hide OverBag;
      TwoLess(b, x, y);
    }
  }

  lemma TwoLess<T(!new)>(b: multiset<T>, x: T, y: T)
    ensures b - multiset{y} - multiset{x} == b - multiset{x} - multiset{y}
  {}

  ghost function OverSet<T(!new)>(s: set<T>, w: T -> nat): nat {
    OverBag(multiset(s), w)
  }

  lemma {:induction false} BagAdd<T(!new)>(b: multiset<T>, c: multiset<T>, w: T -> nat)
    ensures OverBag(b + c, w) == OverBag(b, w) + OverBag(c, w)
    decreases |c|
  {
    if c == multiset{} {
      assert b + c == b;
    } else {
      var x :| x in c;
      BagSplit(c, w, x);
      BagSplit(b + c, w, x);
      assert b + c - multiset{x} == b + (c - multiset{x});
      BagAdd(b, c - multiset{x}, w);
    }
  }

  lemma SetAdd<T(!new)>(s: set<T>, t: set<T>, w: T -> nat)
    requires s !! t
    ensures OverSet(s + t, w) == OverSet(s, w) + OverSet(t, w)
  {
    assert multiset(s + t) == multiset(s) + multiset(t);
    BagAdd(multiset(s), multiset(t), w);
  }

  lemma SetSingle<T(!new)>(x: T, w: T -> nat)
    ensures OverSet({x}, w) == w(x)
  {
    assert multiset({x}) == multiset{x};
    BagSplit(multiset{x}, w, x);
    assert multiset{x} - multiset{x} == multiset{};
  }

  lemma {:induction false} SetBound<T(!new)>(s: set<T>, w: T -> nat, bound: nat)
    requires forall x :: x in s ==> w(x) <= bound
    ensures OverSet(s, w) <= Times(bound, |s|)
  {
    if s == {} {
      assert multiset(s) == multiset{};
    } else {
      var x :| x in s;
      assert Times(bound, |s|) == Times(bound, |s| - 1) + bound;
      hide OverSet, OverBag, Times;
      SetBound(s - {x}, w, bound);
      SetSingle(x, w);
      SetAdd(s - {x}, {x}, w);
      assert s - {x} + {x} == s;
    }
  }

  lemma {:induction false} InjectionSize<T(!new), U>(s: set<T>, t: set<U>, f: T -> U)
    requires forall x :: x in s ==> f(x) in t
    requires forall x, y :: x in s && y in s && f(x) == f(y) ==> x == y
    ensures |s| <= |t|
  {
    if s != {} {
      var x :| x in s;
      InjectionSize(s - {x}, t - {f(x)}, f);
    }
  }
}
