/** Keys whose unpadded binary forms open with a given prefix, and what a prefix with a one in it does
    not say about them. */
module Prefixes {
  import opened Bytes
  import opened Keys

  predicate IsBinary(s: string) {
    forall i :: 0 <= i < |s| ==> s[i] == '0' || s[i] == '1'
  }

  function BitOf(c: char): byte {
    if c == '1' then 1 else 0
  }

  /** n bytes whose binary form opens with s: a byte for each character, and zeros. */
  function Spelled(s: string, n: nat): (r: seq<byte>)
    requires |s| <= n
    ensures |r| == n
  {
    if n == 0 then []
    else if s == "" then [0] + Spelled("", n - 1)
    else [BitOf(s[0])] + Spelled(s[1..], n - 1)
  }

  /** The same for s with a one, but with the first one and what follows it in a single byte. */
  function Squeezed(s: string, n: nat): (r: seq<byte>)
    requires |s| <= n && '1' in s
    ensures |r| == n
  {
    if s[0] != '1' then [0] + Squeezed(s[1..], n - 1)
    else if |s| == 1 then [2] + Spelled("", n - 1)
    else [2 + BitOf(s[1])] + Spelled(s[2..], n - 1)
  }

  lemma {:induction false} BlankForm(n: nat)
    ensures Binary(Spelled("", n)) == Zeros(n)
  {
    if n > 0 {
      BlankForm(n - 1);
      assert Spelled("", n)[1..] == Spelled("", n - 1) && Digits(0) == "0";
    }
  }

  lemma {:induction false} SpelledOpens(s: string, n: nat)
    requires |s| <= n && IsBinary(s)
    ensures s <= Binary(Spelled(s, n))
  {
    if s != "" {
      SpelledOpens(s[1..], n - 1);
      var b, rest := BitOf(s[0]), Binary(Spelled(s[1..], n - 1));
      assert Spelled(s, n)[1..] == Spelled(s[1..], n - 1);
      assert Binary(Spelled(s, n)) == Digits(b) + rest;
      assert Digits(b) == [s[0]];
      assert s == [s[0]] + s[1..];
    }
  }

  lemma {:induction false} SqueezedOpens(s: string, n: nat)
    requires |s| <= n && IsBinary(s) && '1' in s
    ensures s <= Binary(Squeezed(s, n))
  {
    assert s == [s[0]] + s[1..];
    if s[0] != '1' {
      SqueezedOpens(s[1..], n - 1);
      assert Squeezed(s, n)[1..] == Squeezed(s[1..], n - 1);
      assert Digits(0) == [s[0]];
    } else if |s| == 1 {
      assert Squeezed(s, n)[1..] == Spelled("", n - 1);
      assert Digits(2) == Digits(1) + "0" == "10";
    } else {
      TwoInOne(s, n);
    }
  }

  lemma TwoInOne(s: string, n: nat)
    requires 2 <= |s| <= n && IsBinary(s) && s[0] == '1'
    ensures s <= Binary(Squeezed(s, n))
  {
    SpelledOpens(s[2..], n - 1);
    var d, rest := Digits(2 + BitOf(s[1])), Binary(Spelled(s[2..], n - 1));
    assert Squeezed(s, n)[1..] == Spelled(s[2..], n - 1);
    assert Binary(Squeezed(s, n)) == d + rest;
    assert d == Digits(1) + [s[1]] == s[..2];
    hide *;
    assert s == s[..2] + s[2..];
  }

  /** The bytes that are all zero have no form with a one in it ... */
  lemma {:induction false} BlankLacks(s: string, n: nat)
    requires '1' in s
    ensures !(s <= Binary(Spelled("", n)))
  {
    if n > 0 {
      assert Spelled("", n)[1..] == Spelled("", n - 1);
      var form := Binary(Spelled("", n));
      assert form == "0" + Binary(Spelled("", n - 1));
      if s <= form {
        assert s[0] == form[0];
        assert s[1..] == form[1..|s|] == Binary(Spelled("", n - 1))[..|s| - 1];
        BlankLacks(s[1..], n - 1);
      }
    }
  }

  /** ... and yet they are nearer to the spelled bytes than the squeezed ones are. */
  lemma {:induction false} BlankIsNearer(s: string, n: nat)
    requires |s| <= n && IsBinary(s) && '1' in s
    ensures Less(Distance(Spelled("", n), Spelled(s, n)), Distance(Squeezed(s, n), Spelled(s, n)))
  {
    var x, y, z := Spelled("", n), Spelled(s, n), Squeezed(s, n);
    assert x == [0] + Spelled("", n - 1) && y == [BitOf(s[0])] + Spelled(s[1..], n - 1);
    SmallXors();
    if s[0] != '1' {
      BlankIsNearer(s[1..], n - 1);
      assert z == [0] + Squeezed(s[1..], n - 1);
      hide Spelled, Squeezed, Less, Xor;
      FirstStep(0, 0, Spelled("", n - 1), Spelled(s[1..], n - 1));
      FirstStep(0, 0, Squeezed(s[1..], n - 1), Spelled(s[1..], n - 1));
      LessLater(0, Distance(Spelled("", n - 1), Spelled(s[1..], n - 1)),
                Distance(Squeezed(s[1..], n - 1), Spelled(s[1..], n - 1)));
    } else {
      assert z == [z[0]] + z[1..] && 2 <= z[0] <= 3;
      hide Spelled, Squeezed, Xor;
      FirstStep(0, 1, Spelled("", n - 1), Spelled(s[1..], n - 1));
      FirstStep(z[0], 1, z[1..], Spelled(s[1..], n - 1));
    }
  }

  lemma SmallXors()
    ensures Xor(0, 0) == 0 && Xor(0, 1) == 1 && Xor(2, 1) == 3 && Xor(3, 1) == 2
  {}

  lemma FirstStep(p: byte, q: byte, a: seq<byte>, b: seq<byte>)
    requires |a| == |b|
    ensures Distance([p] + a, [q] + b) == [ByteXor(p, q)] + Distance(a, b)
  {
    hide Xor;
  }

  lemma LessLater(p: byte, a: seq<byte>, b: seq<byte>)
    requires |a| == |b| && Less(a, b)
    ensures Less([p] + a, [p] + b)
  {
    assert ([p] + a)[1..] == a && ([p] + b)[1..] == b;
  }

  // ---------- distances are invariant under translation ----------

  lemma {:induction false} Translation(local: Key, x: Key, y: Key)
    ensures Distance(Distance(local, x), Distance(local, y)) == Distance(x, y)
  {
    forall i | 0 <= i < KEY_LEN ensures Xor(Xor(local[i], x[i]), Xor(local[i], y[i])) == Xor(x[i], y[i]) {
      XorCancels(local[i], x[i], y[i]);
    }
  }

  /** The key at distance d from local. */
  function At(local: Key, d: Key): Key {
    Distance(local, d)
  }

  lemma AtDistance(local: Key, d: Key)
    ensures Distance(local, At(local, d)) == d
  {
    DistanceUnidirectional(local, At(local, d), d);
  }

  // ---------- prefixes with a one ----------

  /** Two keys that share s, farther from each other than the first is from the local key. */
  function Target(local: Key, s: string): Key
    requires |s| <= KEY_LEN
  {
    At(local, Spelled(s, KEY_LEN))
  }

  function Near(local: Key, s: string): Key
    requires |s| <= KEY_LEN && '1' in s
  {
    At(local, Squeezed(s, KEY_LEN))
  }

  /** The local peer itself is nearer to the target than the peer that shares the prefix with it. */
  lemma SharingIsFarther(local: Key, s: string)
    requires |s| <= KEY_LEN && IsBinary(s) && '1' in s
    ensures s <= Binary(Distance(local, Target(local, s))) && s <= Binary(Distance(local, Near(local, s)))
    ensures !(s <= Binary(Distance(local, local)))
    ensures Less(Distance(local, Target(local, s)), Distance(Near(local, s), Target(local, s)))
  {
    var blank, t, n := Spelled("", KEY_LEN), Spelled(s, KEY_LEN), Squeezed(s, KEY_LEN);
    SpelledOpens(s, KEY_LEN);
    SqueezedOpens(s, KEY_LEN);
    BlankLacks(s, KEY_LEN);
    BlankIsNearer(s, KEY_LEN);
    AtDistance(local, t);
    AtDistance(local, n);
    Translation(local, n, t);
    BlankIsNeutral(local, t);
    hide Distance, Binary, Spelled, Squeezed;
  }

  lemma BlankIsNeutral(local: Key, t: Key)
    ensures Distance(local, local) == Spelled("", KEY_LEN)
    ensures Distance(Spelled("", KEY_LEN), t) == Distance(local, Distance(local, t))
  {
    BlankIsZero(KEY_LEN);
    forall i | 0 <= i < KEY_LEN
      ensures Xor(local[i], local[i]) == 0 && Xor(0, t[i]) == Xor(local[i], Xor(local[i], t[i]))
    {
      XorZero(local[i], local[i]);
      XorInverts(local[i], t[i]);
      XorInverts(0, t[i]);
      XorCancels(0, 0, t[i]);
    }
  }

  lemma {:induction false} BlankIsZero(n: nat)
    ensures forall i :: 0 <= i < n ==> Spelled("", n)[i] == 0
  {
    if n > 0 { BlankIsZero(n - 1); }
  }
}
