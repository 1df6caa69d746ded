/** What a prefix of the binary form says at any length: as the bytes are not padded, one prefix can be
    read as different bytes, and then it does not mean nearness. */
module Separation {
  import opened Bytes
  import opened Keys
  import opened Prefixes

  /** Sharing the prefix s of the target's distance from local means being nearer to the target. */
  ghost predicate MeansNearer(local: Key, s: string) {
    forall target: Key, near: Key, far: Key ::
      && s <= Binary(Distance(local, target))
      && s <= Binary(Distance(local, near))
      && !(s <= Binary(Distance(local, far)))
      ==> Less(Distance(near, target), Distance(far, target))
  }

  /** At most one key shares s. */
  ghost predicate OneKeyOnly(local: Key, s: string) {
    forall x: Key, y: Key :: s <= Binary(Distance(local, x)) && s <= Binary(Distance(local, y)) ==> x == y
  }

  /** Bytes x and y that share s, and bytes that do not share it and yet are nearer to x. */
  predicate Separates(s: string, x: seq<byte>, y: seq<byte>, far: seq<byte>) {
    && |x| == |y| == |far|
    && s <= Binary(x) && s <= Binary(y) && !(s <= Binary(far))
    && Less(Distance(far, x), Distance(y, x))
  }

  // ---------- digits ----------

  lemma DigitsFixTheNumber(p: nat, q: nat)
    requires Digits(p) == Digits(q)
    ensures p == q
  {
    DigitsRead(p);
    DigitsRead(q);
  }

  /** The opening digits of a number are those of a smaller number. */
  lemma {:induction false} OpeningDigits(p: nat, k: nat) returns (h: nat)
    requires p > 0 && 1 <= k <= |Digits(p)|
    ensures 0 < h <= p && Digits(h) == Digits(p)[..k]
  {
    if k == |Digits(p)| {
      h := p;
    } else {
      assert Digits(p)[..|Digits(p)| - 1] == Digits(p / 2);
      h := OpeningDigits(p / 2, k);
      assert Digits(p)[..k] == Digits(p / 2)[..k];
    }
  }

  lemma ByteDigits(p: byte)
    requires p > 0
    ensures 1 <= |Digits(p)| <= 8 && (|Digits(p)| <= 7 <==> p < 128)
    ensures Digits(p)[0] == '1'
  {
    DigitsShape(p);
    assert p != 0 ==> ByteLeadingZeros(p) == 8 - BitLength(p);
    BitLengthBounds(p);
    assert Pow2(7) == 128 && Pow2(8) == 256;
    Pow2Monotone(BitLength(p), 8);
    if BitLength(p) <= 7 { Pow2Monotone(BitLength(p), 7); }
  }

  /** A number is nearer to zero than to one with more digits. */
  lemma NearerToZero(p: byte, q: byte)
    requires 0 < p && |Digits(p)| < |Digits(q)|
    ensures ByteXor(0, p) < ByteXor(q, p)
  {
    DigitsShape(p);
    DigitsShape(q);
    XorNeutral(p);
    LongerIsFar(p, q);
  }

  lemma LongerIsFar(p: nat, q: nat)
    requires 0 < p && 0 < q && BitLength(p) < BitLength(q)
    ensures p < Xor(q, p)
  {
    var k := BitLength(p);
    BitLengthBounds(p);
    BitLengthBounds(q);
    Pow2Monotone(k, BitLength(q) - 1);
    XorCommutes(q, p);
    XorInverts(p, q);
    hide *;
    if Xor(q, p) < Pow2(k) {
      XorFits(p, Xor(q, p), k);
    }
  }

  // ---------- two readings of one prefix ----------

  lemma Reading(p: byte, rest: seq<byte>)
    ensures Binary([p] + rest) == Digits(p) + Binary(rest)
  {
    assert ([p] + rest)[1..] == rest;
  }

  lemma Blank(n: nat) returns (z: seq<byte>)
    ensures |z| == n && Binary(z) == Zeros(n)
  {
    z := Spelled("", n);
    BlankForm(n);
  }

  /** Where the readings differ in the number of digits of a byte, a zero byte is nearer. */
  lemma FirstBytesDiffer(s: string, x: seq<byte>, y: seq<byte>) returns (far: seq<byte>)
    requires s != "" && s[0] == '1' && |x| == |y| > 0 && s <= Binary(x) && s <= Binary(y)
    requires 0 < x[0] && |Digits(x[0])| < |Digits(y[0])|
    ensures Separates(s, x, y, far)
  {
    var rest := Spelled("", |x| - 1);
    far := [0] + rest;
    Reading(0, rest);
    NearerToZero(x[0], y[0]);
    assert x == [x[0]] + x[1..] && y == [y[0]] + y[1..];
    hide Spelled, Binary, Xor;
    FirstStep(0, x[0], rest, x[1..]);
    FirstStep(y[0], x[0], y[1..], x[1..]);
    assert Digits(0) == "0";
  }

  lemma SameFirstByte(p: byte, s: string, x: seq<byte>, y: seq<byte>, far: seq<byte>)
    requires Separates(s, x, y, far)
    ensures Separates(Digits(p) + s, [p] + x, [p] + y, [p] + far)
  {
    hide Binary, Xor, Less, Digits;
    Reading(p, x);
    Reading(p, y);
    Reading(p, far);
    FirstStep(p, p, far, x);
    FirstStep(p, p, y, x);
    LessLater(ByteXor(p, p), Distance(far, x), Distance(y, x));
    SameOpening(Digits(p), s, Binary(far));
  }

  lemma SameOpening(d: string, s: string, t: string)
    ensures d + s <= d + t <==> s <= t
  {
    assert s == (d + s)[|d|..] && t == (d + t)[|d|..];
  }

  /** A prefix that ends within a byte of fewer than eight digits may be that byte or its double. */
  lemma EndsEarly(s: string, p: byte, n: nat) returns (x: seq<byte>, y: seq<byte>, far: seq<byte>)
    requires 0 < p < 128 && s == Digits(p) && n > 0
    ensures |x| == n && Separates(s, x, y, far)
  {
    var z := Blank(n - 1);
    x, y := [p] + z, [2 * p] + z;
    Reading(p, z);
    Reading(2 * p, z);
    ByteDigits(p);
    assert Digits(2 * p) == Digits(p) + [BitChar(0)];
    hide Binary, Digits;
    far := FirstBytesDiffer(s, x, y);
  }

  /** A zero after a byte of fewer than eight digits may belong to that byte. */
  lemma ZeroJoins(s: string, p: byte, m: nat, a: seq<byte>) returns (y: seq<byte>, far: seq<byte>)
    requires 0 < p < 128 && m > 0 && s == Digits(p) + Zeros(m) && |a| > m && a[0] == p && s <= Binary(a)
    ensures Separates(s, a, y, far)
  {
    var z := Blank(|a| - 1);
    y := [2 * p] + z;
    Reading(2 * p, z);
    ByteDigits(p);
    assert Digits(2 * p) == Digits(p) + "0";
    assert Zeros(m) == "0" + Zeros(m - 1) && Zeros(m - 1) <= Zeros(|a| - 1);
    assert s == Digits(2 * p) + Zeros(m - 1);
    hide Binary, Digits;
    far := FirstBytesDiffer(s, a, y);
  }

  /** A byte of eight digits may be one of seven and one of a single digit, if there is room for it. */
  lemma ByteSplits(s: string, p: byte, m: nat, n: nat) returns (x: seq<byte>, y: seq<byte>, far: seq<byte>)
    requires 128 <= p && s == Digits(p) + Zeros(m) && n >= m + 2
    ensures |x| == n && Separates(s, x, y, far)
  {
    var z := Blank(n - 2);
    var z' := Blank(n - 1);
    var low: byte := p % 2;
    x, y := [p / 2] + ([low] + z), [p] + z';
    Reading(p / 2, [low] + z);
    Reading(low, z);
    Reading(p, z');
    ByteDigits(p);
    ByteDigits(p / 2);
    assert Digits(p) == Digits(p / 2) + Digits(low);
    assert Zeros(m) <= Zeros(n - 2) && Zeros(m) <= Zeros(n - 1);
    hide Binary, Digits;
    assert Binary(x) == Digits(p) + Zeros(n - 2);
    far := FirstBytesDiffer(s, x, y);
  }

  // ---------- every prefix with a one that is shared ----------

  /** Whether what follows the first byte has a one too. */
  predicate GoesOn(s: string, p: byte) {
    |Digits(p)| < |s| && '1' in s[|Digits(p)|..]
  }

  lemma FirstIsOne(s: string, a: seq<byte>, b: seq<byte>)
    requires a != [] && b != [] && IsBinary(s) && '1' in s && (a[0] == b[0] ==> !GoesOn(s, a[0]))
    requires s[0] == Digits(a[0])[0] == Digits(b[0])[0]
    ensures s[0] == '1' && a[0] > 0 && b[0] > 0
  {
    DigitsShape(a[0]);
    DigitsShape(b[0]);
    assert Digits(0) == "0" && s == [s[0]] + s[1..];
  }

  lemma SeparatedHere(s: string, a: seq<byte>, b: seq<byte>) returns (x: seq<byte>, y: seq<byte>, far: seq<byte>)
    requires |a| == |b| > 0 && a != b && IsBinary(s) && s != "" && s[0] == '1' && s <= Binary(a) && s <= Binary(b)
    requires a[0] > 0 && b[0] > 0 && (a[0] == b[0] ==> !GoesOn(s, a[0]))
    ensures |x| == |a| && Separates(s, x, y, far)
  {
    hide *;
    if |Digits(a[0])| < |Digits(b[0])| {
      x, y := a, b;
      far := FirstBytesDiffer(s, a, b);
    } else if |Digits(b[0])| < |Digits(a[0])| {
      x, y := b, a;
      far := FirstBytesDiffer(s, b, a);
    } else if |s| < |Digits(a[0])| {
      var h := OpeningDigits(a[0], |s|);
      OpeningIs(s, a);
      ByteDigits(a[0]);
      ByteDigits(h);
      x, y, far := EndsEarly(s, h, |a|);
    } else {
      Rest(s, a);
      Rest(s, b);
      DigitsFixTheNumber(a[0], b[0]);
      x, y, far := ZerosFollow(s, a[0], |s| - |Digits(a[0])|, a, b);
    }
  }

  lemma OpeningIs(s: string, a: seq<byte>)
    requires a != [] && s <= Binary(a) && |s| <= |Digits(a[0])|
    ensures s == Digits(a[0])[..|s|]
  {}

  lemma NothingElse(a: seq<byte>, b: seq<byte>, m: nat)
    requires |a| == |b| && ZeroBytes(a, m) && ZeroBytes(b, m)
    ensures |a| == m ==> a == b
  {}

  lemma OnlyZerosLeft(s: string, p: byte, m: nat)
    requires !GoesOn(s, p) && IsBinary(s) && |Digits(p)| + m == |s|
    ensures s[|Digits(p)|..] == Zeros(m)
  {
    var d := |Digits(p)|;
    forall i | 0 <= i < m ensures s[d..][i] == '0' {
      assert s[d..][i] in s[d..] && s[d + i] in s;
    }
    hide Digits;
  }

  lemma ZerosFollow(s: string, p: byte, m: nat, a: seq<byte>, b: seq<byte>)
      returns (x: seq<byte>, y: seq<byte>, far: seq<byte>)
    requires |a| == |b| > 0 && a != b && p == a[0] == b[0] > 0 && !GoesOn(s, p) && IsBinary(s)
    requires |Digits(p)| + m == |s| && s == Digits(p) + s[|Digits(p)|..] && s <= Binary(a)
    requires s[|Digits(p)|..] <= Binary(a[1..]) && s[|Digits(p)|..] <= Binary(b[1..])
    ensures |x| == |a| && Separates(s, x, y, far)
  {
    OnlyZerosLeft(s, p, m);
    ByteDigits(p);
    hide Digits, Binary, GoesOn, IsBinary, Separates;
    assert s[|Digits(p)|..] == Zeros(m);
    ZeroPrefixIsZeroBytes(a[1..], m);
    ZeroPrefixIsZeroBytes(b[1..], m);
    SameTail(a, b);
    NothingElse(a[1..], b[1..], m);
    hide *;
    if p >= 128 {
      x, y, far := ByteSplits(s, p, m, |a|);
    } else if m > 0 {
      x := a;
      y, far := ZeroJoins(s, p, m, a);
    } else {
      x, y, far := EndsEarly(s, p, |a|);
    }
  }

  /** Any two byte strings that share a prefix with a one in it lead to some that it tells nothing
      about: the bytes are read off the prefix one after the other. */
  lemma {:induction false} Separated(s: string, a: seq<byte>, b: seq<byte>)
      returns (x: seq<byte>, y: seq<byte>, far: seq<byte>)
    requires |a| == |b| && a != b && IsBinary(s) && '1' in s && s <= Binary(a) && s <= Binary(b)
    ensures |x| == |a| && Separates(s, x, y, far)
    decreases |a|
  {
    var p, q := a[0], b[0];
    Readings(s, a);
    Readings(s, b);
    assert GoesOn(s, p) ==> |Digits(p)| < |s| && '1' in s[|Digits(p)|..];
    hide *;
    if p == q && GoesOn(s, p) {
      var u := s[|Digits(p)|..];
      SameTail(a, b);
      Rest(s, a);
      Rest(s, b);
      x, y, far := Separated(u, a[1..], b[1..]);
      SameFirstByte(p, u, x, y, far);
      x, y, far := [p] + x, [p] + y, [p] + far;
    } else {
      FirstIsOne(s, a, b);
      x, y, far := SeparatedHere(s, a, b);
    }
  }

  lemma Readings(s: string, a: seq<byte>)
    requires s != "" && s <= Binary(a)
    ensures a != [] && s[0] == Digits(a[0])[0]
    ensures s <= Digits(a[0]) + Binary(a[1..])
  {
    DigitsShape(a[0]);
  }

  lemma SameTail(a: seq<byte>, b: seq<byte>)
    requires |a| == |b| > 0 && a != b && a[0] == b[0]
    ensures a[1..] != b[1..]
  {
    assert a == [a[0]] + a[1..] && b == [b[0]] + b[1..];
  }

  lemma Rest(s: string, a: seq<byte>)
    requires a != [] && |Digits(a[0])| <= |s| && s <= Binary(a)
    ensures s == Digits(a[0]) + s[|Digits(a[0])|..] && s[|Digits(a[0])|..] <= Binary(a[1..])
    ensures IsBinary(s) ==> IsBinary(s[|Digits(a[0])|..])
  {
    var d := Digits(a[0]);
    assert Binary(a) == d + Binary(a[1..]);
    hide Binary, Digits;
    PrefixRest(s, d, Binary(a[1..]));
  }

  lemma PrefixRest(s: string, d: string, r: string)
    requires |d| <= |s| && s <= d + r
    ensures s == d + s[|d|..] && s[|d|..] <= r
  {
    assert s == (d + r)[..|s|];
    assert s[|d|..] == r[..|s| - |d|];
  }

  // ---------- the exact condition, at any length ----------

  /** For prefixes of any length, of whatever local peer: sharing one means being nearer if and only if
      it is all zeros or there are no two keys to share it. */
  lemma MeansNearerExactly(local: Key, s: string)
    requires IsBinary(s)
    ensures MeansNearer(local, s) <==> '1' !in s || OneKeyOnly(local, s)
  {
    hide Distance, Binary, Less;
    if '1' !in s {
      ZerosMeanNearer(local, s);
    } else if OneKeyOnly(local, s) {
      forall target: Key, near: Key, far: Key
        | s <= Binary(Distance(local, target)) && s <= Binary(Distance(local, near))
          && !(s <= Binary(Distance(local, far)))
        ensures Less(Distance(near, target), Distance(far, target))
      {
        assert near == target && far != target;
        OnlyItselfIsNearest(target, far);
      }
    } else {
      var a: Key, b: Key :| s <= Binary(Distance(local, a)) && s <= Binary(Distance(local, b)) && a != b;
      DistanceUnidirectional(local, b, Distance(local, a));
      DistanceUnidirectional(local, a, Distance(local, a));
      var x, y, far := Separated(s, Distance(local, a), Distance(local, b));
      Counterexample(local, s, x, y, far);
    }
  }

  lemma LessIsStrict(a: seq<byte>, b: seq<byte>)
    requires |a| == |b| && Less(a, b)
    ensures !Less(b, a)
  {
    OrderIsNumeric(a, b);
    OrderIsNumeric(b, a);
  }

  lemma OnlyItselfIsNearest(target: Key, far: Key)
    requires far != target
    ensures Less(Distance(target, target), Distance(far, target))
  {
    DistanceZero(target, target);
    DistanceZero(far, target);
    OrderIsNumeric(Distance(target, target), Distance(far, target));
  }

  lemma ZerosMeanNearer(local: Key, s: string)
    requires IsBinary(s) && '1' !in s
    ensures MeansNearer(local, s)
  {
    assert forall i :: 0 <= i < |s| ==> s[i] in s;
    assert s == Zeros(|s|);
    hide Distance, Binary, Less, Zeros;
    forall target: Key, near: Key, far: Key
      | s <= Binary(Distance(local, target)) && s <= Binary(Distance(local, near))
        && !(s <= Binary(Distance(local, far)))
      ensures Less(Distance(near, target), Distance(far, target))
    {
      ZeroPrefixIsNearer(local, target, near, far, |s|);
    }
  }

  lemma Counterexample(local: Key, s: string, x: Key, y: Key, far: Key)
    requires Separates(s, x, y, far)
    ensures !MeansNearer(local, s)
  {
    AtDistance(local, x);
    AtDistance(local, y);
    AtDistance(local, far);
    Translation(local, At(local, far), At(local, x));
    Translation(local, At(local, y), At(local, x));
    LessIsStrict(Distance(far, x), Distance(y, x));
    hide Distance, Binary, Less, At;
    assert !Less(Distance(At(local, y), At(local, x)), Distance(At(local, far), At(local, x)));
  }

  /** No two keys share a prefix of at most 32 characters, except the 32 zeros of the local key. */
  lemma OneKeyIff(local: Key, s: string)
    requires |s| <= KEY_LEN && IsBinary(s)
    ensures OneKeyOnly(local, s) <==> s == Zeros(KEY_LEN)
  {
    if s == Zeros(KEY_LEN) {
      forall x: Key, y: Key | s <= Binary(Distance(local, x)) && s <= Binary(Distance(local, y)) ensures x == y {
        ZeroPrefixIsZeroBytes(Distance(local, x), KEY_LEN);
        ZeroPrefixIsZeroBytes(Distance(local, y), KEY_LEN);
        assert Distance(local, x) == Distance(local, y);
        DistanceUnidirectional(local, x, Distance(local, x));
        DistanceUnidirectional(local, y, Distance(local, x));
      }
    } else {
      var w := if '1' in s then s else Zeros(KEY_LEN - 1) + "1";
      if '1' !in s {
        ShortZeros(s);
      }
      SharingIsFarther(local, w);
      var near, target := Near(local, w), Target(local, w);
      DistanceZero(target, target);
      OrderIsNumeric(Distance(local, target), Distance(near, target));
      hide Binary, Distance, Near, Target, Less;
      assert near != target;
    }
  }

  lemma ShortZeros(s: string)
    requires |s| <= KEY_LEN && IsBinary(s) && '1' !in s && s != Zeros(KEY_LEN)
    ensures s <= Zeros(KEY_LEN - 1) + "1" && '1' in Zeros(KEY_LEN - 1) + "1" && IsBinary(Zeros(KEY_LEN - 1) + "1")
  {
    assert (Zeros(KEY_LEN - 1) + "1")[KEY_LEN - 1] == '1';
    assert forall i :: 0 <= i < |s| ==> s[i] in s;
    assert s == Zeros(|s|);
  }

  /** So for prefixes of at most 32 characters: if and only if it is all zeros. */
  lemma MeansNearerIff(local: Key, s: string)
    requires |s| <= KEY_LEN && IsBinary(s)
    ensures MeansNearer(local, s) <==> s == Zeros(|s|)
  {
    MeansNearerExactly(local, s);
    OneKeyIff(local, s);
    hide MeansNearer, OneKeyOnly;
    assert forall i :: 0 <= i < |s| ==> s[i] in s;
    assert '1' !in s <==> s == Zeros(|s|);
  }
}
