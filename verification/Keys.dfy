/** The 256-bit keys of src/node/peer_key.rs: order, distance, leading zeros and binary prefixes. */
module Keys {
  import opened Bytes

  const KEY_LEN: nat := 32

  type Key = k: seq<byte> | |k| == 32 witness seq(32, i => 0)

  // ---------- order ----------

  /** The derived order on the byte array: the first differing byte decides. */
  predicate Less(a: seq<byte>, b: seq<byte>)
    requires |a| == |b|
  {
    a != [] && (a[0] < b[0] || (a[0] == b[0] && Less(a[1..], b[1..])))
  }

  /** The big-endian number the bytes stand for. */
  function Value(s: seq<byte>): nat {
    if s == [] then 0 else Times(s[0], Pow2(8 * (|s| - 1))) + Value(s[1..])
  }

  lemma {:induction false} ValueBound(s: seq<byte>)
    ensures Value(s) < Pow2(8 * |s|)
  {
    if s == [] {
    } else {
      ValueBound(s[1..]);
      Pow2Adds(8, 8 * (|s| - 1));
      assert Pow2(8) == 256;
      hide Times;
      TimesStep(s[0], 256, Pow2(8 * (|s| - 1)), Value(s[1..]));
    }
  }

  /** The array order on keys is numeric order. */
  lemma {:induction false} OrderIsNumeric(a: seq<byte>, b: seq<byte>)
    requires |a| == |b|
    ensures Less(a, b) <==> Value(a) < Value(b)
    ensures a == b <==> Value(a) == Value(b)
  {
    if a == [] {
    } else {
      OrderIsNumeric(a[1..], b[1..]);
      ValueBound(a[1..]);
      ValueBound(b[1..]);
      hide Times;
      var p := Pow2(8 * (|a| - 1));
      if a[0] < b[0] {
        TimesStep(a[0], b[0], p, Value(a[1..]));
      } else if b[0] < a[0] {
        TimesStep(b[0], a[0], p, Value(b[1..]));
      } else {
        assert a == [a[0]] + a[1..] && b == [b[0]] + b[1..];
      }
    }
  }

  // ---------- distance ----------

  function ByteXor(a: byte, b: byte): byte {
    assert Xor(a, b) < 256 by { XorFits(a, b, 8); }
    Xor(a, b)
  }

  function Distance(a: seq<byte>, b: seq<byte>): (d: seq<byte>)
    requires |a| == |b|
    ensures |d| == |a|
  {
    seq(|a|, i requires 0 <= i < |a| => ByteXor(a[i], b[i]))
  }

  /** A bit of the distance is set exactly where the keys differ. */
  lemma DistanceBits(a: seq<byte>, b: seq<byte>, k: nat, i: nat)
    requires |a| == |b| && k < |a|
    ensures Bit(Distance(a, b)[k], i) <==> Bit(a[k], i) != Bit(b[k], i)
  {
    XorBits(a[k], b[k], i);
  }

  /** The loop of Key::xor, filling the bytes of a fresh array one by one. */
  method ComputeDistance(a: Key, b: Key) returns (inner: array<byte>)
    ensures fresh(inner) && inner[..] == Distance(a, b)
  {
    inner := new byte[KEY_LEN](i => 0);
    for idx := 0 to KEY_LEN
      invariant forall i :: 0 <= i < idx ==> inner[i] == ByteXor(a[i], b[i])
    {
      inner[idx] := ByteXor(a[idx], b[idx]);
    }
  }

  lemma {:induction false} DistanceCommutes(a: seq<byte>, b: seq<byte>)
    requires |a| == |b|
    ensures Distance(a, b) == Distance(b, a)
  {
    forall i | 0 <= i < |a| ensures Distance(a, b)[i] == Distance(b, a)[i] {
      XorCommutes(a[i], b[i]);
    }
  }

  /** For each key and each distance there is exactly one key at that distance. */
  lemma {:induction false} DistanceUnidirectional(a: seq<byte>, b: seq<byte>, d: seq<byte>)
    requires |a| == |b| == |d|
    ensures Distance(a, b) == d <==> b == Distance(a, d)
  {
    forall i | 0 <= i < |a|
      ensures Xor(a[i], Xor(a[i], b[i])) == b[i] && Xor(a[i], Xor(a[i], d[i])) == d[i]
    {
      XorInverts(a[i], b[i]);
      XorInverts(a[i], d[i]);
    }
    if Distance(a, b) == d {
      assert forall i :: 0 <= i < |a| ==> d[i] == Xor(a[i], b[i]);
    }
    if b == Distance(a, d) {
      assert forall i :: 0 <= i < |a| ==> b[i] == Xor(a[i], d[i]);
    }
  }

  lemma {:induction false} DistanceZero(a: seq<byte>, b: seq<byte>)
    requires |a| == |b|
    ensures Value(Distance(a, b)) == 0 <==> a == b
  {
    var zero: seq<byte> := seq(|a|, i => 0);
    AllZeroValue(zero);
    OrderIsNumeric(Distance(a, b), zero);
    forall i | 0 <= i < |a| ensures ByteXor(a[i], b[i]) == 0 <==> a[i] == b[i] {
      XorZero(a[i], b[i]);
    }
    if Distance(a, b) == zero {
      forall i | 0 <= i < |a| ensures a[i] == b[i] {
        assert Distance(a, b)[i] == 0;
      }
    }
  }

  lemma {:induction false} AllZeroValue(s: seq<byte>)
    requires forall i :: 0 <= i < |s| ==> s[i] == 0
    ensures Value(s) == 0
  {
    if s != [] {
      AllZeroValue(s[1..]);
    }
  }

  lemma {:induction false} DistanceTriangle(a: seq<byte>, b: seq<byte>, c: seq<byte>)
    requires |a| == |b| == |c|
    ensures Value(Distance(a, c)) <= Value(Distance(a, b)) + Value(Distance(b, c))
  {
    if a == [] {
    } else {
      DistanceTriangle(a[1..], b[1..], c[1..]);
      assert Distance(a, c)[1..] == Distance(a[1..], c[1..]);
      assert Distance(a, b)[1..] == Distance(a[1..], b[1..]);
      assert Distance(b, c)[1..] == Distance(b[1..], c[1..]);
      XorTriangle(a[0], b[0], c[0]);
      var p := Pow2(8 * (|a| - 1));
      hide Times;
      Distribute(ByteXor(a[0], c[0]), ByteXor(a[0], b[0]), ByteXor(b[0], c[0]), p);
    }
  }

  lemma Distribute(x: int, y: int, z: int, p: int)
    requires x <= y + z && 0 <= p
    ensures Times(x, p) <= Times(y, p) + Times(z, p)
  {
    TimesMonotone(x, y + z, p);
  }

  // ---------- leading zeros ----------

  /** u8::leading_zeros */
  function ByteLeadingZeros(b: byte): (z: nat)
    ensures z <= 8 && (z == 8 <==> b == 0)
  {
    if b == 0 then 8 else
      assert BitLength(b) <= 8 by {
        BitLengthBounds(b);
        if BitLength(b) > 8 { Pow2Monotone(8, BitLength(b) - 1); }
      }
      assert BitLength(b) > 0;
      8 - BitLength(b)
  }

  function LeadingZeros(s: seq<byte>): nat {
    if s == [] then 0
    else if s[0] == 0 then 8 + LeadingZeros(s[1..])
    else ByteLeadingZeros(s[0])
  }

  /** The loop of Key::leading_zeros. */
  method ComputeLeadingZeros(key: Key) returns (n: nat)
    ensures n == LeadingZeros(key)
  {
    n := 0;
    for i := 0 to KEY_LEN
      invariant n + LeadingZeros(key[i..]) == LeadingZeros(key)
    {
      assert key[i..][1..] == key[i + 1..];
      if key[i] == 0 {
        n := n + 8;
      } else {
        return n + ByteLeadingZeros(key[i]);
      }
    }
    assert key[KEY_LEN..] == [];
  }

  /** A key with z leading zero bits, other than zero, lies in [2^(n-1-z), 2^(n-z)) for n its width;
      and the zero key is the one with all of them. */
  lemma {:induction false} LeadingZerosRange(s: seq<byte>)
    ensures LeadingZeros(s) <= 8 * |s|
    ensures LeadingZeros(s) == 8 * |s| <==> Value(s) == 0
    ensures Value(s) != 0 ==>
              Pow2(8 * |s| - 1 - LeadingZeros(s)) <= Value(s) < Pow2(8 * |s| - LeadingZeros(s))
  {
    if s == [] {
    } else if s[0] == 0 {
      LeadingZerosRange(s[1..]);
    } else {
      FirstByteRange(s);
    }
  }

  lemma FirstByteRange(s: seq<byte>)
    requires s != [] && s[0] != 0
    ensures Pow2(8 * |s| - 1 - LeadingZeros(s)) <= Value(s) < Pow2(8 * |s| - LeadingZeros(s))
  {
    var rest, len := 8 * (|s| - 1), BitLength(s[0]);
    hide *;
    FirstByteIs(s);
    BitLengthBounds(s[0]);
    ValueBound(s[1..]);
    assert 8 * |s[1..]| == rest && 8 * |s| - 1 - LeadingZeros(s) == len - 1 + rest;
    FirstByteLeads(s, len, rest);
  }

  lemma FirstByteLeads(s: seq<byte>, len: nat, rest: nat)
    requires s != [] && len >= 1 && Value(s) == Times(s[0], Pow2(rest)) + Value(s[1..])
    requires Pow2(len - 1) <= s[0] < Pow2(len) && Value(s[1..]) < Pow2(rest)
    ensures Pow2(len - 1 + rest) <= Value(s) < Pow2(len + rest)
  {
    hide *;
    LeadingPower(s[0], Value(s[1..]), len, rest);
  }

  lemma FirstByteIs(s: seq<byte>)
    requires s != [] && s[0] != 0
    ensures 8 * |s| - LeadingZeros(s) == BitLength(s[0]) + 8 * (|s| - 1)
    ensures Value(s) == Times(s[0], Pow2(8 * (|s| - 1))) + Value(s[1..])
  {
    hide Pow2, Times;
  }

  /** A number by its leading part, which has len bits, and the rest bits below it. */
  lemma LeadingPower(lead: nat, tail: nat, len: nat, rest: nat)
    requires len >= 1 && Pow2(len - 1) <= lead < Pow2(len) && tail < Pow2(rest)
    ensures Pow2(len - 1 + rest) <= Times(lead, Pow2(rest)) + tail < Pow2(len + rest)
  {
    hide Pow2, Times;
    TimesStep(lead, Pow2(len), Pow2(rest), tail);
    Pow2Adds(len, rest);
    TimesMonotone(Pow2(len - 1), lead, Pow2(rest));
    Pow2Adds(len - 1, rest);
  }

  /** The number of leading zero bits is what fixes the power of two a key lies between. */
  lemma {:induction false} LeadingZerosUnique(s: seq<byte>, z: nat)
    requires z < 8 * |s|
    requires Pow2(8 * |s| - 1 - z) <= Value(s) < Pow2(8 * |s| - z)
    ensures LeadingZeros(s) == z
  {
    LeadingZerosRange(s);
    var l := LeadingZeros(s);
    if l < z {
      Pow2Monotone(8 * |s| - z, 8 * |s| - 1 - l);
    } else if z < l {
      Pow2Monotone(8 * |s| - l, 8 * |s| - 1 - z);
    }
  }

  /** The editing steps of rand_in_range, on a randomly filled array. An index past the last bit
      makes the source index out of bounds; the callers' domain is every idx below 256. */
  method RandInRange(idx: nat, fill: array<byte>)
    requires fill.Length == KEY_LEN && idx < 8 * KEY_LEN
    modifies fill
    ensures LeadingZeros(fill[..]) == idx
    ensures fill[idx / 8 + 1..] == old(fill[idx / 8 + 1..])
    ensures forall i :: 0 <= i < 7 - idx % 8 ==> (Bit(fill[idx / 8], i) <==> Bit(old(fill[idx / 8]), i))
  {
    var bytes, bit := idx / 8, idx % 8;
    for i := 0 to bytes
      invariant forall j :: 0 <= j < i ==> fill[j] == 0
      invariant forall j :: i <= j < KEY_LEN ==> fill[j] == old(fill[j])
    {
      fill[i] := 0;
    }
    var low := 8 - bit - 1;
    MaskAndSet(fill[bytes], low);
    forall i: nat | i < low
      ensures Bit(Or(And(fill[bytes], Pow2(low + 1) - 1), Pow2(low)), i) <==> Bit(fill[bytes], i)
    {
      EditedBit(fill[bytes], low, i);
    }
    hide Bit, And, Or;
    fill[bytes] := And(fill[bytes], Pow2(low + 1) - 1);
    fill[bytes] := Or(fill[bytes], Pow2(low));
    LeadingZerosAt(fill[..], bytes);
  }

  /** Clearing the bits above low and setting it leaves a byte with 7 - low leading zeros. */
  lemma MaskAndSet(b: byte, low: nat)
    requires low < 8
    ensures var masked := And(b, Pow2(low + 1) - 1);
            var edited := Or(masked, Pow2(low));
            && masked < 256 && 0 < edited < 256 && ByteLeadingZeros(edited) == 7 - low
  {
    var masked := And(b, Pow2(low + 1) - 1);
    assert Pow2(8) == 256;
    Pow2Monotone(low + 1, 8);
    MaskBounds(b, low + 1);
    SetTopBit(masked, low);
    BitLengthUnique(Or(masked, Pow2(low)), low + 1);
  }

  /** The bits below low are left as they were. */
  lemma EditedBit(b: nat, low: nat, i: nat)
    ensures Bit(Or(And(b, Pow2(low + 1) - 1), Pow2(low)), i) <==> i == low || (i < low && Bit(b, i))
  {
    OrBits(And(b, Pow2(low + 1) - 1), Pow2(low), i);
    AndBits(b, Pow2(low + 1) - 1, i);
    PowerBits(low + 1, i);
    PowerBits(low, i);
    hide *;
  }

  lemma {:induction false} LeadingZerosAt(s: seq<byte>, k: nat)
    requires k < |s| && s[k] != 0 && forall i :: 0 <= i < k ==> s[i] == 0
    ensures LeadingZeros(s) == 8 * k + ByteLeadingZeros(s[k])
  {
    if k > 0 {
      LeadingZerosAt(s[1..], k - 1);
    }
  }

  // ---------- binary form and prefixes ----------

  function BitChar(bit: nat): char {
    if bit == 0 then '0' else '1'
  }

  /** The "{:b}" form of one number: no padding, and "0" for zero. */
  function Digits(n: nat): string {
    if n < 2 then [BitChar(n)] else Digits(n / 2) + [BitChar(n % 2)]
  }

  /** The "{:b}" form of a key: the unpadded forms of its bytes, one after the other. */
  function Binary(s: seq<byte>): string {
    if s == [] then "" else Digits(s[0]) + Binary(s[1..])
  }

  lemma {:induction false} DigitsShape(n: nat)
    ensures |Digits(n)| == if n == 0 then 1 else BitLength(n)
    ensures Digits(n)[0] == '0' <==> n == 0
  {
    if n >= 2 {
      DigitsShape(n / 2);
    }
  }

  /** What a text of zeros and ones means as a number, read from its most significant character on. */
  function Read(s: string, high: nat): nat {
    if s == "" then high else Read(s[1..], 2 * high + if s[0] == '1' then 1 else 0)
  }

  lemma {:induction false} ReadAppend(s: string, c: char, high: nat)
    ensures Read(s + [c], high) == 2 * Read(s, high) + if c == '1' then 1 else 0
    decreases |s|
  {
    if s != "" {
      ReadAppend(s[1..], c, 2 * high + if s[0] == '1' then 1 else 0);
      assert (s + [c])[1..] == s[1..] + [c];
    }
  }

  /** The form of a number is its only one in base 2 without leading zeros. */
  lemma {:induction false} DigitsRead(n: nat)
    ensures Read(Digits(n), 0) == n && forall i :: 0 <= i < |Digits(n)| ==> Digits(n)[i] == '0' || Digits(n)[i] == '1'
    ensures Digits(n) != "" && (|Digits(n)| > 1 ==> Digits(n)[0] == '1')
  {
    DigitsShape(n);
    if n >= 2 {
      DigitsRead(n / 2);
      ReadAppend(Digits(n / 2), BitChar(n % 2), 0);
      FirstDigit(n);
    }
  }

  lemma {:induction false} OnlyForm(s: string, n: nat)
    requires s != "" && (|s| > 1 ==> s[0] == '1') && forall i :: 0 <= i < |s| ==> s[i] == '0' || s[i] == '1'
    ensures Read(s, 0) == n <==> s == Digits(n)
    decreases |s|
  {
    DigitsRead(n);
    if Read(s, 0) == n {
      var k := |s| - 1;
      assert s == s[..k] + [s[k]];
      ReadAppend(s[..k], s[k], 0);
      if k > 0 {
        OnlyForm(s[..k], n / 2);
        DigitsRead(0);
        assert n >= 2 by { AtLeastOne(s[..k]); }
      }
    }
  }

  lemma AtLeastOne(s: string)
    requires s != "" && s[0] == '1'
    ensures Read(s, 0) >= 1
  {
    ReadGrows(s[1..], 1);
  }

  lemma {:induction false} ReadGrows(s: string, high: nat)
    ensures Read(s, high) >= high
    decreases |s|
  {
    if s != "" { ReadGrows(s[1..], 2 * high + if s[0] == '1' then 1 else 0); }
  }

  /** The form of a key is the forms of its bytes, in their order, with nothing in between. */
  lemma {:induction false} BinaryForms(s: seq<byte>, i: nat)
    requires i < |s|
    ensures Binary(s) == Binary(s[..i]) + Digits(s[i]) + Binary(s[i + 1..])
  {
    hide Digits;
    if i > 0 {
      BinaryForms(s[1..], i - 1);
      assert s[1..][..i - 1] == s[..i][1..] && s[1..][i..] == s[i + 1..];
    }
  }

  /** The binary form has a character for every byte at least, so for a key it is never empty. */
  lemma {:induction false} BinaryLength(s: seq<byte>)
    ensures |s| <= |Binary(s)| <= 8 * |s|
  {
    if s != [] {
      BinaryLength(s[1..]);
      DigitsShape(s[0]);
      assert s[0] != 0 ==> ByteLeadingZeros(s[0]) == 8 - BitLength(s[0]);
    }
  }

  /** Key::get_prefix: size + 1 characters of the binary form; slicing past its end is a panic. */
  function GetPrefix(s: seq<byte>, size: nat): Option<string> {
    if size < |Binary(s)| then Some(Binary(s)[..size + 1]) else None
  }

  function Zeros(k: nat): string {
    seq(k, i => '0')
  }

  predicate ZeroBytes(s: seq<byte>, k: nat) {
    k <= |s| && forall i :: 0 <= i < k ==> s[i] == 0
  }

  /** An all-zero prefix of length k stands for k zero bytes (not bits). */
  lemma {:induction false} ZeroPrefixIsZeroBytes(s: seq<byte>, k: nat)
    ensures Zeros(k) <= Binary(s) <==> ZeroBytes(s, k)
  {
    if k == 0 {
      assert Zeros(0) == "";
    } else if s == [] {
    } else if s[0] != 0 {
      DigitsShape(s[0]);
      assert Binary(s)[0] == '1' by { FirstDigit(s[0]); }
      assert Zeros(k)[0] == '0';
    } else {
      ZeroPrefixIsZeroBytes(s[1..], k - 1);
      assert Digits(0) == "0" && Binary(s) == "0" + Binary(s[1..]);
      assert Zeros(k) == "0" + Zeros(k - 1);
      if Zeros(k) <= Binary(s) {
        assert Zeros(k)[1..] == Zeros(k - 1) && Binary(s)[1..] == Binary(s[1..]);
        assert Binary(s)[..k][1..] == Binary(s)[1..k];
        assert ZeroBytes(s[1..], k - 1);
        forall i | 0 <= i < k ensures s[i] == 0 { if i > 0 { assert s[i] == s[1..][i - 1]; } }
      }
      if ZeroBytes(s, k) {
        assert ZeroBytes(s[1..], k - 1);
      }
    }
  }

  lemma {:induction false} FirstDigit(n: nat)
    requires n > 0
    ensures Digits(n)[0] == '1'
  {
    if n >= 2 {
      FirstDigit(n / 2);
    }
  }

  lemma {:induction false} LeadingZeroBytes(s: seq<byte>, k: nat)
    ensures ZeroBytes(s, k) <==> k <= |s| && 8 * k <= LeadingZeros(s)
  {
    if s == [] || k == 0 {
    } else if s[0] == 0 {
      LeadingZeroBytes(s[1..], k - 1);
      if ZeroBytes(s, k) { assert ZeroBytes(s[1..], k - 1); }
      if ZeroBytes(s[1..], k - 1) {
        forall i | 0 <= i < k ensures s[i] == 0 { if i > 0 { assert s[i] == s[1..][i - 1]; } }
      }
    }
  }

  /** The run of zeros that opens the binary form has leading_zeros / 8 characters, no more, no less. */
  lemma ZeroRunLength(s: seq<byte>)
    ensures Zeros(LeadingZeros(s) / 8) <= Binary(s)
    ensures !(Zeros(LeadingZeros(s) / 8 + 1) <= Binary(s))
  {
    var k := LeadingZeros(s) / 8;
    LeadingZerosRange(s);
    LeadingZeroBytes(s, k);
    LeadingZeroBytes(s, k + 1);
    ZeroPrefixIsZeroBytes(s, k);
    ZeroPrefixIsZeroBytes(s, k + 1);
  }

  /** What a zero prefix says about nearness: every peer whose distance from local opens with k
      zeros is nearer to such a target than every peer whose distance does not. */
  lemma ZeroPrefixIsNearer(local: Key, target: Key, near: Key, far: Key, k: nat)
    requires Zeros(k) <= Binary(Distance(local, target))
    requires Zeros(k) <= Binary(Distance(local, near))
    requires !(Zeros(k) <= Binary(Distance(local, far)))
    ensures Less(Distance(near, target), Distance(far, target))
  {
    ZeroPrefixIsZeroBytes(Distance(local, target), k);
    ZeroPrefixIsZeroBytes(Distance(local, near), k);
    ZeroPrefixIsZeroBytes(Distance(local, far), k);
    forall i | 0 <= i < k ensures local[i] == target[i] == near[i] {
      assert Distance(local, target)[i] == 0 && Distance(local, near)[i] == 0;
      XorZero(local[i], target[i]);
      XorZero(local[i], near[i]);
    }
    assert k <= 32;
    assert ZeroBytes(Distance(near, target), k) by {
      forall i | 0 <= i < k ensures Distance(near, target)[i] == 0 { XorZero(near[i], target[i]); }
    }
    var j :| 0 <= j < k && Distance(local, far)[j] != 0;
    XorZero(local[j], far[j]);
    XorZero(far[j], target[j]);
    assert Distance(far, target)[j] != 0;
    ZeroBytesLess(Distance(near, target), Distance(far, target), k);
  }

  lemma {:induction false} ZeroBytesLess(a: seq<byte>, b: seq<byte>, k: nat)
    requires |a| == |b| && ZeroBytes(a, k) && k <= |b| && !ZeroBytes(b, k)
    ensures Less(a, b)
  {
    if b[0] == 0 {
      ZeroBytesLess(a[1..], b[1..], k - 1);
    }
  }

  /** Prefixes that contain a one give no such bound: here near shares the prefix "1" with the
      target, far does not, and far is the nearer of the two. */
  lemma OnePrefixIsNotNearer()
    ensures exists local: Key, target: Key, near: Key, far: Key ::
              && GetPrefix(Distance(local, target), 0) == GetPrefix(Distance(local, near), 0) == Some("1")
              && GetPrefix(Distance(local, far), 0) != Some("1")
              && Less(Distance(far, target), Distance(near, target))
  {
    var zero, one, two := SmallKey(0), SmallKey(1), SmallKey(2);
    assert Xor(0, 0) == 0 && Xor(0, 1) == 1 && Xor(0, 2) == 2 && Xor(2, 1) == 3;
    assert Distance(zero, zero)[0] == 0 && Distance(zero, one)[0] == 1
        && Distance(zero, two)[0] == 2 && Distance(two, one)[0] == 3;
    FirstPrefix(Distance(zero, zero));
    FirstPrefix(Distance(zero, one));
    FirstPrefix(Distance(zero, two));
  }

  /** The key whose first byte is b and whose other bytes are zero. */
  function SmallKey(b: byte): (key: Key)
    ensures key[0] == b
  {
    [b] + seq(31, i => 0)
  }

  /** The one-character prefix tells whether the first byte is zero. */
  lemma FirstPrefix(s: seq<byte>)
    requires s != []
    ensures GetPrefix(s, 0) == Some(if s[0] == 0 then "0" else "1")
  {
    DigitsShape(s[0]);
    if s[0] != 0 { FirstDigit(s[0]); }
    assert Binary(s)[..1] == [Digits(s[0])[0]];
  }
}
