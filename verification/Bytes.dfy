/** Bytes, and the bitwise operators of the source on them written as arithmetic on their bits. */
module Bytes {

  type byte = x: nat | x < 256

  datatype Option<+T> = None | Some(value: T)

  function Pow2(n: nat): (p: nat)
    ensures p > 0
  {
    if n == 0 then 1 else 2 * Pow2(n - 1)
  }

  /** Multiplication of two unknowns, named so that it can be reasoned about by its lemmas alone. */
  function Times(a: int, b: int): int {
    a * b
  }

  lemma {:induction false} Pow2Adds(m: nat, n: nat)
    ensures Pow2(m + n) == Times(Pow2(m), Pow2(n))
  {
    if m == 0 {
    } else {
      Pow2Adds(m - 1, n);
    }
  }

  lemma {:induction false} Pow2Monotone(m: nat, n: nat)
    requires m <= n
    ensures Pow2(m) <= Pow2(n)
  {
    Pow2Adds(m, n - m);
    TimesMonotone(1, Pow2(n - m), Pow2(m));
  }

  lemma TimesMonotone(a: int, b: int, p: int)
    requires a <= b && 0 <= p
    ensures Times(a, p) <= Times(b, p)
  {
  }

  /** A unit step in the leading factor outweighs any remainder below the multiplier. */
  lemma TimesStep(a: int, b: int, p: int, r: int)
    requires a < b && 0 <= r < p
    ensures Times(a, p) + r < Times(b, p)
  {
    TimesMonotone(a + 1, b, p);
    assert Times(a + 1, p) == Times(a, p) + p;
  }

  /** Bitwise exclusive or. */
  function Xor(a: nat, b: nat): nat
    decreases a + b
  {
    if a == 0 && b == 0 then 0 else (a + b) % 2 + 2 * Xor(a / 2, b / 2)
  }

  /** Bitwise and. */
  function And(a: nat, b: nat): nat {
    if a == 0 then 0 else (if a % 2 == 1 && b % 2 == 1 then 1 else 0) + 2 * And(a / 2, b / 2)
  }

  /** Bitwise or. */
  function Or(a: nat, b: nat): nat
    decreases a + b
  {
    if a == 0 && b == 0 then 0 else (if a % 2 + b % 2 > 0 then 1 else 0) + 2 * Or(a / 2, b / 2)
  }

  /** The lowest bit and the other bits of an exclusive or. */
  lemma XorStep(a: nat, b: nat)
    ensures Xor(a, b) % 2 == (a + b) % 2 && Xor(a, b) / 2 == Xor(a / 2, b / 2)
  {
    var bit, rest := (a + b) % 2, Xor(a / 2, b / 2);
    assert Xor(a, b) == bit + 2 * rest;
    SplitBit(Xor(a, b), bit, rest);
  }

  lemma SplitBit(x: int, bit: int, rest: int)
    requires 0 <= bit < 2 && x == bit + 2 * rest
    ensures x % 2 == bit && x / 2 == rest
  {
  }

  lemma {:induction false} XorFits(a: nat, b: nat, k: nat)
    requires a < Pow2(k) && b < Pow2(k)
    ensures Xor(a, b) < Pow2(k)
  {
    if k == 0 {
    } else {
      XorFits(a / 2, b / 2, k - 1);
    }
  }

  lemma {:induction false} XorCommutes(a: nat, b: nat)
    ensures Xor(a, b) == Xor(b, a)
    decreases a + b
  {
    if a != 0 || b != 0 {
      XorCommutes(a / 2, b / 2);
    }
  }

  /** A common operand cancels. */
  lemma {:induction false} XorCancels(l: nat, a: nat, b: nat)
    ensures Xor(Xor(l, a), Xor(l, b)) == Xor(a, b)
    decreases l + a + b
  {
    if l != 0 || a != 0 || b != 0 {
      XorCancels(l / 2, a / 2, b / 2);
      hide *;
      XorCancelsStep(l, a, b);
    } else {
      assert Xor(0, 0) == 0;
    }
  }

  lemma XorCancelsStep(l: nat, a: nat, b: nat)
    requires Xor(Xor(l / 2, a / 2), Xor(l / 2, b / 2)) == Xor(a / 2, b / 2)
    ensures Xor(Xor(l, a), Xor(l, b)) == Xor(a, b)
  {
    hide *;
    XorStep(l, a);
    XorStep(l, b);
    XorStep(a, b);
    XorStep(Xor(l, a), Xor(l, b));
    ParityCancels(l, a, b, Xor(l, a), Xor(l, b));
    SameBits(Xor(Xor(l, a), Xor(l, b)), Xor(a, b));
  }

  lemma ParityCancels(l: nat, a: nat, b: nat, x: nat, y: nat)
    requires x % 2 == (l + a) % 2 && y % 2 == (l + b) % 2
    ensures (x + y) % 2 == (a + b) % 2
  {
  }

  lemma SameBits(x: nat, y: nat)
    requires x % 2 == y % 2 && x / 2 == y / 2
    ensures x == y
  {
  }

  lemma {:induction false} XorNeutral(a: nat)
    ensures Xor(a, 0) == Xor(0, a) == a
  {
    if a != 0 {
      XorNeutral(a / 2);
    }
  }

  /** The second operand is recovered by applying the operator again: xor is its own inverse. */
  lemma XorInverts(a: nat, b: nat)
    ensures Xor(a, Xor(a, b)) == b
  {
    XorNeutral(a);
    XorNeutral(b);
    XorCancels(a, 0, b);
  }

  lemma {:induction false} XorZero(a: nat, b: nat)
    ensures Xor(a, b) == 0 <==> a == b
    decreases a + b
  {
    if a != 0 || b != 0 {
      XorZero(a / 2, b / 2);
    }
  }

  lemma TriangleFromBits(a: nat, b: nat, c: nat, ab: nat, bc: nat, ac: nat)
    requires ab % 2 == (a + b) % 2 && bc % 2 == (b + c) % 2 && ac % 2 == (a + c) % 2
    requires ac / 2 <= ab / 2 + bc / 2
    ensures ac <= ab + bc
  {
  }

  /** Xor is addition without carries, so it satisfies the triangle inequality. */
  lemma {:induction false} XorTriangle(a: nat, b: nat, c: nat)
    ensures Xor(a, c) <= Xor(a, b) + Xor(b, c)
    decreases a + b + c
  {
    if a != 0 || b != 0 || c != 0 {
      XorTriangle(a / 2, b / 2, c / 2);
      XorStep(a, b);
      XorStep(b, c);
      XorStep(a, c);
      hide Xor;
      TriangleFromBits(a, b, c, Xor(a, b), Xor(b, c), Xor(a, c));
    }
  }

  /** Number of significant bits. */
  function BitLength(n: nat): nat {
    if n == 0 then 0 else 1 + BitLength(n / 2)
  }

  lemma {:induction false} BitLengthBounds(n: nat)
    requires n > 0
    ensures BitLength(n) > 0 && Pow2(BitLength(n) - 1) <= n < Pow2(BitLength(n))
  {
    if n > 1 {
      BitLengthBounds(n / 2);
    }
  }

  lemma {:induction false} BitLengthUnique(n: nat, k: nat)
    requires k > 0 && Pow2(k - 1) <= n < Pow2(k)
    ensures BitLength(n) == k
  {
    BitLengthBounds(n);
    if BitLength(n) < k {
      Pow2Monotone(BitLength(n), k - 1);
    } else if BitLength(n) > k {
      Pow2Monotone(k, BitLength(n) - 1);
    }
  }

  /** Masking with k one bits keeps the value below 2^k. */
  lemma {:induction false} MaskBounds(a: nat, k: nat)
    ensures And(a, Pow2(k) - 1) < Pow2(k)
    decreases a
  {
    if a == 0 {
    } else if k == 0 {
      AndZero(a);
    } else {
      MaskBounds(a / 2, k - 1);
      assert (Pow2(k) - 1) / 2 == Pow2(k - 1) - 1;
    }
  }

  lemma {:induction false} AndZero(a: nat)
    ensures And(a, 0) == 0
  {
    if a != 0 {
      AndZero(a / 2);
    }
  }

  /** Setting bit k of a value below 2^(k+1) makes k its highest bit. */
  lemma {:induction false} SetTopBit(a: nat, k: nat)
    requires a < Pow2(k + 1)
    ensures Pow2(k) <= Or(a, Pow2(k)) < Pow2(k + 1)
  {
    if k == 0 {
    } else {
      SetTopBit(a / 2, k - 1);
      assert Pow2(k) / 2 == Pow2(k - 1);
    }
  }

  // ---------- bit by bit ----------

  /** Bit i of a number, counted from the lowest. */
  predicate Bit(n: nat, i: nat) {
    if i == 0 then n % 2 == 1 else Bit(n / 2, i - 1)
  }

  lemma BitsOf(x: nat, bit: bool, rest: nat, i: nat)
    requires x % 2 == (if bit then 1 else 0) && x / 2 == rest
    ensures Bit(x, i) <==> if i == 0 then bit else Bit(rest, i - 1)
  {}

  lemma Parity(a: nat, b: nat)
    ensures (a + b) % 2 == if (a % 2 == 1) != (b % 2 == 1) then 1 else 0
  {}

  lemma {:induction false} XorBits(a: nat, b: nat, i: nat)
    ensures Bit(Xor(a, b), i) <==> Bit(a, i) != Bit(b, i)
    decreases i
  {
    hide *;
    XorStep(a, b);
    Parity(a, b);
    BitsOf(Xor(a, b), (a % 2 == 1) != (b % 2 == 1), Xor(a / 2, b / 2), i);
    BitsOf(a, a % 2 == 1, a / 2, i);
    BitsOf(b, b % 2 == 1, b / 2, i);
    if i > 0 {
      XorBits(a / 2, b / 2, i - 1);
    }
  }

  lemma AndStep(a: nat, b: nat)
    ensures And(a, b) == (if a % 2 == 1 && b % 2 == 1 then 1 else 0) + 2 * And(a / 2, b / 2)
  {}

  lemma {:induction false} AndBits(a: nat, b: nat, i: nat)
    ensures Bit(And(a, b), i) <==> Bit(a, i) && Bit(b, i)
    decreases i
  {
    AndStep(a, b);
    hide *;
    SplitBit(And(a, b), if a % 2 == 1 && b % 2 == 1 then 1 else 0, And(a / 2, b / 2));
    BitsOf(And(a, b), a % 2 == 1 && b % 2 == 1, And(a / 2, b / 2), i);
    BitsOf(a, a % 2 == 1, a / 2, i);
    BitsOf(b, b % 2 == 1, b / 2, i);
    if i > 0 {
      AndBits(a / 2, b / 2, i - 1);
    }
  }

  lemma OrStep(a: nat, b: nat)
    ensures Or(a, b) == (if a % 2 == 1 || b % 2 == 1 then 1 else 0) + 2 * Or(a / 2, b / 2)
  {}

  lemma {:induction false} OrBits(a: nat, b: nat, i: nat)
    ensures Bit(Or(a, b), i) <==> Bit(a, i) || Bit(b, i)
    decreases i
  {
    OrStep(a, b);
    hide *;
    SplitBit(Or(a, b), if a % 2 == 1 || b % 2 == 1 then 1 else 0, Or(a / 2, b / 2));
    BitsOf(Or(a, b), a % 2 == 1 || b % 2 == 1, Or(a / 2, b / 2), i);
    BitsOf(a, a % 2 == 1, a / 2, i);
    BitsOf(b, b % 2 == 1, b / 2, i);
    if i > 0 {
      OrBits(a / 2, b / 2, i - 1);
    }
  }

  lemma {:induction false} PowerBits(k: nat, i: nat)
    ensures Bit(Pow2(k), i) <==> i == k
    ensures Bit(Pow2(k) - 1, i) <==> i < k
    decreases k
  {
    if k == 0 {
      NoBits(0, i);
      if i > 0 { NoBits(0, i - 1); }
    } else {
      assert Pow2(k) / 2 == Pow2(k - 1) && (Pow2(k) - 1) / 2 == Pow2(k - 1) - 1;
      if i > 0 {
        PowerBits(k - 1, i - 1);
      }
    }
  }

  lemma {:induction false} NoBits(n: nat, i: nat)
    requires n == 0
    ensures !Bit(n, i)
    decreases i
  {
    if i > 0 { NoBits(n / 2, i - 1); }
  }
}
