/**
 GF(2) arithmetic behind the table-driven CRC-32C.  A 32-bit word is a natural number
 read as a polynomial, `Xor` is addition, and shifting one zero bit through the register
 is a linear map.  A 32-row matrix represents a power of that map, and squaring the
 matrix doubles the power.
 */
module Gf2 {

  const W32: nat := 0x1_0000_0000

  type Word = x: nat | x < 0x1_0000_0000

  /** CRC-32C polynomial in reversed bit order. */
  const POLY: Word := 0x82f63b78

  function Xor(a: nat, b: nat): nat
    decreases a + b
  {
    if a == 0 then b
    else if b == 0 then a
    else 2 * Xor(a / 2, b / 2) + (a + b) % 2
  }

  /** The register after one more zero bit. */
  function BitStep(c: nat): nat {
    if c % 2 == 1 then Xor(c / 2, POLY) else c / 2
  }

  /** The register after `k` more zero bits. */
  function Zeros(c: nat, k: nat): nat
    decreases k
  {
    if k == 0 then c else Zeros(BitStep(c), k - 1)
  }

  function Shl(w: nat, n: nat): nat
    decreases n
  {
    if n == 0 then w else 2 * Shl(w, n - 1)
  }

  /** The sum of the rows of `mat` selected by the bits of `vec`, lowest bit first. */
  function Times(mat: seq<nat>, vec: nat): nat
    decreases |mat|
  {
    if mat == [] then 0
    else Xor(if vec % 2 == 1 then mat[0] else 0, Times(mat[1..], vec / 2))
  }

  /** `mat` is the operator that feeds `k` zero bits to a register. */
  ghost predicate Represents(mat: seq<nat>, k: nat) {
    |mat| == 32 && forall v: Word :: Times(mat, v) == Zeros(v, k)
  }

  // Xor is a commutative group operation of exponent two.

  lemma XorBits(a: nat, b: nat)
    ensures Xor(a, b) / 2 == Xor(a / 2, b / 2)
    ensures Xor(a, b) % 2 == (a + b) % 2
  {}

  lemma {:induction false} XorComm(a: nat, b: nat)
    ensures Xor(a, b) == Xor(b, a)
    decreases a + b
  {
    if a == 0 || b == 0 {
    } else {
      XorComm(a / 2, b / 2);
    }
  }

  lemma XorZero(a: nat)
    ensures Xor(a, 0) == a == Xor(0, a)
  {}

  lemma {:induction false} XorAssoc(a: nat, b: nat, c: nat)
    ensures Xor(Xor(a, b), c) == Xor(a, Xor(b, c))
    decreases a + b + c
  {
    hide Xor;
    if a == 0 || b == 0 || c == 0 {
      XorZero(a);
      XorZero(b);
      XorZero(c);
      XorZero(Xor(a, b));
      XorZero(Xor(b, c));
    } else {
      XorAssoc(a / 2, b / 2, c / 2);
      XorBits(a, b);
      XorBits(b, c);
      XorBits(Xor(a, b), c);
      XorBits(a, Xor(b, c));
    }
  }

  lemma {:induction false} XorSelf(a: nat)
    ensures Xor(a, a) == 0
  {
    if a == 0 {
    } else {
      XorSelf(a / 2);
    }
  }

  lemma XorSwap(a: nat, b: nat, c: nat, d: nat)
    ensures Xor(Xor(a, b), Xor(c, d)) == Xor(Xor(a, c), Xor(b, d))
  {
    calc {
      Xor(Xor(a, b), Xor(c, d));
      { XorAssoc(a, b, Xor(c, d)); }
      Xor(a, Xor(b, Xor(c, d)));
      { XorAssoc(b, c, d); XorComm(b, c); XorAssoc(c, b, d); }
      Xor(a, Xor(c, Xor(b, d)));
      { XorAssoc(a, c, Xor(b, d)); }
      Xor(Xor(a, c), Xor(b, d));
    }
  }

  lemma {:induction false} XorBound(a: nat, b: nat, n: nat)
    requires a < Shl(1, n) && b < Shl(1, n)
    ensures Xor(a, b) < Shl(1, n)
    decreases n
  {
    if n == 0 || a == 0 || b == 0 {
    } else {
      XorBound(a / 2, b / 2, n - 1);
    }
  }

  lemma Shl32()
    ensures Shl(1, 32) == W32
  {
    assert Shl(1, 8) == 256;
    assert Shl(1, 16) == 65536;
    assert Shl(1, 24) == 16777216;
  }

  lemma XorWord(a: Word, b: Word)
    ensures Xor(a, b) < W32
  {
    Shl32();
    XorBound(a, b, 32);
  }

  /** Words that occupy disjoint bits add without carries. */
  lemma {:induction false} XorDisjoint(a: nat, b: nat, n: nat)
    requires a < Shl(1, n)
    ensures Xor(a, Shl(b, n)) == a + Shl(b, n)
    decreases n
  {
    hide Xor;
    if n == 0 {
      XorZero(Shl(b, 0));
    } else {
      var t := Shl(b, n - 1);
      XorDisjoint(a / 2, b, n - 1);
      XorBits(a, 2 * t);
      Halves(a, t);
      Rejoin(Xor(a, 2 * t));
      Rejoin(a);
    }
  }

  lemma Halves(a: nat, t: nat)
    ensures 2 * t / 2 == t && (a + 2 * t) % 2 == a % 2
  {}

  lemma Rejoin(x: nat)
    ensures x == 2 * (x / 2) + x % 2
  {}

  lemma XorDouble(a: nat, b: nat)
    ensures Xor(2 * a, 2 * b) == 2 * Xor(a, b)
  {
    hide Xor;
    XorBits(2 * a, 2 * b);
    Halves(2 * a, b);
    Halves(0, a);
    Rejoin(Xor(2 * a, 2 * b));
  }

  lemma {:induction false} ShlXor(a: nat, b: nat, n: nat)
    ensures Shl(Xor(a, b), n) == Xor(Shl(a, n), Shl(b, n))
  {
    hide Xor;
    if n == 0 {
    } else {
      ShlXor(a, b, n - 1);
      XorDouble(Shl(a, n - 1), Shl(b, n - 1));
    }
  }

  lemma {:induction false} ShlShift(w: nat, n: nat)
    ensures Shl(2 * w, n) == Shl(w, n + 1)
  {
    if n == 0 {
    } else {
      ShlShift(w, n - 1);
    }
  }

  lemma {:induction false} ShlZero(n: nat)
    ensures Shl(0, n) == 0
  {
    if n == 0 {
    } else {
      ShlZero(n - 1);
    }
  }

  // Feeding zero bits is linear.

  lemma BitStepXor(a: nat, b: nat)
    ensures BitStep(Xor(a, b)) == Xor(BitStep(a), BitStep(b))
  {
    hide Xor;
    XorBits(a, b);
    if a % 2 == 1 && b % 2 == 1 {
      XorSwap(a / 2, POLY, b / 2, POLY);
      XorSelf(POLY);
      XorZero(Xor(a / 2, b / 2));
    } else if a % 2 == 1 {
      XorAssoc(a / 2, POLY, b / 2);
      XorComm(POLY, b / 2);
      XorAssoc(a / 2, b / 2, POLY);
    } else if b % 2 == 1 {
      XorAssoc(a / 2, b / 2, POLY);
    }
  }

  lemma {:induction false} ZerosXor(a: nat, b: nat, k: nat)
    ensures Zeros(Xor(a, b), k) == Xor(Zeros(a, k), Zeros(b, k))
    decreases k
  {
    if k == 0 {
    } else {
      BitStepXor(a, b);
      ZerosXor(BitStep(a), BitStep(b), k - 1);
    }
  }

  lemma {:induction false} ZerosOfZero(k: nat)
    ensures Zeros(0, k) == 0
  {
    if k == 0 {
    } else {
      ZerosOfZero(k - 1);
    }
  }

  lemma {:induction false} ZerosAdd(c: nat, j: nat, k: nat)
    ensures Zeros(c, j + k) == Zeros(Zeros(c, j), k)
    decreases j
  {
    if j == 0 {
    } else {
      ZerosAdd(BitStep(c), j - 1, k);
    }
  }

  lemma {:induction false} ZerosWord(c: Word, k: nat)
    ensures Zeros(c, k) < W32
    decreases k
  {
    if k == 0 {
    } else {
      XorWord(c / 2, POLY);
      ZerosWord(BitStep(c), k - 1);
    }
  }

  // Matrices.

  lemma {:induction false} TimesZero(mat: seq<nat>)
    ensures Times(mat, 0) == 0
  {
    if mat == [] {
    } else {
      TimesZero(mat[1..]);
    }
  }

  lemma {:induction false} TimesSuffix(mat: seq<nat>, k: nat, n: nat, w: nat)
    requires |mat| == 32 && n <= 32
    requires w < Shl(1, 32 - n)
    requires forall i :: 0 <= i < 32 ==> mat[i] == Zeros(Shl(1, i), k)
    ensures Times(mat[n..], w) == Zeros(Shl(w, n), k)
    decreases 32 - n
  {
    ZerosOfZero(k);
    ShlZero(n);
    if n < 32 {
      TimesSuffix(mat, k, n + 1, w / 2);
      assert mat[n..][1..] == mat[n + 1..];
      assert w == Xor(w % 2, 2 * (w / 2)) by { XorDisjoint(w % 2, w / 2, 1); }
      ShlXor(w % 2, 2 * (w / 2), n);
      ShlShift(w / 2, n);
      ZerosXor(Shl(w % 2, n), Shl(w / 2, n + 1), k);
    }
  }

  /** A matrix is determined by what it does to the unit words. */
  lemma UnitsDetermine(mat: seq<nat>, k: nat)
    requires |mat| == 32
    requires forall i :: 0 <= i < 32 ==> mat[i] == Zeros(Shl(1, i), k)
    ensures Represents(mat, k)
  {
    forall v: Word
      ensures Times(mat, v) == Zeros(v, k)
    {
      Shl32();
      TimesSuffix(mat, k, 0, v);
      assert mat[0..] == mat;
    }
  }

  lemma {:induction false} TimesUnit(mat: seq<nat>, n: nat)
    requires n < |mat|
    ensures Times(mat, Shl(1, n)) == mat[n]
    decreases n
  {
    if n == 0 {
      TimesZero(mat[1..]);
      XorComm(mat[0], 0);
    } else {
      TimesUnit(mat[1..], n - 1);
    }
  }

  lemma {:induction false} UnitBound(n: nat, m: nat)
    requires n < m
    ensures 0 < Shl(1, n) < Shl(1, m)
    decreases m
  {
    if m == 1 {
    } else if n == 0 {
      UnitBound(0, m - 1);
    } else {
      UnitBound(n - 1, m - 1);
    }
  }

  /** Squaring composes the operator with itself: the power of the zero-bit map doubles. */
  lemma SquareDoubles(mat: seq<nat>, square: seq<nat>, k: nat)
    requires Represents(mat, k)
    requires |square| == 32
    requires forall i :: 0 <= i < 32 ==> mat[i] < W32
    requires forall i :: 0 <= i < 32 ==> square[i] == Times(mat, mat[i])
    ensures Represents(square, 2 * k)
  {
    forall i | 0 <= i < 32
      ensures square[i] == Zeros(Shl(1, i), 2 * k)
    {
      TimesUnit(mat, i);
      UnitBound(i, 32);
      Shl32();
      ZerosAdd(Shl(1, i), k, k);
    }
    UnitsDetermine(square, 2 * k);
  }
}
