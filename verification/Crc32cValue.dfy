/**
 What fixes the CRC from outside: its complement flips every bit, and the reference gives the
 published CRC-32C of one zero byte.
 */
module Crc32cValue {
  import opened Bytes
  import opened Gf2
  import opened Crc32c

  lemma {:induction false} FlipsAll(x: nat, n: nat)
    requires x < Shl(1, n)
    ensures Xor(x, Shl(1, n) - 1) == Shl(1, n) - 1 - x
    decreases n
  {
    hide Xor;
    if n == 0 {
      XorZero(0);
    } else {
      var half := Shl(1, n - 1);
      Ones(half, x);
      FlipsAll(x / 2, n - 1);
      XorBits(x, 2 * half - 1);
      Rejoin(Xor(x, 2 * half - 1));
      Rejoin(x);
    }
  }

  lemma Ones(half: nat, x: nat)
    requires x < 2 * half
    ensures (2 * half - 1) / 2 == half - 1 && (x + (2 * half - 1)) % 2 == 1 - x % 2
  {}

  /** The complement flips every bit. */
  lemma NotFlipsEveryBit(x: Word)
    ensures Not(x) == Xor(x, 0xffff_ffff)
  {
    Shl32();
    FlipsAll(x, 32);
  }

  lemma XorSplits(a: nat, b: nat, x: nat, y: nat, n: nat)
    requires x < Shl(1, n) && y < Shl(1, n)
    ensures Xor(Shl(a, n) + x, Shl(b, n) + y) == Shl(Xor(a, b), n) + Xor(x, y)
  {
    hide Xor, Shl;
    XorDisjoint(x, a, n);
    XorDisjoint(y, b, n);
    XorSwap(x, Shl(a, n), y, Shl(b, n));
    ShlXor(a, b, n);
    XorBound(x, y, n);
    XorDisjoint(Xor(x, y), Xor(a, b), n);
  }

  function Join(a: nat, b: nat, c: nat, d: nat): nat { ((a * 256 + b) * 256 + c) * 256 + d }

  /** Xor works byte by byte. */
  lemma XorBytes(a: Byte, b: Byte, c: Byte, d: Byte, p: Byte, q: Byte, r: Byte, s: Byte)
    ensures Xor(Join(a, b, c, d), Join(p, q, r, s)) == Join(Xor(a, p), Xor(b, q), Xor(c, r), Xor(d, s))
  {
    hide Xor;
    XorByte(a, p, b, q);
    XorByte(a * 256 + b, p * 256 + q, c, r);
    XorByte((a * 256 + b) * 256 + c, (p * 256 + q) * 256 + r, d, s);
  }

  lemma XorByte(a: nat, b: nat, x: Byte, y: Byte)
    ensures Xor(a * 256 + x, b * 256 + y) == Xor(a, b) * 256 + Xor(x, y)
  {
    hide Xor;
    XorSplits(a, b, x, y, 8);
    Shl8(1);
    Shl8(a);
    Shl8(b);
    Shl8(Xor(a, b));
  }

  lemma Shl8(x: nat)
    ensures Shl(x, 8) == 256 * x
  {
    assert Shl(x, 4) == 16 * x;
  }

  /** The sum of two two-bit numbers without carries. */
  function CrumbSum(x: nat, y: nat): nat
    requires x < 4 && y < 4
  {
    if x == 0 then y else if y == 0 then x else if x == y then 0 else 6 - x - y
  }

  lemma CrumbXor(x: nat, y: nat)
    requires x < 4 && y < 4
    ensures Xor(x, y) == CrumbSum(x, y)
  {}

  function Quad(a: nat, b: nat, c: nat, d: nat): nat { ((a * 4 + b) * 4 + c) * 4 + d }

  /** Xor of two bytes, two bits at a time. */
  lemma QuadXor(a: nat, b: nat, c: nat, d: nat, p: nat, q: nat, r: nat, s: nat)
    requires a < 4 && b < 4 && c < 4 && d < 4 && p < 4 && q < 4 && r < 4 && s < 4
    ensures Xor(Quad(a, b, c, d), Quad(p, q, r, s)) == Quad(CrumbSum(a, p), CrumbSum(b, q), CrumbSum(c, r), CrumbSum(d, s))
  {
    hide Xor, CrumbSum;
    CrumbXor(a, p);
    XorCrumb(a, p, b, q);
    XorCrumb(a * 4 + b, p * 4 + q, c, r);
    XorCrumb((a * 4 + b) * 4 + c, (p * 4 + q) * 4 + r, d, s);
  }

  lemma XorCrumb(a: nat, b: nat, x: nat, y: nat)
    requires x < 4 && y < 4
    ensures Xor(a * 4 + x, b * 4 + y) == Xor(a, b) * 4 + CrumbSum(x, y)
  {
    hide Xor, CrumbSum;
    XorSplits(a, b, x, y, 2);
    CrumbXor(x, y);
  }

  /** One step of an odd register, whose other bits are the bytes given. */
  lemma OddStep(x: Word, a: Byte, b: Byte, c: Byte, d: Byte)
    requires x == 2 * Join(a, b, c, d) + 1
    ensures BitStep(x) == Join(Xor(a, 0x82), Xor(b, 0xf6), Xor(c, 0x3b), Xor(d, 0x78))
  {
    hide Xor;
    XorBytes(a, b, c, d, 0x82, 0xf6, 0x3b, 0x78);
  }

  lemma StepOne()
    ensures BitStep(0xffff_ffff) == 0xfd09_c487
  {
    hide BitStep, Xor;
    OddStep(0xffff_ffff, 0x7f, 0xff, 0xff, 0xff);
    QuadXor(1, 3, 3, 3, 2, 0, 0, 2);
    QuadXor(3, 3, 3, 3, 3, 3, 1, 2);
    QuadXor(3, 3, 3, 3, 0, 3, 2, 3);
    QuadXor(3, 3, 3, 3, 1, 3, 2, 0);
  }

  lemma StepTwo()
    ensures BitStep(0xfd09_c487) == 0xfc72_d93b
  {
    hide BitStep, Xor;
    OddStep(0xfd09_c487, 0x7e, 0x84, 0xe2, 0x43);
    QuadXor(1, 3, 3, 2, 2, 0, 0, 2);
    QuadXor(2, 0, 1, 0, 3, 3, 1, 2);
    QuadXor(3, 2, 0, 2, 0, 3, 2, 3);
    QuadXor(1, 0, 0, 3, 1, 3, 2, 0);
  }

  lemma StepThree()
    ensures BitStep(0xfc72_d93b) == 0xfccf_57e5
  {
    hide BitStep, Xor;
    OddStep(0xfc72_d93b, 0x7e, 0x39, 0x6c, 0x9d);
    QuadXor(1, 3, 3, 2, 2, 0, 0, 2);
    QuadXor(0, 3, 2, 1, 3, 3, 1, 2);
    QuadXor(1, 2, 3, 0, 0, 3, 2, 3);
    QuadXor(2, 1, 3, 1, 1, 3, 2, 0);
  }

  lemma StepFour()
    ensures BitStep(0xfccf_57e5) == 0xfc91_908a
  {
    hide BitStep, Xor;
    OddStep(0xfccf_57e5, 0x7e, 0x67, 0xab, 0xf2);
    QuadXor(1, 3, 3, 2, 2, 0, 0, 2);
    QuadXor(1, 2, 1, 3, 3, 3, 1, 2);
    QuadXor(2, 2, 2, 3, 0, 3, 2, 3);
    QuadXor(3, 3, 0, 2, 1, 3, 2, 0);
  }

  lemma StepSix()
    ensures BitStep(0x7e48_c845) == 0xbdd2_5f5a
  {
    hide BitStep, Xor;
    OddStep(0x7e48_c845, 0x3f, 0x24, 0x64, 0x22);
    QuadXor(0, 3, 3, 3, 2, 0, 0, 2);
    QuadXor(0, 2, 1, 0, 3, 3, 1, 2);
    QuadXor(1, 2, 1, 0, 0, 3, 2, 3);
    QuadXor(0, 2, 0, 2, 1, 3, 2, 0);
  }

  lemma StepEight()
    ensures BitStep(0x5ee9_2fad) == 0xad82_acae
  {
    hide BitStep, Xor;
    OddStep(0x5ee9_2fad, 0x2f, 0x74, 0x97, 0xd6);
    QuadXor(0, 2, 3, 3, 2, 0, 0, 2);
    QuadXor(1, 3, 1, 0, 3, 3, 1, 2);
    QuadXor(2, 1, 1, 3, 0, 3, 2, 3);
    QuadXor(3, 1, 1, 2, 1, 3, 2, 0);
  }

  /** Eight zero bits through a register of ones. */
  lemma EightSteps()
    ensures Zeros(0xffff_ffff, 8) == 0xad82_acae
  {
    hide Zeros, BitStep;
    ZerosAdd(0xffff_ffff, 4, 4);
    FourSteps(0xffff_ffff);
    StepOne();
    StepTwo();
    StepThree();
    StepFour();
    FourSteps(0xfc91_908a);
    EvenStep(0x7e48_c845);
    StepSix();
    EvenStep(0x5ee9_2fad);
    StepEight();
  }

  lemma FourSteps(c: nat)
    ensures Zeros(c, 4) == BitStep(BitStep(BitStep(BitStep(c))))
  {
    hide BitStep;
    assert Zeros(c, 4) == Zeros(BitStep(BitStep(c)), 2);
  }

  lemma EvenStep(x: nat)
    ensures BitStep(2 * x) == x
  {}

  /** The CRC-32C of one zero byte, as the polynomial, bit order and complements of RFC 3720 give it. */
  lemma ZeroByteCrc()
    ensures CrcReference(0, [0]) == 0x527d_5351
  {
    hide Zeros, Xor, Remainder, Reflect;
    RegisterComputesReference(0, [0]);
    var start: Word := 0xffff_ffff;
    assert Not(0) == start && [0][..0] == [];
    XorZero(start);
    XorComm(start, 0);
    EightSteps();
  }
}
