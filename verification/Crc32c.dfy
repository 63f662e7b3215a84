/**
 CRC-32C with three interleaved instruction streams (benchmark/cheeze/crc32c.c), proved
 equal to polynomial division one message bit at a time.
 */
module Crc32c {
  import opened Bytes
  import opened Gf2

  // ---------------------------------------------------------------------------------
  // Reference: section 12.1 of RFC 3720.  The generator is 0x11edc6f41, the bits of each
  // byte enter least significant first, and the remainder is reflected and complemented.
  // ---------------------------------------------------------------------------------

  const GENERATOR: Word := 0x1edc6f41

  /** One step of the division: the bit that leaves the register meets the message bit. */
  function DivideBit(r: Word, bit: nat): Word
    requires bit < 2
  {
    var out := if r >= 0x8000_0000 then 1 else 0;
    var shifted := 2 * r - out * W32;
    XorWord(shifted, GENERATOR);
    if out != bit then Xor(shifted, GENERATOR) else shifted
  }

  function DivideByte(r: Word, b: nat, bits: nat): Word
    decreases bits
  {
    if bits == 0 then r else DivideByte(DivideBit(r, b % 2), b / 2, bits - 1)
  }

  function Remainder(r: Word, msg: seq<Byte>): Word {
    if msg == [] then r
    else DivideByte(Remainder(r, msg[..|msg| - 1]), msg[|msg| - 1], 8)
  }

  /** The lowest `n` bits of `x` in reverse order. */
  function Reflect(x: nat, n: nat): (r: nat)
    decreases n
  {
    if n == 0 then 0 else Shl(x % 2, n - 1) + Reflect(x / 2, n - 1)
  }

  lemma {:induction false} ReflectBound(x: nat, n: nat)
    ensures Reflect(x, n) < Shl(1, n)
    decreases n
  {
    if n == 0 {
    } else {
      ReflectBound(x / 2, n - 1);
      ShlZero(n - 1);
    }
  }

  function Reflected(x: Word): Word {
    ReflectBound(x, 32);
    Shl32();
    Reflect(x, 32)
  }

  function Not(x: Word): Word { W32 - 1 - x }

  function CrcReference(crc: Word, msg: seq<Byte>): Word {
    Not(Reflected(Remainder(Reflected(Not(crc)), msg)))
  }

  // ---------------------------------------------------------------------------------
  // The reflected register, as the crc32b and crc32q instructions update it.
  // ---------------------------------------------------------------------------------

  function Crc32b(c: Word, b: Byte): Word {
    XorWord(c, b);
    ZerosWord(Xor(c, b), 8);
    Zeros(Xor(c, b), 8)
  }

  function Update(c: Word, msg: seq<Byte>): Word {
    if msg == [] then c
    else Crc32b(Update(c, msg[..|msg| - 1]), msg[|msg| - 1])
  }

  /** Eight bytes in order. */
  function Crc32q(c: Word, msg: seq<Byte>, at: nat): Word
    requires at + 8 <= |msg|
  {
    Update(c, msg[at..at + 8])
  }

  lemma {:induction false} UpdateConcat(c: Word, a: seq<Byte>, b: seq<Byte>)
    ensures Update(c, a + b) == Update(Update(c, a), b)
    decreases |b|
  {
    if b == [] {
      assert a + b == a;
    } else {
      UpdateConcat(c, a, b[..|b| - 1]);
      assert (a + b)[..|a + b| - 1] == a + b[..|b| - 1];
    }
  }

  /** What the register held before a message contributes as if the message were zeros. */
  lemma {:induction false} UpdateSplits(c: Word, msg: seq<Byte>)
    ensures Update(c, msg) == Xor(Zeros(c, 8 * |msg|), Update(0, msg))
  {
    hide Xor, Zeros, Crc32b;
    if msg == [] {
      XorZero(c);
      NoZeros(c);
    } else {
      var front, x := msg[..|msg| - 1], msg[|msg| - 1];
      var z, u := Zeros(c, 8 * |front|), Update(0, front);
      UpdateSplits(c, front);
      ByteUpdate(Update(c, front), x);
      ByteUpdate(u, x);
      XorAssoc(z, u, x);
      ZerosXor(z, Xor(u, x), 8);
      ZerosAdd(c, 8 * |front|, 8);
    }
  }

  lemma NoZeros(c: Word)
    ensures Zeros(c, 0) == c
  {}

  lemma ByteUpdate(c: Word, b: Byte)
    ensures Crc32b(c, b) == Zeros(Xor(c, b), 8)
  {}

  // ---------------------------------------------------------------------------------
  // The instruction form agrees with the division.
  // ---------------------------------------------------------------------------------

  /** Reflecting `n` bits takes the top bit to the bottom. */
  lemma {:induction false} ReflectTop(x: nat, n: nat)
    requires 1 <= n && x < Shl(1, n)
    ensures x >= Shl(1, n - 1) ==> Reflect(x, n) == 2 * Reflect(x - Shl(1, n - 1), n - 1) + 1
    ensures x < Shl(1, n - 1) ==> Reflect(x, n) == 2 * Reflect(x, n - 1)
    decreases n
  {
    if n == 1 {
    } else {
      ReflectTop(x / 2, n - 1);
    }
  }

  lemma {:induction false} ReflectXor(a: nat, b: nat, n: nat)
    ensures Reflect(Xor(a, b), n) == Xor(Reflect(a, n), Reflect(b, n))
    decreases n
  {
    hide *;
    if n == 0 {
      ReflectNone(a);
      ReflectNone(b);
      ReflectNone(Xor(a, b));
      XorZero(0);
    } else {
      ReflectXor(a / 2, b / 2, n - 1);
      XorBits(a, b);
      ReflectStep(Xor(a, b), n);
      ReflectStep(a, n);
      ReflectStep(b, n);
      XorOnTop(Reflect(a / 2, n - 1), Reflect(b / 2, n - 1), a % 2, b % 2, n - 1);
    }
  }

  lemma ReflectNone(x: nat)
    ensures Reflect(x, 0) == 0
  {}

  lemma ReflectStep(x: nat, n: nat)
    requires n > 0
    ensures Reflect(x, n) == Shl(x % 2, n - 1) + Reflect(x / 2, n - 1)
    ensures Reflect(x / 2, n - 1) < Shl(1, n - 1)
  {
    ReflectBound(x / 2, n - 1);
  }

  /** A bit placed above a shorter word adds independently of it. */
  lemma XorOnTop(p: nat, q: nat, s: nat, t: nat, n: nat)
    requires p < Shl(1, n) && q < Shl(1, n) && s < 2 && t < 2
    ensures Xor(Shl(s, n) + p, Shl(t, n) + q) == Shl((s + t) % 2, n) + Xor(p, q)
  {
    hide Xor, Shl;
    calc {
      Xor(Shl(s, n) + p, Shl(t, n) + q);
      { XorDisjoint(p, s, n); XorDisjoint(q, t, n); }
      Xor(Xor(p, Shl(s, n)), Xor(q, Shl(t, n)));
      { XorSwap(p, Shl(s, n), q, Shl(t, n)); ShlXor(s, t, n); }
      Xor(Xor(p, q), Shl(Xor(s, t), n));
      { XorBound(p, q, n); XorDisjoint(Xor(p, q), Xor(s, t), n); XorLow(s, t); }
      Xor(p, q) + Shl((s + t) % 2, n);
    }
  }

  lemma XorLow(s: nat, t: nat)
    requires s < 2 && t < 2
    ensures Xor(s, t) == (s + t) % 2
  {}

  /** Doubling drops the top bit, which is the lowest bit of the reflection. */
  lemma ReflectDouble(x: nat, n: nat)
    requires 1 <= n && x < Shl(1, n)
    ensures x >= Shl(1, n - 1) ==> Reflect(x, n) == 2 * Reflect(2 * x - Shl(1, n), n) + 1
    ensures x < Shl(1, n - 1) ==> Reflect(x, n) == 2 * Reflect(2 * x, n)
  {
    ReflectTop(x, n);
    ShlZero(n - 1);
  }

  /** `Reflect`, accumulating from the left. */
  function ReflectOnto(x: nat, n: nat, acc: nat): nat
    decreases n
  {
    if n == 0 then acc else ReflectOnto(x / 2, n - 1, 2 * acc + x % 2)
  }

  lemma {:induction false} ReflectOntoIs(x: nat, n: nat, acc: nat)
    ensures ReflectOnto(x, n, acc) == Shl(acc, n) + Reflect(x, n)
    decreases n
  {
    if n == 0 {
    } else {
      ReflectOntoIs(x / 2, n - 1, 2 * acc + x % 2);
      ShlAdd(2 * acc, x % 2, n - 1);
      ShlShift(acc, n - 1);
    }
  }

  lemma {:induction false} ShlAdd(a: nat, b: nat, n: nat)
    ensures Shl(a + b, n) == Shl(a, n) + Shl(b, n)
  {
    if n == 0 {
    } else {
      ShlAdd(a, b, n - 1);
    }
  }

  lemma ReflectedGenerator()
    ensures Reflected(GENERATOR) == POLY
  {
    hide Reflect, Shl, ReflectOnto;
    ReflectOntoIs(GENERATOR, 32, 0);
    ShlZero(32);
    ReflectOntoNibble(0x1edc6f4, 1, 0, 0, 0, 32, 0x0);
    ReflectOntoNibble(0x1edc6f, 0, 0, 1, 0, 28, 0x8);
    ReflectOntoNibble(0x1edc6, 1, 1, 1, 1, 24, 0x82);
    ReflectOntoNibble(0x1edc, 0, 1, 1, 0, 20, 0x82f);
    ReflectOntoNibble(0x1ed, 0, 0, 1, 1, 16, 0x82f6);
    ReflectOntoNibble(0x1e, 1, 0, 1, 1, 12, 0x82f63);
    ReflectOntoNibble(0x1, 0, 1, 1, 1, 8, 0x82f63b);
    ReflectOntoNibble(0x0, 1, 0, 0, 0, 4, 0x82f63b7);
    ReflectOntoEnd(0, 0x82f63b78);
  }

  lemma ReflectOntoEnd(x: nat, acc: nat)
    ensures ReflectOnto(x, 0, acc) == acc
  {}

  lemma ReflectOntoNibble(y: nat, d0: nat, d1: nat, d2: nat, d3: nat, n: nat, acc: nat)
    requires n >= 4 && d0 < 2 && d1 < 2 && d2 < 2 && d3 < 2
    ensures ReflectOnto(16 * y + 8 * d3 + 4 * d2 + 2 * d1 + d0, n, acc)
         == ReflectOnto(y, n - 4, 16 * acc + 8 * d0 + 4 * d1 + 2 * d2 + d3)
  {
    var x3 := 2 * y + d3;
    var x2 := 2 * x3 + d2;
    var x1 := 2 * x2 + d1;
    var x0 := 2 * x1 + d0;
    assert ReflectOnto(x0, n, acc) == ReflectOnto(x1, n - 1, 2 * acc + d0);
    assert ReflectOnto(x1, n - 1, 2 * acc + d0) == ReflectOnto(x2, n - 2, 4 * acc + 2 * d0 + d1);
    assert ReflectOnto(x2, n - 2, 4 * acc + 2 * d0 + d1) == ReflectOnto(x3, n - 3, 8 * acc + 4 * d0 + 2 * d1 + d2);
  }

  lemma BitAgrees(r: Word, bit: nat)
    requires bit < 2
    ensures Reflected(DivideBit(r, bit)) == BitStep(Xor(Reflected(r), bit))
  {
    hide Xor, Reflect, Shl;
    Shl32();
    Shl31();
    ReflectDouble(r, 32);
    var out := if r >= 0x8000_0000 then 1 else 0;
    ReflectXor(2 * r - out * W32, GENERATOR, 32);
    ReflectedGenerator();
    XorBits(Reflected(r), bit);
    XorZero(Reflected(r) / 2);
  }

  lemma Shl31()
    ensures Shl(1, 31) == 0x8000_0000
  {
    Shl32();
  }

  lemma {:induction false} ByteAgrees(r: Word, b: nat, bits: nat)
    requires b < Shl(1, bits)
    ensures Reflected(DivideByte(r, b, bits)) == Zeros(Xor(Reflected(r), b), bits)
    decreases bits
  {
    hide Xor, Reflect;
    var c := Reflected(r);
    if bits == 0 {
      XorZero(c);
    } else {
      var low, rest := b % 2, b / 2;
      BitAgrees(r, low);
      ByteAgrees(DivideBit(r, low), rest, bits - 1);
      assert b == Xor(low, 2 * rest) by { XorDisjoint(low, rest, 1); }
      XorAssoc(c, low, 2 * rest);
      BitStepXor(Xor(c, low), 2 * rest);
    }
  }

  lemma {:induction false} UpdateAgrees(r: Word, msg: seq<Byte>)
    ensures Reflected(Remainder(r, msg)) == Update(Reflected(r), msg)
  {
    if msg == [] {
    } else {
      UpdateAgrees(r, msg[..|msg| - 1]);
      assert Shl(1, 8) == 256;
      ByteAgrees(Remainder(r, msg[..|msg| - 1]), msg[|msg| - 1], 8);
    }
  }

  lemma {:induction false} ReflectTwice(x: nat, n: nat)
    requires x < Shl(1, n)
    ensures Reflect(Reflect(x, n), n) == x
    decreases n
  {
    if n == 0 {
    } else {
      // the last bit of the inner reflection is the top bit of x
      ReflectTop(x, n);
      var top := if x >= Shl(1, n - 1) then 1 else 0;
      var rest := if top == 1 then x - Shl(1, n - 1) else x;
      ReflectTwice(rest, n - 1);
      ShlZero(n - 1);
    }
  }

  /** The register form computes the reference CRC. */
  lemma RegisterComputesReference(crc: Word, msg: seq<Byte>)
    ensures Not(Update(Not(crc), msg)) == CrcReference(crc, msg)
  {
    UpdateAgrees(Reflected(Not(crc)), msg);
    Shl32();
    ReflectTwice(Not(crc), 32);
  }
}
