/**
 The hardware CRC-32C routine: operator matrices and byte tables built in place, and the
 three-stream main loop over them.
 */
module Crc32cHw {
  import opened Bytes
  import opened Gf2
  import opened Crc32c

  /** Block sizes of the three-stream loops. */
  const LONG: nat := 8192
  const SHORT: nat := 256

  /** The largest power of two that does not exceed `len`; zero is treated as one. */
  function HighPow(len: nat): (p: nat) {
    if len <= 1 then 1 else 2 * HighPow(len / 2)
  }

  lemma {:induction false} HighPowIs(len: nat) returns (k: nat)
    ensures HighPow(len) == Shl(1, k)
    ensures len >= 1 ==> Shl(1, k) <= len < Shl(1, k + 1)
    ensures len == 0 ==> k == 0
  {
    if len <= 1 {
      k := 0;
    } else {
      k := HighPowIs(len / 2);
      k := k + 1;
    }
  }

  lemma {:induction false} HighPowOfUnit(k: nat)
    ensures HighPow(Shl(1, k)) == Shl(1, k)
  {
    if k == 0 {
    } else {
      HighPowOfUnit(k - 1);
      UnitBound(0, k);
    }
  }

  /** `k` doubled once for every halving of `len` down to one. */
  function Scaled(k: nat, len: nat): nat
    decreases len
  {
    if len <= 1 then k else Scaled(2 * k, len / 2)
  }

  lemma {:induction false} ScaledIs(k: nat, len: nat)
    ensures Scaled(k, len) == k * HighPow(len)
    decreases len
  {
    if len <= 1 {
    } else {
      var h := HighPow(len / 2);
      calc {
        Scaled(k, len);
        { ScaledIs(2 * k, len / 2); }
        (2 * k) * h;
        k * (2 * h);
      }
    }
  }

  lemma UnitSizes()
    ensures HighPow(LONG) == LONG && HighPow(SHORT) == SHORT
  {
    hide HighPow;
    assert Shl(1, 8) == SHORT;
    assert Shl(1, 13) == LONG;
    HighPowOfUnit(8);
    HighPowOfUnit(13);
  }

  method MatrixTimes(mat: array<Word>, vec: Word) returns (sum: Word)
    requires vec < Shl(1, mat.Length)
    ensures sum == Times(mat[..], vec)
  {
    sum := 0;
    var v: nat, i: nat := vec, 0;
    while v != 0
      invariant 0 <= i <= mat.Length
      invariant v < Shl(1, mat.Length - i)
      invariant Xor(sum, Times(mat[i..], v)) == Times(mat[..], vec)
      decreases v
    {
      assert mat[i..][1..] == mat[i + 1..];
      ghost var rest := Times(mat[i + 1..], v / 2);
      XorZero(rest);
      if v % 2 == 1 {
        XorAssoc(sum, mat[i], rest);
        XorWord(sum, mat[i]);
        sum := Xor(sum, mat[i]);
      }
      v := v / 2;
      i := i + 1;
    }
    TimesZero(mat[i..]);
    XorZero(sum);
  }

  method MatrixSquare(square: array<Word>, mat: array<Word>)
    requires square != mat && square.Length == mat.Length == 32
    modifies square
    ensures forall i :: 0 <= i < 32 ==> square[i] == Times(mat[..], mat[i])
  {
    Shl32();
    for n := 0 to 32
      invariant mat[..] == old(mat[..])
      invariant forall i :: 0 <= i < n ==> square[i] == Times(mat[..], mat[i])
    {
      square[n] := MatrixTimes(mat, mat[n]);
    }
  }

  /** The operator for one zero bit: the polynomial, then the units shifted down by one. */
  method OneZeroBit(odd: array<Word>)
    requires odd.Length == 32
    modifies odd
    ensures Represents(odd[..], 1)
  {
    Shl32();
    odd[0] := POLY;
    var row := 1;
    for n := 1 to 32
      invariant row == Shl(1, n - 1)
      invariant odd[0] == POLY
      invariant forall i :: 1 <= i < n ==> odd[i] == Shl(1, i - 1)
    {
      UnitBound(n - 1, 32);
      odd[n] := row;
      row := 2 * row;
    }
    forall i | 0 <= i < 32
      ensures odd[..][i] == Zeros(Shl(1, i), 1)
    {
      XorZero(POLY);
      assert Zeros(Shl(1, i), 1) == BitStep(Shl(1, i));
    }
    UnitsDetermine(odd[..], 1);
  }

  /** Squares `mat`, which stands for `k` zero bits, into `square`. */
  method SquareOperator(square: array<Word>, mat: array<Word>, ghost k: nat)
    requires square != mat && square.Length == mat.Length == 32
    requires Represents(mat[..], k)
    modifies square
    ensures Represents(square[..], 2 * k)
  {
    MatrixSquare(square, mat);
    SquareDoubles(mat[..], square[..], k);
  }

  /** Builds the operator that appends the zero bytes for the largest power of two in `len`. */
  method ZerosOp(even: array<Word>, length: nat)
    requires even.Length == 32
    modifies even
    ensures Represents(even[..], 8 * HighPow(length))
  {
    var len := length;
    var odd := new Word[32];
    hide Represents, HighPow;
    ScaledIs(8, length);
    OneZeroBit(odd);
    SquareOperator(even, odd, 1);
    SquareOperator(odd, even, 2);
    ghost var k: nat := 4;
    while true
      invariant Represents(odd[..], k)
      invariant Scaled(2 * k, len) == Scaled(8, length)
      decreases len
    {
      SquareOperator(even, odd, k);
      len := len / 2;
      if len == 0 {
        return;
      }
      SquareOperator(odd, even, 2 * k);
      k := 4 * k;
      len := len / 2;
      if len == 0 {
        break;
      }
    }
    for n := 0 to 32
      invariant forall i :: 0 <= i < n ==> even[i] == odd[i]
      invariant Represents(odd[..], k)
    {
      even[n] := odd[n];
    }
    assert even[..] == odd[..];
  }

  /** Table `j`, entry `n` is the operator for `len` zero bytes applied to byte `n` at byte position `j`. */
  ghost predicate ShiftTable(zeros: array2<Word>, len: nat)
    reads zeros
  {
    && zeros.Length0 == 4 && zeros.Length1 == 256
    && forall j, n :: 0 <= j < 4 && 0 <= n < 256 ==> zeros[j, n] == Zeros(Shl(n, 8 * j), 8 * len)
  }

  lemma ByteShifts(n: nat)
    ensures Shl(n, 8) == 0x100 * n
    ensures Shl(n, 16) == 0x1_0000 * n
    ensures Shl(n, 24) == 0x100_0000 * n
  {
    assert Shl(n, 4) == 16 * n;
    assert Shl(n, 12) == 16 * Shl(n, 8);
    assert Shl(n, 20) == 16 * Shl(n, 16);
  }

  lemma ShlNone()
    ensures forall n: nat :: Shl(n, 0) == n
  {}

  method ZerosTables(zeros: array2<Word>, len: nat)
    requires zeros.Length0 == 4 && zeros.Length1 == 256
    modifies zeros
    ensures ShiftTable(zeros, HighPow(len))
  {
    hide Zeros, Shl, Times;
    ShlNone();
    var op := new Word[32];
    ZerosOp(op, len);
    ghost var bits: nat := 8 * HighPow(len);
    ghost var mat := op[..];
    Shl32();
    for n := 0 to 256
      invariant op[..] == mat
      invariant forall j, i :: 0 <= j < 4 && 0 <= i < n ==> zeros[j, i] == Zeros(Shl(i, 8 * j), bits)
    {
      ByteShifts(n);
      zeros[0, n] := MatrixTimes(op, n);
      zeros[1, n] := MatrixTimes(op, 0x100 * n);
      zeros[2, n] := MatrixTimes(op, 0x1_0000 * n);
      zeros[3, n] := MatrixTimes(op, 0x100_0000 * n);
    }
  }

  function ByteAt(crc: Word, j: nat): Byte
    requires j < 4
  {
    if j == 0 then crc % 0x100
    else if j == 1 then crc / 0x100 % 0x100
    else if j == 2 then crc / 0x1_0000 % 0x100
    else crc / 0x100_0000
  }

  lemma Quotients(x: nat)
    ensures x / 0x100 / 0x100 == x / 0x1_0000
    ensures x / 0x1_0000 / 0x100 == x / 0x100_0000
  {}

  lemma Recombined(crc: Word)
    ensures ByteAt(crc, 0) + 0x100 * ByteAt(crc, 1) + 0x1_0000 * ByteAt(crc, 2) + 0x100_0000 * ByteAt(crc, 3) == crc
  {
    Quotients(crc);
    assert crc == 0x100 * (crc / 0x100) + ByteAt(crc, 0);
    assert crc / 0x100 == 0x100 * (crc / 0x1_0000) + ByteAt(crc, 1);
    assert crc / 0x1_0000 == 0x100 * (crc / 0x100_0000) + ByteAt(crc, 2);
  }

  /** The four bytes of a word, each shifted back into place, add up to the word. */
  lemma FourBytes(crc: Word)
    ensures Xor(Xor(Xor(ByteAt(crc, 0), Shl(ByteAt(crc, 1), 8)), Shl(ByteAt(crc, 2), 16)), Shl(ByteAt(crc, 3), 24)) == crc
  {
    hide Xor, Shl, ByteAt;
    var b0: nat, b1: nat, b2: nat, b3: nat := ByteAt(crc, 0), ByteAt(crc, 1), ByteAt(crc, 2), ByteAt(crc, 3);
    ByteShifts(1);
    ByteShifts(b1);
    ByteShifts(b2);
    ByteShifts(b3);
    var two: nat := b0 + 0x100 * b1;
    assert Xor(b0, Shl(b1, 8)) == two by { XorDisjoint(b0, b1, 8); }
    var three: nat := two + 0x1_0000 * b2;
    assert Xor(two, Shl(b2, 16)) == three by { XorDisjoint(two, b2, 16); }
    assert Xor(three, Shl(b3, 24)) == three + 0x100_0000 * b3 by { XorDisjoint(three, b3, 24); }
    Recombined(crc);
  }

  /** Four table lookups apply the whole operator. */
  method Shift(zeros: array2<Word>, crc: Word, ghost len: nat) returns (r: Word)
    requires ShiftTable(zeros, len)
    ensures r == Zeros(crc, 8 * len)
  {
    Dimensions(zeros, len);
    hide *;
    var b0: nat, b1: nat, b2: nat, b3: nat := ByteAt(crc, 0), ByteAt(crc, 1), ByteAt(crc, 2), ByteAt(crc, 3);
    FourBytes(crc);
    ShiftByLookup(b0, b1, b2, b3, 8 * len);
    Entry(zeros, len, 0, b0);
    Entry(zeros, len, 1, b1);
    Entry(zeros, len, 2, b2);
    Entry(zeros, len, 3, b3);
    var t0, t1, t2, t3 := zeros[0, b0], zeros[1, b1], zeros[2, b2], zeros[3, b3];
    XorWord(t0, t1);
    XorWord(Xor(t0, t1), t2);
    XorWord(Xor(Xor(t0, t1), t2), t3);
    r := Xor(Xor(Xor(t0, t1), t2), t3);
  }

  lemma Dimensions(zeros: array2<Word>, len: nat)
    requires ShiftTable(zeros, len)
    ensures zeros.Length0 == 4 && zeros.Length1 == 256
  {}

  lemma Entry(zeros: array2<Word>, len: nat, j: nat, n: nat)
    requires ShiftTable(zeros, len) && j < 4 && n < 256
    ensures zeros[j, n] == Zeros(Shl(n, 8 * j), 8 * len)
  {}

  lemma ShiftByLookup(b0: nat, b1: nat, b2: nat, b3: nat, k: nat)
    ensures Xor(Xor(Xor(Zeros(Shl(b0, 8 * 0), k), Zeros(Shl(b1, 8), k)), Zeros(Shl(b2, 16), k)), Zeros(Shl(b3, 24), k))
         == Zeros(Xor(Xor(Xor(b0, Shl(b1, 8)), Shl(b2, 16)), Shl(b3, 24)), k)
  {
    ZerosXor(b0, Shl(b1, 8), k);
    ZerosXor(Xor(b0, Shl(b1, 8)), Shl(b2, 16), k);
    ZerosXor(Xor(Xor(b0, Shl(b1, 8)), Shl(b2, 16)), Shl(b3, 24), k);
  }

  lemma UpdateByte(c: Word, buf: seq<Byte>, lo: nat, hi: nat)
    requires lo <= hi < |buf|
    ensures Update(c, buf[lo..hi + 1]) == Crc32b(Update(c, buf[lo..hi]), buf[hi])
  {
    hide Crc32b;
    var m := buf[lo..hi + 1];
    assert m[..|m| - 1] == buf[lo..hi] && m[|m| - 1] == buf[hi];
  }

  lemma UpdateNone(c: Word, msg: seq<Byte>)
    requires |msg| == 0
    ensures Update(c, msg) == c
  {}

  lemma UpdateSlices(c: Word, buf: seq<Byte>, lo: nat, mid: nat, hi: nat)
    requires lo <= mid <= hi <= |buf|
    ensures Update(c, buf[lo..hi]) == Update(Update(c, buf[lo..mid]), buf[mid..hi])
  {
    hide Update;
    UpdateConcat(c, buf[lo..mid], buf[mid..hi]);
    assert buf[lo..mid] + buf[mid..hi] == buf[lo..hi];
  }

  /** The static shift tables and the routine that uses them. */
  class Crc32cUnit {
    const longTable: array2<Word>
    const shortTable: array2<Word>

    ghost predicate Valid()
      reads this, longTable, shortTable
    {
      ShiftTable(longTable, LONG) && ShiftTable(shortTable, SHORT)
    }

    constructor ()
      ensures Valid()
    {
      hide HighPow, Zeros, Shl;
      UnitSizes();
      longTable := new Word[4, 256];
      shortTable := new Word[4, 256];
      new;
      ZerosTables(longTable, LONG);
      ZerosTables(shortTable, SHORT);
    }

    /** One block of three streams of `size` bytes each, joined through the shift table. */
    method ThreeStreams(table: array2<Word>, size: nat, buf: seq<Byte>, start: nat, crc: Word) returns (crc0: Word)
      requires ShiftTable(table, size)
      requires size > 0 && size % 8 == 0 && start + 3 * size <= |buf|
      ensures crc0 == Update(crc, buf[start..start + 3 * size])
    {
      hide Update, Xor, Zeros;
      UpdateNone(crc, buf[start..start]);
      UpdateNone(0, buf[start + size..start + size]);
      UpdateNone(0, buf[start + 2 * size..start + 2 * size]);
      crc0 := crc;
      var crc1, crc2: Word := 0, 0;
      var next, end := start, start + size;
      while next < end
        invariant start <= next <= end && (end - next) % 8 == 0
        invariant crc0 == Update(crc, buf[start..next])
        invariant crc1 == Update(0, buf[start + size..next + size])
        invariant crc2 == Update(0, buf[start + 2 * size..next + 2 * size])
      {
        UpdateSlices(crc, buf, start, next, next + 8);
        UpdateSlices(0, buf, start + size, next + size, next + size + 8);
        UpdateSlices(0, buf, start + 2 * size, next + 2 * size, next + 2 * size + 8);
        crc0 := Crc32q(crc0, buf, next);
        crc1 := Crc32q(crc1, buf, next + size);
        crc2 := Crc32q(crc2, buf, next + 2 * size);
        next := next + 8;
      }
      ghost var first := crc0;
      UpdateSplits(first, buf[start + size..start + 2 * size]);
      UpdateSlices(crc, buf, start, start + size, start + 2 * size);
      var shifted := Shift(table, crc0, size);
      XorWord(shifted, crc1);
      crc0 := Xor(shifted, crc1);
      assert crc0 == Update(crc, buf[start..start + 2 * size]);
      UpdateSplits(crc0, buf[start + 2 * size..start + 3 * size]);
      UpdateSlices(crc, buf, start, start + 2 * size, start + 3 * size);
      shifted := Shift(table, crc0, size);
      XorWord(shifted, crc2);
      crc0 := Xor(shifted, crc2);
    }

    /** The CRC-32C of `buf`, which starts at address `base`, continuing from `init`. */
    method Crc(init: Word, base: nat, buf: seq<Byte>) returns (r: Word)
      requires Valid()
      ensures r == CrcReference(init, buf)
    {
      ghost var c := Not(init);
      var crc0 := Not(init);
      hide Update, Crc32b, CrcReference;
      var next: nat, len: nat := 0, |buf|;
      UpdateNone(c, buf[0..0]);
      while len != 0 && (base + next) % 8 != 0
        invariant next + len == |buf|
        invariant crc0 == Update(c, buf[0..next])
        decreases len
      {
        UpdateByte(c, buf, 0, next);
        crc0 := Crc32b(crc0, buf[next]);
        next := next + 1;
        len := len - 1;
      }
      while len >= LONG * 3
        invariant next + len == |buf|
        invariant crc0 == Update(c, buf[0..next])
        decreases len
      {
        UpdateSlices(c, buf, 0, next, next + 3 * LONG);
        crc0 := ThreeStreams(longTable, LONG, buf, next, crc0);
        next := next + LONG * 3;
        len := len - LONG * 3;
      }
      while len >= SHORT * 3
        invariant next + len == |buf|
        invariant crc0 == Update(c, buf[0..next])
        decreases len
      {
        UpdateSlices(c, buf, 0, next, next + 3 * SHORT);
        crc0 := ThreeStreams(shortTable, SHORT, buf, next, crc0);
        next := next + SHORT * 3;
        len := len - SHORT * 3;
      }
      var end := next + (len - len % 8);
      while next < end
        invariant next <= end <= |buf| && (end - next) % 8 == 0
        invariant crc0 == Update(c, buf[0..next])
      {
        UpdateSlices(c, buf, 0, next, next + 8);
        crc0 := Crc32q(crc0, buf, next);
        next := next + 8;
      }
      len := len % 8;
      while len != 0
        invariant next + len == |buf|
        invariant crc0 == Update(c, buf[0..next])
        decreases len
      {
        UpdateByte(c, buf, 0, next);
        crc0 := Crc32b(crc0, buf[next]);
        next := next + 1;
        len := len - 1;
      }
      assert buf[0..next] == buf;
      RegisterComputesReference(init, buf);
      r := Not(crc0);
    }
  }
}
