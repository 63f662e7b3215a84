/** Keys: the byte-wise comparison, and data keys that carry inode and block number big-endian. */
module Keys {
  import opened Bytes

  type Key = seq<Byte>

  function MemCmp(a: Key, b: Key, n: nat): int
    requires n <= |a| && n <= |b|
    decreases n
  {
    if n == 0 then 0
    else if a[0] != b[0] then (a[0] as int) - (b[0] as int)
    else MemCmp(a[1..], b[1..], n - 1)
  }

  function KeyCmp(a: Key, b: Key): int {
    if |a| < |b| then
      var r := MemCmp(a, b, |a|);
      if r != 0 then r else -1
    else if |a| > |b| then
      var r := MemCmp(a, b, |b|);
      if r != 0 then r else 1
    else MemCmp(a, b, |a|)
  }

  /** The comparison decides at the first byte, or else on the rest. */
  lemma KeyCmpHead(a: Key, b: Key)
    ensures a == [] ==> KeyCmp(a, b) == if b == [] then 0 else -1
    ensures b == [] && a != [] ==> KeyCmp(a, b) == 1
    ensures a != [] && b != [] && a[0] != b[0] ==> KeyCmp(a, b) == (a[0] as int) - (b[0] as int)
    ensures a != [] && b != [] && a[0] == b[0] ==> KeyCmp(a, b) == KeyCmp(a[1..], b[1..])
  {}

  /** Zero exactly on equal keys, and antisymmetric. */
  lemma {:induction false} KeyCmpTotal(a: Key, b: Key)
    ensures KeyCmp(a, b) == 0 <==> a == b
    ensures KeyCmp(a, b) < 0 <==> KeyCmp(b, a) > 0
    decreases |a|
  {
    hide KeyCmp;
    KeyCmpHead(a, b);
    KeyCmpHead(b, a);
    if a != [] && b != [] && a[0] == b[0] {
      KeyCmpTotal(a[1..], b[1..]);
      assert a == [a[0]] + a[1..] && b == [b[0]] + b[1..];
    }
  }

  lemma {:induction false} KeyCmpTransitive(a: Key, b: Key, c: Key)
    requires KeyCmp(a, b) < 0 && KeyCmp(b, c) < 0
    ensures KeyCmp(a, c) < 0
    decreases |a|
  {
    hide KeyCmp;
    KeyCmpHead(a, b);
    KeyCmpHead(b, c);
    KeyCmpHead(a, c);
    if a != [] && b != [] && c != [] && a[0] == b[0] && b[0] == c[0] {
      KeyCmpTransitive(a[1..], b[1..], c[1..]);
    }
  }

  // Big-endian numbers.

  function Pow256(n: nat): nat { if n == 0 then 1 else 256 * Pow256(n - 1) }

  function BigEndian(x: nat, n: nat): (s: seq<Byte>)
    ensures |s| == n
    decreases n
  {
    if n == 0 then [] else BigEndian(x / 256, n - 1) + [x % 256]
  }

  function FromBigEndian(s: seq<Byte>): nat {
    if s == [] then 0 else 256 * FromBigEndian(s[..|s| - 1]) + s[|s| - 1]
  }

  lemma {:induction false} BigEndianRoundTrip(x: nat, n: nat)
    requires x < Pow256(n)
    ensures FromBigEndian(BigEndian(x, n)) == x
    decreases n
  {
    if n == 0 {
    } else {
      BigEndianRoundTrip(x / 256, n - 1);
      assert BigEndian(x, n)[..n - 1] == BigEndian(x / 256, n - 1);
    }
  }

  /** Big-endian prefixes compare like the numbers; equal ones defer to what follows. */
  lemma {:induction false} BigEndianOrder(x: nat, y: nat, n: nat, s: Key, t: Key)
    requires x < Pow256(n) && y < Pow256(n)
    ensures x < y ==> KeyCmp(BigEndian(x, n) + s, BigEndian(y, n) + t) < 0
    ensures x > y ==> KeyCmp(BigEndian(x, n) + s, BigEndian(y, n) + t) > 0
    ensures x == y ==> KeyCmp(BigEndian(x, n) + s, BigEndian(y, n) + t) == KeyCmp(s, t)
    decreases n
  {
    hide KeyCmp;
    if n == 0 {
      assert BigEndian(x, 0) + s == s && BigEndian(y, 0) + t == t;
    } else {
      var s', t' := [x % 256] + s, [y % 256] + t;
      BigEndianOrder(x / 256, y / 256, n - 1, s', t');
      assert BigEndian(x, n) + s == BigEndian(x / 256, n - 1) + s';
      assert BigEndian(y, n) + t == BigEndian(y / 256, n - 1) + t';
      KeyCmpHead(s', t');
      assert s'[1..] == s && t'[1..] == t;
    }
  }

  const DATA_KEY_MAGIC: Byte := 100
  const META_KEY_MAGIC: Byte := 109

  function DataKey(ino: nat, block: nat): Key {
    [DATA_KEY_MAGIC] + (BigEndian(ino, 8) + BigEndian(block, 8))
  }

  function MetaKey(ino: nat, path: seq<Byte>): Key { [META_KEY_MAGIC] + (BigEndian(ino, 8) + path) }

  function KeyIno(k: Key): nat
    requires |k| >= 9
  {
    FromBigEndian(k[1..9])
  }

  function KeyBlock(k: Key): nat
    requires |k| >= 8
  {
    FromBigEndian(k[|k| - 8..])
  }

  lemma Pow256Of8()
    ensures Pow256(8) == U64
  {
    assert Pow256(4) == U32;
  }

  /** The fields of a data key can be read back. */
  lemma DataKeyFields(ino: nat, block: nat)
    requires ino < U64 && block < U64
    ensures var k := DataKey(ino, block);
            |k| == 17 && KeyIno(k) == ino && KeyBlock(k) == block
  {
    hide BigEndian, FromBigEndian, Pow256;
    Pow256Of8();
    var k := DataKey(ino, block);
    assert k[1..9] == BigEndian(ino, 8);
    assert k[9..] == BigEndian(block, 8);
    BigEndianRoundTrip(ino, 8);
    BigEndianRoundTrip(block, 8);
  }

  /** So can the inode number of a metadata key, whatever its path. */
  lemma MetaKeyIno(ino: nat, path: seq<Byte>)
    requires ino < U64
    ensures |MetaKey(ino, path)| >= 9 && KeyIno(MetaKey(ino, path)) == ino
  {
    hide BigEndian, FromBigEndian, Pow256;
    Pow256Of8();
    assert MetaKey(ino, path)[1..9] == BigEndian(ino, 8);
    BigEndianRoundTrip(ino, 8);
  }

  /** On data keys the byte order is the order of inode and block numbers. */
  lemma DataKeyOrder(ino: nat, block: nat, ino': nat, block': nat)
    requires ino < U64 && block < U64 && ino' < U64 && block' < U64
    ensures KeyCmp(DataKey(ino, block), DataKey(ino', block')) < 0 <==> ino < ino' || (ino == ino' && block < block')
    ensures DataKey(ino, block) == DataKey(ino', block') <==> ino == ino' && block == block'
  {
    hide KeyCmp, BigEndian, Pow256;
    Pow256Of8();
    var a, b := DataKey(ino, block), DataKey(ino', block');
    KeyCmpHead(a, b);
    assert a[1..] == BigEndian(ino, 8) + BigEndian(block, 8);
    assert b[1..] == BigEndian(ino', 8) + BigEndian(block', 8);
    BigEndianOrder(ino, ino', 8, BigEndian(block, 8), BigEndian(block', 8));
    BigEndianOrder(block, block', 8, [], []);
    assert BigEndian(block, 8) + [] == BigEndian(block, 8) && BigEndian(block', 8) + [] == BigEndian(block', 8);
    KeyCmpTotal(a, b);
    KeyCmpTotal([], []);
  }
}
