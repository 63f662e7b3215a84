/** Truncation: the blocks past the new end of a file are deleted in batches, one transaction each. */
module Truncate {
  import opened Bytes
  import opened Keys
  import opened TxnTypes
  import opened Wire
  import opened OpenTxn
  import opened TransferSize
  import opened DeviceStore
  import opened RbTransfer
  import PageScan

  /** The file's size is a signed 64-bit number. */
  const MAX_SIZE: nat := U64 / 2

  function BlockNumByPosition(pos: nat): nat { pos / PAGE_SIZE + 1 }

  /** The first block to delete. */
  function FirstBlock(newNum: nat, offset: nat): nat {
    if newNum == 0 then 1 else if offset == 0 then newNum else (newNum + 1) % U64
  }

  /** last - first + 1 in unsigned 64-bit arithmetic. */
  function TotalBlocks(last: nat, first: nat): nat { (last - first + 1) % U64 }

  /** The blocks a multi-delete record names. */
  function Named(b: TxnBuf): seq<nat> {
    if b.ty == DataDelMulti && |b.key| >= 8 then BlockRun(KeyBlock(b.key), b.off) else []
  }

  /** A multi-delete record of an inode's blocks. */
  ghost predicate BlocksOf(b: TxnBuf, ino: nat) {
    b.ty == DataDelMulti && |b.key| == 17 && KeyBlock(b.key) < U64 && b.key == DataKey(ino, KeyBlock(b.key))
  }

  /** One transaction with one multi-delete of an inode's blocks, within the batch limit. */
  ghost predicate Batch(t: Txn, ino: nat) {
    && t.kind == Write && |t.bufs| == 1 && Proper(t)
    && BlocksOf(t.bufs[0], ino) && 1 <= t.bufs[0].off <= LIGHTFS_TXN_LIMIT
  }

  /** The blocks named by records, in order. */
  function AllNamed(bs: seq<TxnBuf>): seq<nat> {
    if bs == [] then [] else AllNamed(bs[..|bs| - 1]) + Named(bs[|bs| - 1])
  }

  function BlockRun(first: nat, n: nat): seq<nat> { seq(n, i => (first + i) % U64) }

  /** One more batch adds the blocks it names. */
  lemma OneMore(ts: seq<Txn>, t: Txn)
    requires |t.bufs| == 1
    ensures AllNamed(Bufs(ts + [t])) == AllNamed(Bufs(ts)) + Named(t.bufs[0])
  {
    hide Named;
    assert (ts + [t])[..|ts|] == ts;
    var bs := Bufs(ts);
    assert Bufs(ts + [t]) == bs + [t.bufs[0]];
    assert (bs + [t.bufs[0]])[..|bs|] == bs;
  }

  lemma ModShift(a: nat, b: nat)
    ensures (a % U64 + b) % U64 == (a + b) % U64
  {}

  lemma RunSplits(first: nat, n: nat, k: nat)
    requires k <= n
    ensures BlockRun(first, n) == BlockRun(first, k) + BlockRun((first + k) % U64, n - k)
  {
    forall j | k <= j < n
      ensures BlockRun(first, n)[j] == BlockRun((first + k) % U64, n - k)[j - k]
    {
      ModShift(first + k, j - k);
    }
  }

  lemma NothingNamed(first: nat)
    ensures AllNamed(Bufs([])) == BlockRun(first, 0)
  {}

  /** A transaction that deletes `cnt` blocks from `block` on. */
  method DeleteBatch(ino: nat, block: nat, cnt: nat) returns (t: Txn)
    requires ino < U64 && block < U64 && 1 <= cnt <= LIGHTFS_TXN_LIMIT
    ensures Batch(t, ino) && Named(t.bufs[0]) == BlockRun(block, cnt)
  {
    hide KeyBlock, KeyIno, DataKey;
    DataKeyFields(ino, block);
    var key := DataKey(ino, block);
    var txn := new OpenTransaction(Write);
    BuiltIsSendable(key, None, cnt, DataDelMulti, []);
    txn.Insert(key, None, cnt, DataDelMulti, []);
    t := Txn(0, txn.kind, txn.bufs, txn.cnt, txn.size, false);
    var b := t.bufs[0];
    assert Charged(t.bufs) == TxnBufSize(b);
  }

  /** Every transaction is a batch, and together they name exactly the run of blocks, each once. */
  method Trunc(ino: nat, size: nat, newNum: nat, offset: nat) returns (ts: seq<Txn>)
    requires ino < U64 && size < MAX_SIZE && newNum < U64
    ensures forall t :: t in ts ==> Batch(t, ino)
    ensures var first := FirstBlock(newNum, offset);
            AllNamed(Bufs(ts)) == BlockRun(first, TotalBlocks(PageScan.BlockNumBySize(size), first))
  {
    hide Batch, KeyBlock, KeyIno, Proper, Named, BlockRun, AllNamed, Bufs;
    ghost var first := FirstBlock(newNum, offset);
    var last := PageScan.BlockNumBySize(size);
    var current := FirstBlock(newNum, offset);
    var total := TotalBlocks(last, current);
    ghost var all := total;
    ts := [];
    NothingNamed(first);
    while total > 0
      invariant 0 <= total <= all && current == (first + (all - total)) % U64
      invariant forall t :: t in ts ==> Batch(t, ino)
      invariant AllNamed(Bufs(ts)) == BlockRun(first, all - total)
      decreases total
    {
      var cnt := if total > LIGHTFS_TXN_LIMIT then LIGHTFS_TXN_LIMIT else total;
      var t := DeleteBatch(ino, current, cnt);
      BatchShape(t, ino);
      OneMore(ts, t);
      RunSplits(first, all - total + cnt, all - total);
      ts := ts + [t];
      current := (current + cnt) % U64;
      total := total - cnt;
    }
  }

  lemma BatchShape(t: Txn, ino: nat)
    requires Batch(t, ino)
    ensures |t.bufs| == 1
  {}

  /** The unsigned count is the number of blocks from the first to the last; past that it wraps. */
  lemma CountIsExact(size: nat, newNum: nat, offset: nat)
    requires size < MAX_SIZE && newNum < U64
    ensures var last, first := PageScan.BlockNumBySize(size), FirstBlock(newNum, offset);
            TotalBlocks(last, first) == if first <= last + 1 then last + 1 - first else U64 + last + 1 - first
  {}

  /** Blocks needed for so many bytes. */
  function CeilBlocks(n: nat): nat { (n + PAGE_SIZE - 1) / PAGE_SIZE }

  /** Positions of a file seen as blocks. */
  lemma BlockOfSize(size: nat)
    ensures PageScan.BlockNumBySize(size) == CeilBlocks(size)
    ensures size < MAX_SIZE ==> FirstBlock(BlockNumByPosition(size), PageScan.OffByPosition(size)) == CeilBlocks(size) + 1
  {
    var q, r := size / PAGE_SIZE, size % PAGE_SIZE;
    assert size == q * PAGE_SIZE + r;
  }

  /** The blocks past the new size that the old size had. */
  function Beyond(oldSize: nat, newSize: nat): seq<nat>
    requires newSize <= oldSize
  {
    CeilMonotone(newSize, oldSize);
    seq(CeilBlocks(oldSize) - CeilBlocks(newSize), i => CeilBlocks(newSize) + 1 + i)
  }

  lemma CeilMonotone(a: nat, b: nat)
    requires a <= b
    ensures CeilBlocks(a) <= CeilBlocks(b)
  {}

  /** A block is among them exactly when its first byte is past the new end and before the old one; none occurs twice. */
  lemma BeyondExactly(oldSize: nat, newSize: nat, block: nat)
    requires newSize <= oldSize && block > 0
    ensures block in Beyond(oldSize, newSize) <==> newSize <= (block - 1) * PAGE_SIZE < oldSize
    ensures forall i, j :: 0 <= i < j < |Beyond(oldSize, newSize)| ==> Beyond(oldSize, newSize)[i] < Beyond(oldSize, newSize)[j]
  {
    var all := Beyond(oldSize, newSize);
    assert block in all <==> CeilBlocks(newSize) < block <= CeilBlocks(oldSize) by {
      if CeilBlocks(newSize) < block <= CeilBlocks(oldSize) {
        assert all[block - CeilBlocks(newSize) - 1] == block;
      }
    }
    CeilBelow(newSize, block);
    CeilBelow(oldSize, block);
  }

  lemma CeilBelow(n: nat, block: nat)
    requires block > 0
    ensures CeilBlocks(n) < block <==> n <= (block - 1) * PAGE_SIZE
  {}

  /** The run counted from the first block is the blocks beyond the new size. */
  lemma RunIsBeyond(oldSize: nat, newSize: nat)
    requires newSize <= oldSize < MAX_SIZE
    ensures var first := CeilBlocks(newSize) + 1;
            BlockRun(first, TotalBlocks(CeilBlocks(oldSize), first)) == Beyond(oldSize, newSize)
  {
    CeilMonotone(newSize, oldSize);
    var first := CeilBlocks(newSize) + 1;
    var n := CeilBlocks(oldSize) - CeilBlocks(newSize);
    assert TotalBlocks(CeilBlocks(oldSize), first) == n;
    forall i | 0 <= i < n
      ensures BlockRun(first, n)[i] == Beyond(oldSize, newSize)[i]
    {}
  }

  /** Setting a smaller size deletes exactly the blocks beyond it; a larger one deletes nothing. */
  method SetSize(ino: nat, oldSize: nat, newSize: nat) returns (ts: seq<Txn>)
    requires ino < U64 && oldSize < MAX_SIZE
    ensures forall t :: t in ts ==> Batch(t, ino)
    ensures AllNamed(Bufs(ts)) == if newSize < oldSize then Beyond(oldSize, newSize) else []
  {
    hide Batch, BlockRun, TotalBlocks, CeilBlocks, FirstBlock;
    ts := [];
    if newSize < oldSize {
      BlockOfSize(oldSize);
      BlockOfSize(newSize);
      RunIsBeyond(oldSize, newSize);
      SmallBlock(newSize);
      ts := Trunc(ino, oldSize, BlockNumByPosition(newSize), PageScan.OffByPosition(newSize));
    }
  }

  lemma SmallBlock(pos: nat)
    requires pos < MAX_SIZE
    ensures BlockNumByPosition(pos) < U64
  {}

  /** Unlinking a file deletes all its blocks. */
  method Unlink(ino: nat, size: nat) returns (ts: seq<Txn>)
    requires ino < U64 && size < MAX_SIZE
    ensures forall t :: t in ts ==> Batch(t, ino)
    ensures AllNamed(Bufs(ts)) == Beyond(size, 0)
  {
    hide Batch, BlockRun, TotalBlocks;
    ts := [];
    BlockOfSize(size);
    RunIsBeyond(size, 0);
    if size > 0 {
      ts := Trunc(ino, size, 0, 0);
    }
  }

  /** No caller makes the count wrap: the first block is at most one past the last, for every smaller size and for unlinking. */
  lemma CallersCountExactly(oldSize: nat, newSize: nat)
    requires newSize <= oldSize < MAX_SIZE
    ensures FirstBlock(BlockNumByPosition(newSize), PageScan.OffByPosition(newSize)) <= PageScan.BlockNumBySize(oldSize) + 1
    ensures FirstBlock(0, 0) <= PageScan.BlockNumBySize(oldSize) + 1
  {
    BlockOfSize(oldSize);
    BlockOfSize(newSize);
    CeilMonotone(newSize, oldSize);
  }

  // What the device's store keeps.

  /** The data keys of an inode's blocks. */
  function KeysOf(ino: nat, blocks: seq<nat>): set<Key> { set b | b in blocks :: DataKey(ino, b) }

  /** A multi-delete record names the keys of its blocks. */
  lemma NamedKeys(b: TxnBuf, ino: nat)
    requires BlocksOf(b, ino) && ino < U64
    ensures DeletedKeys(b.key, b.off) == KeysOf(ino, Named(b))
  {
    hide DataKey, KeyBlock, BlockKey;
    var block, named := KeyBlock(b.key), Named(b);
    forall i | 0 <= i < b.off
      ensures BlockKey(b.key, i) == DataKey(ino, named[i])
    {
      BlockKeyOfData(ino, block, i);
    }
    forall k | k in KeysOf(ino, named)
      ensures k in DeletedKeys(b.key, b.off)
    {
      var n :| n in named && k == DataKey(ino, n);
      var i :| 0 <= i < |named| && named[i] == n;
      assert k == BlockKey(b.key, i);
    }
    forall k | k in DeletedKeys(b.key, b.off)
      ensures k in KeysOf(ino, named)
    {
      var i :| 0 <= i < b.off && k == BlockKey(b.key, i);
      assert named[i] in named;
    }
  }

  /** A device that applies the records loses exactly the keys of the blocks they name. */
  lemma {:induction false} NamedAreDeleted(m: Store, bs: seq<TxnBuf>, ino: nat)
    requires ino < U64 && forall b :: b in bs ==> BlocksOf(b, ino)
    ensures Fold(MapDevice, m, MeantAll(bs)) == m - KeysOf(ino, AllNamed(bs))
  {
    hide Named, DeletedKeys, DataKey, BlocksOf;
    if bs == [] {
      assert m - KeysOf(ino, []) == m;
    } else {
      var front, b := bs[..|bs| - 1], bs[|bs| - 1];
      NamedAreDeleted(m, front, ino);
      assert MeantAll(bs)[..|bs| - 1] == MeantAll(front);
      assert b in bs;
      DeletesMulti(b, ino);
      NamedKeys(b, ino);
      KeysConcat(ino, AllNamed(front), Named(b));
    }
  }

  lemma DeletesMulti(b: TxnBuf, ino: nat)
    requires BlocksOf(b, ino)
    ensures Meant(b) == DelMulti(b.key, b.off)
  {}

  lemma KeysConcat(ino: nat, xs: seq<nat>, ys: seq<nat>)
    ensures KeysOf(ino, xs + ys) == KeysOf(ino, xs) + KeysOf(ino, ys)
  {
    hide DataKey;
  }

  lemma {:induction false} BatchRecords(ts: seq<Txn>, ino: nat)
    requires forall t :: t in ts ==> Batch(t, ino)
    ensures forall b :: b in Bufs(ts) ==> BlocksOf(b, ino)
  {
    hide BlocksOf, Proper;
    if ts != [] {
      BatchRecords(ts[..|ts| - 1], ino);
      assert Batch(ts[|ts| - 1], ino);
    }
  }

  lemma KeyIsNamed(ino: nat, blocks: seq<nat>, block: nat)
    requires ino < U64 && block < U64 && forall b :: b in blocks ==> b < U64
    ensures DataKey(ino, block) in KeysOf(ino, blocks) <==> block in blocks
  {
    hide DataKey, KeyBlock, KeyIno;
    if DataKey(ino, block) in KeysOf(ino, blocks) {
      var b :| b in blocks && DataKey(ino, b) == DataKey(ino, block);
      DataKeyFields(ino, b);
      DataKeyFields(ino, block);
    }
  }

  /**
   Applied by the device, the transactions of a truncation remove exactly the data keys of the
   blocks that lie past the new end and before the old one, and nothing else.
   */
  lemma TruncatedStore(m: Store, ts: seq<Txn>, ino: nat, oldSize: nat, newSize: nat, block: nat)
    requires ino < U64 && newSize <= oldSize < MAX_SIZE && 0 < block < U64
    requires (forall t :: t in ts ==> Batch(t, ino)) && AllNamed(Bufs(ts)) == Beyond(oldSize, newSize)
    ensures var kept := Fold(MapDevice, m, MeantAll(Bufs(ts)));
            && kept == m - KeysOf(ino, Beyond(oldSize, newSize))
            && (DataKey(ino, block) in kept <==>
                  DataKey(ino, block) in m && !(newSize <= (block - 1) * PAGE_SIZE < oldSize))
  {
    hide Batch, BlocksOf, AllNamed, DataKey, KeysOf, Fold;
    BatchRecords(ts, ino);
    NamedAreDeleted(m, Bufs(ts), ino);
    BeyondExactly(oldSize, newSize, block);
    KeyIsNamed(ino, Beyond(oldSize, newSize), block);
  }
}
