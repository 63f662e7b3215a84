/**
 Transactions, transaction buffers and compound transactions (c_txns), with the size
 accounting that decides how transactions are merged.
 */
module TxnTypes {
  import opened Bytes

  const PAGE_SIZE: nat := 4096
  const INODE_SIZE: nat := 152
  const C_TXN_LIMIT_BYTES: nat := 1569760
  const C_TXN_COMMITTING_LIMIT: nat := 70
  const RUNNING_C_TXN_LIMIT: nat := 16
  const LIGHTFS_TXN_LIMIT: nat := 310
  const LIGHTFS_IO_LARGE_BUF: nat := 2 * 1024 * 1024

  datatype ReqType =
    | MetaGet | MetaSet | MetaSyncSet | MetaDel | MetaCursor | MetaUpdate | MetaRename
    | DataGet | DataSet | DataSeqSet | DataDel | DataDelMulti | DataCursor | DataUpdate | DataRename
    | Commit | GetMulti | DataSetWb | GetMultiReal | DelMultiReal | TxnTransfer
    | GetMultiReada | GetMultiReadaReal

  /** One record of a transaction; `len` is the size it is charged for. */
  datatype TxnBuf = TxnBuf(ty: ReqType, key: seq<Byte>, off: nat, len: nat, update: nat, data: seq<Byte>)

  datatype Kind = Read | Sync | Write

  datatype Txn = Txn(id: nat, kind: Kind, bufs: seq<TxnBuf>, cnt: nat, size: nat, committed: bool)

  datatype CTxn = CTxn(
    id: nat, txns: seq<Txn>, size: nat, cnt: nat,
    ordered: bool, flush: bool, transfering: bool, committing: nat)

  const FRESH_ORDERLESS: CTxn := CTxn(0, [], 0, 0, false, false, false, 0)
  const FRESH_ORDERED: CTxn := CTxn(0, [], 0, 0, true, false, false, 0)

  /** type, key_len, key, val_off, val_len, val */
  function TxnBufSize(b: TxnBuf): nat { 7 + |b.key| + b.len }

  function Charged(bufs: seq<TxnBuf>): nat {
    if bufs == [] then 0 else Charged(bufs[..|bufs| - 1]) + TxnBufSize(bufs[|bufs| - 1])
  }

  /** Counters of a transaction as the inserts left them. */
  ghost predicate Accounted(t: Txn) {
    t.cnt == |t.bufs| % U32 && t.size == (8 + Charged(t.bufs)) % U32
  }

  function SumSizes(ts: seq<Txn>): nat {
    if ts == [] then 0 else SumSizes(ts[..|ts| - 1]) + ts[|ts| - 1].size
  }

  /** The unsigned difference C_TXN_LIMIT_BYTES - c_txn->size - txn->size read back as a signed int. */
  function Diff(c: CTxn, t: Txn): int {
    var d := (C_TXN_LIMIT_BYTES - c.size - t.size) % U32;
    if d >= U32 / 2 then d - U32 else d
  }

  function Insert(c: CTxn, t: Txn): CTxn {
    if t.cnt == 0 then c
    else c.(txns := c.txns + [t], size := Add32(c.size, t.size), cnt := Add32(c.cnt, t.cnt))
  }

  ghost predicate EachFits(ts: seq<Txn>) {
    forall t :: t in ts ==> t.size <= C_TXN_LIMIT_BYTES
  }

  function SumCounts(ts: seq<Txn>): nat {
    if ts == [] then 0 else SumCounts(ts[..|ts| - 1]) + ts[|ts| - 1].cnt
  }

  /** The recorded size and count are the members', and members that each fit also fit together. */
  ghost predicate Packed(c: CTxn) {
    && c.size == SumSizes(c.txns) % U32 && c.cnt == SumCounts(c.txns) % U32
    && (EachFits(c.txns) ==> SumSizes(c.txns) <= C_TXN_LIMIT_BYTES)
  }

  lemma SumSnoc(ts: seq<Txn>, t: Txn)
    ensures SumSizes(ts + [t]) == SumSizes(ts) + t.size && SumCounts(ts + [t]) == SumCounts(ts) + t.cnt
  {
    assert (ts + [t])[..|ts|] == ts;
  }

  lemma ModAdd(a: nat, b: nat)
    ensures (a % U32 + b) % U32 == (a + b) % U32
  {}

  /** Merging keeps a c_txn packed when it is empty or the difference is not negative. */
  lemma InsertKeepsPacked(c: CTxn, t: Txn)
    requires Packed(c)
    requires c.txns == [] || Diff(c, t) >= 0
    ensures Packed(Insert(c, t))
  {
    hide Diff, SumSizes, SumCounts, EachFits;
    if t.cnt != 0 {
      SumSnoc(c.txns, t);
      ModAdd(SumSizes(c.txns), t.size);
      ModAdd(SumCounts(c.txns), t.cnt);
      if EachFits(c.txns + [t]) {
        FitsTogether(c, t);
      }
    }
  }

  lemma FitsTogether(c: CTxn, t: Txn)
    requires Packed(c)
    requires c.txns == [] || Diff(c, t) >= 0
    requires EachFits(c.txns + [t])
    ensures SumSizes(c.txns) + t.size <= C_TXN_LIMIT_BYTES
  {
    assert t in c.txns + [t];
    if c.txns != [] {
      assert EachFits(c.txns) by {
        forall u | u in c.txns
          ensures u.size <= C_TXN_LIMIT_BYTES
        {
          assert u in c.txns + [t];
        }
      }
      DiffIsExact(c, t);
    }
  }

  /**
   The test that closes a c_txn fires exactly when the sum would pass the limit, for all 32-bit
   sizes but those that take the difference below the range of a signed int.
   */
  lemma DiffIsExact(c: CTxn, t: Txn)
    requires c.size < U32 && t.size < U32
    ensures var sum := c.size + t.size;
            && (sum <= C_TXN_LIMIT_BYTES + U32 / 2 ==> Diff(c, t) == C_TXN_LIMIT_BYTES - sum)
            && ((Diff(c, t) < 0 <==> sum > C_TXN_LIMIT_BYTES) <==>
                  sum <= C_TXN_LIMIT_BYTES + U32 / 2 || C_TXN_LIMIT_BYTES + U32 < sum <= C_TXN_LIMIT_BYTES + U32 + U32 / 2)
  {}
}
