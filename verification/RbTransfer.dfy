/** The emulated device: a c_txn applied record by record to the ordered store. */
module RbTransfer {
  import opened Bytes
  import opened Keys
  import opened TxnTypes
  import opened Wire
  import opened KvStore
  import opened GroupCommit
  import opened GroupCommitOrder
  import opened IoTransfer
  import opened DeviceStore

  type Store = map<Key, Value>

  /** What the switch over the record type does; write-back pages and multi-deletes fall through it. */
  function Applied(m: Store, b: TxnBuf): Store {
    match b.ty
    case MetaSet => m[b.key := b.data]
    case DataSet => m[b.key := b.data]
    case DataSeqSet => m[b.key := b.data]
    case MetaDel => m - {b.key}
    case DataDel => m - {b.key}
    case MetaUpdate => if Fits(m, b) then m[b.key := Patched(Lookup(m, b.key), b.data, b.off, b.update)] else m
    case DataUpdate => if Fits(m, b) then m[b.key := Patched(Lookup(m, b.key), b.data, b.off, b.update)] else m
    case _ => m
  }

  /** An update copies within its page and within the value it changes. */
  predicate Fits(m: Store, b: TxnBuf) {
    && |b.data| == BLOCK && b.off + b.update <= BLOCK
    && (b.key in m ==> b.off + b.update <= |m[b.key]|)
  }

  function AppliedAll(m: Store, bs: seq<TxnBuf>): Store {
    if bs == [] then m else Applied(AppliedAll(m, bs[..|bs| - 1]), bs[|bs| - 1])
  }

  ghost predicate AllFit(m: Store, bs: seq<TxnBuf>) {
    forall k :: 0 <= k < |bs| && IsUpdate(bs[k].ty) ==> Fits(AppliedAll(m, bs[..k]), bs[k])
  }

  lemma {:induction false} AppliedConcat(m: Store, xs: seq<TxnBuf>, ys: seq<TxnBuf>)
    ensures AppliedAll(m, xs + ys) == AppliedAll(AppliedAll(m, xs), ys)
    decreases |ys|
  {
    hide Applied;
    if ys == [] {
      assert xs + ys == xs;
    } else {
      AppliedConcat(m, xs, ys[..|ys| - 1]);
      assert (xs + ys)[..|xs + ys| - 1] == xs + ys[..|ys| - 1];
    }
  }

  method ApplyRecord(db: Db, b: TxnBuf)
    requires db.Valid() && (IsUpdate(b.ty) ==> Fits(db.Contents(), b))
    modifies db
    ensures db.Valid() && db.Contents() == Applied(old(db.Contents()), b)
  {
    if b.ty.MetaSet? || b.ty.DataSet? || b.ty.DataSeqSet? {
      db.Put(b.key, b.data);
    } else if b.ty.MetaDel? || b.ty.DataDel? {
      var _ := db.Del(b.key);
    } else if b.ty.MetaUpdate? || b.ty.DataUpdate? {
      db.Update(b.key, b.data, b.off, b.update);
    }
  }

  /** The records of one transaction, the `before` ones being applied already. */
  method ApplyTxn(db: Db, bufs: seq<TxnBuf>, ghost m0: Store, ghost before: seq<TxnBuf>, ghost all: seq<TxnBuf>)
    requires db.Valid() && AllFit(m0, all) && before + bufs <= all && db.Contents() == AppliedAll(m0, before)
    modifies db
    ensures db.Valid() && db.Contents() == AppliedAll(m0, before + bufs)
  {
    hide Applied, Fits, MapOf;
    assert before + bufs[..0] == before;
    for j := 0 to |bufs|
      invariant db.Valid() && db.Contents() == AppliedAll(m0, before + bufs[..j])
    {
      ghost var done := before + bufs[..j];
      assert done + [bufs[j]] == before + bufs[..j + 1];
      assert all[|done|] == (before + bufs)[|done|] == bufs[j] && all[..|done|] == done;
      assert (done + [bufs[j]])[..|done|] == done;
      ApplyRecord(db, bufs[j]);
    }
    assert bufs[..|bufs|] == bufs;
  }

  /** Walks the transactions of a c_txn and their records. */
  method Transfer(db: Db, c: CTxn)
    requires db.Valid() && AllFit(db.Contents(), Bufs(c.txns))
    modifies db
    ensures db.Valid() && db.Contents() == AppliedAll(old(db.Contents()), Bufs(c.txns))
  {
    hide AppliedAll, AllFit, MapOf, Bufs;
    ghost var m0 := db.Contents();
    ghost var all := Bufs(c.txns);
    NoneApplied(m0, c.txns);
    for i := 0 to |c.txns|
      invariant db.Valid() && db.Contents() == AppliedAll(m0, Bufs(c.txns[..i]))
    {
      BufsNext(c.txns, i);
      ApplyTxn(db, c.txns[i].bufs, m0, Bufs(c.txns[..i]), all);
    }
    assert c.txns[..|c.txns|] == c.txns;
  }

  lemma NoneApplied(m: Store, ts: seq<Txn>)
    ensures AppliedAll(m, Bufs(ts[..0])) == m
  {}

  lemma BufsNext(ts: seq<Txn>, i: nat)
    requires i < |ts|
    ensures Bufs(ts[..i + 1]) == Bufs(ts[..i]) + ts[i].bufs && Bufs(ts[..i]) + ts[i].bufs <= Bufs(ts)
  {
    assert ts[..i + 1][..i] == ts[..i];
    BufsPrefix(ts, i);
  }

  /** The store after c_txns were transferred one after the other. */
  function AppliedLog(m: Store, log: seq<CTxn>): Store {
    if log == [] then m else AppliedAll(AppliedLog(m, log[..|log| - 1]), Bufs(log[|log| - 1].txns))
  }

  /** The store after transactions were applied one after the other. */
  function AppliedOneByOne(m: Store, payloads: seq<seq<TxnBuf>>): Store {
    if payloads == [] then m else AppliedAll(AppliedOneByOne(m, payloads[..|payloads| - 1]), payloads[|payloads| - 1])
  }

  lemma {:induction false} OneByOneIsAll(m: Store, ts: seq<Txn>)
    ensures AppliedOneByOne(m, Payloads(ts)) == AppliedAll(m, Bufs(ts))
  {
    hide AppliedAll;
    if ts == [] {
      NothingApplied(m);
    } else {
      var front, t := ts[..|ts| - 1], ts[|ts| - 1];
      OneByOneIsAll(m, front);
      assert Payloads(ts)[..|ts| - 1] == Payloads(front);
      AppliedConcat(m, Bufs(front), t.bufs);
    }
  }

  lemma NothingApplied(m: Store)
    ensures AppliedAll(m, []) == m
  {}

  lemma {:induction false} BufsConcat(xs: seq<Txn>, ys: seq<Txn>)
    ensures Bufs(xs + ys) == Bufs(xs) + Bufs(ys)
    decreases |ys|
  {
    if ys == [] {
      assert xs + ys == xs;
    } else {
      BufsConcat(xs, ys[..|ys| - 1]);
      assert (xs + ys)[..|xs + ys| - 1] == xs + ys[..|ys| - 1];
    }
  }

  lemma {:induction false} LogIsAll(m: Store, log: seq<CTxn>)
    ensures AppliedLog(m, log) == AppliedAll(m, Bufs(AllTxns(log)))
  {
    hide AppliedAll, Bufs;
    if log == [] {
      NothingApplied(m);
      NoBufs();
    } else {
      var front, c := log[..|log| - 1], log[|log| - 1];
      LogIsAll(m, front);
      BufsConcat(AllTxns(front), c.txns);
      AppliedConcat(m, Bufs(AllTxns(front)), Bufs(c.txns));
    }
  }

  lemma NoBufs()
    ensures Bufs([]) == []
  {}

  /**
   In every run, transferring the c_txns in order leaves the store as applying the same
   transactions one by one in commit order would, whatever grouping the limits produced.
   */
  lemma StoreFollowsCommitOrder(trace: seq<Action>, m: Store)
    ensures var n := |AllTxns(Run(trace).sent)|;
            && n <= |Commits(trace, Write)|
            && AppliedLog(m, Run(trace).sent) == AppliedOneByOne(m, Commits(trace, Write)[..n])
  {
    hide Run, Commits, AppliedLog, AppliedOneByOne, AppliedAll, AllTxns, Bufs;
    var s := Run(trace);
    OrderPreserved(trace);
    LogIsAll(m, s.sent);
    OneByOneIsAll(m, AllTxns(s.sent));
    assert Payloads(AllTxns(s.sent)) == Payloads(Pipeline(s))[..|AllTxns(s.sent)|];
  }

  /** The key of the block `i` further on than the block of a data key. */
  function BlockKey(key: Key, i: nat): Key
    requires |key| >= 8
  {
    key[..|key| - 8] + BigEndian((KeyBlock(key) + i) % U64, 8)
  }

  lemma BlockKeyOfData(ino: nat, block: nat, i: nat)
    requires ino < U64 && block < U64
    ensures |DataKey(ino, block)| == 17 && BlockKey(DataKey(ino, block), i) == DataKey(ino, (block + i) % U64)
  {
    hide BigEndian, KeyBlock, KeyIno;
    DataKeyFields(ino, block);
    DataKeySplit(ino, block);
    DataKeySplit(ino, (block + i) % U64);
  }

  lemma DataKeySplit(ino: nat, block: nat)
    ensures |DataKey(ino, block)| == 17
    ensures DataKey(ino, block) == DataKey(ino, block)[..9] + BigEndian(block, 8)
    ensures DataKey(ino, block)[..9] == [DATA_KEY_MAGIC] + BigEndian(ino, 8)
  {
    hide BigEndian;
  }

  /** The keys a multi-delete of `cnt` blocks names. */
  function DeletedKeys(key: Key, cnt: nat): set<Key> {
    if |key| < 8 then {} else set i | 0 <= i < cnt :: BlockKey(key, i)
  }

  /** The map a device keeps, record by decoded record. */
  function MapDevice(m: Store, r: Record): Store {
    match r
    case Put(_, key, _, value) => m[key := value]
    case Del(_, key) => m - {key}
    case DelMulti(key, cnt) => m - DeletedKeys(key, cnt)
    case Update(_, key, off, len, page) =>
      if |page| == BLOCK && off + len <= BLOCK && (key in m ==> off + len <= |m[key]|)
      then m[key := Patched(Lookup(m, key), page, off, len)] else m
    case CommitMark => m
  }

  /** A write-back page that is not in the store yet, or a multi-delete that names a key of the store. */
  ghost predicate Missed(m: Store, b: TxnBuf) {
    || (b.ty.DataSetWb? && Lookup(m, b.key) != Some(b.data))
    || (b.ty.DataDelMulti? && exists k :: k in DeletedKeys(b.key, b.off) && k in m)
  }

  /** The emulation and a device that reads the wire agree on a record exactly when the emulation does not miss it. */
  lemma EmulationMatchesWire(m: Store, b: TxnBuf)
    requires WellFormed(b)
    ensures Applied(m, b) == MapDevice(m, Meant(b)) <==> !Missed(m, b)
  {
    hide DeletedKeys, Patched;
    if b.ty.DataSetWb? {
      assert m[b.key := b.data] == m <==> Lookup(m, b.key) == Some(b.data);
    } else if b.ty.DataDelMulti? {
      var named := DeletedKeys(b.key, b.off);
      if k :| k in named && k in m {
        assert k !in m - named;
      } else {
        assert m - named == m;
      }
    }
  }

  /** Any write-back page of a key that is not stored is missed. */
  lemma WriteBackIsMissed(m: Store, b: TxnBuf)
    requires WellFormed(b) && b.ty.DataSetWb? && b.key !in m
    ensures Applied(m, b) == m && MapDevice(m, Meant(b)) == m[b.key := b.data] != m
  {
    assert b.key in m[b.key := b.data];
  }

  /** Any multi-delete whose first block is stored is missed. */
  lemma MultiDeleteIsMissed(m: Store, ino: nat, block: nat, cnt: nat)
    requires ino < U64 && block < U64 && 1 <= cnt < U16 && DataKey(ino, block) in m
    ensures var b := TxnBuf(DataDelMulti, DataKey(ino, block), cnt, PAGE_SIZE * cnt % U32, 0, []);
            WellFormed(b) && Applied(m, b) == m && MapDevice(m, Meant(b)) != m
  {
    hide BlockKey, DataKey;
    BlockKeyOfData(ino, block, 0);
    var b := TxnBuf(DataDelMulti, DataKey(ino, block), cnt, PAGE_SIZE * cnt % U32, 0, []);
    assert BlockKey(b.key, 0) in DeletedKeys(b.key, cnt);
    assert b.key !in MapDevice(m, Meant(b));
  }

  /** Over any log: as long as nothing is missed, the emulation keeps the store of a device that reads the wire. */
  lemma {:induction false} EmulationFollowsWire(m: Store, bs: seq<TxnBuf>)
    requires forall k :: 0 <= k < |bs| ==> WellFormed(bs[k]) && !Missed(AppliedAll(m, bs[..k]), bs[k])
    ensures AppliedAll(m, bs) == Fold(MapDevice, m, MeantAll(bs))
  {
    hide Applied, MapDevice, Missed, WellFormed, Meant;
    if bs != [] {
      var front := bs[..|bs| - 1];
      assert forall k :: 0 <= k < |front| ==> front[k] == bs[k] && front[..k] == bs[..k];
      EmulationFollowsWire(m, front);
      EmulationMatchesWire(AppliedAll(m, front), bs[|bs| - 1]);
      assert MeantAll(bs)[..|bs| - 1] == MeantAll(front);
    }
  }
}
