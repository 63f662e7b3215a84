/** Writing back a list of dirty pages: one record a page, one transaction for every 310 pages of the list. */
module WritePages {
  import opened Bytes
  import opened Keys
  import opened TxnTypes
  import opened Wire
  import opened OpenTxn
  import opened TransferSize
  import PageScan

  datatype Page = Page(index: nat, data: seq<Byte>)

  /** Page numbers leave room for the block number in 64 bits. */
  predicate PageOk(p: Page) { p.index < U64 - 1 && |p.data| == PAGE_SIZE }

  /** The two tests the loop makes against the file size. */
  predicate InFile(p: Page, size: nat) {
    p.index < size / PAGE_SIZE || (p.index == size / PAGE_SIZE && size % PAGE_SIZE != 0)
  }

  /** They hold exactly for the pages that have a byte inside the file. */
  lemma InFileExactly(p: Page, size: nat)
    ensures InFile(p, size) <==> p.index * PAGE_SIZE < size
  {
    var q, r := size / PAGE_SIZE, size % PAGE_SIZE;
    assert size == q * PAGE_SIZE + r;
  }

  /** A page's record: the whole page, cleared past the end of the file. */
  function PageRecord(p: Page, ino: nat, size: nat): TxnBuf
    requires PageOk(p)
  {
    TxnBuf(DataSetWb, DataKey(ino, PageScan.PageBlock(p.index)), 0, PAGE_SIZE, 0,
           PageScan.Trimmed(p.data, PageScan.PageBlock(p.index), size))
  }

  /** Byte by byte, the record of a page in the file: the page's bytes inside the file and zeros past it. */
  ghost predicate KeepsPage(data: seq<Byte>, p: Page, size: nat)
    requires PageOk(p)
  {
    |data| == PAGE_SIZE && forall i :: 0 <= i < PAGE_SIZE ==> data[i] == if p.index * PAGE_SIZE + i < size then p.data[i] else 0
  }

  lemma RecordKeepsPage(p: Page, ino: nat, size: nat)
    requires PageOk(p) && InFile(p, size)
    ensures KeepsPage(PageRecord(p, ino, size).data, p, size)
  {
    hide PageScan.Trimmed, PageScan.BlockNumBySize, InFile;
    var block := PageScan.PageBlock(p.index);
    PageScan.TrimmedBytes(p.data, block, size, 0);
    forall i | 0 <= i < PAGE_SIZE
      ensures PageScan.Trimmed(p.data, block, size)[i] == if p.index * PAGE_SIZE + i < size then p.data[i] else 0
    {
      PageScan.TrimmedBytes(p.data, block, size, i);
      if p.index * PAGE_SIZE + i >= size {
        PastIsLast(p, size, i);
      }
    }
  }

  /** A page of the file that reaches past its end is the last one. */
  lemma PastIsLast(p: Page, size: nat, i: nat)
    requires InFile(p, size) && i < PAGE_SIZE && p.index * PAGE_SIZE + i >= size
    ensures PageScan.PageBlock(p.index) == PageScan.BlockNumBySize(size)
  {
    hide PageScan.BlockNumBySize;
    var q := size / PAGE_SIZE;
    assert p.index == q by {
      assert 4096 * q <= size && PAGE_SIZE == 4096;
    }
    EofBlock(p, size);
  }

  /** The records of a page list: one for each page in the file, in list order. */
  function Written(ps: seq<Page>, ino: nat, size: nat): seq<TxnBuf>
    requires forall p :: p in ps ==> PageOk(p)
  {
    if ps == [] then []
    else Written(ps[..|ps| - 1], ino, size) +
         if InFile(ps[|ps| - 1], size) then [PageRecord(ps[|ps| - 1], ino, size)] else []
  }

  /** Records of pages: 17-byte keys, a page of charge. */
  ghost predicate PageRecords(bs: seq<TxnBuf>) {
    forall b :: b in bs ==> WellFormed(b) && |b.key| == 17 && b.len == PAGE_SIZE
  }

  lemma {:induction false} PageCharge(bs: seq<TxnBuf>)
    requires PageRecords(bs)
    ensures Charged(bs) == |bs| * (24 + PAGE_SIZE)
  {
    if bs != [] {
      PageCharge(bs[..|bs| - 1]);
      assert bs[|bs| - 1] in bs;
    }
  }

  /** A transaction of at most 310 page records is within the merge limit. */
  lemma BatchIsProper(t: Txn)
    requires Accounted(t) && PageRecords(t.bufs) && |t.bufs| <= LIGHTFS_TXN_LIMIT
    ensures Proper(t)
  {
    PageCharge(t.bufs);
  }

  /** Puts one page into the open transaction if it is in the file. */
  method PutPage(txn: OpenTransaction, p: Page, ino: nat, size: nat)
    requires txn.Valid() && PageOk(p) && ino < U64 && PageRecords(txn.bufs)
    modifies txn
    ensures txn.Valid() && PageRecords(txn.bufs)
    ensures txn.bufs == old(txn.bufs) + if InFile(p, size) then [PageRecord(p, ino, size)] else []
    ensures InFile(p, size) ==>
      && |txn.bufs| > 0
      && var b := txn.bufs[|txn.bufs| - 1];
         && KeepsPage(b.data, p, size) && b.ty == DataSetWb
         && |b.key| == 17 && KeyIno(b.key) == ino && KeyBlock(b.key) == p.index + 1
  {
    hide DataKey, KeyIno, KeyBlock, PageScan.BlockNumBySize, KeepsPage;
    if InFile(p, size) {
      RecordKeepsPage(p, ino, size);
    }
    var endIndex, offset := size / PAGE_SIZE, size % PAGE_SIZE;
    var block := PageScan.PageBlock(p.index);
    DataKeyFields(ino, block);
    var key := DataKey(ino, block);
    EofBlock(p, size);
    if p.index < endIndex {
      Sendable(key, p.data);
      txn.Insert(key, Some(p.data), 0, DataSetWb, p.data);
    } else if p.index == endIndex && offset != 0 {
      var data := p.data[..offset] + PageScan.Zeros(PAGE_SIZE - offset);
      Sendable(key, data);
      txn.Insert(key, Some(data), 0, DataSetWb, data);
    } else {
      assert txn.bufs + [] == txn.bufs;
    }
  }

  lemma EofBlock(p: Page, size: nat)
    ensures p.index < size / PAGE_SIZE && size % PAGE_SIZE != 0 ==> PageScan.PageBlock(p.index) != PageScan.BlockNumBySize(size)
    ensures p.index == size / PAGE_SIZE && size % PAGE_SIZE != 0 ==>
      PageScan.PageBlock(p.index) == PageScan.BlockNumBySize(size)
  {
    var q, r := size / PAGE_SIZE, size % PAGE_SIZE;
    assert size == q * PAGE_SIZE + r;
  }

  lemma Sendable(key: Key, data: seq<Byte>)
    requires |key| == 17 && |data| == PAGE_SIZE
    ensures InsertOk(key, Some(data), 0, DataSetWb, data)
    ensures Built(key, Some(data), 0, DataSetWb, data) == TxnBuf(DataSetWb, key, 0, PAGE_SIZE, 0, data)
    ensures WellFormed(TxnBuf(DataSetWb, key, 0, PAGE_SIZE, 0, data))
  {}

  /** What the committed transactions are: proper ones, and together the records of the pages. */
  ghost predicate Batches(ts: seq<Txn>) {
    forall t :: t in ts ==> t.kind == Kind.Write && |t.bufs| <= LIGHTFS_TXN_LIMIT && Proper(t)
  }

  method Commit(ts: seq<Txn>, txn: OpenTransaction) returns (r: seq<Txn>)
    requires Batches(ts) && txn.Valid() && PageRecords(txn.bufs) && |txn.bufs| <= LIGHTFS_TXN_LIMIT && txn.kind == Kind.Write
    ensures Batches(r) && Bufs(r) == Bufs(ts) + txn.bufs && |r| == |ts| + 1
  {
    var t := Txn(0, txn.kind, txn.bufs, txn.cnt, txn.size, false);
    BatchIsProper(t);
    hide Proper;
    r := ts + [t];
    assert r[..|ts|] == ts;
  }

  /** How many pages the open transaction has seen, and how many full ones came before it. */
  function Place(i: nat): nat { i % LIGHTFS_TXN_LIMIT }

  function Full(i: nat): nat { i / LIGHTFS_TXN_LIMIT }

  /** Whatever the length of the list, every transaction is proper and nothing in the file is lost, doubled or moved. */
  method WriteAll(ps: seq<Page>, ino: nat, size: nat) returns (ts: seq<Txn>)
    requires ino < U64 && forall p :: p in ps ==> PageOk(p)
    ensures Batches(ts) && Bufs(ts) == Written(ps, ino, size)
    ensures |ts| == (|ps| + LIGHTFS_TXN_LIMIT - 1) / LIGHTFS_TXN_LIMIT
  {
    hide PageRecord, InFile, PageRecords, Batches, Bufs, Written, Accounted, PageOk, KeepsPage, Place, Full;
    var txn: OpenTransaction? := null;
    ts := [];
    NoneYet();
    Begun(0);
    for i := 0 to |ps|
      invariant (txn == null) == (Place(i) == 0)
      invariant txn != null ==>
        fresh(txn) && txn.Valid() && PageRecords(txn.bufs) && txn.kind == Kind.Write && |txn.bufs| <= Place(i)
      invariant Batches(ts) && Bufs(ts) + (if txn == null then [] else txn.bufs) == Written(ps[..i], ino, size)
      invariant |ts| == Full(i)
    {
      if Place(i) == 0 {
        txn := new OpenTransaction(Kind.Write);
      }
      WrittenNext(ps, i, ino, size);
      NextInBatch(i);
      PutPage(txn, ps[i], ino, size);
      if Place(i) == LIGHTFS_TXN_LIMIT - 1 {
        ts := Commit(ts, txn);
        txn := null;
      }
    }
    Begun(|ps|);
    if txn != null {
      ts := Commit(ts, txn);
    }
    assert ps[..|ps|] == ps;
  }

  lemma NoneYet()
    ensures Batches([]) && PageRecords([]) && Bufs([]) == [] && forall ino, size :: Written([], ino, size) == []
  {}

  lemma WrittenNext(ps: seq<Page>, i: nat, ino: nat, size: nat)
    requires i < |ps| && forall p :: p in ps ==> PageOk(p)
    ensures Written(ps[..i + 1], ino, size) ==
            Written(ps[..i], ino, size) + if InFile(ps[i], size) then [PageRecord(ps[i], ino, size)] else []
  {
    assert ps[..i + 1][..i] == ps[..i];
  }

  lemma NextInBatch(i: nat)
    ensures if Place(i) == LIGHTFS_TXN_LIMIT - 1 then Place(i + 1) == 0 && Full(i + 1) == Full(i) + 1
            else Place(i + 1) == Place(i) + 1 && Full(i + 1) == Full(i)
    ensures Place(i) < LIGHTFS_TXN_LIMIT
  {}

  lemma Begun(i: nat)
    ensures (i + LIGHTFS_TXN_LIMIT - 1) / LIGHTFS_TXN_LIMIT == Full(i) + if Place(i) == 0 then 0 else 1
    ensures Place(i) < LIGHTFS_TXN_LIMIT && (i == 0 ==> Place(i) == 0 && Full(i) == 0)
  {}

  // Reading back.

  ghost predicate AscendingPages(ps: seq<Page>) {
    && (forall p :: p in ps ==> PageOk(p))
    && (forall i, j :: 0 <= i < j < |ps| ==> ps[i].index < ps[j].index)
  }

  /** A written record as a scan finds it. */
  function Stored(b: TxnBuf): PageScan.Record { PageScan.Record(b.key, b.data) }

  function AllStored(bs: seq<TxnBuf>): seq<PageScan.Record> {
    seq(|bs|, i requires 0 <= i < |bs| => Stored(bs[i]))
  }

  lemma RecordFields(p: Page, ino: nat, size: nat)
    requires PageOk(p) && ino < U64
    ensures var r := Stored(PageRecord(p, ino, size));
            PageScan.FullPage(r) && PageScan.Mine(r, ino) && PageScan.BlockOf(r) == PageScan.PageBlock(p.index)
  {
    hide DataKey, KeyIno, KeyBlock;
    DataKeyFields(ino, PageScan.PageBlock(p.index));
  }

  /** Ascending pages leave ascending records. */
  lemma {:induction false} WrittenAscends(ps: seq<Page>, ino: nat, size: nat)
    requires AscendingPages(ps) && ino < U64
    ensures var rs := AllStored(Written(ps, ino, size));
            && PageScan.Ascending(rs, |rs|, ino)
            && forall k :: 0 <= k < |rs| ==> ps != [] && PageScan.BlockOf(rs[k]) <= PageScan.PageBlock(ps[|ps| - 1].index)
  {
    hide PageRecord, PageScan.FullPage, PageScan.Mine, PageScan.BlockOf, InFile;
    if ps != [] {
      var front, p := ps[..|ps| - 1], ps[|ps| - 1];
      WrittenAscends(front, ino, size);
      RecordFields(p, ino, size);
      var before, rs := AllStored(Written(front, ino, size)), AllStored(Written(ps, ino, size));
      assert rs == before + if InFile(p, size) then [Stored(PageRecord(p, ino, size))] else [];
    }
  }

  lemma {:induction false} WrittenHas(ps: seq<Page>, i: nat, ino: nat, size: nat) returns (k: nat)
    requires i < |ps| && (forall p :: p in ps ==> PageOk(p)) && InFile(ps[i], size)
    ensures k < |Written(ps, ino, size)| && Written(ps, ino, size)[k] == PageRecord(ps[i], ino, size)
  {
    hide PageRecord, InFile;
    if i == |ps| - 1 {
      k := |Written(ps, ino, size)| - 1;
    } else {
      k := WrittenHas(ps[..|ps| - 1], i, ino, size);
    }
  }

  /**
   What a later scan of the same blocks puts into a page is, byte by byte, what was in the page
   when it was written, and zeros past the end of the file.
   */
  lemma WrittenIsReadBack(ps: seq<Page>, p: Page, ino: nat, size: nat, got: seq<Byte>)
    requires AscendingPages(ps) && p in ps && InFile(p, size) && ino < U64
    ensures var rs, block := AllStored(Written(ps, ino, size)), PageScan.PageBlock(p.index);
            && PageScan.Ascending(rs, |rs|, ino)
            && (PageScan.Holds(got, block, rs, |rs|, size) ==>
                  |got| == PAGE_SIZE && forall i :: 0 <= i < PAGE_SIZE ==>
                    got[i] == if p.index * PAGE_SIZE + i < size then p.data[i] else 0)
  {
    hide Written, PageRecord, InFile, PageScan.Holds, PageScan.FullPage, PageScan.BlockOf, PageScan.Mine, KeepsPage;
    var rs, block := AllStored(Written(ps, ino, size)), PageScan.PageBlock(p.index);
    WrittenAscends(ps, ino, size);
    RecordFields(p, ino, size);
    var n :| 0 <= n < |ps| && ps[n] == p;
    var k := WrittenHas(ps, n, ino, size);
    assert rs[k] == Stored(PageRecord(p, ino, size));
    if PageScan.Holds(got, block, rs, |rs|, size) {
      RecordKeepsPage(p, ino, size);
      PageScan.HoldsBytes(got, block, rs, |rs|, size, k, 0);
      forall i | 0 <= i < PAGE_SIZE
        ensures got[i] == if p.index * PAGE_SIZE + i < size then p.data[i] else 0
      {
        PageScan.HoldsBytes(got, block, rs, |rs|, size, k, i);
        KeptByte(rs[k].val, p, size, i);
        if p.index * PAGE_SIZE + i >= size {
          PastIsLast(p, size, i);
        }
      }
    }
  }

  lemma KeptByte(data: seq<Byte>, p: Page, size: nat, i: nat)
    requires PageOk(p) && KeepsPage(data, p, size) && i < PAGE_SIZE
    ensures |data| == PAGE_SIZE && data[i] == if p.index * PAGE_SIZE + i < size then p.data[i] else 0
  {}
}
