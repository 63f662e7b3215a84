/** Filling a run of pages from the data records of a file: the merge of two ascending sequences. */
module PageScan {
  import opened Bytes
  import opened Keys
  import opened KvStore

  const PAGE_SIZE: nat := BLOCK

  /** Data blocks are numbered from 1. */
  function PageBlock(index: nat): nat { index + 1 }

  /** The block that holds the last byte of a file, 0 for an empty one. */
  function BlockNumBySize(size: nat): nat { if size == 0 then 0 else (size - 1) / BLOCK + 1 }

  function OffByPosition(pos: nat): nat { pos % BLOCK }

  datatype Record = Record(key: Key, val: Value)

  predicate FullPage(r: Record) { |r.key| == 17 && |r.val| == PAGE_SIZE }

  function BlockOf(r: Record): nat
    requires FullPage(r)
  {
    KeyBlock(r.key)
  }

  predicate Mine(r: Record, ino: nat)
    requires FullPage(r)
  {
    KeyIno(r.key) == ino
  }

  /** The record of a block: whose it is and which block it holds. */
  lemma RecordOfBlock(owner: nat, block: nat, val: Value, ino: nat)
    requires owner < U64 && block < U64 && |val| == PAGE_SIZE
    ensures var r := Record(DataKey(owner, block), val);
            FullPage(r) && BlockOf(r) == block && (Mine(r, ino) <==> owner == ino)
  {
    hide DataKey, KeyIno, KeyBlock;
    DataKeyFields(owner, block);
  }

  function Zeros(n: nat): Value { Fill(0, n) }

  /** A record's bytes with the part past the end of the file cleared. */
  function Trimmed(val: Value, block: nat, size: nat): Value
    requires |val| == PAGE_SIZE
  {
    if block == BlockNumBySize(size) && OffByPosition(size) != 0
    then val[..OffByPosition(size)] + Zeros(PAGE_SIZE - OffByPosition(size))
    else val
  }

  /** Byte by byte: what lies inside the file stays, and in its last block the rest is cleared. */
  lemma TrimmedBytes(val: Value, block: nat, size: nat, i: nat)
    requires |val| == PAGE_SIZE && block > 0 && i < PAGE_SIZE
    ensures |Trimmed(val, block, size)| == PAGE_SIZE
    ensures (block - 1) * BLOCK + i < size ==> Trimmed(val, block, size)[i] == val[i]
    ensures block == BlockNumBySize(size) && (block - 1) * BLOCK + i >= size ==> Trimmed(val, block, size)[i] == 0
    ensures block != BlockNumBySize(size) ==> Trimmed(val, block, size)[i] == val[i]
  {
    if block == BlockNumBySize(size) {
      LastBlock(size);
    }
  }

  /** What a page gets that a record passes. */
  function Passed(r: Record, block: nat, size: nat): Value
    requires FullPage(r)
  {
    if block == BlockOf(r) then Trimmed(r.val, block, size) else Zeros(PAGE_SIZE)
  }

  /** Full records whose leading run belongs to the inode and ascends. */
  ghost predicate Ascending(rs: seq<Record>, mine: nat, ino: nat) {
    && mine <= |rs|
    && (forall k :: 0 <= k < |rs| ==> FullPage(rs[k]))
    && (forall k :: 0 <= k < mine ==> Mine(rs[k], ino))
    && (mine < |rs| ==> !Mine(rs[mine], ino))
    && (forall j, k :: 0 <= j < k < mine ==> BlockOf(rs[j]) < BlockOf(rs[k]))
  }

  /** The page holds its record's bytes, or zeros if the inode has no such record. */
  ghost predicate Holds(page: Value, block: nat, rs: seq<Record>, mine: nat, size: nat)
    requires mine <= |rs| && forall k :: 0 <= k < |rs| ==> FullPage(rs[k])
  {
    && (forall k :: 0 <= k < mine && BlockOf(rs[k]) == block ==> page == Trimmed(rs[k].val, block, size))
    && ((forall k :: 0 <= k < mine ==> BlockOf(rs[k]) != block) ==> page == Zeros(PAGE_SIZE))
  }

  /** The contents of a page are thereby determined, and in the last block nothing past the end of the file shows. */
  lemma HoldsDetermines(page: Value, other: Value, block: nat, rs: seq<Record>, mine: nat, ino: nat, size: nat)
    requires Ascending(rs, mine, ino) && Holds(page, block, rs, mine, size)
    ensures Holds(other, block, rs, mine, size) ==> other == page
    ensures |page| == PAGE_SIZE
    ensures block == BlockNumBySize(size) && block > 0 ==>
      forall i :: 0 <= i < PAGE_SIZE && (block - 1) * BLOCK + i >= size ==> page[i] == 0
  {
    hide KeyIno, KeyBlock;
    if k :| 0 <= k < mine && BlockOf(rs[k]) == block {
      assert page == Trimmed(rs[k].val, block, size);
      if block == BlockNumBySize(size) && block > 0 {
        LastBlock(size);
      }
    }
  }

  /** Every byte of a page that holds its record: the record's inside the file, zero in the rest of the last block. */
  lemma HoldsBytes(page: Value, block: nat, rs: seq<Record>, mine: nat, size: nat, k: nat, i: nat)
    requires mine <= |rs| && (forall k :: 0 <= k < |rs| ==> FullPage(rs[k])) && Holds(page, block, rs, mine, size)
    requires k < mine && BlockOf(rs[k]) == block > 0 && i < PAGE_SIZE
    ensures |page| == PAGE_SIZE
    ensures (block - 1) * BLOCK + i < size ==> page[i] == rs[k].val[i]
    ensures block == BlockNumBySize(size) && (block - 1) * BLOCK + i >= size ==> page[i] == 0
  {
    hide Trimmed, KeyBlock, BlockNumBySize;
    TrimmedBytes(rs[k].val, block, size, i);
  }

  lemma LastBlock(size: nat)
    requires size > 0
    ensures var block, off := BlockNumBySize(size), OffByPosition(size);
            size == if off == 0 then block * BLOCK else (block - 1) * BLOCK + off
  {}

  /** Pages done, a callback without a current page (a kernel BUG), or the same request again and again. */
  datatype Outcome = Finished | NoPage | Repeats

  predicate Multiple(a: nat, d: nat)
    requires d > 0
  {
    a % d == 0
  }

  /** What becomes of requests for `cnt` blocks each, starting at block `first`, when the last page is for block `last`. */
  function Rounds(first: nat, last: nat, cnt: nat, start: bool): Outcome
    requires first <= last
  {
    if !start then Finished
    else if cnt == 0 || (cnt == 1 && first < last) then Repeats
    else if cnt == 1 || Multiple(last - first, cnt - 1) then Finished
    else NoPage
  }

  lemma Multiples(a: nat, d: nat, x: nat)
    requires d > 0 && Multiple(a, d)
    ensures a < x < a + d ==> !Multiple(x, d)
    ensures Multiple(a + d, d)
  {
    var q := a / d;
    assert a == d * q;
    PastMultiple(d, q, 0);
    PastMultiple(d, q + 1, 0);
    assert d * (q + 1) == a + d;
    if a < x < a + d {
      PastMultiple(d, q, x - a);
    }
  }

  lemma PastMultiple(d: nat, q: nat, y: nat)
    requires y < d
    ensures (d * q + y) % d == y
  {
    var z := d * q + y;
    var p := z / d;
    assert z == d * p + z % d;
    assert d * (q - p) == z % d - y && d * (p - q) == y - z % d;
    if q > p {
      AtLeast(d, q - p);
    } else if q < p {
      AtLeast(d, p - q);
    }
  }

  lemma AtLeast(d: nat, k: nat)
    requires k > 0
    ensures d * k >= d
  {}

  class PageIo {
    const index: seq<nat>
    const pages: array<Value>
    const ino: nat
    const size: nat
    var cur: nat
    var doContinue: bool

    ghost predicate Valid()
      reads this, pages
    {
      && pages.Length == |index| && cur <= |index|
      && (forall i :: 0 <= i < |index| ==> |pages[i]| == PAGE_SIZE)
      && (forall i, j :: 0 <= i < j < |index| ==> index[i] < index[j])
    }

    /** The pages passed so far are right, and the first `done` records lie before the current page. */
    ghost predicate Merged(rs: seq<Record>, mine: nat, done: nat)
      requires Valid() && Ascending(rs, mine, ino) && done <= mine
      reads this, pages
    {
      && (forall i :: 0 <= i < cur ==> Holds(pages[i], PageBlock(index[i]), rs, mine, size))
      && (cur < |index| ==> forall k :: 0 <= k < done ==> BlockOf(rs[k]) < PageBlock(index[cur]))
    }

    predicate JobDone()
      reads this
    {
      cur >= |index|
    }

    /** Clears the current page and moves on. */
    method ZeroPage()
      requires Valid() && !JobDone()
      modifies `cur, pages
      ensures Valid() && cur == old(cur) + 1 && pages[old(cur)] == Zeros(PAGE_SIZE)
      ensures forall i :: 0 <= i < |index| && i != old(cur) ==> pages[i] == old(pages[i])
    {
      pages[cur] := Zeros(PAGE_SIZE);
      cur := cur + 1;
    }

    /**
     The callback for one record.  A record of another inode ends the scan; one of this inode
     passes the pages up to its block, of which the page of its block gets its bytes and the
     others zeros, and the scan goes on while pages remain.
     */
    method ScanPagesCb(r: Record)
      requires Valid() && !JobDone() && FullPage(r)
      modifies this, pages
      ensures Valid() && old(cur) <= cur && doContinue == (Mine(r, ino) && !JobDone())
      ensures forall i :: 0 <= i < |index| && !(old(cur) <= i < cur) ==> pages[i] == old(pages[i])
      ensures forall i :: old(cur) <= i < cur ==>
        PageBlock(index[i]) <= BlockOf(r) && pages[i] == Passed(r, PageBlock(index[i]), size)
      ensures if Mine(r, ino) then cur < |index| ==> BlockOf(r) < PageBlock(index[cur]) else cur == old(cur)
    {
      hide Trimmed, KeyIno, KeyBlock;
      if Mine(r, ino) {
        while !JobDone() && PageBlock(index[cur]) < KeyBlock(r.key)
          invariant Valid() && old(cur) <= cur
          invariant forall i :: 0 <= i < |index| && !(old(cur) <= i < cur) ==> pages[i] == old(pages[i])
          invariant forall i :: old(cur) <= i < cur ==> PageBlock(index[i]) < KeyBlock(r.key) && pages[i] == Zeros(PAGE_SIZE)
          decreases |index| - cur
        {
          ZeroPage();
        }
        if !JobDone() && PageBlock(index[cur]) == KeyBlock(r.key) {
          CopyPage(r);
          cur := cur + 1;
        }
        doContinue := !JobDone();
      } else {
        doContinue := false;
      }
    }

    method CopyPage(r: Record)
      requires Valid() && !JobDone() && FullPage(r) && PageBlock(index[cur]) == BlockOf(r)
      modifies pages
      ensures Valid() && forall i :: 0 <= i < |index| && i != cur ==> pages[i] == old(pages[i])
      ensures pages[cur] == Trimmed(r.val, BlockOf(r), size)
      ensures forall i :: 0 <= i < PAGE_SIZE && index[cur] * PAGE_SIZE + i < size ==> pages[cur][i] == r.val[i]
      ensures PageBlock(index[cur]) == BlockNumBySize(size) ==>
        forall i :: 0 <= i < PAGE_SIZE && index[cur] * PAGE_SIZE + i >= size ==> pages[cur][i] == 0
    {
      hide KeyBlock;
      forall i | 0 <= i < PAGE_SIZE
        ensures index[cur] * PAGE_SIZE + i < size ==> Trimmed(r.val, BlockOf(r), size)[i] == r.val[i]
        ensures BlockOf(r) == BlockNumBySize(size) && index[cur] * PAGE_SIZE + i >= size ==>
          Trimmed(r.val, BlockOf(r), size)[i] == 0
      {
        TrimmedBytes(r.val, BlockOf(r), size, i);
      }
      var blockOff, blockNum := OffByPosition(size), BlockNumBySize(size);
      pages[cur] := r.val + pages[cur][|r.val|..];
      assert pages[cur] == r.val;
      if PageBlock(index[cur]) == blockNum && blockOff != 0 && blockOff < PAGE_SIZE {
        pages[cur] := pages[cur][..blockOff] + Zeros(PAGE_SIZE - blockOff);
      }
    }

    /** Clears every page left. */
    method FillRest()
      requires Valid()
      modifies `cur, pages
      ensures Valid() && JobDone()
      ensures forall i :: 0 <= i < |index| ==> pages[i] == if i < old(cur) then old(pages[i]) else Zeros(PAGE_SIZE)
    {
      while !JobDone()
        invariant Valid() && old(cur) <= cur
        invariant forall i :: 0 <= i < |index| ==> pages[i] == if old(cur) <= i < cur then Zeros(PAGE_SIZE) else old(pages[i])
        decreases |index| - cur
      {
        ZeroPage();
      }
    }

    /** Every page ends with its record's bytes or zeros, and with zeros past the end of the file. */
    method ScanPages(rs: seq<Record>, ghost mine: nat)
      requires Valid() && cur == 0 && Ascending(rs, mine, ino)
      modifies this, pages
      ensures Valid() && forall i :: 0 <= i < |index| ==> Holds(pages[i], PageBlock(index[i]), rs, mine, size)
    {
      if JobDone() {
        return;
      }
      doContinue := true;
      var j := 0;
      ghost var done := 0;
      while doContinue && j < |rs|
        invariant Valid() && j <= |rs| && done <= mine && Merged(rs, mine, done)
        invariant doContinue ==> j == done && !JobDone()
        invariant !doContinue ==> JobDone() || done == mine
      {
        hide Trimmed, KeyIno, KeyBlock, Holds;
        ghost var was, at := pages[..], cur;
        ScanPagesCb(rs[j]);
        if done < mine {
          StillMerged(rs, mine, done, was, at);
          done := done + 1;
        }
        j := j + 1;
      }
      RestIsZero(rs, mine, done);
      FillRest();
    }

    /** The pages a record passes hold what the records say. */
    lemma StillMerged(rs: seq<Record>, mine: nat, done: nat, was: seq<Value>, at: nat)
      requires Valid() && Ascending(rs, mine, ino) && done < mine && |was| == |index| && at <= cur
      requires forall i :: 0 <= i < at ==> pages[i] == was[i] && Holds(was[i], PageBlock(index[i]), rs, mine, size)
      requires at < |index| ==> forall k :: 0 <= k < done ==> BlockOf(rs[k]) < PageBlock(index[at])
      requires forall i :: at <= i < cur ==>
        PageBlock(index[i]) <= BlockOf(rs[done]) && pages[i] == Passed(rs[done], PageBlock(index[i]), size)
      requires cur < |index| ==> BlockOf(rs[done]) < PageBlock(index[cur])
      ensures Merged(rs, mine, done + 1)
    {
      hide Trimmed, KeyIno, KeyBlock;
      forall i | at <= i < cur
        ensures Holds(pages[i], PageBlock(index[i]), rs, mine, size)
      {
        assert forall k :: 0 <= k < done ==> BlockOf(rs[k]) < PageBlock(index[i]);
      }
      if cur < |index| {
        forall k | 0 <= k < done + 1
          ensures BlockOf(rs[k]) < PageBlock(index[cur])
        {
          assert k < done ==> BlockOf(rs[k]) < PageBlock(index[at]) <= PageBlock(index[cur]);
        }
      }
    }

    /** No record of the inode is left for the pages that are. */
    lemma RestIsZero(rs: seq<Record>, mine: nat, done: nat)
      requires Valid() && Ascending(rs, mine, ino) && done <= mine && Merged(rs, mine, done) && (JobDone() || done == mine)
      ensures forall i :: cur <= i < |index| ==> Holds(Zeros(PAGE_SIZE), PageBlock(index[i]), rs, mine, size)
    {
      hide Trimmed, KeyIno, KeyBlock;
      forall i | cur <= i < |index|
        ensures Holds(Zeros(PAGE_SIZE), PageBlock(index[i]), rs, mine, size)
      {
        assert forall k :: 0 <= k < mine ==> BlockOf(rs[k]) < PageBlock(index[i]);
      }
    }

    /** Exactly the pages up to block `upto` are passed, each with its block. */
    ghost predicate Served(device: nat -> Value, upto: int)
      requires Valid() && forall b :: |device(b)| == PAGE_SIZE
      reads this, pages
    {
      && (forall i :: 0 <= i < |index| ==> (i < cur <==> PageBlock(index[i]) <= upto))
      && forall i :: 0 <= i < cur ==> pages[i] == Trimmed(device(PageBlock(index[i])), PageBlock(index[i]), size)
    }

    /** One more block: called back with a current page. */
    method ServeBlock(device: nat -> Value, block: nat, ghost upto: int)
      requires Valid() && !JobDone() && ino < U64 && block < U64
      requires (forall b :: |device(b)| == PAGE_SIZE) && Served(device, upto) && block - 1 <= upto <= block
      modifies this, pages
      ensures Valid() && Served(device, block) && doContinue == !JobDone() && old(cur) <= cur
    {
      hide Trimmed, DataKey, KeyIno, KeyBlock;
      DataKeyFields(ino, block);
      ScanPagesCb(Record(DataKey(ino, block), device(block)));
    }

    /**
     One multi-get for `cnt` blocks from `first`.  The callback finds no current page exactly
     when it is called past the block of the last page.
     */
    method Round(device: nat -> Value, first: nat, cnt: nat, ghost upto: int) returns (ok: bool)
      requires Valid() && !JobDone() && ino < U64 && first + cnt <= U64
      requires (forall b :: |device(b)| == PAGE_SIZE) && Served(device, upto) && first - 1 <= upto <= first
      modifies this, pages
      ensures Valid() && (ok <==> cnt == 0 || first + cnt - 1 <= Last()) && old(cur) <= cur && (cnt == 0 ==> cur == old(cur))
      ensures ok ==> Served(device, if cnt == 0 then upto else first + cnt - 1)
      ensures ok ==> doContinue == if cnt == 0 then old(doContinue) else !JobDone()
    {
      hide Served, Trimmed;
      ghost var u := upto;
      for i := 0 to cnt
        invariant Valid() && old(cur) <= cur && Served(device, u) && (i == 0 ==> u == upto) && (i > 0 ==> u == first + i - 1)
        invariant doContinue == if i == 0 then old(doContinue) else !JobDone()
        invariant if i == 0 then cur == old(cur) else first + i - 1 <= Last()
      {
        DoneExactly(device, u);
        if JobDone() {
          return false;
        }
        ServeBlock(device, first + i, u);
        u := first + i;
      }
      ok := true;
    }

    lemma DoneExactly(device: nat -> Value, upto: int)
      requires Valid() && |index| > 0 && (forall b :: |device(b)| == PAGE_SIZE) && Served(device, upto)
      ensures JobDone() <==> upto >= Last()
      ensures cur > 0 <==> upto >= PageBlock(index[0])
    {
      assert index[|index| - 1] == index[|index| - 1];
    }

    /**
     The multi-gets of a scan: each asks for the same number of blocks and starts at the last
     block of the one before, until `doContinue` is false, from whatever value it has at first.
     If they start, they end with every page holding its block if and only if the last page's
     block is the last of some round; a request that covers it and more calls back without a
     current page, and one for at most one block that does not finish repeats for ever.
     */
    method GetMulti(device: nat -> Value) returns (outcome: Outcome)
      requires Valid() && cur == 0 && |index| > 0 && ino < U64 && Last() <= U64 / BLOCK
      requires forall b :: |device(b)| == PAGE_SIZE
      modifies this, pages
      ensures Valid()
      ensures var first, last := PageBlock(index[0]), Last();
              first <= last && outcome == Rounds(first, last, BlockCnt(first, last, size) % U32, old(doContinue))
      ensures outcome.Finished? ==> JobDone() && forall i :: 0 <= i < |index| ==>
        var block := PageBlock(index[i]);
        pages[i] == if old(doContinue) then Trimmed(device(block), block, size) else Zeros(PAGE_SIZE)
    {
      hide Served, Trimmed, BlockCnt, Multiple;
      BetweenEnds(index);
      CntBounds(PageBlock(index[0]), Last(), size);
      ghost var start := doContinue;
      var first := PageBlock(index[0]);
      var blockCnt := BlockCnt(first, Last(), size);
      if blockCnt == 0 {
        FillRest();
        return if doContinue then Repeats else Finished;
      }
      var cnt := blockCnt % U32;
      ghost var upto := first - 1;
      NoneServed(device);
      if cnt >= 2 {
        NoRounds(cnt - 1);
      }
      var key := first;
      while doContinue
        invariant Valid() && Served(device, upto) && first <= key <= Last()
        invariant upto == if key == first && cur == 0 then first - 1 else key
        invariant !start ==> !doContinue && cur == 0
        invariant start ==> (doContinue <==> !JobDone())
        invariant cnt >= 2 ==> Multiple(key - first, cnt - 1)
        invariant cnt < 2 ==> key == first
        decreases Last() - key, |index| - cur
      {
        DoneExactly(device, upto);
        var was := cur;
        var ok := Round(device, key, cnt, upto);
        if !ok {
          Multiples(key - first, cnt - 1, Last() - first);
          return NoPage;
        }
        DoneExactly(device, if cnt == 0 then upto else key + cnt - 1);
        if cnt < 2 && cur == was {
          return Repeats;
        }
        if cnt >= 2 {
          Multiples(key - first, cnt - 1, key + cnt - 1 - first);
        }
        key := key + cnt - 1;
        upto := key;
      }
      DoneExactly(device, upto);
      AllServed(device, upto);
      FillRest();
      outcome := Finished;
    }

    lemma AllServed(device: nat -> Value, upto: int)
      requires Valid() && (forall b :: |device(b)| == PAGE_SIZE) && Served(device, upto)
      ensures forall i :: 0 <= i < cur ==> pages[i] == Trimmed(device(PageBlock(index[i])), PageBlock(index[i]), size)
    {}

    lemma NoneServed(device: nat -> Value)
      requires Valid() && cur == 0 && |index| > 0 && (forall b :: |device(b)| == PAGE_SIZE) && SpreadOut(index)
      ensures Served(device, PageBlock(index[0]) - 1)
    {}

    /** The block of the last page. */
    function Last(): nat
      requires |index| > 0
      reads this
    {
      PageBlock(index[|index| - 1])
    }
  }

  /** The number of blocks a scan asks for, in unsigned 64-bit arithmetic: up to the last page, not past the end of the file. */
  function BlockCnt(first: nat, last: nat, size: nat): nat
    requires first <= last
  {
    var cnt := (BlockNumBySize(size) - first + 1) % U64;
    if cnt > last - first + 1 then last - first + 1 else cnt
  }

  lemma NoRounds(d: nat)
    requires d > 0
    ensures Multiple(0, d)
  {}

  lemma CntBounds(first: nat, last: nat, size: nat)
    requires first <= last
    ensures BlockCnt(first, last, size) <= last - first + 1
    ensures BlockCnt(first, last, size) % U32 <= BlockCnt(first, last, size)
  {}

  /** One multi-get is enough for all the pages exactly when the last is in the file, or the first lies wholly past it. */
  lemma OneRoundIsEnough(first: nat, last: nat, size: nat)
    requires first <= last < U64 && size < U64 / 2
    ensures var eof := BlockNumBySize(size);
            && (BlockCnt(first, last, size) == last - first + 1 <==> last <= eof || first > eof + 1)
            && (first <= eof + 1 && last > eof ==> BlockCnt(first, last, size) == eof + 1 - first)
  {}

  /**
   A scan with pages past the end of the file ends well exactly when the last page lies a whole
   number of rounds behind the first; otherwise it calls back without a page, and when the first
   page is the last of the file or the one after it, it asks the same for ever.
   */
  lemma ScanEndsExactly(first: nat, last: nat, size: nat)
    requires first <= last < U64 && last - first + 1 < U32 && size < U64 / 2
    ensures var eof := BlockNumBySize(size);
            var outcome := Rounds(first, last, BlockCnt(first, last, size) % U32, true);
            && (outcome.Finished? <==> last <= eof || first > eof + 1 || (first < eof && (last - first) % (eof - first) == 0))
            && (outcome.Repeats? <==> last > eof && eof <= first <= eof + 1)
  {
    hide BlockCnt, BlockNumBySize;
    OneRoundIsEnough(first, last, size);
    if first < last {
      Multiples(0, last - first, 0);
    }
  }

  /** All page numbers lie between the first and the last. */
  ghost predicate SpreadOut(index: seq<nat>)
  {
    forall i :: 0 <= i < |index| ==> index[0] <= index[i] <= index[|index| - 1]
  }

  lemma BetweenEnds(index: seq<nat>)
    requires forall i, j :: 0 <= i < j < |index| ==> index[i] < index[j]
    ensures SpreadOut(index)
  {}
}
