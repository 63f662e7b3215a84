/**
 A transferred c_txn fits its slot: the charge taken at insert dominates the encoded
 length, and the merge limit keeps the sum below the slot size, in every run.
 */
module TransferSize {
  import opened Bytes
  import opened TxnTypes
  import opened Wire
  import opened GroupCommit
  import opened GroupCommitCounters
  import opened GroupCommitOrder
  import opened GroupCommitIds

  /** A transaction made of proper inserts whose charge is within the merge limit. */
  ghost predicate Proper(t: Txn) {
    && Accounted(t) && 8 + Charged(t.bufs) <= C_TXN_LIMIT_BYTES
    && forall b :: b in t.bufs ==> WellFormed(b) && b.len >= PAGE_SIZE
  }

  /** What a record takes in the slot is never more than what it was charged. */
  lemma {:induction false} ExtentsWithinCharge(bs: seq<TxnBuf>)
    requires forall b :: b in bs ==> WellFormed(b) && b.len >= PAGE_SIZE
    ensures Extents(bs) <= Charged(bs)
    ensures (PAGE_SIZE + 7) * |bs| <= Charged(bs)
  {
    if bs == [] {
    } else {
      var front, b := bs[..|bs| - 1], bs[|bs| - 1];
      ExtentsWithinCharge(front);
      assert bs == front + [b];
      ExtentsSnoc(front, b);
      assert WellFormed(b);
    }
  }

  lemma {:induction false} ExtentsSnoc(bs: seq<TxnBuf>, b: TxnBuf)
    ensures Extents(bs + [b]) == Extents(bs) + Extent(b)
  {
    hide Extent;
    if bs == [] {
      assert [] + [b] == [b];
    } else {
      ExtentsSnoc(bs[1..], b);
      assert (bs + [b])[1..] == bs[1..] + [b];
    }
  }

  lemma {:induction false} ExtentsConcat(xs: seq<TxnBuf>, ys: seq<TxnBuf>)
    ensures Extents(xs + ys) == Extents(xs) + Extents(ys)
    decreases |xs|
  {
    hide Extent;
    if xs == [] {
      assert xs + ys == ys;
    } else {
      ExtentsConcat(xs[1..], ys);
      assert (xs + ys)[1..] == xs[1..] + ys;
    }
  }

  lemma {:induction false} MembersWithinSum(ts: seq<Txn>)
    requires forall t :: t in ts ==> Proper(t)
    ensures Extents(Bufs(ts)) + 8 * |ts| <= SumSizes(ts)
    ensures (PAGE_SIZE + 7) * |Bufs(ts)| <= SumSizes(ts)
    ensures forall b :: b in Bufs(ts) ==> WellFormed(b)
    ensures EachFits(ts)
  {
    hide Extents, WellFormed, Charged;
    if ts == [] {
      EmptyExtents();
    } else {
      var front, t := ts[..|ts| - 1], ts[|ts| - 1];
      assert Proper(t);
      MembersWithinSum(front);
      ExtentsWithinCharge(t.bufs);
      ExtentsConcat(Bufs(front), t.bufs);
      assert forall u :: u in ts ==> u in front || u == t;
    }
  }

  lemma EmptyExtents()
    ensures Extents([]) == 0
  {}

  /** The bound, for any packed c_txn of proper transactions. */
  lemma FitsSlot(c: CTxn)
    requires Packed(c) && c.txns != [] && forall t :: t in c.txns ==> Proper(t)
    ensures EncodedLen(c) <= c.size <= C_TXN_LIMIT_BYTES < LIGHTFS_IO_LARGE_BUF
    ensures |AllRecords(c)| < U16
    ensures forall b :: b in Bufs(c.txns) ==> WellFormed(b)
  {
    hide Extents, WellFormed, SumSizes, Bufs, Proper;
    MembersWithinSum(c.txns);
  }

  /** A delete of zero keys is charged no page; no caller asks for one. */
  function FreeDelete(): TxnBuf { TxnBuf(MetaDel, Filler(16), 0, 0, 0, []) }

  function FreeDeletes(n: nat): seq<TxnBuf> { seq(n, _ => FreeDelete()) }

  lemma {:induction false} ChargeOfCopies(n: nat)
    ensures Charged(FreeDeletes(n)) == 23 * n
  {
    if n == 0 {
    } else {
      ChargeOfCopies(n - 1);
      assert FreeDeletes(n)[..n - 1] == FreeDeletes(n - 1);
    }
  }

  const FREE_SIZE: nat := 8 + 23 * (U16 - 1)

  function FreeTxn(): Txn { Txn(1, Write, FreeDeletes(U16 - 1), U16 - 1, FREE_SIZE, true) }

  function FreeGroup(): CTxn { CTxn(1, [FreeTxn()], FREE_SIZE, U16 - 1, false, true, true, 1) }

  /**
   The page charged for every record is what keeps the count: without it, a closed group of
   65535 deletes within the merge limit has a slot, and the device finds no record in it.
   */
  lemma FreeDeletesWrapTheCount()
    ensures Accounted(FreeTxn()) && FREE_SIZE <= C_TXN_LIMIT_BYTES && Packed(FreeGroup())
    ensures forall b :: b in FreeTxn().bufs ==> WellFormed(b)
    ensures exists w :: Transferred(w, FreeGroup())
    ensures forall w :: Transferred(w, FreeGroup()) ==> Decode(w) == Some(Decoded(1, 0, []))
  {
    hide FreeDeletes, Transferred, Decode, Charged;
    ChargeOfCopies(U16 - 1);
    FreeGroupIs();
    var _ := SlotExists(FreeGroup());
    forall w | Transferred(w, FreeGroup())
      ensures Decode(w) == Some(Decoded(1, 0, []))
    {
      TransferRoundTrip(w, FreeGroup());
    }
  }

  lemma FreeGroupIs()
    ensures Bufs(FreeGroup().txns) == FreeDeletes(U16 - 1) && |FreeDeletes(U16 - 1)| == U16 - 1 && Packed(FreeGroup())
    ensures forall b :: b in FreeDeletes(U16 - 1) ==> WellFormed(b)
  {
    var t := FreeTxn();
    assert [t][..0] == [] && Bufs([t]) == [] + t.bufs;
    assert SumSizes([t]) == t.size;
  }

  // Every member of the pipeline is a committed transaction of the run.

  ghost predicate ProperRun(trace: seq<Action>) {
    forall i :: 0 <= i < |trace| && trace[i].Commit? && trace[i].txn.kind == Write ==> Proper(trace[i].txn)
  }

  /** The run in which the id wrap tears a group commits nothing but proper transactions. */
  lemma TornRunIsProper()
    ensures Proper(BULKY) && ProperRun(TornRun())
  {
    assert Charged(BULKY.bufs) == TxnBufSize(BULKY_RECORD);
    hide Proper;
    var torn := TornRun();
    forall i | 0 <= i < |torn|
      ensures torn[i].Commit? ==> torn[i].txn == BULKY
    {}
  }

  lemma {:induction false} PipelineIsProper(trace: seq<Action>)
    requires ProperRun(trace)
    ensures forall t :: t in Pipeline(Run(trace)) ==> Proper(t)
  {
    if trace == [] {
    } else {
      var before, a := trace[..|trace| - 1], trace[|trace| - 1];
      assert ProperRun(before) by {
        assert forall i :: 0 <= i < |before| ==> before[i] == trace[i];
      }
      PipelineIsProper(before);
      Reachable(before);
      PipelineStep(Run(before), a);
      if a.Commit? && a.txn.kind == Write {
        assert Proper(trace[|trace| - 1].txn);
        ProperQueued(Run(before), a.txn);
      }
      hide Next, Pipeline, Proper;
      assert Run(trace) == Next(Run(before), a);
    }
  }

  lemma ProperQueued(s: State, t: Txn)
    requires Proper(t)
    ensures Proper(Queued(s, t))
  {}

  lemma {:induction false} SentMembers(log: seq<CTxn>, i: nat)
    requires i < |log|
    ensures forall t :: t in log[i].txns ==> t in AllTxns(log)
  {
    if i < |log| - 1 {
      SentMembers(log[..|log| - 1], i);
    }
  }

  /**
   In every run of proper transactions, every c_txn handed over encodes into fewer bytes
   than its accounted size, which is within the merge limit and so within its slot, and its
   record count fits the 16-bit field.
   */
  lemma EveryTransferFits(trace: seq<Action>, i: nat)
    requires ProperRun(trace) && i < |Run(trace).sent|
    ensures var c := Run(trace).sent[i];
            && EncodedLen(c) <= c.size <= C_TXN_LIMIT_BYTES < LIGHTFS_IO_LARGE_BUF
            && |AllRecords(c)| < U16
            && forall b :: b in Bufs(c.txns) ==> WellFormed(b)
  {
    hide Run, Proper, Packed, WellFormed, EncodedLen, Bufs, AllTxns;
    var s := Run(trace);
    PipelineIsProper(trace);
    PackedReachable(trace);
    SentNonEmpty(trace);
    SentMembers(s.sent, i);
    FitsSlot(s.sent[i]);
  }
}
