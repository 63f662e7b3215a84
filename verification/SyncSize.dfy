/**
 The size of sync c_txns.  The handler puts every waiting sync transaction into the one sync
 c_txn without a size test, so how many wait decides whether it fits its slot.
 */
module SyncSize {
  import opened Bytes
  import opened TxnTypes
  import opened Wire
  import opened GroupCommit
  import opened GroupCommitCounters
  import opened GroupCommitOrder
  import opened GroupCommitIds
  import opened TransferSize
  import opened HandOver

  ghost predicate FitsItsSlot(c: CTxn) { EncodedLen(c) <= LIGHTFS_IO_LARGE_BUF }

  /** What one transaction takes of a slot. */
  function Weight(bufs: seq<TxnBuf>): nat { Extents(bufs) }

  function Weights(payloads: seq<seq<TxnBuf>>): nat {
    if payloads == [] then 0 else Weights(payloads[..|payloads| - 1]) + Weight(payloads[|payloads| - 1])
  }

  lemma {:induction false} WeightOfMembers(ts: seq<Txn>)
    ensures Extents(Bufs(ts)) == Weights(Payloads(ts))
  {
    hide Extents;
    if ts == [] {
      EmptyExtents();
    } else {
      var front, t := ts[..|ts| - 1], ts[|ts| - 1];
      WeightOfMembers(front);
      ExtentsConcat(Bufs(front), t.bufs);
      assert Payloads(ts)[..|ts| - 1] == Payloads(front);
    }
  }

  /** A marked c_txn takes seven bytes and the weights of its members. */
  lemma FitsExactly(c: CTxn)
    requires Marked(c)
    ensures FitsItsSlot(c) <==> 7 + Weights(Payloads(c.txns)) <= LIGHTFS_IO_LARGE_BUF
  {
    WeightOfMembers(c.txns);
  }

  lemma {:induction false} WeightsBounded(payloads: seq<seq<TxnBuf>>, w: nat)
    requires forall i :: 0 <= i < |payloads| ==> Weight(payloads[i]) <= w
    ensures Weights(payloads) <= |payloads| * w
  {
    hide Weight;
    if payloads != [] {
      WeightsBounded(payloads[..|payloads| - 1], w);
    }
  }

  lemma {:induction false} WeightsOfCopies(n: nat, bufs: seq<TxnBuf>)
    ensures Weights(seq(n, _ => bufs)) == n * Weight(bufs)
  {
    hide Weight;
    var all := seq(n, _ => bufs);
    if n != 0 {
      WeightsOfCopies(n - 1, bufs);
      assert all[..n - 1] == seq(n - 1, _ => bufs);
    }
  }

  // Every run.

  /** Sync transactions that are committed and not acknowledged; their callers are blocked in fsync. */
  function Blocked(s: State): nat { |s.syncList| + if s.syncC.Some? then |s.syncC.value.txns| else 0 }

  ghost predicate Light(trace: seq<Action>, w: nat) {
    forall i :: 0 <= i < |Commits(trace, Sync)| ==> Weight(Commits(trace, Sync)[i]) <= w
  }

  /**
   In every run: when no sync commit weighs more than `w` and no more callers are blocked than
   fit at that weight, the sync c_txn handed over fits its slot.
   */
  lemma SyncFits(trace: seq<Action>, w: nat)
    requires SyncWorkQueued(Run(trace)) && Light(trace, w) && 7 + Blocked(Run(trace)) * w <= LIGHTFS_IO_LARGE_BUF
    ensures FitsItsSlot(Run(trace).syncC.value)
  {
    hide Run, Commits, AllTxns, Weight;
    var s := Run(trace);
    var c := s.syncC.value;
    Reachable(trace);
    SyncOrderPreserved(trace);
    var at := |AllTxns(s.syncLog)|;
    assert Payloads(c.txns) == Payloads(SyncPipeline(s))[at..at + |c.txns|];
    assert Payloads(c.txns) == Commits(trace, Sync)[at..at + |c.txns|];
    WeightsBounded(Payloads(c.txns), w);
    MulMonotone(|c.txns|, Blocked(s), w);
    FitsExactly(c);
  }

  lemma MulMonotone(a: nat, b: nat, w: nat)
    requires a <= b
    ensures a * w <= b * w
  {}

  // Any number of callers can gather in one c_txn.

  function Same(y: Txn, n: nat): seq<Action> { seq(n, _ => Action.Commit(y)) }

  /** `n` committed sync transactions wait, and nothing else has happened. */
  ghost predicate Queueing(s: State, n: nat) {
    && s.pc == Top && s.syncC == None && s.syncLog == [] && !s.syncSent
    && |s.syncList| == n && forall i :: 0 <= i < n ==> s.syncList[i].committed
  }

  lemma {:induction false} QueuesSame(y: Txn, n: nat)
    requires y.kind == Sync && y.cnt != 0
    ensures Queueing(Run(Same(y, n)), n) && Commits(Same(y, n), Sync) == seq(n, _ => y.bufs)
  {
    hide Run, Next, Queueing, Commits, Same;
    if n == 0 {
      NoneQueued(y);
    } else {
      QueuesSame(y, n - 1);
      OneMoreSame(y, n);
      RunSnoc(Same(y, n - 1), Action.Commit(y));
      QueuesOne(Run(Same(y, n - 1)), y, n - 1);
    }
  }

  lemma OneMoreSame(y: Txn, n: nat)
    requires y.kind == Sync && y.cnt != 0 && n > 0
    ensures Same(y, n) == Same(y, n - 1) + [Action.Commit(y)]
    ensures Commits(Same(y, n), Sync) == Commits(Same(y, n - 1), Sync) + [y.bufs]
  {
    assert Same(y, n)[..n - 1] == Same(y, n - 1);
  }

  lemma NoneQueued(y: Txn)
    ensures Queueing(Run(Same(y, 0)), 0) && Commits(Same(y, 0), Sync) == []
  {}

  lemma QueuesOne(s: State, y: Txn, n: nat)
    requires Queueing(s, n) && y.kind == Sync && y.cnt != 0
    ensures Queueing(Next(s, Action.Commit(y)), n + 1)
  {
    hide Add32;
  }

  /** The sync c_txn takes the waiting transactions one by one. */
  ghost predicate Gathering(s: State, left: nat) {
    && s.pc == ProcessSync && s.syncC.Some? && !s.syncC.value.transfering && s.syncLog == [] && !s.syncSent
    && |s.syncList| == left && forall i :: 0 <= i < left ==> s.syncList[i].committed
  }

  lemma StartsGathering(q: State, n: nat)
    requires Queueing(q, n) && n >= 1
    ensures Gathering(AfterHandlers(q, 4), n - 1)
  {
    hide AfterHandlers, Sub32;
    AfterFew(q);
    var s2 := AfterHandlers(q, 2);
    AfterAdd(q, 2, 2);
    AfterFew(s2);
  }

  lemma {:induction false} Gathers(s: State, k: nat, left: nat)
    requires Gathering(s, k + left)
    ensures Gathering(AfterHandlers(s, k), left)
    decreases k
  {
    hide AfterHandlers, HandlerStep;
    if k == 0 {
      AfterNone(s);
    } else {
      Gathers(s, k - 1, left + 1);
      AfterAdd(s, k - 1, 1);
      AfterOne(AfterHandlers(s, k - 1));
      GathersOne(AfterHandlers(s, k - 1), left);
    }
  }

  lemma AfterNone(s: State)
    ensures AfterHandlers(s, 0) == s
  {}

  lemma GathersOne(s: State, left: nat)
    requires Gathering(s, left + 1)
    ensures Gathering(HandlerStep(s, false), left)
  {
    hide Sub32;
  }

  function GatheringRun(y: Txn, n: nat): seq<Action> { Same(y, n) + Handlers(n + 4) + [SyncSend] }

  lemma ReadyToSend(y: Txn, n: nat)
    requires y.kind == Sync && y.cnt != 0 && n >= 1
    ensures var s := Run(Same(y, n) + Handlers(n + 4));
            SyncWorkQueued(s) && s.syncLog == [] && s.syncList == []
  {
    hide Run, Same, Handlers, AfterHandlers, Commits, HandlerStep;
    var q := Run(Same(y, n));
    QueuesSame(y, n);
    RunHandlers(Same(y, n), n + 4);
    StartsGathering(q, n);
    var s4 := AfterHandlers(q, 4);
    Gathers(s4, n - 1, 0);
    var t := AfterHandlers(s4, n - 1);
    AfterAdd(q, 4, n - 1);
    AfterAdd(q, n + 3, 1);
    AfterOne(t);
    MarksReady(t);
  }

  lemma MarksReady(s: State)
    requires Gathering(s, 0)
    ensures SyncWorkQueued(HandlerStep(s, false)) && HandlerStep(s, false).syncLog == [] && HandlerStep(s, false).syncList == []
  {}

  /** For every number of callers there is a run that hands all their transactions over in one c_txn. */
  lemma SyncGathersAll(y: Txn, n: nat)
    requires y.kind == Sync && y.cnt != 0 && n >= 1
    ensures var log := Run(GatheringRun(y, n)).syncLog;
            && |log| == 1 && Marked(log[0]) && Payloads(log[0].txns) == seq(n, _ => y.bufs)
            && (FitsItsSlot(log[0]) <==> 7 + n * Weight(y.bufs) <= LIGHTFS_IO_LARGE_BUF)
  {
    hide Run, Same, Handlers, Commits, AllTxns, Weight, Weights, FitsItsSlot, EncodedLen;
    var before := Same(y, n) + Handlers(n + 4);
    ReadyToSend(y, n);
    RunSnoc(before, SyncSend);
    var s := Run(before + [SyncSend]);
    var c := Run(before).syncC.value;
    Reachable(before);
    assert s.syncLog == [c];
    QueuesSame(y, n);
    HandlersAddNoCommit(Same(y, n), n + 4);
    SendAddsNoCommit(before);
    SyncOrderPreserved(before + [SyncSend]);
    OneInLog(c);
    assert SyncPipeline(s) == c.txns + [] + [];
    assert c.txns + [] + [] == c.txns;
    FitsExactly(c);
    WeightsOfCopies(n, y.bufs);
  }

  lemma OneInLog(c: CTxn)
    ensures AllTxns([c]) == c.txns
  {
    AllTxnsSnoc([], c);
    assert [] + [c] == [c] && [] + c.txns == c.txns;
  }

  lemma {:induction false} HandlersAddNoCommit(trace: seq<Action>, n: nat)
    ensures Commits(trace + Handlers(n), Sync) == Commits(trace, Sync)
    decreases n
  {
    if n == 0 {
      assert trace + Handlers(0) == trace;
    } else {
      HandlersAddNoCommit(trace, n - 1);
      OneMoreHandler(trace, n);
      assert (trace + Handlers(n))[..|trace| + n - 1] == trace + Handlers(n - 1);
    }
  }

  lemma SendAddsNoCommit(trace: seq<Action>)
    ensures Commits(trace + [SyncSend], Sync) == Commits(trace, Sync)
  {
    assert (trace + [SyncSend])[..|trace|] == trace;
  }

  // fsync.

  /** What fsync commits: the inode's metadata. */
  function FsyncTxn(key: seq<Byte>, meta: seq<Byte>): Txn {
    OneRecord(Sync, TxnBuf(MetaSet, key, 0, PAGE_SIZE, 0, meta))
  }

  lemma FsyncWeight(key: seq<Byte>, meta: seq<Byte>)
    ensures Weight(FsyncTxn(key, meta).bufs) == 4103 + |key|
    ensures |key| < U16 && |meta| == INODE_SIZE ==> WellFormed(FsyncTxn(key, meta).bufs[0])
  {
    EmptyExtents();
    assert FsyncTxn(key, meta).bufs[1..] == [];
  }

  /**
   `n` threads that fsync at the same time: their common c_txn fits the slot if and only if
   n (4103 + |key|) + 7 is at most 2 MiB; for the 16-byte keys of short paths, up to 509 threads.
   */
  lemma FsyncsFitExactly(key: seq<Byte>, meta: seq<Byte>, n: nat)
    requires n >= 1
    ensures var log := Run(GatheringRun(FsyncTxn(key, meta), n)).syncLog;
            && |log| == 1 && |log[0].txns| == n
            && (FitsItsSlot(log[0]) <==> 7 + n * (4103 + |key|) <= LIGHTFS_IO_LARGE_BUF)
            && (|key| == 16 ==> (FitsItsSlot(log[0]) <==> n <= 509))
  {
    hide Run, GatheringRun, FitsItsSlot, Weight;
    FsyncWeight(key, meta);
    SyncGathersAll(FsyncTxn(key, meta), n);
    var c := Run(GatheringRun(FsyncTxn(key, meta), n)).syncLog[0];
    assert |Payloads(c.txns)| == n;
  }
}
