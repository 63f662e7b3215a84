/** Control flow and counters of the group-commit pipeline, in every reachable state. */
module GroupCommitCounters {
  import opened Bytes
  import opened TxnTypes
  import opened GroupCommit

  /** Committing count of the running c_txn once it closes its group. */
  function PendingFlush(s: State): nat {
    if s.running.Some? && s.running.value.flush then s.running.value.committing else 0
  }

  ghost predicate Queue(ts: seq<Txn>, kind: Kind) {
    forall i :: 0 <= i < |ts| ==> ts[i].committed && ts[i].cnt != 0 && ts[i].kind == kind
  }

  /** What the handler's position says about the running group. */
  ghost predicate ControlOk(s: State) {
    && (s.pc.SkipSync? ==> (s.running.None? && s.runningCnt > 0 ==> s.txnList != []))
    && (s.pc.Create? || s.pc.Fill? ==> s.running.None? && s.txnList != [])
    && (s.pc.Transfer? || s.pc.Callback? ==> s.running.Some? && (if s.pc.now then s.running.value.flush else s.txnList != []))
    && (s.pc.Top? || s.pc.ProcessSync? || s.pc.SyncCreate? || s.pc.SyncFill? || s.pc.Wait? || s.pc.Stopped?
        ==> s.running.None? && s.runningCnt == 0 && s.runningId == 0)
    && (s.pc.SyncCreate? ==> s.syncC.None? && s.syncList != [])
    && (s.pc.SyncFill? ==> s.syncC == Some(FRESH_ORDERED) && s.syncList != [])
  }

  ghost predicate RunningOk(s: State) {
    && s.runningCnt < RUNNING_C_TXN_LIMIT && (s.runningCnt == 0 ==> s.runningId == 0)
    && (s.running.Some? ==>
          var c := s.running.value;
          && c.txns != [] && !c.ordered
          && (c.flush ==> s.runningCnt == 0 && s.runningId == 0 && 1 <= c.committing <= RUNNING_C_TXN_LIMIT)
          && (!c.flush ==> c.committing == 0 && s.runningCnt >= 1))
  }

  ghost predicate CountersOk(s: State) {
    && s.txnCnt == (|s.txnList| + |s.syncList|) % U32
    && s.orderlessCnt == s.runningCnt + PendingFlush(s) + (if s.pc.Fill? then 1 else 0)
    && s.orderedCnt == (if s.syncC.Some? then 1 else 0)
  }

  ghost predicate SyncOk(s: State) {
    && (s.syncSent ==> s.syncC.Some? && s.syncC.value.transfering)
    && (s.syncC.Some? && !s.pc.SyncFill? ==> s.syncC.value.committing == 1 && s.syncC.value.txns != [])
    && (s.syncC.Some? ==> s.syncC.value.ordered && !s.syncC.value.flush)
    && s.syncingCnt == (|s.syncList| + (if s.syncC.Some? then |s.syncC.value.txns| else 0)) % U16
  }

  ghost predicate Inv(s: State) {
    && Queue(s.txnList, Write) && Queue(s.syncList, Sync)
    && ControlOk(s) && RunningOk(s) && CountersOk(s) && SyncOk(s)
  }

  lemma CountUp(n: nat)
    ensures Add32(n % U32, 1) == (n + 1) % U32
    ensures (n % U16 + 1) % U16 == (n + 1) % U16
  {}

  lemma CountDown(n: nat)
    requires n >= 1
    ensures Sub32(n % U32, 1) == (n - 1) % U32
  {}

  lemma CountDown16(n: nat, m: nat)
    ensures ((n + m) % U16 - m % U16) % U16 == n % U16
  {}

  lemma InvCommit(s: State, t: Txn)
    requires Inv(s)
    ensures Inv(CommitStep(s, t))
  {
    hide Add32;
    CountUp(|s.txnList| + |s.syncList|);
    CountUp(|s.syncList| + (if s.syncC.Some? then |s.syncC.value.txns| else 0));
  }

  lemma InvProcessSync(s: State)
    requires Inv(s) && s.pc.ProcessSync?
    ensures Inv(ProcessSyncStep(s))
  {
    hide Sub32;
    if s.syncList != [] {
      CountDown(|s.txnList| + |s.syncList|);
    }
  }

  lemma InvSyncFill(s: State)
    requires Inv(s) && s.pc.SyncFill?
    ensures Inv(SyncFillStep(s))
  {
    hide Sub32;
    CountDown(|s.txnList| + |s.syncList|);
  }

  /** The committing limit is far above what the two counters can add up to. */
  lemma LimitNeverFires(s: State)
    requires Inv(s)
    ensures s.orderlessCnt <= RUNNING_C_TXN_LIMIT
    ensures s.orderedCnt + s.orderlessCnt <= C_TXN_COMMITTING_LIMIT
  {}

  lemma InvSkipSync(s: State)
    requires Inv(s) && s.pc.SkipSync?
    ensures Inv(SkipSyncStep(s))
  {
    hide Sub32, Diff;
    LimitNeverFires(s);
    if s.txnList != [] {
      CountDown(|s.txnList| + |s.syncList|);
    }
  }

  lemma InvFill(s: State)
    requires Inv(s) && s.pc.Fill?
    ensures Inv(FillStep(s))
  {
    hide Sub32;
    CountDown(|s.txnList| + |s.syncList|);
  }

  lemma InvCallback(s: State)
    requires Inv(s) && s.pc.Callback?
    ensures Inv(CallbackStep(s, s.pc.now))
  {}

  lemma InvSyncCallback(s: State)
    requires Inv(s)
    ensures Inv(SyncCallbackStep(s))
  {
    if s.syncC.Some? {
      CountDown16(|s.syncList|, |s.syncC.value.txns|);
    }
  }

  lemma InvHandler(s: State, stop: bool)
    requires Inv(s)
    ensures Inv(HandlerStep(s, stop))
  {
    hide ProcessSyncStep, SyncFillStep, SkipSyncStep, FillStep, CallbackStep;
    match s.pc
    case ProcessSync => InvProcessSync(s);
    case SyncFill => InvSyncFill(s);
    case SkipSync => InvSkipSync(s);
    case Fill => InvFill(s);
    case Callback(now) => InvCallback(s);
    case _ =>
  }

  lemma InvNext(s: State, a: Action)
    requires Inv(s)
    ensures Inv(Next(s, a))
  {
    hide HandlerStep, CommitStep, SyncCallbackStep;
    match a
    case ReadBegin =>
    case Commit(t) => InvCommit(s, t);
    case Handler(stop) => InvHandler(s, stop);
    case SyncSend =>
    case SyncCallback => InvSyncCallback(s);
  }

  lemma {:induction false} Reachable(trace: seq<Action>)
    ensures Inv(Run(trace))
  {
    if trace == [] {
    } else {
      Reachable(trace[..|trace| - 1]);
      InvNext(Run(trace[..|trace| - 1]), trace[|trace| - 1]);
    }
  }
}
