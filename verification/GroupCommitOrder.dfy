/**
 Nothing is lost, duplicated, split or reordered on the way from commit to device: the
 contents of the pipeline always read back as the history of commits.
 */
module GroupCommitOrder {
  import opened Bytes
  import opened TxnTypes
  import opened GroupCommit
  import opened GroupCommitCounters

  function AllTxns(log: seq<CTxn>): seq<Txn> {
    if log == [] then [] else AllTxns(log[..|log| - 1]) + log[|log| - 1].txns
  }

  function Payloads(ts: seq<Txn>): seq<seq<TxnBuf>> {
    seq(|ts|, i requires 0 <= i < |ts| => ts[i].bufs)
  }

  /** The non-empty commits of one kind in a run, in order. */
  function Commits(trace: seq<Action>, kind: Kind): seq<seq<TxnBuf>> {
    if trace == [] then []
    else
      var before := Commits(trace[..|trace| - 1], kind);
      var a := trace[|trace| - 1];
      if a.Commit? && a.txn.cnt != 0 && a.txn.kind == kind then before + [a.txn.bufs] else before
  }

  /** Members of the running c_txn that are not handed over yet. */
  function Unsent(s: State): seq<Txn> {
    if s.running.Some? && !s.pc.Callback? then s.running.value.txns else []
  }

  /** Orderless transactions from the device back to the queue. */
  function Pipeline(s: State): seq<Txn> {
    AllTxns(s.sent) + Unsent(s) + s.txnList
  }

  function SyncUnsent(s: State): seq<Txn> {
    if s.syncC.Some? && !s.syncSent then s.syncC.value.txns else []
  }

  function SyncPipeline(s: State): seq<Txn> {
    AllTxns(s.syncLog) + SyncUnsent(s) + s.syncList
  }

  /** Sync c_txns whose callback has run. */
  function Acknowledged(s: State): seq<CTxn> {
    if s.syncSent && s.syncLog != [] then s.syncLog[..|s.syncLog| - 1] else s.syncLog
  }

  lemma AllTxnsSnoc(log: seq<CTxn>, c: CTxn)
    ensures AllTxns(log + [c]) == AllTxns(log) + c.txns
  {
    assert (log + [c])[..|log|] == log;
  }

  /** The only step that changes the pipeline is a commit, and it appends at the queue's end. */
  lemma PipelineStep(s: State, a: Action)
    requires Inv(s)
    ensures Pipeline(Next(s, a)) ==
            if a.Commit? && a.txn.cnt != 0 && a.txn.kind == Write then Pipeline(s) + [Queued(s, a.txn)] else Pipeline(s)
  {
    hide HandlerStep, AllTxns, Inv, Add32, Sub32;
    match a
    case Commit(t) =>
    case Handler(stop) => PipelineHandler(s, stop);
    case ReadBegin =>
    case SyncSend =>
    case SyncCallback =>
  }

  lemma PipelineHandler(s: State, stop: bool)
    requires Inv(s)
    ensures Pipeline(HandlerStep(s, stop)) == Pipeline(s)
  {
    hide AllTxns, ProcessSyncStep, SkipSyncStep, FillStep;
    match s.pc
    case SkipSync => PipelineSkipSync(s);
    case Fill => PipelineFill(s);
    case Transfer(now) => AllTxnsSnoc(s.sent, s.running.value.(transfering := true));
    case ProcessSync => ProcessSyncFrame(s);
    case _ =>
  }

  lemma ProcessSyncFrame(s: State)
    requires s.pc.ProcessSync?
    ensures var s' := ProcessSyncStep(s);
            s'.sent == s.sent && s'.running == s.running && s'.txnList == s.txnList && !s'.pc.Callback?
  {}

  lemma PipelineSkipSync(s: State)
    requires Inv(s) && s.pc.SkipSync?
    ensures Pipeline(SkipSyncStep(s)) == Pipeline(s)
  {
    hide AllTxns, Diff, Sub32;
    if s.txnList != [] && s.running.Some? {
      MoveAcross(AllTxns(s.sent), s.running.value.txns, s.txnList);
    }
  }

  lemma PipelineFill(s: State)
    requires Inv(s) && s.pc.Fill?
    ensures Pipeline(FillStep(s)) == Pipeline(s)
  {
    hide AllTxns, Sub32;
    MoveAcross(AllTxns(s.sent), [], s.txnList);
  }

  /** Moving the head of the queue to the end of the c_txn leaves the concatenation alone. */
  lemma MoveAcross(log: seq<Txn>, members: seq<Txn>, queue: seq<Txn>)
    requires queue != []
    ensures log + (members + [queue[0]]) + queue[1..] == log + members + queue
  {}

  lemma SyncPipelineStep(s: State, a: Action)
    requires Inv(s)
    ensures SyncPipeline(Next(s, a)) ==
            if a.Commit? && a.txn.cnt != 0 && a.txn.kind == Sync then SyncPipeline(s) + [Queued(s, a.txn)] else SyncPipeline(s)
  {
    match a
    case Commit(t) =>
    case Handler(stop) => SyncPipelineHandler(s, stop);
    case ReadBegin =>
    case SyncSend =>
      if SyncWorkQueued(s) {
        AllTxnsSnoc(s.syncLog, s.syncC.value);
      }
    case SyncCallback =>
  }

  lemma SyncPipelineHandler(s: State, stop: bool)
    requires Inv(s)
    ensures SyncPipeline(HandlerStep(s, stop)) == SyncPipeline(s)
  {
    hide AllTxns, ProcessSyncStep, SkipSyncStep, FillStep, SyncFillStep;
    match s.pc
    case ProcessSync => SyncPipelineProcess(s);
    case SyncFill => SyncPipelineFill(s);
    case SkipSync => OrderlessFrame(s);
    case Fill => OrderlessFrame(s);
    case _ =>
  }

  lemma OrderlessFrame(s: State)
    ensures var s' := SkipSyncStep(s);
            s'.syncLog == s.syncLog && s'.syncC == s.syncC && s'.syncList == s.syncList && s'.syncSent == s.syncSent
    ensures s.txnList != [] ==>
              var s' := FillStep(s);
              s'.syncLog == s.syncLog && s'.syncC == s.syncC && s'.syncList == s.syncList && s'.syncSent == s.syncSent
  {}

  lemma SyncPipelineProcess(s: State)
    requires Inv(s) && s.pc.ProcessSync?
    ensures SyncPipeline(ProcessSyncStep(s)) == SyncPipeline(s)
  {
    hide AllTxns, Sub32;
    if s.syncList != [] && s.syncC.Some? {
      MoveAcross(AllTxns(s.syncLog), s.syncC.value.txns, s.syncList);
    }
  }

  lemma SyncPipelineFill(s: State)
    requires Inv(s) && s.pc.SyncFill?
    ensures SyncPipeline(SyncFillStep(s)) == SyncPipeline(s)
  {
    hide AllTxns, Sub32;
    MoveAcross(AllTxns(s.syncLog), s.syncC.value.txns, s.syncList);
  }

  /** In every reachable state the pipeline holds exactly the history of orderless commits. */
  lemma {:induction false} OrderPreserved(trace: seq<Action>)
    ensures Payloads(Pipeline(Run(trace))) == Commits(trace, Write)
  {
    if trace == [] {
    } else {
      var before, a := trace[..|trace| - 1], trace[|trace| - 1];
      OrderPreserved(before);
      Reachable(before);
      PipelineStep(Run(before), a);
    }
  }

  /** Every sync commit is in exactly one place: handed over, in the sync c_txn, or queued. */
  lemma {:induction false} SyncOrderPreserved(trace: seq<Action>)
    ensures Payloads(SyncPipeline(Run(trace))) == Commits(trace, Sync)
  {
    if trace == [] {
    } else {
      var before, a := trace[..|trace| - 1], trace[|trace| - 1];
      SyncOrderPreserved(before);
      Reachable(before);
      SyncPipelineStep(Run(before), a);
    }
  }

  // Waiters.

  ghost predicate WaitersOk(s: State) {
    && (s.syncSent ==> s.syncLog != [] && s.syncC.Some? && s.syncLog[|s.syncLog| - 1] == s.syncC.value)
    && s.completed == Ids(AllTxns(Acknowledged(s)))
  }

  lemma WaitersStep(s: State, a: Action)
    requires Inv(s) && WaitersOk(s)
    ensures WaitersOk(Next(s, a))
  {
    hide HandlerStep, SyncSendStep, SyncCallbackStep, AllTxns, Acknowledged;
    match a
    case SyncSend => WaitersSend(s);
    case SyncCallback => WaitersCallback(s);
    case Handler(stop) => WaitersHandler(s, stop);
    case ReadBegin => AcknowledgedFrame(s, Next(s, a));
    case Commit(t) => AcknowledgedFrame(s, Next(s, a));
  }

  lemma WaitersSend(s: State)
    requires Inv(s) && WaitersOk(s)
    ensures WaitersOk(SyncSendStep(s))
  {
    hide AllTxns;
    if SyncWorkQueued(s) {
      assert (s.syncLog + [s.syncC.value])[..|s.syncLog|] == s.syncLog;
    }
  }

  lemma WaitersCallback(s: State)
    requires Inv(s) && WaitersOk(s)
    ensures WaitersOk(SyncCallbackStep(s))
  {
    hide AllTxns;
    if s.syncC.Some? && s.syncSent {
      AllTxnsSnoc(Acknowledged(s), s.syncC.value);
      assert s.syncLog == Acknowledged(s) + [s.syncC.value];
    }
  }

  lemma WaitersHandler(s: State, stop: bool)
    requires Inv(s) && WaitersOk(s)
    ensures WaitersOk(HandlerStep(s, stop))
  {
    hide HandlerStep, AllTxns, Acknowledged;
    HandlerKeepsSyncLog(s, stop);
    if s.syncSent {
      NothingJoinsWhileTransfering(s, Handler(stop));
    }
    AcknowledgedFrame(s, HandlerStep(s, stop));
  }

  lemma HandlerKeepsSyncLog(s: State, stop: bool)
    ensures var s' := HandlerStep(s, stop);
            s'.syncLog == s.syncLog && s'.syncSent == s.syncSent && s'.completed == s.completed
  {
    hide Diff, Insert, Add32, Sub32, CloseGroup, GroupMember;
  }

  lemma AcknowledgedFrame(s: State, s': State)
    requires s'.syncLog == s.syncLog && s'.syncSent == s.syncSent
    ensures Acknowledged(s') == Acknowledged(s)
  {}

  lemma {:induction false} WaitersReachable(trace: seq<Action>)
    ensures WaitersOk(Run(trace))
  {
    if trace == [] {
    } else {
      WaitersReachable(trace[..|trace| - 1]);
      Reachable(trace[..|trace| - 1]);
      WaitersStep(Run(trace[..|trace| - 1]), trace[|trace| - 1]);
    }
  }

  /**
   The waiters woken so far are the first sync commits of the run, each once and in
   commit order, and all of them belong to c_txns already handed to the device.
   */
  lemma WaitersCompletedOnce(trace: seq<Action>)
    ensures var s := Run(trace);
            && |s.completed| <= |AllTxns(s.syncLog)| <= |SyncPipeline(s)|
            && s.completed == Ids(SyncPipeline(s))[..|s.completed|]
            && |s.completed| + |if s.syncSent && s.syncC.Some? then s.syncC.value.txns else []| == |AllTxns(s.syncLog)|
  {
    hide AllTxns, Run;
    var s := Run(trace);
    Reachable(trace);
    WaitersReachable(trace);
    if s.syncSent {
      AllTxnsSnoc(Acknowledged(s), s.syncC.value);
      assert s.syncLog == Acknowledged(s) + [s.syncC.value];
    }
    assert AllTxns(Acknowledged(s)) <= AllTxns(s.syncLog);
  }

  lemma SyncPipelineLength(s: State)
    ensures |SyncPipeline(s)| == |AllTxns(s.syncLog)| + |SyncUnsent(s)| + |s.syncList|
  {}

  /** `syncing_cnt` counts the sync commits whose waiter still sleeps, up to its 16 bits. */
  lemma SyncingCounts(trace: seq<Action>)
    ensures var s := Run(trace);
            && |s.completed| <= |Commits(trace, Sync)|
            && s.syncingCnt == (|Commits(trace, Sync)| - |s.completed|) % U16
  {
    hide Run, Commits, AllTxns, SyncPipeline;
    Reachable(trace);
    SyncOrderPreserved(trace);
    WaitersCompletedOnce(trace);
    var s := Run(trace);
    SyncPipelineLength(s);
    assert |SyncPipeline(s)| == |Commits(trace, Sync)|;
  }

  /** Once marked TRANSFERING, the sync c_txn keeps its members until its callback retires it. */
  lemma NothingJoinsWhileTransfering(s: State, a: Action)
    requires Inv(s) && s.syncC.Some? && s.syncC.value.transfering
    ensures Next(s, a).syncC == s.syncC || (a.SyncCallback? && Next(s, a).syncC.None?)
  {
    hide Diff, Sub32, Add32;
  }

  /** Outside the sync part of the pass, a sync c_txn is always on its way. */
  ghost predicate OnItsWay(s: State) {
    s.syncC.Some? ==> s.syncC.value.transfering || s.pc.ProcessSync? || s.pc.SyncCreate? || s.pc.SyncFill?
  }

  /** The sync part ends only with every queued sync transaction collected, or one c_txn still in flight. */
  lemma SyncPartCollects(s: State)
    requires Inv(s) && s.pc.ProcessSync? && ProcessSyncStep(s).pc.SkipSync?
    ensures var s' := ProcessSyncStep(s);
            (s'.syncC.Some? ==> s'.syncC.value.transfering) && (s'.syncList == [] || s'.syncC.Some?)
  {}

  lemma OnItsWayStep(s: State, a: Action)
    requires Inv(s) && OnItsWay(s)
    ensures OnItsWay(Next(s, a))
  {
    hide ProcessSyncStep, SkipSyncStep, FillStep, Diff;
    if a.Handler? {
      if s.pc.ProcessSync? {
        ProcessSyncGoesOn(s);
        if ProcessSyncStep(s).pc.SkipSync? {
          SyncPartCollects(s);
        }
      } else if s.pc.SkipSync? {
        OrderlessKeepsSync(s);
      } else if s.pc.Fill? && s.txnList != [] {
        FillKeepsSync(s);
      }
    }
  }

  lemma ProcessSyncGoesOn(s: State)
    requires s.pc.ProcessSync?
    ensures var pc := ProcessSyncStep(s).pc; pc.ProcessSync? || pc.SkipSync? || pc.SyncCreate?
  {}

  lemma OrderlessKeepsSync(s: State)
    ensures SkipSyncStep(s).syncC == s.syncC
    ensures s.pc.SkipSync? && OnItsWay(s) ==> OnItsWay(SkipSyncStep(s))
  {}

  lemma FillKeepsSync(s: State)
    requires s.txnList != []
    ensures FillStep(s).syncC == s.syncC
  {}

  lemma {:induction false} SyncOnItsWay(trace: seq<Action>)
    ensures OnItsWay(Run(trace))
  {
    hide Next, Inv;
    if trace != [] {
      var before := trace[..|trace| - 1];
      SyncOnItsWay(before);
      Reachable(before);
      OnItsWayStep(Run(before), trace[|trace| - 1]);
    }
  }

  // Sizes and provenance of the members.

  ghost predicate PackedOk(s: State) {
    && (forall i :: 0 <= i < |s.sent| ==> Packed(s.sent[i]))
    && (s.running.Some? ==> Packed(s.running.value))
  }

  lemma PackedStep(s: State, a: Action)
    requires Inv(s) && PackedOk(s)
    ensures PackedOk(Next(s, a))
  {
    hide SumSizes, SumCounts, ProcessSyncStep, SkipSyncStep, FillStep;
    if a.Handler? {
      match s.pc
      case ProcessSync => ProcessSyncFrame(s);
      case SkipSync => PackedSkipSync(s);
      case Fill => PackedFill(s);
      case _ =>
    }
  }

  lemma PackedSkipSync(s: State)
    requires PackedOk(s) && s.pc.SkipSync? && Inv(s)
    ensures PackedOk(SkipSyncStep(s))
  {
    hide SumSizes, SumCounts, Diff, Insert, Sub32;
    if s.running.Some? && s.txnList != [] && Diff(s.running.value, s.txnList[0]) >= 0 {
      InsertKeepsPacked(s.running.value, s.txnList[0]);
    }
  }

  lemma PackedFill(s: State)
    requires PackedOk(s) && s.pc.Fill? && Inv(s)
    ensures PackedOk(FillStep(s))
  {
    hide SumSizes, SumCounts, Insert, Sub32;
    PackedFirst(s.txnList[0], if s.runningId == 0 then s.txnList[0].id else s.runningId);
  }

  lemma PackedFirst(t: Txn, id: nat)
    ensures Packed(Insert(FRESH_ORDERLESS.(id := id), t))
  {
    assert Packed(FRESH_ORDERLESS.(id := id));
    InsertKeepsPacked(FRESH_ORDERLESS.(id := id), t);
  }

  /** Every c_txn ever handed over is packed. */
  lemma {:induction false} PackedReachable(trace: seq<Action>)
    ensures PackedOk(Run(trace))
  {
    if trace == [] {
    } else {
      PackedReachable(trace[..|trace| - 1]);
      Reachable(trace[..|trace| - 1]);
      PackedStep(Run(trace[..|trace| - 1]), trace[|trace| - 1]);
    }
  }
}
