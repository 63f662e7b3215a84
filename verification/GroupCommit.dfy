/**
 The group-commit pipeline as a state machine.  An action is one spinlock-held region of
 a committing thread or of the handler thread, or one step of the work item that
 transfers the sync c_txn.  The handler's program counter names the region it is about
 to execute; between two of its regions other threads may act.
 */
module GroupCommit {
  import opened Bytes
  import opened TxnTypes

  datatype Pc =
    | Top                      // the stop test at the head of the loop
    | ProcessSync              // about to look at sync_txn_list
    | SyncCreate               // lock dropped, sync c_txn still to be created
    | SyncFill                 // sync c_txn created, first member still to be inserted
    | SkipSync                 // about to look at txn_list
    | Create                   // lock dropped, orderless c_txn still to be created
    | Fill                     // orderless c_txn created, first member still to be inserted
    | Transfer(now: bool)      // about to hand running_c_txn to the device; `now` when txn_list was empty
    | Callback(now: bool)      // handed over, transfer callback still to run
    | Wait
    | Stopped

  datatype State = State(
    pc: Pc,
    nextId: nat,               // txn_hdlr->txn_id
    issued: nat,               // number of ids given out so far
    txnCnt: nat,
    orderedCnt: nat,
    orderlessCnt: nat,
    runningCnt: nat,
    runningId: nat,
    syncingCnt: nat,
    txnList: seq<Txn>,
    syncList: seq<Txn>,
    running: Option<CTxn>,
    syncC: Option<CTxn>,
    syncSent: bool,            // the sync c_txn is handed over, its callback still to run
    sent: seq<CTxn>,           // orderless c_txns in the order they were handed over
    syncLog: seq<CTxn>,        // sync c_txns in the order they were handed over
    completed: seq<nat>)       // waiters woken, by transaction id

  const INIT: State :=
    State(Top, 1, 0, 0, 0, 0, 0, 0, 0, [], [], None, None, false, [], [], [])

  datatype Action =
    | ReadBegin                // a read-only transaction takes an id
    | Commit(txn: Txn)
    | Handler(stop: bool)      // `stop` is what kthread_should_stop() returns
    | SyncSend                 // the transfer work hands the sync c_txn to the device
    | SyncCallback             // and its transfer callback runs

  function TakeId(s: State): State { s.(nextId := Add32(s.nextId, 1), issued := s.issued + 1) }

  function Queued(s: State, t: Txn): Txn { t.(id := s.nextId, committed := true) }

  function CommitStep(s: State, t: Txn): State {
    if t.cnt == 0 || t.kind.Read? then s
    else if t.kind.Sync? then
      TakeId(s).(txnCnt := Add32(s.txnCnt, 1), syncList := s.syncList + [Queued(s, t)], syncingCnt := (s.syncingCnt + 1) % U16)
    else
      TakeId(s).(txnCnt := Add32(s.txnCnt, 1), txnList := s.txnList + [Queued(s, t)])
  }

  function ProcessSyncStep(s: State): State {
    if s.syncList == [] then
      if s.syncC.Some? && !s.syncC.value.transfering
      then s.(syncC := Some(s.syncC.value.(transfering := true)), pc := SkipSync)
      else s.(pc := SkipSync)
    else if !s.syncList[0].committed then s.(pc := SkipSync)
    else if s.syncC.Some? then
      if s.syncC.value.transfering then s.(pc := SkipSync)
      else s.(syncC := Some(Insert(s.syncC.value, s.syncList[0])), syncList := s.syncList[1..], txnCnt := Sub32(s.txnCnt, 1))
    else s.(pc := SyncCreate)
  }

  function SyncCreateStep(s: State): State {
    s.(syncC := Some(FRESH_ORDERED), orderedCnt := Add32(s.orderedCnt, 1), pc := SyncFill)
  }

  function SyncFillStep(s: State): State
    requires s.syncC.Some? && s.syncList != []
  {
    var c := s.syncC.value.(committing := 1, id := s.syncList[0].id);
    s.(syncC := Some(Insert(c, s.syncList[0])), syncList := s.syncList[1..], txnCnt := Sub32(s.txnCnt, 1), pc := ProcessSync)
  }

  /** The last c_txn of a group is marked when it is due for transfer. */
  function CloseGroup(c: CTxn, cnt: nat): CTxn {
    c.(committing := if c.committing == 0 then cnt else c.committing, flush := true)
  }

  function SkipSyncStep(s: State): State {
    if s.txnList == [] then
      if s.running.Some?
      then s.(running := Some(CloseGroup(s.running.value, s.runningCnt)), runningId := 0, runningCnt := 0, pc := Transfer(true))
      else s.(pc := Wait)
    else if !s.txnList[0].committed then s.(pc := Wait)
    else if s.orderedCnt + s.orderlessCnt > C_TXN_COMMITTING_LIMIT then s.(pc := ProcessSync)
    else if s.running.Some? then
      if Diff(s.running.value, s.txnList[0]) < 0
      then s.(pc := Transfer(false))
      else s.(running := Some(Insert(s.running.value, s.txnList[0])), txnList := s.txnList[1..], txnCnt := Sub32(s.txnCnt, 1))
    else s.(pc := Create)
  }

  function CreateStep(s: State): State {
    s.(orderlessCnt := Add32(s.orderlessCnt, 1), pc := Fill)
  }

  /**
   The new c_txn of a group, and the group's id and count once it is in: the first c_txn
   gives the group its id, the sixteenth closes it.
   */
  function GroupMember(groupId: nat, groupCnt: nat, t: Txn): (CTxn, nat, nat) {
    var id := if groupId == 0 then t.id else groupId;
    var cnt := groupCnt + 1;
    var c := Insert(FRESH_ORDERLESS.(id := id), t);
    if cnt >= RUNNING_C_TXN_LIMIT then (c.(committing := cnt, flush := true), 0, 0) else (c, id, cnt)
  }

  function FillStep(s: State): State
    requires s.txnList != []
  {
    var m := GroupMember(s.runningId, s.runningCnt, s.txnList[0]);
    s.(txnList := s.txnList[1..], txnCnt := Sub32(s.txnCnt, 1), pc := SkipSync,
       running := Some(m.0), runningId := m.1, runningCnt := m.2)
  }

  function TransferStep(s: State, now: bool): State
    requires s.running.Some?
  {
    var c := s.running.value.(transfering := true);
    s.(running := Some(c), sent := s.sent + [c], pc := Callback(now))
  }

  function CallbackStep(s: State, now: bool): State
    requires s.running.Some?
  {
    var c := s.running.value;
    s.(orderlessCnt := if c.flush then Sub32(s.orderlessCnt, c.committing) else s.orderlessCnt,
       running := None, pc := if now then Wait else SkipSync)
  }

  function HandlerStep(s: State, stop: bool): State {
    match s.pc
    case Top =>
      if stop && s.txnCnt == 0 && s.syncList == [] && s.txnList == [] then s.(pc := Stopped) else s.(pc := ProcessSync)
    case ProcessSync => ProcessSyncStep(s)
    case SyncCreate => SyncCreateStep(s)
    case SyncFill => if s.syncC.Some? && s.syncList != [] then SyncFillStep(s) else s
    case SkipSync => SkipSyncStep(s)
    case Create => CreateStep(s)
    case Fill => if s.txnList != [] then FillStep(s) else s
    case Transfer(now) => if s.running.Some? then TransferStep(s, now) else s
    case Callback(now) => if s.running.Some? then CallbackStep(s, now) else s
    case Wait => s.(pc := Top)
    case Stopped => s
  }

  /** The transfer work exists from the moment the sync c_txn is marked TRANSFERING. */
  predicate SyncWorkQueued(s: State) {
    s.syncC.Some? && s.syncC.value.transfering && !s.syncSent
  }

  function Ids(ts: seq<Txn>): seq<nat> { seq(|ts|, i requires 0 <= i < |ts| => ts[i].id) }

  function SyncSendStep(s: State): State {
    if SyncWorkQueued(s) then s.(syncLog := s.syncLog + [s.syncC.value], syncSent := true) else s
  }

  function SyncCallbackStep(s: State): State {
    if s.syncC.Some? && s.syncSent then
      var c := s.syncC.value;
      s.(completed := s.completed + Ids(c.txns),
         syncingCnt := (s.syncingCnt - |c.txns| % U16) % U16,
         orderedCnt := Sub32(s.orderedCnt, c.committing),
         syncC := None, syncSent := false)
    else s
  }

  function Next(s: State, a: Action): State {
    match a
    case ReadBegin => TakeId(s)
    case Commit(t) => CommitStep(s, t)
    case Handler(stop) => HandlerStep(s, stop)
    case SyncSend => SyncSendStep(s)
    case SyncCallback => SyncCallbackStep(s)
  }

  /** The state after a run. */
  function Run(trace: seq<Action>): State {
    if trace == [] then INIT else Next(Run(trace[..|trace| - 1]), trace[|trace| - 1])
  }

  lemma RunSnoc(trace: seq<Action>, a: Action)
    ensures Run(trace + [a]) == Next(Run(trace), a)
  {
    assert (trace + [a])[..|trace|] == trace;
  }
}
