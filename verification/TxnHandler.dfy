/**
 The transaction handler as the object it is: its fields, one method per spinlock-held
 region, and the pass of the handler thread over its queues.  The other threads run at
 every point where the lock is free, following a finite schedule the handler cannot see.
 */
module TxnHandler {
  import opened Bytes
  import opened TxnTypes
  import opened GroupCommit
  import opened GroupCommitCounters
  import opened GroupCommitOrder
  import opened GroupCommitGroups
  import opened GroupCommitMerge

  /** Write commits still to come from a schedule. */
  function Pending(schedule: seq<seq<Action>>): nat {
    if schedule == [] then 0 else PendingIn(schedule[0]) + Pending(schedule[1..])
  }

  function PendingIn(batch: seq<Action>): nat {
    if batch == [] then 0 else (if Arrives(batch[0], Write) then 1 else 0) + PendingIn(batch[1..])
  }

  function SyncPending(schedule: seq<seq<Action>>): nat {
    if schedule == [] then 0 else SyncPendingIn(schedule[0]) + SyncPending(schedule[1..])
  }

  function SyncPendingIn(batch: seq<Action>): nat {
    if batch == [] then 0 else (if Arrives(batch[0], Sync) then 1 else 0) + SyncPendingIn(batch[1..])
  }

  predicate Arrives(a: Action, kind: Kind) {
    a.Commit? && a.txn.cnt != 0 && a.txn.kind == kind
  }

  /**
   A group of `groupCnt` c_txns has got the c_txn `c` with the one member `t`: it carries the
   group's id, or gives the group one; the sixteenth carries FLUSH and the group's count, and
   leaves no group behind.
   */
  ghost predicate Joined(groupId: nat, groupCnt: nat, t: Txn, c: CTxn, id: nat, cnt: nat) {
    && c.txns == (if t.cnt == 0 then [] else [t]) && c.size == SumSizes(c.txns) % U32 && c.cnt == t.cnt % U32
    && !c.ordered && !c.transfering
    && c.id == (if groupId == 0 then t.id else groupId)
    && (c.flush <==> groupCnt + 1 >= RUNNING_C_TXN_LIMIT)
    && c.committing == (if c.flush then groupCnt + 1 else 0)
    && id == (if c.flush then 0 else c.id) && cnt == (if c.flush then 0 else groupCnt + 1)
  }

  class Handler {
    var txnId: nat
    var txnCnt: nat
    var orderedCnt: nat
    var orderlessCnt: nat
    var runningCnt: nat
    var runningId: nat
    var syncingCnt: nat
    var txnList: seq<Txn>
    var syncList: seq<Txn>
    var running: Option<CTxn>
    var syncC: Option<CTxn>
    var syncSent: bool
    var sent: seq<CTxn>
    var syncLog: seq<CTxn>
    var completed: seq<nat>
    var schedule: seq<seq<Action>>
    ghost var pc: Pc
    ghost var issued: nat
    ghost var trace: seq<Action>

    ghost function St(): State
      reads this
    {
      State(pc, txnId, issued, txnCnt, orderedCnt, orderlessCnt, runningCnt, runningId, syncingCnt,
            txnList, syncList, running, syncC, syncSent, sent, syncLog, completed)
    }

    /** The fields are the state of the machine after the actions performed so far. */
    ghost predicate Valid()
      reads this
    {
      && St() == Run(trace)
      && forall i, j :: 0 <= i < |schedule| && 0 <= j < |schedule[i]| ==> !schedule[i][j].Handler?
    }

    constructor (others: seq<seq<Action>>)
      requires forall i, j :: 0 <= i < |others| && 0 <= j < |others[i]| ==> !others[i][j].Handler?
      ensures Valid() && trace == [] && schedule == others && pc == Top
    {
      txnId := 1;
      txnCnt, orderedCnt, orderlessCnt, runningCnt, runningId, syncingCnt := 0, 0, 0, 0, 0, 0;
      txnList, syncList, running, syncC := [], [], None, None;
      syncSent, sent, syncLog, completed := false, [], [], [];
      schedule := others;
      pc, issued, trace := Top, 0, [];
    }

    // Regions of the other threads.

    method TakeReadId()
      modifies `txnId, `issued
      ensures St() == TakeId(old(St()))
    {
      txnId := Add32(txnId, 1);
      issued := issued + 1;
    }

    method CommitTxn(txn: Txn)
      modifies `txnId, `issued, `txnCnt, `syncList, `syncingCnt, `txnList
      ensures St() == CommitStep(old(St()), txn)
    {
      hide Add32;
      if txn.cnt == 0 {
        return;
      }
      if txn.kind.Read? {
        return;
      }
      var t := txn.(id := txnId, committed := true);
      txnCnt := Add32(txnCnt, 1);
      TakeReadId();
      if txn.kind.Sync? {
        syncList := syncList + [t];
        syncingCnt := (syncingCnt + 1) % U16;
      } else {
        txnList := txnList + [t];
      }
    }

    /** First half of the transfer work: the sync c_txn reaches the device. */
    method SendSync()
      modifies `syncLog, `syncSent
      ensures St() == SyncSendStep(old(St()))
    {
      if syncC.Some? && syncC.value.transfering && !syncSent {
        syncLog := syncLog + [syncC.value];
        syncSent := true;
      }
    }

    /** Second half: every member's waiter is completed and the c_txn retired. */
    method CompleteSync()
      modifies `completed, `syncingCnt, `orderedCnt, `syncC, `syncSent
      ensures St() == SyncCallbackStep(old(St()))
    {
      hide Sub32;
      if syncC.Some? && syncSent {
        var cnt, woken := WakeMembers(syncC.value.txns);
        completed := completed + woken;
        syncingCnt := (syncingCnt - cnt % U16) % U16;
        orderedCnt := Sub32(orderedCnt, syncC.value.committing);
        syncC := None;
        syncSent := false;
      }
    }

    method WakeMembers(members: seq<Txn>) returns (cnt: nat, woken: seq<nat>)
      ensures cnt == |members| && woken == Ids(members)
    {
      cnt, woken := 0, [];
      while cnt < |members|
        invariant cnt <= |members|
        invariant woken == Ids(members)[..cnt]
      {
        woken := woken + [members[cnt].id];
        cnt := cnt + 1;
      }
    }

    method Perform(a: Action)
      requires Valid() && !a.Handler?
      modifies this
      ensures Valid() && trace == old(trace) + [a] && schedule == old(schedule)
      ensures St() == Next(old(St()), a)
    {
      hide Run, CommitStep, SyncSendStep, SyncCallbackStep;
      RunSnoc(trace, a);
      match a {
        case ReadBegin => TakeReadId();
        case Commit(txn) => CommitTxn(txn);
        case SyncSend => SendSync();
        case SyncCallback => CompleteSync();
      }
      trace := trace + [a];
    }

    /** The lock is free: the other threads perform the next batch of the schedule. */
    method Unlocked()
      requires Valid()
      modifies this
      ensures Valid() && old(trace) <= trace
      ensures OthersActed(old(St()), St())
      ensures |txnList| + Pending(schedule) == old(|txnList| + Pending(schedule))
      ensures |syncList| + SyncPending(schedule) == old(|syncList| + SyncPending(schedule))
    {
      hide Run, Next;
      if schedule != [] {
        var batch := schedule[0];
        schedule := schedule[1..];
        ghost var s0 := St();
        ghost var later := schedule;
        while batch != []
          invariant Valid() && old(trace) <= trace && schedule == later
          invariant forall j :: 0 <= j < |batch| ==> !batch[j].Handler?
          invariant OthersActed(s0, St())
          invariant |St().txnList| + PendingIn(batch) == |s0.txnList| + PendingIn(old(schedule)[0])
          invariant |St().syncList| + SyncPendingIn(batch) == |s0.syncList| + SyncPendingIn(old(schedule)[0])
          decreases |batch|
        {
          OtherStep(St(), batch[0]);
          Perform(batch[0]);
          batch := batch[1..];
        }
      }
    }

    // Regions of the handler thread.

    method StopTest(stop: bool) returns (stopped: bool)
      requires pc == Top
      modifies `pc
      ensures St() == HandlerStep(old(St()), stop)
      ensures stopped <==> pc == Stopped
      ensures !stopped ==> pc == ProcessSync
    {
      stopped := stop && txnCnt == 0 && syncList == [] && txnList == [];
      pc := if stopped then Stopped else ProcessSync;
    }

    /** process_sync: returns the label the region jumps to. */
    method LookAtSync() returns (next: Pc)
      requires pc == ProcessSync
      modifies `pc, `syncC, `syncList, `txnCnt
      ensures St() == ProcessSyncStep(old(St())) && next == pc
    {
      hide Sub32;
      next := ProcessSync;
      if syncList == [] {
        if syncC.Some? && !syncC.value.transfering {
          syncC := Some(syncC.value.(transfering := true));
        }
        next := SkipSync;
      } else if !syncList[0].committed {
        next := SkipSync;
      } else if syncC.Some? {
        if syncC.value.transfering {
          next := SkipSync;
        } else {
          syncC := Some(Insert(syncC.value, syncList[0]));
          syncList := syncList[1..];
          txnCnt := Sub32(txnCnt, 1);
        }
      } else {
        next := SyncCreate;
      }
      pc := next;
    }

    method CreateSync()
      requires pc == SyncCreate
      modifies `pc, `syncC, `orderedCnt
      ensures St() == SyncCreateStep(old(St()))
    {
      syncC := Some(FRESH_ORDERED);
      orderedCnt := Add32(orderedCnt, 1);
      pc := SyncFill;
    }

    method FillSync()
      requires pc == SyncFill && syncC.Some? && syncList != []
      modifies `pc, `syncC, `syncList, `txnCnt
      ensures St() == SyncFillStep(old(St()))
    {
      hide Sub32;
      var c := syncC.value.(committing := 1, id := syncList[0].id);
      syncC := Some(Insert(c, syncList[0]));
      syncList := syncList[1..];
      txnCnt := Sub32(txnCnt, 1);
      pc := ProcessSync;
    }

    /** skip_sync and the locked part of transfer_now: returns the label the region jumps to. */
    method LookAtQueue() returns (next: Pc)
      requires pc == SkipSync
      modifies `pc, `running, `runningId, `runningCnt, `txnList, `txnCnt
      ensures St() == SkipSyncStep(old(St())) && next == pc
    {
      hide Sub32, Diff;
      if txnList == [] {
        if running.Some? {
          var c := running.value;
          if c.committing == 0 {
            c := c.(committing := runningCnt);
          }
          running := Some(c.(flush := true));
          runningId := 0;
          runningCnt := 0;
          next := Transfer(true);
        } else {
          next := Wait;
        }
      } else if !txnList[0].committed {
        next := Wait;
      } else if orderedCnt + orderlessCnt > C_TXN_COMMITTING_LIMIT {
        next := ProcessSync;
      } else if running.Some? {
        if Diff(running.value, txnList[0]) < 0 {
          next := Transfer(false);
        } else {
          running := Some(Insert(running.value, txnList[0]));
          txnList := txnList[1..];
          txnCnt := Sub32(txnCnt, 1);
          next := SkipSync;
        }
      } else {
        next := Create;
      }
      pc := next;
    }

    method CreateOrderless()
      requires pc == Create
      modifies `pc, `orderlessCnt
      ensures St() == CreateStep(old(St()))
    {
      orderlessCnt := Add32(orderlessCnt, 1);
      pc := Fill;
    }

    /** The new c_txn of a group holds just its first member; the sixteenth closes the group and counts it. */
    method FirstMember(groupId: nat, groupCnt: nat, txn: Txn) returns (c: CTxn, id: nat, cnt: nat)
      ensures Joined(groupId, groupCnt, txn, c, id, cnt)
    {
      id, cnt := groupId, groupCnt + 1;
      if id == 0 {
        id := txn.id;
      }
      c := Insert(FRESH_ORDERLESS.(id := id), txn);
      SumSnoc([], txn);
      assert [] + [txn] == [txn];
      if cnt >= RUNNING_C_TXN_LIMIT {
        c := c.(committing := cnt, flush := true);
        id, cnt := 0, 0;
      }
    }

    /** The head of the queue leaves it for a c_txn. */
    method TakeHead()
      requires txnList != []
      modifies `txnList, `txnCnt
      ensures St() == old(St()).(txnList := old(txnList)[1..], txnCnt := Sub32(old(txnCnt), 1))
    {
      hide Sub32;
      txnList, txnCnt := txnList[1..], Sub32(txnCnt, 1);
    }

    method FillOrderless()
      requires pc == Fill && txnList != []
      modifies `pc, `running, `runningId, `runningCnt, `txnList, `txnCnt
      ensures St() == FillStep(old(St()))
    {
      hide Sub32, Joined, FillStep;
      var c, id, cnt := FirstMember(runningId, runningCnt, txnList[0]);
      JoinedFills(St(), c, id, cnt);
      TakeHead();
      running, runningId, runningCnt, pc := Some(c), id, cnt, SkipSync;
    }

    method SendRunning(now: bool)
      requires pc == Transfer(now) && running.Some?
      modifies `pc, `running, `sent
      ensures St() == TransferStep(old(St()), now)
    {
      running := Some(running.value.(transfering := true));
      sent := sent + [running.value];
      pc := Callback(now);
    }

    method RetireRunning(now: bool)
      requires pc == Callback(now) && running.Some?
      modifies `pc, `running, `orderlessCnt
      ensures St() == CallbackStep(old(St()), now)
    {
      hide Sub32;
      if running.value.flush {
        orderlessCnt := Sub32(orderlessCnt, running.value.committing);
      }
      running := None;
      pc := if now then Wait else SkipSync;
    }

    // The pass.

    /** A sync c_txn is on its way to the device or at it. */
    predicate InFlight()
      reads this
    {
      syncC.Some? && syncC.value.transfering
    }

    /** Sync transactions in the queue or still to come. */
    function SyncLoad(): nat
      reads this
    {
      |syncList| + SyncPending(schedule)
    }

    /** Orderless transactions in the queue or still to come. */
    function Load(): nat
      reads this
    {
      |txnList| + Pending(schedule)
    }

    /** Appends a step of the handler, whose region has just run, to the history. */
    ghost method Log(s: State, stop: bool)
      requires s == Run(trace) && St() == HandlerStep(s, stop)
      requires forall i, j :: 0 <= i < |schedule| && 0 <= j < |schedule[i]| ==> !schedule[i][j].Handler?
      modifies `trace
      ensures Valid() && trace == old(trace) + [Action.Handler(stop)]
    {
      RunSnoc(trace, Action.Handler(stop));
      trace := trace + [Action.Handler(stop)];
    }

    /** `Unlocked`, with what it means for the pipeline. */
    method Yield()
      requires Valid()
      modifies this
      ensures Valid() && old(trace) <= trace
      ensures OthersActed(old(St()), St()) && Pipeline(old(St())) <= Pipeline(St())
      ensures Load() == old(Load()) && SyncLoad() == old(SyncLoad())
      ensures old(Pending(schedule)) == 0 ==> Pending(schedule) == 0 && txnList == old(txnList) && Plan(St()) == old(Plan(St()))
    {
      hide Run, Pending, SyncPending, Packing, Members;
      Unlocked();
    }

    /** The lock is dropped, then the sync c_txn is created. */
    method RunSyncCreate()
      requires Valid() && pc == SyncCreate
      modifies this
      ensures Valid() && old(trace) <= trace && Pipeline(old(St())) <= Pipeline(St())
      ensures Pending(schedule) <= old(Pending(schedule))
      ensures pc == SyncFill && SyncLoad() == old(SyncLoad()) && SyncPending(schedule) <= old(SyncPending(schedule))
      ensures old(Pending(schedule)) == 0 ==> Plan(St()) == old(Plan(St()))
    {
      hide Plan, Run, HandlerStep, Pipeline, Pending, SyncPending;
      Yield();
      ghost var s := St();
      PlanEffect(trace, s);
      HandlerEffect(trace, s);
      CreateSync();
      Log(s, false);
    }

    /** The lock is taken again and the sync c_txn gets its first member. */
    method RunSyncFill()
      requires Valid() && pc == SyncFill
      modifies this
      ensures Valid() && old(trace) <= trace && Pipeline(old(St())) <= Pipeline(St())
      ensures Pending(schedule) <= old(Pending(schedule))
      ensures pc == ProcessSync && !InFlight()
      ensures SyncLoad() == old(SyncLoad()) - 1 && SyncPending(schedule) <= old(SyncPending(schedule))
      ensures old(Pending(schedule)) == 0 ==> Plan(St()) == old(Plan(St()))
    {
      hide Plan, Run, HandlerStep, Pipeline, Pending, SyncPending, SyncFillStep;
      Yield();
      ghost var s := St();
      PlanEffect(trace, s);
      HandlerEffect(trace, s);
      FillSync();
      Log(s, false);
    }

    /** One look at the sync queue, with the unlocked work it leads to. */
    method SyncRound() returns (next: Pc)
      requires Valid() && pc == ProcessSync
      modifies this
      ensures Valid() && old(trace) <= trace && Pipeline(old(St())) <= Pipeline(St())
      ensures next == pc && (next == ProcessSync || next == SkipSync)
      ensures Pending(schedule) <= old(Pending(schedule)) && SyncPending(schedule) <= old(SyncPending(schedule))
      ensures if next == ProcessSync then SyncLoad() < old(SyncLoad()) else SyncLoad() <= old(SyncLoad())
      ensures next == ProcessSync ==> !InFlight()
      ensures next == SkipSync ==>
        && (syncC.Some? ==> InFlight()) && (syncList == [] || InFlight()) && (!old(InFlight()) ==> syncList == [])
      ensures old(Pending(schedule)) == 0 ==> Plan(St()) == old(Plan(St()))
    {
      hide Run, HandlerStep, Pipeline, Pending, SyncPending, ProcessSyncStep, Plan;
      Yield();
      ghost var s := St();
      PlanEffect(trace, s);
      HandlerEffect(trace, s);
      next := LookAtSync();
      Log(s, false);
      if next == SyncCreate {
        RunSyncCreate();
        RunSyncFill();
        next := ProcessSync;
      }
    }

    /**
     The process_sync loop: collect the sync queue, create its c_txn on demand, start the
     transfer.  It ends with the queue collected, unless an earlier sync c_txn is in flight.
     */
    method SyncPhase()
      requires Valid() && pc == ProcessSync
      modifies this
      ensures Valid() && pc == SkipSync && old(trace) <= trace
      ensures Pipeline(old(St())) <= Pipeline(St())
      ensures Pending(schedule) <= old(Pending(schedule))
      ensures SyncLoad() <= old(SyncLoad()) && SyncPending(schedule) <= old(SyncPending(schedule))
      ensures (syncC.Some? ==> InFlight()) && (syncList == [] || InFlight())
      ensures !old(InFlight()) ==> syncList == []
      ensures old(Pending(schedule)) == 0 ==> Plan(St()) == old(Plan(St()))
    {
      hide Run, Pipeline, Pending, SyncPending, Plan;
      var next := ProcessSync;
      while next == ProcessSync
        invariant Valid() && pc == next && old(trace) <= trace
        invariant next == ProcessSync || next == SkipSync
        invariant Pipeline(old(St())) <= Pipeline(St())
        invariant Pending(schedule) <= old(Pending(schedule))
        invariant SyncLoad() <= old(SyncLoad()) && SyncPending(schedule) <= old(SyncPending(schedule))
        invariant next == ProcessSync ==> !old(InFlight()) ==> !InFlight()
        invariant next == SkipSync ==>
          && (syncC.Some? ==> InFlight()) && (syncList == [] || InFlight()) && (!old(InFlight()) ==> syncList == [])
        invariant old(Pending(schedule)) == 0 ==> Plan(St()) == old(Plan(St()))
        decreases next == ProcessSync, SyncLoad()
      {
        next := SyncRound();
      }
    }

    /** The lock is dropped, then an orderless c_txn is created. */
    method RunCreate()
      requires Valid() && pc == Create
      modifies this
      ensures Valid() && old(trace) <= trace && Pipeline(old(St())) <= Pipeline(St())
      ensures Pending(schedule) <= old(Pending(schedule))
      ensures pc == Fill && old(running).None?
      ensures Load() == old(Load()) && SyncLoad() == old(SyncLoad())
      ensures old(Pending(schedule)) == 0 ==> Plan(St()) == old(Plan(St()))
    {
      hide Plan, Run, HandlerStep, Pipeline, Pending, SyncPending;
      Yield();
      ghost var s := St();
      PlanEffect(trace, s);
      QueueEffect(trace, s);
      CreateOrderless();
      Log(s, false);
    }

    /** The lock is taken again and the c_txn gets the head of the queue. */
    method RunFill()
      requires Valid() && pc == Fill
      modifies this
      ensures Valid() && old(trace) <= trace && Pipeline(old(St())) <= Pipeline(St())
      ensures Pending(schedule) <= old(Pending(schedule))
      ensures pc == SkipSync
      ensures Load() == old(Load()) - 1 && SyncLoad() == old(SyncLoad())
      ensures old(Pending(schedule)) == 0 ==> Plan(St()) == old(Plan(St()))
    {
      hide Plan, Run, HandlerStep, Pipeline, Pending, SyncPending, FillStep;
      Yield();
      ghost var s := St();
      PlanEffect(trace, s);
      QueueEffect(trace, s);
      FillOrderless();
      Log(s, false);
    }

    /** The lock is dropped and the running c_txn handed to the device. */
    method RunSend(now: bool)
      requires Valid() && pc == Transfer(now)
      modifies this
      ensures Valid() && old(trace) <= trace && Pipeline(old(St())) <= Pipeline(St())
      ensures Pending(schedule) <= old(Pending(schedule))
      ensures pc == Callback(now) && old(running).Some?
      ensures AllTxns(sent) == old(AllTxns(sent)) + old(running).value.txns
      ensures Load() == old(Load()) && SyncLoad() == old(SyncLoad())
      ensures old(Pending(schedule)) == 0 && (now ==> old(txnList) == []) ==> Plan(St()) == old(Plan(St()))
    {
      hide Plan, Run, HandlerStep, Pipeline, Pending, SyncPending, AllTxns;
      Yield();
      ghost var s := St();
      if !now || txnList == [] {
        PlanEffect(trace, s);
      }
      QueueEffect(trace, s);
      SendRunning(now);
      Log(s, false);
    }

    /** Its transfer callback runs. */
    method RunRetire(now: bool)
      requires Valid() && pc == Callback(now)
      modifies this
      ensures Valid() && old(trace) <= trace && Pipeline(old(St())) <= Pipeline(St())
      ensures Pending(schedule) <= old(Pending(schedule))
      ensures pc == (if now then Wait else SkipSync) && running.None? && sent == old(sent)
      ensures Load() == old(Load()) && SyncLoad() == old(SyncLoad())
      ensures old(Pending(schedule)) == 0 ==> Plan(St()) == old(Plan(St()))
    {
      hide Plan, Run, HandlerStep, Pipeline, Pending, SyncPending, AllTxns;
      Yield();
      ghost var s := St();
      PlanEffect(trace, s);
      QueueEffect(trace, s);
      RetireRunning(now);
      Log(s, false);
    }

    /** A c_txn is created and gets the head of the queue. */
    method RunNew()
      requires Valid() && pc == Create
      modifies this
      ensures Valid() && old(trace) <= trace && Pipeline(old(St())) <= Pipeline(St())
      ensures Pending(schedule) <= old(Pending(schedule))
      ensures pc == SkipSync && old(running).None?
      ensures Load() == old(Load()) - 1 && SyncLoad() == old(SyncLoad())
      ensures old(Pending(schedule)) == 0 ==> Plan(St()) == old(Plan(St()))
    {
      hide Run, HandlerStep, Pipeline, Pending, SyncPending, Plan, AllTxns;
      RunCreate();
      RunFill();
    }

    /** The running c_txn is handed over and retired. */
    method RunTransfer(now: bool)
      requires Valid() && pc == Transfer(now)
      modifies this
      ensures Valid() && old(trace) <= trace && Pipeline(old(St())) <= Pipeline(St())
      ensures Pending(schedule) <= old(Pending(schedule))
      ensures pc == (if now then Wait else SkipSync) && old(running).Some? && running.None?
      ensures AllTxns(sent) == old(AllTxns(sent)) + old(running).value.txns
      ensures Load() == old(Load()) && SyncLoad() == old(SyncLoad())
      ensures old(Pending(schedule)) == 0 && (now ==> old(txnList) == []) ==> Plan(St()) == old(Plan(St()))
    {
      hide Run, HandlerStep, Pipeline, Pending, SyncPending, Plan, AllTxns;
      RunSend(now);
      RunRetire(now);
    }

    function Measure(): nat
      reads this
    {
      2 * Load() + if running.Some? then 1 else 0
    }

    /** One look at the queue, with the unlocked work it leads to. */
    method QueueRound() returns (next: Pc)
      requires Valid() && pc == SkipSync
      modifies this
      ensures Valid() && old(trace) <= trace && Pipeline(old(St())) <= Pipeline(St())
      ensures Pending(schedule) <= old(Pending(schedule)) && SyncLoad() == old(SyncLoad())
      ensures next == pc && (next == SkipSync || next == Wait)
      ensures next == SkipSync ==> Measure() < old(Measure())
      ensures next == Wait ==> Pipeline(old(St())) <= AllTxns(sent) && Load() <= old(Pending(schedule))
      ensures old(Pending(schedule)) == 0 ==> Plan(St()) == old(Plan(St()))
    {
      hide Run, HandlerStep, Pipeline, Pending, SyncPending, SkipSyncStep, Plan, AllTxns;
      ghost var s := St();
      PlanEffect(trace, s);
      QueueEffect(trace, s);
      next := LookAtQueue();
      Log(s, false);
      if next == Create {
        RunNew();
        next := SkipSync;
      } else if next.Transfer? {
        RunTransfer(next.now);
        next := if next.now then Wait else SkipSync;
      }
    }

    /**
     The skip_sync loop and transfer_now: merge, hand over what is full, then close the group.
     Only transactions committed meanwhile can be left in the queue.
     */
    method QueuePhase()
      requires Valid() && pc == SkipSync
      modifies this
      ensures Valid() && pc == Wait && old(trace) <= trace
      ensures Pipeline(old(St())) <= AllTxns(sent)
      ensures running.None? && Split(sent).open == []
      ensures Load() <= old(Pending(schedule)) && SyncLoad() == old(SyncLoad())
      ensures old(Pending(schedule)) == 0 ==> Plan(St()) == old(Plan(St()))
    {
      hide Plan, Run, Pipeline, Pending, SyncPending, Measure, Split;
      var next := SkipSync;
      while next == SkipSync
        invariant Valid() && pc == next && old(trace) <= trace
        invariant next == SkipSync || next == Wait
        invariant Pipeline(old(St())) <= Pipeline(St())
        invariant Pending(schedule) <= old(Pending(schedule)) && SyncLoad() == old(SyncLoad())
        invariant next == Wait ==> Pipeline(old(St())) <= AllTxns(sent) && Load() <= old(Pending(schedule))
        invariant old(Pending(schedule)) == 0 ==> Plan(St()) == old(Plan(St()))
        decreases next == SkipSync, Measure()
      {
        next := QueueRound();
      }
      Idle(trace, St());
    }

    /**
     One pass of the handler loop, up to its wait.  Whatever the other threads do meanwhile, it
     ends; it has then handed over every orderless transaction committed before it began, and
     the last group is closed.  It stops exactly when asked to with both queues empty.
     */
    method Pass(stop: bool) returns (stopped: bool)
      requires Valid() && pc == Top
      modifies this
      ensures Valid() && old(trace) <= trace && pc == if stopped then Stopped else Wait
      ensures stopped <==> stop && old(txnList) == [] && old(syncList) == []
      ensures stopped ==> txnList == [] && syncList == []
      ensures Pipeline(old(St())) <= AllTxns(sent)
      ensures running.None? && Split(sent).open == []
      ensures Load() <= old(Pending(schedule)) && SyncLoad() <= old(SyncLoad())
      ensures !old(InFlight()) ==> SyncLoad() <= old(SyncPending(schedule))
      ensures old(Pending(schedule)) == 0 ==> Members(sent) == old(Members(sent)) + Packing([], old(txnList))
      ensures old(Pending(schedule)) == 0 && old(txnList) != [] && SumSizes(old(txnList)) <= C_TXN_LIMIT_BYTES ==>
        |sent| == |old(sent)| + 1 && sent[|sent| - 1].txns == old(txnList)
    {
      hide Run, HandlerStep, Pending, SyncPending, Pipeline, Split, Plan, Packing, Members, SumSizes;
      ghost var s := St();
      Idle(trace, s);
      StopEffect(trace, s, stop);
      stopped := StopTest(stop);
      Log(s, stop);
      Idle(trace, St());
      PlanIdle(s);
      PlanIdle(St());
      if !stopped {
        SyncPhase();
        QueuePhase();
        PlanIdle(St());
      }
      PackedWhole(s.sent, sent, s.txnList);
    }

    /** wait_for_txn: the others go on; then the loop begins again. */
    method WaitForTxn()
      requires Valid() && pc == Wait
      modifies this
      ensures Valid() && pc == Top && old(trace) <= trace
      ensures sent == old(sent) && running == old(running)
      ensures Load() == old(Load()) && SyncLoad() == old(SyncLoad())
    {
      hide Run, Pending, SyncPending, Pipeline;
      Yield();
      ghost var s := St();
      pc := Top;
      Log(s, false);
    }

    /**
     The handler thread: pass after pass, until it is asked to stop and finds both queues empty.
     When it stops, every orderless commit of the run has been handed over in commit order, in
     closed groups, and every sync commit is with the device or on its way.  With nothing more to
     come and no sync c_txn in flight, it stops the second time it is asked.
     */
    method Serve(stops: seq<bool>) returns (stopped: bool)
      requires Valid() && pc == Top
      modifies this
      ensures Valid() && old(trace) <= trace && pc == if stopped then Stopped else Top
      ensures running.None? && Split(sent).open == []
      ensures stops != [] ==> Pipeline(old(St())) <= AllTxns(sent)
      ensures stopped ==> Payloads(AllTxns(sent)) == Commits(trace, Write)
      ensures stopped ==> Payloads(AllTxns(syncLog) + SyncUnsent(St())) == Commits(trace, Sync) && (syncC.Some? ==> InFlight())
      ensures old(Pending(schedule) == 0 && SyncPending(schedule) == 0 && !InFlight()) && |stops| >= 2 && stops[1] ==> stopped
    {
      hide Run, Pending, SyncPending, Pipeline, Split, Commits, AllTxns, Payloads;
      stopped := false;
      ghost var quiet := Pending(schedule) == 0 && SyncPending(schedule) == 0 && !InFlight();
      Idle(trace, St());
      var i := 0;
      while i < |stops| && !stopped
        invariant i <= |stops| && Valid() && old(trace) <= trace && pc == if stopped then Stopped else Top
        invariant running.None? && Split(sent).open == []
        invariant i == 0 ==> quiet == (Pending(schedule) == 0 && SyncPending(schedule) == 0 && !InFlight())
        invariant i == 0 ==> St() == old(St())
        invariant i > 0 ==> Pipeline(old(St())) <= AllTxns(sent)
        invariant stopped ==> txnList == [] && syncList == []
        invariant quiet && i > 0 ==> Load() == 0 && SyncLoad() == 0
        invariant quiet && i > 1 && stops[1] ==> stopped
      {
        ghost var before := St();
        Idle(trace, before);
        stopped := Pass(stops[i]);
        if !stopped {
          WaitForTxn();
        }
        i := i + 1;
      }
      if stopped {
        Idle(trace, St());
        AllHandedOver(trace, St());
      }
    }
  }

  /** What a first member leaves behind is the step of the machine. */
  lemma JoinedFills(s: State, c: CTxn, id: nat, cnt: nat)
    requires s.txnList != [] && Joined(s.runningId, s.runningCnt, s.txnList[0], c, id, cnt)
    ensures FillStep(s) ==
            s.(txnList := s.txnList[1..], txnCnt := Sub32(s.txnCnt, 1), pc := SkipSync,
               running := Some(c), runningId := id, runningCnt := cnt)
  {
    hide Sub32;
    var t := s.txnList[0];
    SumSnoc([], t);
    assert [] + [t] == [t];
  }

  /** The effect of the handler's next region on the queues, from the invariants of its state. */
  lemma HandlerEffect(trace: seq<Action>, s: State)
    requires s == Run(trace)
    ensures var s' := HandlerStep(s, false);
            && Pipeline(s') == Pipeline(s)
            && (s.pc.ProcessSync? ==>
                  && s' == ProcessSyncStep(s)
                  && (s'.pc.ProcessSync? || s'.pc.SkipSync? || s'.pc.SyncCreate?)
                  && s'.txnList == s.txnList
                  && |s'.syncList| == |s.syncList| - (if s'.pc.ProcessSync? then 1 else 0)
                  && (s'.pc.ProcessSync? ==> s'.syncC.Some? && !s'.syncC.value.transfering)
                  && (s'.pc.SkipSync? ==>
                        && s'.syncList == s.syncList && (s'.syncC.Some? ==> s'.syncC.value.transfering)
                        && (s'.syncList == [] || s'.syncC.Some?)
                        && (s.syncList == [] || (s.syncC.Some? && s.syncC.value.transfering))))
            && (s.pc.SyncCreate? ==>
                  s' == SyncCreateStep(s) && s'.pc == SyncFill && s'.txnList == s.txnList && s'.syncList == s.syncList)
            && (s.pc.SyncFill? ==>
                  && s.syncC.Some? && s.syncList != [] && s' == SyncFillStep(s) && s'.pc == ProcessSync
                  && s'.txnList == s.txnList && |s'.syncList| == |s.syncList| - 1 && !s'.syncC.value.transfering)
  {
    Reachable(trace);
    PipelineHandler(s, false);
  }

  lemma QueueEffect(trace: seq<Action>, s: State)
    requires s == Run(trace)
    ensures var s' := HandlerStep(s, false);
            && Pipeline(s') == Pipeline(s)
            && (s.pc.SkipSync? ==>
                  && s' == SkipSyncStep(s) && s'.syncList == s.syncList
                  && (s'.pc.SkipSync? || s'.pc.Create? || s'.pc.Transfer? || s'.pc.Wait?)
                  && |s'.txnList| == |s.txnList| - (if s'.pc.SkipSync? then 1 else 0)
                  && s'.running.Some? == s.running.Some?
                  && (s'.pc == Transfer(true) ==> s.txnList == [] && Pipeline(s) == AllTxns(s'.sent) + s'.running.value.txns)
                  && (s'.pc == Wait ==> s.txnList == [] && Pipeline(s) == AllTxns(s'.sent)))
            && (s.pc.Create? ==>
                  && s.running.None? && s' == CreateStep(s) && s'.pc == Fill
                  && s'.txnList == s.txnList && s'.syncList == s.syncList)
            && (s.pc.Fill? ==>
                  && s.txnList != [] && s.running.None? && s' == FillStep(s) && s'.pc == SkipSync
                  && |s'.txnList| == |s.txnList| - 1 && s'.syncList == s.syncList)
            && (s.pc.Transfer? ==>
                  && s.running.Some? && s' == TransferStep(s, s.pc.now) && s'.pc == Callback(s.pc.now)
                  && s'.txnList == s.txnList && s'.syncList == s.syncList && s'.running.Some?
                  && AllTxns(s'.sent) == AllTxns(s.sent) + s.running.value.txns)
            && (s.pc.Callback? ==>
                  && s.running.Some? && s' == CallbackStep(s, s.pc.now) && s'.pc == (if s.pc.now then Wait else SkipSync)
                  && s'.txnList == s.txnList && s'.syncList == s.syncList && s'.running.None? && s'.sent == s.sent)
  {
    hide AllTxns, Run, Diff, Sub32, Add32, ProcessSyncStep;
    Reachable(trace);
    PipelineHandler(s, false);
    LimitNeverFires(s);
    if s.pc.Transfer? {
      AllTxnsSnoc(s.sent, s.running.value.(transfering := true));
    }
  }

  /** The handler's next region follows the plan. */
  lemma PlanEffect(trace: seq<Action>, s: State)
    requires s == Run(trace) && (s.pc == Transfer(true) ==> s.txnList == [])
    ensures Plan(HandlerStep(s, false)) == Plan(s)
  {
    hide Run, Inv, PackedOk, MergeOk, Plan, HandlerStep;
    Reachable(trace);
    PackedReachable(trace);
    MergeReachable(trace);
    PlanKept(s);
  }

  lemma PlanIdle(s: State)
    requires s.running.None?
    ensures Plan(s) == Members(s.sent) + Packing([], s.txnList)
    ensures s.txnList == [] ==> Plan(s) == Members(s.sent)
  {
    assert Members(s.sent) + [] == Members(s.sent);
  }

  /** A queue within the limit makes one hand-over. */
  lemma PackedWhole(before: seq<CTxn>, after: seq<CTxn>, queue: seq<Txn>)
    ensures queue != [] && SumSizes(queue) <= C_TXN_LIMIT_BYTES && Members(after) == Members(before) + Packing([], queue) ==>
      |after| == |before| + 1 && after[|after| - 1].txns == queue
  {
    if queue != [] && SumSizes(queue) <= C_TXN_LIMIT_BYTES && Members(after) == Members(before) + Packing([], queue) {
      OneCTxnIsEnough(queue);
      assert Members(after)[|after| - 1] == queue;
    }
  }

  /** With both queues empty the count is 0, so the stop test is exactly about the queues. */
  lemma StopEffect(trace: seq<Action>, s: State, stop: bool)
    requires s == Run(trace) && s.pc == Top
    ensures var s' := HandlerStep(s, stop);
            && Pipeline(s') == Pipeline(s)
            && (s'.pc == Stopped <==> stop && s.txnList == [] && s.syncList == [])
            && s'.txnList == s.txnList && s'.syncList == s.syncList && s'.syncC == s.syncC
  {
    Reachable(trace);
  }

  /** Between passes there is no running c_txn and no open group. */
  lemma Idle(trace: seq<Action>, s: State)
    requires s == Run(trace) && (s.pc.Wait? || s.pc.Stopped? || s.pc.Top? || s.pc.ProcessSync?)
    ensures s.running.None? && Split(s.sent).open == [] && Pipeline(s) == AllTxns(s.sent) + s.txnList
  {
    hide Run, Split, AllTxns;
    Reachable(trace);
    GroupsReachable(trace);
  }

  /** With both queues empty and nothing running, all commits of the run have left the queues. */
  lemma AllHandedOver(trace: seq<Action>, s: State)
    requires s == Run(trace) && s.pc.Stopped? && s.txnList == [] && s.syncList == []
    ensures Payloads(AllTxns(s.sent)) == Commits(trace, Write)
    ensures Payloads(AllTxns(s.syncLog) + SyncUnsent(s)) == Commits(trace, Sync)
    ensures s.syncC.Some? ==> s.syncC.value.transfering
  {
    hide Run, AllTxns, Commits, Split;
    Idle(trace, s);
    OrderPreserved(trace);
    SyncOrderPreserved(trace);
    SyncOnItsWay(trace);
    assert AllTxns(s.sent) + [] == AllTxns(s.sent);
    assert SyncPipeline(s) == AllTxns(s.syncLog) + SyncUnsent(s);
  }

  /** What a step of another thread leaves alone: everything the handler owns. */
  ghost predicate OthersActed(s: State, s': State) {
    && s'.pc == s.pc && s'.running == s.running && s'.sent == s.sent
    && s'.runningCnt == s.runningCnt && s'.runningId == s.runningId && s'.orderlessCnt == s.orderlessCnt
    && s.txnList <= s'.txnList && s.syncList <= s'.syncList
    && (s'.syncC == s.syncC || s'.syncC.None?)
  }

  lemma OtherStep(s: State, a: Action)
    requires !a.Handler?
    ensures OthersActed(s, Next(s, a))
    ensures |Next(s, a).txnList| == |s.txnList| + if Arrives(a, Write) then 1 else 0
    ensures |Next(s, a).syncList| == |s.syncList| + if Arrives(a, Sync) then 1 else 0
  {}
}
