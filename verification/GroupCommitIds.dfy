/** Transaction ids and group ids over a run, and what the 32-bit wrap does to them. */
module GroupCommitIds {
  import opened Bytes
  import opened Keys
  import opened TxnTypes
  import opened GroupCommit
  import opened GroupCommitCounters
  import opened GroupCommitOrder
  import opened GroupCommitGroups

  /** Strictly increasing ids from 1 up to, not including, `bound`. */
  ghost predicate Ascending(ts: seq<Txn>, bound: nat) {
    && (forall i :: 0 <= i < |ts| ==> 1 <= ts[i].id < bound)
    && (forall i, j :: 0 <= i < j < |ts| ==> ts[i].id < ts[j].id)
  }

  /** As long as the id counter has not wrapped. */
  ghost predicate NoWrap(s: State) { s.issued + 1 < U32 }

  ghost predicate IdsOk(s: State) {
    NoWrap(s) ==> s.nextId == s.issued + 1 && Ascending(Pipeline(s), s.nextId)
  }

  lemma IdsStep(s: State, a: Action)
    requires Inv(s) && IdsOk(s)
    ensures IdsOk(Next(s, a))
  {
    hide Next, Pipeline, Ascending;
    PipelineStep(s, a);
    IssuedStep(s, a);
    var s' := Next(s, a);
    if NoWrap(s') {
      AscendingSnoc(Pipeline(s), Txn(s.nextId, Write, [], 0, 0, true), s.nextId);
      if a.Commit? {
        AscendingSnoc(Pipeline(s), Queued(s, a.txn), s.nextId);
      }
    }
  }

  lemma AscendingSnoc(ts: seq<Txn>, t: Txn, bound: nat)
    requires Ascending(ts, bound) && t.id == bound >= 1
    ensures Ascending(ts + [t], bound + 1) && Ascending(ts, bound + 1)
  {}

  lemma IssuedStep(s: State, a: Action)
    ensures var s' := Next(s, a);
            || (s'.issued == s.issued && s'.nextId == s.nextId && !(a.Commit? && a.txn.cnt != 0 && a.txn.kind == Write))
            || (s'.issued == s.issued + 1 && s'.nextId == Add32(s.nextId, 1))
  {
    hide ProcessSyncStep, SkipSyncStep, FillStep, SyncFillStep;
    HandlerTakesNoId(s, if a.Handler? then a.stop else false);
  }

  lemma HandlerTakesNoId(s: State, stop: bool)
    ensures HandlerStep(s, stop).issued == s.issued && HandlerStep(s, stop).nextId == s.nextId
  {}

  lemma {:induction false} IdsReachable(trace: seq<Action>)
    ensures IdsOk(Run(trace))
  {
    if trace == [] {
    } else {
      IdsReachable(trace[..|trace| - 1]);
      Reachable(trace[..|trace| - 1]);
      IdsStep(Run(trace[..|trace| - 1]), trace[|trace| - 1]);
    }
  }

  // Group ids.

  function Head(g: seq<CTxn>): nat {
    if g == [] || g[0].txns == [] then 0 else g[0].txns[0].id
  }

  ghost predicate Seen(log: seq<CTxn>, id: nat) {
    exists j :: 0 <= j < |AllTxns(log)| && AllTxns(log)[j].id == id
  }

  ghost predicate HeadsAscend(log: seq<CTxn>) {
    var cut := Split(log);
    && (forall k :: 0 <= k < |cut.closed| ==> Seen(log, Head(cut.closed[k])))
    && (forall k, l :: 0 <= k < l < |cut.closed| ==> Head(cut.closed[k]) < Head(cut.closed[l]))
    && (cut.open != [] ==>
          && Seen(log, Head(cut.open))
          && forall k :: 0 <= k < |cut.closed| ==> Head(cut.closed[k]) < Head(cut.open))
  }

  lemma SeenSnoc(log: seq<CTxn>, c: CTxn, bound: nat)
    requires c.txns != [] && Ascending(AllTxns(log + [c]), bound)
    ensures forall id: nat :: Seen(log, id) ==> Seen(log + [c], id) && id < c.txns[0].id
    ensures Seen(log + [c], c.txns[0].id)
    ensures Ascending(AllTxns(log), bound)
  {
    AllTxnsSnoc(log, c);
    var all := AllTxns(log + [c]);
    forall id: nat | Seen(log, id)
      ensures Seen(log + [c], id) && id < c.txns[0].id
    {
      var j :| 0 <= j < |AllTxns(log)| && AllTxns(log)[j].id == id;
      assert all[j].id == id && all[|AllTxns(log)|] == c.txns[0];
    }
    assert all[|AllTxns(log)|].id == c.txns[0].id;
    assert AllTxns(log) == all[..|AllTxns(log)|];
  }

  /** Groups of a log whose transactions ascend start with ascending ids. */
  lemma {:induction false} HeadsFollowIds(log: seq<CTxn>, bound: nat)
    requires Ascending(AllTxns(log), bound)
    requires forall i :: 0 <= i < |log| ==> log[i].txns != []
    ensures HeadsAscend(log)
  {
    if log == [] {
    } else {
      var before, c := log[..|log| - 1], log[|log| - 1];
      assert log == before + [c];
      SeenSnoc(before, c, bound);
      HeadsFollowIds(before, bound);
      HeadsSnoc(before, c, bound);
    }
  }

  lemma HeadsSnoc(before: seq<CTxn>, c: CTxn, bound: nat)
    requires HeadsAscend(before) && c.txns != [] && Ascending(AllTxns(before + [c]), bound)
    ensures HeadsAscend(before + [c])
  {
    hide Split, AllTxns, Seen;
    SplitSnoc(before, c);
    SeenSnoc(before, c, bound);
    var cut := Split(before);
    assert Head(cut.open + [c]) == if cut.open == [] then c.txns[0].id else Head(cut.open);
  }

  /** The group carries one id, that of its first transaction. */
  ghost predicate Numbered(g: seq<CTxn>) {
    g != [] && OneId(g) && g[0].id == Head(g) >= 1
  }

  lemma IsNumbered(g: seq<CTxn>)
    requires g != [] && IdsAssigned(g) && Head(g) >= 1
    ensures Numbered(g)
  {
    assert g[0].txns != [];
    OneIdExactly(g);
  }

  /** Without id wrap, every group, the open one too, carries its first transaction's id, and these ids strictly increase. */
  lemma GroupIdsIncrease(trace: seq<Action>)
    requires NoWrap(Run(trace))
    ensures var cut := Split(Run(trace).sent);
            var closed := cut.closed;
            && (forall k :: 0 <= k < |closed| ==> Numbered(closed[k]))
            && (forall k, l :: 0 <= k < l < |closed| ==> closed[k][0].id < closed[l][0].id)
            && (cut.open != [] ==> Numbered(cut.open) && forall k :: 0 <= k < |closed| ==> closed[k][0].id < cut.open[0].id)
  {
    hide Run, Split, AllTxns, Seen, IdsAssigned, Caused;
    var s := Run(trace);
    var closed: seq<seq<CTxn>> := Split(s.sent).closed;
    IdsReachable(trace);
    GroupShape(trace);
    assert AllTxns(s.sent) == Pipeline(s)[..|AllTxns(s.sent)|];
    SentNonEmpty(trace);
    HeadsFollowIds(s.sent, s.nextId);
    forall k | 0 <= k < |closed|
      ensures Numbered(closed[k])
    {
      SeenIsPositive(s.sent, Head(closed[k]), s.nextId);
      IsNumbered(closed[k]);
    }
    if Split(s.sent).open != [] {
      SeenIsPositive(s.sent, Head(Split(s.sent).open), s.nextId);
      OpenIdsAssigned(trace);
      IsNumbered(Split(s.sent).open);
    }
  }

  lemma OpenIdsAssigned(trace: seq<Action>)
    ensures IdsAssigned(Split(Run(trace).sent).open)
  {
    hide Run, Split, IdsAssigned;
    var s := Run(trace);
    GroupsReachable(trace);
    var open := Split(s.sent).open;
    if s.running.Some? && !s.pc.Callback? {
      IdsAssignedSnoc(open, s.running.value);
    } else {
      assert open + [] == open;
    }
  }

  lemma SeenIsPositive(log: seq<CTxn>, id: nat, bound: nat)
    requires Seen(log, id) && Ascending(AllTxns(log), bound)
    ensures id >= 1
  {}

  /** No empty c_txn is ever handed over. */
  lemma {:induction false} SentNonEmpty(trace: seq<Action>)
    ensures forall i :: 0 <= i < |Run(trace).sent| ==> Run(trace).sent[i].txns != []
  {
    if trace == [] {
    } else {
      SentNonEmpty(trace[..|trace| - 1]);
      Reachable(trace[..|trace| - 1]);
      SentStep(Run(trace[..|trace| - 1]), trace[|trace| - 1]);
    }
  }

  lemma SentStep(s: State, a: Action)
    requires Inv(s)
    ensures || Next(s, a).sent == s.sent
            || (s.running.Some? && Next(s, a).sent == s.sent + [s.running.value.(transfering := true)])
  {}

  // The wrap.

  function Reads(n: nat): seq<Action> { seq(n, _ => ReadBegin) }

  lemma {:induction false} RunReads(n: nat)
    ensures Run(Reads(n)) == INIT.(nextId := (1 + n) % U32, issued := n)
  {
    if n == 0 {
    } else {
      RunReads(n - 1);
      assert Reads(n) == Reads(n - 1) + [ReadBegin];
      RunSnoc(Reads(n - 1), ReadBegin);
      CountUp(n);
    }
  }

  function Handlers(n: nat): seq<Action> { seq(n, _ => Handler(false)) }

  function AfterHandlers(s: State, n: nat): State
    decreases n
  {
    if n == 0 then s else HandlerStep(AfterHandlers(s, n - 1), false)
  }

  lemma {:induction false} RunHandlers(trace: seq<Action>, n: nat)
    ensures Run(trace + Handlers(n)) == AfterHandlers(Run(trace), n)
  {
    if n == 0 {
      assert trace + Handlers(0) == trace;
    } else {
      RunHandlers(trace, n - 1);
      assert trace + Handlers(n) == (trace + Handlers(n - 1)) + [Handler(false)];
      RunSnoc(trace + Handlers(n - 1), Handler(false));
    }
  }

  /** A delete of 310 blocks of inode 1, as a truncation commits it; two of them pass the merge limit. */
  const BULKY_RECORD: TxnBuf := TxnBuf(DataDelMulti, DataKey(1, 1), LIGHTFS_TXN_LIMIT, LIGHTFS_TXN_LIMIT * PAGE_SIZE, 0, [])
  const BULKY: Txn := Txn(0, Write, [BULKY_RECORD], 1, 8 + 24 + LIGHTFS_TXN_LIMIT * PAGE_SIZE, false)
  const FIRST: Txn := BULKY.(id := 0, committed := true)
  const SECOND: Txn := BULKY.(id := 1, committed := true)

  /** The state after the id counter has wrapped and two bulky transactions are queued. */
  const WRAPPED: State := INIT.(nextId := 2, issued := U32 + 1, txnCnt := 2, txnList := [FIRST, SECOND])

  function TornRun(): seq<Action> {
    Reads(U32 - 1) + [Action.Commit(BULKY)] + [Action.Commit(BULKY)] + Handlers(13)
  }

  lemma WrappedReachable()
    ensures Run(Reads(U32 - 1) + [Action.Commit(BULKY)] + [Action.Commit(BULKY)]) == WRAPPED
  {
    hide Run, Reads;
    RunReads(U32 - 1);
    RunSnoc(Reads(U32 - 1), Action.Commit(BULKY));
    RunSnoc(Reads(U32 - 1) + [Action.Commit(BULKY)], Action.Commit(BULKY));
  }

  lemma AfterFew(s: State)
    ensures var s1 := HandlerStep(s, false);
            var s2 := HandlerStep(s1, false);
            && AfterHandlers(s, 2) == s2
            && AfterHandlers(s, 3) == HandlerStep(s2, false)
  {
    hide HandlerStep;
    assert AfterHandlers(s, 1) == HandlerStep(s, false);
  }

  lemma FillsFirst(f: State)
    requires f.pc == Fill && f.runningCnt < 2 && f.txnList != [] && f.txnList[0].cnt != 0
    ensures var t := f.txnList[0];
            var id := if f.runningId == 0 then t.id else f.runningId;
            HandlerStep(f, false) ==
              f.(pc := SkipSync, runningCnt := f.runningCnt + 1, runningId := id,
                 txnList := f.txnList[1..], txnCnt := Sub32(f.txnCnt, 1),
                 running := Some(CTxn(id, [t], t.size % U32, t.cnt % U32, false, false, false, 0)))
  {
    hide Sub32;
    assert [] + [f.txnList[0]] == [f.txnList[0]];
  }

  /** From an empty group: create a c_txn for the head of the queue. */
  lemma StartsCTxn(s: State)
    requires s.pc == SkipSync && s.running == None && s.orderedCnt <= 1 && s.orderlessCnt == s.runningCnt < 2
    requires s.txnList != [] && s.txnList[0].committed && s.txnList[0].cnt != 0
    ensures var t := s.txnList[0];
            var id := if s.runningId == 0 then t.id else s.runningId;
            AfterHandlers(s, 3) ==
              s.(orderlessCnt := s.orderlessCnt + 1, runningCnt := s.runningCnt + 1, runningId := id,
                 txnList := s.txnList[1..], txnCnt := Sub32(s.txnCnt, 1),
                 running := Some(CTxn(id, [t], t.size % U32, t.cnt % U32, false, false, false, 0)))
  {
    hide AfterHandlers;
    AfterFew(s);
    assert HandlerStep(s, false) == s.(pc := Create);
    var f := s.(pc := Fill, orderlessCnt := s.orderlessCnt + 1);
    assert HandlerStep(s.(pc := Create), false) == f;
    FillsFirst(f);
  }

  /** The running c_txn has no room for the head of the queue: hand it over. */
  lemma HandsFullOver(s: State)
    requires s.pc == SkipSync && s.running.Some? && !s.running.value.flush && s.orderedCnt + s.orderlessCnt <= 2
    requires s.txnList != [] && s.txnList[0].committed && Diff(s.running.value, s.txnList[0]) < 0
    ensures AfterHandlers(s, 3) == s.(running := None, sent := s.sent + [s.running.value.(transfering := true)])
  {
    hide AfterHandlers, Diff;
    AfterFew(s);
    assert HandlerStep(s, false) == s.(pc := Transfer(false));
  }

  lemma ClosesGroup(s: State)
    requires s.pc == SkipSync && s.running.Some? && s.txnList == []
    ensures AfterHandlers(s, 2).sent == s.sent + [CloseGroup(s.running.value, s.runningCnt).(transfering := true)]
  {
    hide AfterHandlers;
    AfterFew(s);
    assert HandlerStep(s, false).pc == Transfer(true);
  }

  lemma {:induction false} AfterAdd(s: State, m: nat, n: nat)
    ensures AfterHandlers(s, m + n) == AfterHandlers(AfterHandlers(s, m), n)
    decreases n
  {
    hide HandlerStep;
    if n == 0 {
    } else {
      AfterAdd(s, m, n - 1);
    }
  }

  /**
   When the id counter wraps to 0 the group it numbers is torn: two commits that take the
   ids 0 and 1 end up in one closed group whose c_txns carry different ids.
   */
  lemma WrapTearsGroup()
    ensures var closed := Split(Run(TornRun()).sent).closed;
            |closed| == 1 && |closed[0]| == 2 && !OneId(closed[0])
  {
    WrappedReachable();
    RunHandlers(Reads(U32 - 1) + [Action.Commit(BULKY)] + [Action.Commit(BULKY)], 13);
    hide Run, Reads, Handlers, AfterHandlers;
    TornGroup();
  }

  /** The first bulky transaction travels alone, under id 0, and leaves no group id behind. */
  lemma FirstTravels() returns (a: CTxn)
    ensures a.id == 0 && !a.flush
    ensures AfterHandlers(WRAPPED, 8) ==
            WRAPPED.(pc := SkipSync, orderlessCnt := 1, runningCnt := 1, runningId := 0,
                     txnCnt := 1, txnList := [SECOND], sent := [a])
  {
    hide AfterHandlers;
    var s2 := AfterHandlers(WRAPPED, 2);
    assert s2 == WRAPPED.(pc := SkipSync) by {
      AfterFew(WRAPPED);
    }
    AfterAdd(WRAPPED, 2, 3);
    StartsCTxn(s2);
    var s5 := AfterHandlers(WRAPPED, 5);
    AfterAdd(WRAPPED, 5, 3);
    HandsFullOver(s5);
    a := s5.running.value.(transfering := true);
    assert [] + [a] == [a];
  }

  lemma TornGroup()
    ensures var closed := Split(AfterHandlers(WRAPPED, 13).sent).closed;
            |closed| == 1 && |closed[0]| == 2 && !OneId(closed[0])
  {
    hide AfterHandlers, Split;
    var a := FirstTravels();
    AfterAdd(WRAPPED, 8, 3);
    StartsCTxn(AfterHandlers(WRAPPED, 8));
    var s11 := AfterHandlers(WRAPPED, 11);
    AfterAdd(WRAPPED, 11, 2);
    ClosesGroup(s11);
    var b := CloseGroup(s11.running.value, 2).(transfering := true);
    SplitSnoc([], a);
    SplitSnoc([a], b);
    SplitNone();
    assert [] + [a] == [a];
    var closed: seq<seq<CTxn>> := Split(AfterHandlers(WRAPPED, 13).sent).closed;
    assert closed == [[a] + [b]];
    assert closed[0][0].id == 0 && closed[0][1].id == 1;
  }
}
