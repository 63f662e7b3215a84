/**
 What the device sees over a run, sync and orderless c_txns together.  Both kinds end in COMMIT
 marks and come through the same slots, so a mark may stand inside a group that is still open.
 */
module DeviceView {
  import opened Bytes
  import opened TxnTypes
  import opened Wire
  import opened GroupCommit
  import opened GroupCommitCounters
  import opened GroupCommitOrder
  import opened GroupCommitGroups
  import opened GroupCommitIds
  import opened TransferSize
  import opened IoTransfer
  import opened DeviceStore
  import opened HandOver

  // The two kinds of c_txns in the log of hand-overs.

  function Orderless(log: seq<CTxn>): seq<CTxn> {
    if log == [] then []
    else Orderless(log[..|log| - 1]) + if log[|log| - 1].ordered then [] else [log[|log| - 1]]
  }

  function Ordered(log: seq<CTxn>): seq<CTxn> {
    if log == [] then []
    else Ordered(log[..|log| - 1]) + if log[|log| - 1].ordered then [log[|log| - 1]] else []
  }

  lemma OrderlessSnoc(log: seq<CTxn>, c: CTxn)
    ensures Orderless(log + [c]) == Orderless(log) + if c.ordered then [] else [c]
    ensures Ordered(log + [c]) == Ordered(log) + if c.ordered then [c] else []
  {
    assert (log + [c])[..|log|] == log;
  }

  lemma KindOfHandOver(s: State, a: Action)
    requires Inv(s) && HandsOver(s, a).Some?
    ensures HandsOver(s, a).value.ordered <==> a.SyncSend?
    ensures HandsOver(s, a).value.ordered ==> !HandsOver(s, a).value.flush
  {}

  /** The hand-overs are the two logs, interleaved. */
  lemma {:induction false} HandedSplits(trace: seq<Action>)
    ensures Orderless(Handed(trace)) == Run(trace).sent
    ensures Ordered(Handed(trace)) == Run(trace).syncLog
  {
    hide Next, Inv, HandsOver;
    if trace != [] {
      var before, a := trace[..|trace| - 1], trace[|trace| - 1];
      HandedSplits(before);
      Reachable(before);
      LogsGrow(Run(before), a);
      var c := HandsOver(Run(before), a);
      if c.Some? {
        OnlyTwoHand(Run(before), a);
        KindOfHandOver(Run(before), a);
        OrderlessSnoc(Handed(before), c.value);
      } else {
        NothingAdded(Handed(before), Run(before).sent, Run(before).syncLog);
      }
    }
  }

  // Slots.

  /** The sync c_txns hold records the encoder can send, and their marks do not wrap the count. */
  ghost predicate SyncSendable(log: seq<CTxn>) {
    forall c :: c in log && c.ordered ==> (forall b :: b in Bufs(c.txns) ==> WellFormed(b)) && !CountWraps(c)
  }

  lemma {:induction false} InOneLog(log: seq<CTxn>, c: CTxn)
    requires c in log
    ensures c in if c.ordered then Ordered(log) else Orderless(log)
  {
    if c != log[|log| - 1] {
      InOneLog(log[..|log| - 1], c);
    }
  }

  /** Every slot of a run of proper commits decodes. */
  lemma HandedDecodes(trace: seq<Action>)
    requires ProperRun(trace) && SyncSendable(Handed(trace))
    ensures LogDecodes(Handed(trace))
  {
    hide Run, Proper, Packed, Decode, Transferred, AllRecords, AllTxns, Handed, CountWraps, WellFormed, Orderless, Ordered;
    var s, log := Run(trace), Handed(trace);
    IdsInRangeReachable(trace);
    HandedSplits(trace);
    forall i, w | 0 <= i < |log| && Transferred(w, log[i])
      ensures Decode(w) == Some(Decoded(log[i].id, |AllRecords(log[i])|, AllRecords(log[i])))
    {
      var c := log[i];
      assert c in log;
      InOneLog(log, c);
      if c.ordered {
        var j :| 0 <= j < |s.syncLog| && s.syncLog[j] == c;
        TransferRoundTrip(w, c);
      } else {
        var j :| 0 <= j < |s.sent| && s.sent[j] == c;
        OrderlessDecodes(trace, j, w);
      }
    }
  }

  lemma OrderlessDecodes(trace: seq<Action>, j: nat, w: seq<Byte>)
    requires ProperRun(trace) && j < |Run(trace).sent| && Transferred(w, Run(trace).sent[j])
    ensures var c := Run(trace).sent[j];
            Decode(w) == Some(Decoded(c.id, |AllRecords(c)|, AllRecords(c)))
  {
    hide Run, Proper, Packed, Decode, Transferred, AllRecords, AllTxns;
    IdsInRangeReachable(trace);
    PipelineIsProper(trace);
    PackedReachable(trace);
    SentNonEmpty(trace);
    SentMembers(Run(trace).sent, j);
    SlotDecodes(w, Run(trace).sent[j]);
  }

  /** How many transactions each closed group of a log holds. */
  function Sizes(log: seq<CTxn>): seq<nat> { GroupSizes(Split(log).closed) }

  /**
   In every run, for every device: the slots of all hand-overs, decoded and applied as they come,
   are their transactions with a COMMIT mark after each marked c_txn.  Of these, the orderless
   c_txns carry the first orderless commits in commit order, marked at the ends of the closed
   groups, and the sync c_txns the first sync commits, each c_txn marked.
   */
  lemma DeviceFollowsCommitOrder<M>(trace: seq<Action>, slots: seq<seq<Byte>>, f: (M, Event) -> M, m: M)
    requires ProperRun(trace) && SyncSendable(Handed(trace)) && SlotsHold(slots, Handed(trace))
    ensures FoldSlots(f, m, slots) == Some(Fold(f, m, LogEvents(Handed(trace))))
    ensures var all, s := Handed(trace), Run(trace);
            var n, k := |AllTxns(s.sent)|, |AllTxns(s.syncLog)|;
            && Sum(Marks(all).sizes) <= |AllTxns(all)| && Sum(Sizes(s.sent)) <= n <= |Commits(trace, Write)|
            && Sum(Marks(s.syncLog).sizes) == k <= |Commits(trace, Sync)|
            && LogRecords(all) == GroupStream(Payloads(AllTxns(all)), Marks(all).sizes)
            && LogRecords(Orderless(all)) == GroupStream(Commits(trace, Write)[..n], Sizes(s.sent))
            && LogRecords(Ordered(all)) == GroupStream(Commits(trace, Sync)[..k], Marks(s.syncLog).sizes)
  {
    hide Run, Commits, FoldSlots, Fold, AllTxns, LogDecodes, SlotsHold, GroupSizes, Split, Sum, Marks, Handed;
    hide Caused, OnlyLastFlushes, IdsAssigned, SyncSendable, LogRecords, LogEvents, GroupStream, Payloads, Orderless, Ordered;
    HandedDecodes(trace);
    SlotsApplyInOrder(f, m, slots, Handed(trace));
    LogIsStream(Handed(trace));
    PayloadsLength(AllTxns(Handed(trace)));
    HandedSplits(trace);
    OrderlessStream(trace);
    SyncStream(trace);
  }

  lemma OrderlessStream(trace: seq<Action>)
    ensures var sent := Run(trace).sent;
            var n := |AllTxns(sent)|;
            && Sum(Sizes(sent)) <= n <= |Commits(trace, Write)|
            && LogRecords(sent) == GroupStream(Commits(trace, Write)[..n], Sizes(sent))
  {
    hide Run, Commits, AllTxns, GroupSizes, Split, Sum, Caused, OnlyLastFlushes, IdsAssigned, LogRecords, GroupStream, Marks;
    var s := Run(trace);
    OrderPreserved(trace);
    GroupShape(trace);
    LogIsStream(s.sent);
    MarksOfGroups(s.sent);
    assert |AllTxns(s.sent)| <= |Pipeline(s)|;
    assert Payloads(AllTxns(s.sent)) == Payloads(Pipeline(s))[..|AllTxns(s.sent)|];
  }

  lemma SyncStream(trace: seq<Action>)
    ensures var log := Run(trace).syncLog;
            var k := |AllTxns(log)|;
            && Sum(Marks(log).sizes) == k <= |Commits(trace, Sync)|
            && LogRecords(log) == GroupStream(Commits(trace, Sync)[..k], Marks(log).sizes)
  {
    hide Run, Commits, AllTxns, Sum, LogRecords, GroupStream, Marks;
    var s := Run(trace);
    SyncOrderPreserved(trace);
    HandedSplits(trace);
    OrderedAreMarked(Handed(trace));
    AllMarked(s.syncLog);
    LogIsStream(s.syncLog);
    assert |AllTxns(s.syncLog)| <= |SyncPipeline(s)|;
    assert Payloads(AllTxns(s.syncLog)) == Payloads(SyncPipeline(s))[..|AllTxns(s.syncLog)|];
  }

  lemma {:induction false} OrderedAreMarked(log: seq<CTxn>)
    ensures forall i :: 0 <= i < |Ordered(log)| ==> Marked(Ordered(log)[i])
  {
    if log != [] {
      OrderedAreMarked(log[..|log| - 1]);
    }
  }

  /** Nothing is left open where every c_txn is marked. */
  lemma AllMarked(log: seq<CTxn>)
    requires forall i :: 0 <= i < |log| ==> Marked(log[i])
    ensures Sum(Marks(log).sizes) == |AllTxns(log)|
  {
    MarksAdd(log);
  }

  // A device that shows everything up to the last COMMIT.

  /** What such a device shows of a log: everything up to the last marked c_txn. */
  function ShownLog(log: seq<CTxn>): seq<CTxn> {
    if log == [] || Marked(log[|log| - 1]) then log else ShownLog(log[..|log| - 1])
  }

  lemma {:induction false} PublishingShows<M>(f: (M, Record) -> M, m: M, log: seq<CTxn>)
    ensures Fold(Publishing(f), (m, m), LogRecords(log)) ==
            (Fold(f, m, Unmarked(LogRecords(ShownLog(log)))), Fold(f, m, Unmarked(LogRecords(log))))
  {
    hide Fold, Publishing, AllRecords, Unmarked;
    var g := Publishing(f);
    if log == [] {
      FoldNothing(g, (m, m));
      FoldNothing(f, m);
      NoneUnmarked();
    } else {
      var front, c := log[..|log| - 1], log[|log| - 1];
      var rs := MeantAll(Bufs(c.txns));
      PublishingShows(f, m, front);
      var p, w := Fold(g, (m, m), LogRecords(front)).0, Fold(g, (m, m), LogRecords(front)).1;
      FoldConcat(g, (m, m), LogRecords(front), AllRecords(c));
      UnmarkedConcat(LogRecords(front), AllRecords(c));
      RecordsThenMark(c);
      FoldConcat(f, m, Unmarked(LogRecords(front)), rs);
      ShowsRecords(f, p, w, c);
    }
  }

  lemma NoneUnmarked()
    ensures Unmarked([]) == []
  {}

  lemma RecordsThenMark(c: CTxn)
    ensures AllRecords(c) == MeantAll(Bufs(c.txns)) + (if Marked(c) then [CommitMark] else [])
    ensures Unmarked(AllRecords(c)) == MeantAll(Bufs(c.txns))
  {
    var rs := MeantAll(Bufs(c.txns));
    NoMarks(rs);
    hide Unmarked, MeantAll, Bufs;
    if Marked(c) {
      UnmarkedConcat(rs, [CommitMark]);
      OneMark();
      assert rs + [] == rs;
    } else {
      assert rs + [] == rs;
    }
  }

  lemma ShowsRecords<M>(f: (M, Record) -> M, p: M, w: M, c: CTxn)
    ensures var w' := Fold(f, w, MeantAll(Bufs(c.txns)));
            Fold(Publishing(f), (p, w), AllRecords(c)) == (if Marked(c) then w' else p, w')
  {
    hide Fold, Publishing, Bufs, AllRecords;
    var rs := MeantAll(Bufs(c.txns));
    RecordsThenMark(c);
    WorkInProgress(f, p, w, rs);
    if Marked(c) {
      FoldConcat(Publishing(f), (p, w), rs, [CommitMark]);
      PublishesNow(f, p, Fold(f, w, rs));
    } else {
      assert rs + [] == rs;
    }
  }

  /** Every sync c_txn and every closed group is shown. */
  lemma {:induction false} ShownKeeps(log: seq<CTxn>)
    ensures ShownLog(log) <= log
    ensures Ordered(ShownLog(log)) == Ordered(log)
    ensures Split(Orderless(ShownLog(log))).closed == Split(Orderless(log)).closed
  {
    hide Split;
    if log != [] && !Marked(log[|log| - 1]) {
      var front, c := log[..|log| - 1], log[|log| - 1];
      ShownKeeps(front);
      SplitSnoc(Orderless(front), c);
      NothingAdded(Ordered(front), [], []);
    }
  }

  /** What is shown is whole groups and sync c_txns. */
  ghost predicate ShowsWhole(trace: seq<Action>) {
    Split(Orderless(ShownLog(Handed(trace)))).open == []
  }

  /** No sync c_txn is handed over while a group is open. */
  ghost predicate Apart(s: State, a: Action) {
    a.SyncSend? && SyncWorkQueued(s) ==> Split(s.sent).open == []
  }

  ghost predicate AlwaysShowsWhole(trace: seq<Action>) {
    ShowsWhole(trace) && (trace == [] || AlwaysShowsWhole(trace[..|trace| - 1]))
  }

  ghost predicate AlwaysApart(trace: seq<Action>) {
    trace == [] || (AlwaysApart(trace[..|trace| - 1]) && Apart(Run(trace[..|trace| - 1]), trace[|trace| - 1]))
  }

  lemma ShownSnoc(log: seq<CTxn>, c: CTxn)
    ensures ShownLog(log + [c]) == if Marked(c) then log + [c] else ShownLog(log)
  {
    assert (log + [c])[..|log|] == log;
  }

  lemma ShowsStep(before: seq<Action>, a: Action)
    requires ShowsWhole(before)
    ensures ShowsWhole(before + [a]) <==> Apart(Run(before), a)
  {
    hide Run, Split, Handed, ShownLog, Orderless, Ordered, HandsOver, Inv;
    var s := Run(before);
    Reachable(before);
    GrowsBy(before, a);
    HandedSplits(before);
    ApartIs(s, a);
    if HandsOver(s, a).Some? {
      var c := HandsOver(s, a).value;
      KindOfHandOver(s, a);
      ShownSnoc(Handed(before), c);
      OrderlessSnoc(Handed(before), c);
      SplitSnoc(s.sent, c);
      assert s.sent + [] == s.sent;
    } else {
      assert Handed(before) + [] == Handed(before);
    }
  }

  lemma ApartIs(s: State, a: Action)
    ensures HandsOver(s, a).None? ==> Apart(s, a)
    ensures HandsOver(s, a).Some? ==> (Apart(s, a) <==> (a.SyncSend? ==> Split(s.sent).open == []))
  {}

  /**
   A device that publishes at COMMIT shows only whole groups and sync c_txns, at every point of
   the run, if and only if no sync c_txn is ever handed over while a group is open.
   */
  lemma {:induction false} ShowsWholeExactly(trace: seq<Action>)
    ensures AlwaysShowsWhole(trace) <==> AlwaysApart(trace)
  {
    hide Run, ShowsWhole, Apart;
    if trace == [] {
      ShowsNothing();
    } else {
      var before, a := trace[..|trace| - 1], trace[|trace| - 1];
      assert trace == before + [a];
      ShowsWholeExactly(before);
      if AlwaysShowsWhole(before) {
        ShowsStep(before, a);
      }
    }
  }

  lemma ShowsNothing()
    ensures ShowsWhole([])
  {}

  /**
   In every run, for every device that publishes at COMMIT: what it shows is a prefix of the
   hand-overs with every sync c_txn and every closed group in it, and it holds nothing else
   exactly when it shows whole groups only.
   */
  lemma PublishedIsWholeGroups<M>(trace: seq<Action>, slots: seq<seq<Byte>>, f: (M, Record) -> M, m: M)
    requires ProperRun(trace) && SyncSendable(Handed(trace)) && SlotsHold(slots, Handed(trace))
    ensures var all, s := Handed(trace), Run(trace);
            var shown := ShownLog(all);
            && FoldSlots(Ignoring(Publishing(f)), (m, m), slots) ==
               Some((Fold(f, m, Unmarked(LogRecords(shown))), Fold(f, m, Unmarked(LogRecords(all)))))
            && shown <= all && Ordered(shown) == s.syncLog && Flatten(Split(s.sent).closed) <= Orderless(shown)
            && (Orderless(shown) == Flatten(Split(s.sent).closed) <==> ShowsWhole(trace))
  {
    hide Run, Handed, SyncSendable, SlotsHold, ProperRun, FoldSlots, Fold, LogDecodes, LogEvents, LogRecords, Unmarked;
    hide Split, Orderless, Ordered, ShownLog, Flatten, Ignoring, Publishing;
    var all := Handed(trace);
    HandedDecodes(trace);
    SlotsApplyInOrder(Ignoring(Publishing(f)), (m, m), slots, all);
    IgnoringIds(Publishing(f), (m, m), all);
    PublishingShows(f, m, all);
    ShownKeeps(all);
    HandedSplits(trace);
    SplitIsComplete(Orderless(ShownLog(all)));
    var closed, open := Flatten(Split(Run(trace).sent).closed), Split(Orderless(ShownLog(all))).open;
    assert |closed + open| == |closed| + |open| && closed + [] == closed;
  }

  // A COMMIT inside an open group.

  /** Two bulky transactions and a sync one: the first bulky one is handed over, then the sync one. */
  function MixedRun(y: Txn): seq<Action> {
    [Action.Commit(BULKY), Action.Commit(BULKY), Action.Commit(y)] + Handlers(11) + [SyncSend]
  }

  function Third(y: Txn): Txn { y.(id := 3, committed := true) }

  function AllQueued(y: Txn): State {
    INIT.(nextId := 4, issued := 3, txnCnt := 3, syncingCnt := 1,
          txnList := [First(BULKY), Second(BULKY)], syncList := [Third(y)])
  }

  lemma QueuesAll(y: Txn)
    requires y.kind == Sync && y.cnt != 0
    ensures Run([Action.Commit(BULKY), Action.Commit(BULKY), Action.Commit(y)]) == AllQueued(y)
  {
    hide Run;
    var none: seq<Action> := [];
    var one, two := none + [Action.Commit(BULKY)], none + [Action.Commit(BULKY)] + [Action.Commit(BULKY)];
    NothingYet();
    RunSnoc(none, Action.Commit(BULKY));
    RunSnoc(one, Action.Commit(BULKY));
    RunSnoc(two, Action.Commit(y));
    assert two + [Action.Commit(y)] == [Action.Commit(BULKY), Action.Commit(BULKY), Action.Commit(y)];
    assert [] + [First(BULKY)] + [Second(BULKY)] == [First(BULKY), Second(BULKY)] && [] + [Third(y)] == [Third(y)];
  }

  /** Eleven regions of the handler: one c_txn of an open group is handed over, and the sync c_txn is on its way. */
  lemma MixedRegions(y: Txn) returns (c: CTxn)
    requires y.kind == Sync && y.cnt != 0
    ensures var s := AfterHandlers(AllQueued(y), 11);
            && s.sent == [c] && s.syncLog == [] && s.syncC == Some(SyncCTxn(Third(y))) && !s.syncSent
            && c.txns == [First(BULKY)] && !c.flush && !c.ordered
  {
    hide AfterHandlers, Sub32;
    var q := AllQueued(y);
    SyncPartRuns(q, Third(y));
    var s5 := AfterHandlers(q, 5);
    AfterAdd(q, 5, 3);
    StartsCTxn(s5);
    var s8 := AfterHandlers(q, 8);
    AfterAdd(q, 8, 3);
    assert s8.txnList == [Second(BULKY)];
    HandsFullOver(s8);
    c := s8.running.value.(transfering := true);
    assert [] + [c] == [c];
  }

  lemma OnlyOneHanded(trace: seq<Action>, c: CTxn)
    requires Run(trace).sent == [c] && Run(trace).syncLog == []
    ensures Handed(trace) == [c]
  {
    hide Run, Handed;
    HandedCount(trace);
    HandedSplits(trace);
    var x := Handed(trace)[0];
    assert Handed(trace) == [] + [x];
    OrderlessSnoc([], x);
  }

  /**
   For every sync transaction there is a run in which its COMMIT makes a device show a c_txn of
   a group that is still open, and none is closed.
   */
  lemma SyncCommitShowsOpenGroup<M>(y: Txn, f: (M, Record) -> M, m: M)
    requires y.kind == Sync && y.cnt != 0
    ensures var trace := MixedRun(y);
            && !ShowsWhole(trace) && Split(Run(trace).sent).closed == [] && |Handed(trace)| == 2
            && Fold(Publishing(f), (m, m), LogRecords(Handed(trace))).0 == Fold(f, m, MeantAll(BULKY.bufs + y.bufs))
  {
    hide Run, Handed, Handlers, AfterHandlers, Fold, Split, LogRecords, ShownLog, Orderless;
    var commits := [Action.Commit(BULKY), Action.Commit(BULKY), Action.Commit(y)];
    var before := commits + Handlers(11);
    QueuesAll(y);
    RunHandlers(commits, 11);
    var c := MixedRegions(y);
    var d := SyncCTxn(Third(y));
    OnlyOneHanded(before, c);
    RunSnoc(before, SyncSend);
    GrowsBy(before, SyncSend);
    var log := [c] + [d];
    assert Handed(MixedRun(y)) == log;
    ShownSnoc([c], d);
    OpenOf(c, d);
    PublishingShows(f, m, log);
    TwoUnmarked(c, d);
  }

  lemma OpenOf(c: CTxn, d: CTxn)
    requires !c.flush && !c.ordered && d.ordered
    ensures Orderless([c] + [d]) == [c] && Split([c]) == Cut([], [c])
  {
    OrderlessSnoc([c], d);
    OrderlessSnoc([], c);
    SplitSnoc([], c);
    assert [] + [c] == [c];
  }

  lemma TwoUnmarked(c: CTxn, d: CTxn)
    requires |c.txns| == 1 && |d.txns| == 1
    ensures Unmarked(LogRecords([c] + [d])) == MeantAll(c.txns[0].bufs + d.txns[0].bufs)
  {
    hide Unmarked, MeantAll, AllRecords;
    assert ([c] + [d])[..1] == [c] && [c][..0] == [];
    assert LogRecords([c]) == [] + AllRecords(c);
    UnmarkedConcat(LogRecords([c]), AllRecords(d));
    assert [] + AllRecords(c) == AllRecords(c);
    RecordsThenMark(c);
    RecordsThenMark(d);
    OneTxn(c.txns);
    OneTxn(d.txns);
    MeantConcat(c.txns[0].bufs, d.txns[0].bufs);
  }

  lemma OneTxn(ts: seq<Txn>)
    requires |ts| == 1
    ensures Bufs(ts) == ts[0].bufs
  {
    assert ts[..0] == [] && [] + ts[0].bufs == ts[0].bufs;
  }

  lemma MeantConcat(xs: seq<TxnBuf>, ys: seq<TxnBuf>)
    ensures MeantAll(xs + ys) == MeantAll(xs) + MeantAll(ys)
  {
    hide Meant;
  }
}
