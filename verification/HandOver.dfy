/**
 Both kinds of commits together.  Sync and orderless c_txns reach the same device, each kind in
 commit order; this module says exactly when the two lanes together keep commit order.
 */
module HandOver {
  import opened Bytes
  import opened TxnTypes
  import opened Wire
  import opened GroupCommit
  import opened GroupCommitCounters
  import opened GroupCommitOrder
  import opened GroupCommitIds
  import opened RbTransfer

  /** The c_txn a step hands to the device. */
  function HandsOver(s: State, a: Action): Option<CTxn> {
    if a.Handler? && s.pc.Transfer? && s.running.Some? then Some(s.running.value.(transfering := true))
    else if a.SyncSend? && SyncWorkQueued(s) then Some(s.syncC.value)
    else None
  }

  /** Everything handed over in a run, in order. */
  function Handed(trace: seq<Action>): seq<CTxn> {
    if trace == [] then []
    else
      var before := trace[..|trace| - 1];
      Handed(before) + match HandsOver(Run(before), trace[|trace| - 1]) case Some(c) => [c] case None => []
  }

  predicate Arrives(a: Action) { a.Commit? && a.txn.cnt != 0 && !a.txn.kind.Read? }

  /** The non-empty commits of both kinds, in order, as they are queued. */
  function Committed(trace: seq<Action>): seq<Txn> {
    if trace == [] then []
    else
      var before, a := trace[..|trace| - 1], trace[|trace| - 1];
      Committed(before) + if Arrives(a) then [Queued(Run(before), a.txn)] else []
  }

  /** What is handed over so far are the first commits, in commit order. */
  ghost predicate InOrder(trace: seq<Action>) {
    AllTxns(Handed(trace)) <= Committed(trace)
  }

  // Lanes.

  function Lane(ts: seq<Txn>, kind: Kind): seq<Txn> {
    if ts == [] then []
    else Lane(ts[..|ts| - 1], kind) + if ts[|ts| - 1].kind == kind then [ts[|ts| - 1]] else []
  }

  lemma {:induction false} LaneConcat(xs: seq<Txn>, ys: seq<Txn>, kind: Kind)
    ensures Lane(xs + ys, kind) == Lane(xs, kind) + Lane(ys, kind)
    decreases |ys|
  {
    if ys == [] {
      assert xs + ys == xs;
    } else {
      LaneConcat(xs, ys[..|ys| - 1], kind);
      assert (xs + ys)[..|xs + ys| - 1] == xs + ys[..|ys| - 1];
    }
  }

  lemma {:induction false} LaneMembers(ts: seq<Txn>, kind: Kind)
    ensures forall t :: t in Lane(ts, kind) ==> t in ts && t.kind == kind
  {
    if ts != [] {
      var front := ts[..|ts| - 1];
      LaneMembers(front, kind);
      assert forall t :: t in front ==> t in ts;
    }
  }

  lemma {:induction false} LaneOfAll(ts: seq<Txn>, own: Kind, other: Kind)
    requires own != other && forall i :: 0 <= i < |ts| ==> ts[i].kind == own
    ensures Lane(ts, own) == ts && Lane(ts, other) == []
  {
    if ts != [] {
      LaneOfAll(ts[..|ts| - 1], own, other);
    }
  }

  /** The lanes of the commits are the two pipelines. */
  lemma {:induction false} LanesCommitted(trace: seq<Action>)
    ensures Lane(Committed(trace), Write) == Pipeline(Run(trace))
    ensures Lane(Committed(trace), Sync) == SyncPipeline(Run(trace))
    ensures forall t :: t in Committed(trace) ==> t.kind == Write || t.kind == Sync
  {
    hide Next, Pipeline, SyncPipeline, Inv;
    if trace == [] {
      EmptyPipelines();
    } else {
      var before, a := trace[..|trace| - 1], trace[|trace| - 1];
      LanesCommitted(before);
      Reachable(before);
      PipelineStep(Run(before), a);
      SyncPipelineStep(Run(before), a);
      if Arrives(a) {
        LaneOfOne(Committed(before), Queued(Run(before), a.txn), Write);
        LaneOfOne(Committed(before), Queued(Run(before), a.txn), Sync);
      } else {
        assert Committed(before) + [] == Committed(before);
      }
    }
  }

  lemma EmptyPipelines()
    ensures Pipeline(Run([])) == [] && SyncPipeline(Run([])) == []
  {}

  lemma LaneOfOne(ts: seq<Txn>, t: Txn, kind: Kind)
    ensures Lane(ts + [t], kind) == Lane(ts, kind) + if t.kind == kind then [t] else []
  {
    assert (ts + [t])[..|ts|] == ts;
  }

  /** What a step adds to the two logs of hand-overs. */
  lemma LogsGrow(s: State, a: Action)
    requires Inv(s)
    ensures var s', c := Next(s, a), HandsOver(s, a);
            && s'.sent == s.sent + (if a.Handler? && c.Some? then [c.value] else [])
            && s'.syncLog == s.syncLog + (if a.SyncSend? && c.Some? then [c.value] else [])
  {
    hide ProcessSyncStep, SkipSyncStep, FillStep;
    if a.Handler? {
      HandlerKeepsSyncLog(s, a.stop);
      HandlerSends(s, a.stop);
    }
  }

  lemma HandlerSends(s: State, stop: bool)
    ensures HandlerStep(s, stop).sent ==
            if s.pc.Transfer? && s.running.Some? then s.sent + [s.running.value.(transfering := true)] else s.sent
  {}

  /** Members of a handed-over c_txn are the next of their lane. */
  lemma NextOfLane(trace: seq<Action>, a: Action)
    requires HandsOver(Run(trace), a).Some?
    ensures var s, c := Run(trace), HandsOver(Run(trace), a).value;
            && c.txns != [] && (forall t :: t in c.txns ==> t.kind == if a.Handler? then Write else Sync)
            && (if a.Handler? then Unsent(s) == c.txns else SyncUnsent(s) == c.txns)
  {
    hide Run, Committed, Lane, AllTxns;
    var s := Run(trace);
    Reachable(trace);
    LanesCommitted(trace);
    LaneMembers(Committed(trace), Write);
    LaneMembers(Committed(trace), Sync);
    var c := HandsOver(s, a).value;
    if a.Handler? {
      assert forall t :: t in c.txns ==> t in Pipeline(s);
    } else {
      assert forall t :: t in c.txns ==> t in SyncPipeline(s);
    }
  }

  lemma {:induction false} LanesHanded(trace: seq<Action>)
    ensures Lane(AllTxns(Handed(trace)), Write) == AllTxns(Run(trace).sent)
    ensures Lane(AllTxns(Handed(trace)), Sync) == AllTxns(Run(trace).syncLog)
  {
    hide Next, Inv, HandsOver;
    if trace != [] {
      var before, a := trace[..|trace| - 1], trace[|trace| - 1];
      LanesHanded(before);
      Reachable(before);
      LogsGrow(Run(before), a);
      var c := HandsOver(Run(before), a);
      if c.Some? {
        OnlyTwoHand(Run(before), a);
        NextOfLane(before, a);
        LanesSnoc(before, a);
      } else {
        NothingAdded(Handed(before), Run(before).sent, Run(before).syncLog);
      }
    }
  }

  lemma NothingAdded(handed: seq<CTxn>, sent: seq<CTxn>, syncLog: seq<CTxn>)
    ensures handed + [] == handed && sent + [] == sent && syncLog + [] == syncLog
  {}

  lemma OnlyTwoHand(s: State, a: Action)
    requires HandsOver(s, a).Some?
    ensures a.Handler? || a.SyncSend?
  {}

  lemma LanesSnoc(before: seq<Action>, a: Action)
    requires HandsOver(Run(before), a).Some? && (a.Handler? || a.SyncSend?)
    requires var c := HandsOver(Run(before), a).value; forall t :: t in c.txns ==> t.kind == if a.Handler? then Write else Sync
    requires Lane(AllTxns(Handed(before)), Write) == AllTxns(Run(before).sent)
    requires Lane(AllTxns(Handed(before)), Sync) == AllTxns(Run(before).syncLog)
    ensures var c, all := HandsOver(Run(before), a).value, AllTxns(Handed(before) + [HandsOver(Run(before), a).value]);
            && Lane(all, Write) == AllTxns(Run(before).sent + if a.Handler? then [c] else [])
            && Lane(all, Sync) == AllTxns(Run(before).syncLog + if a.SyncSend? then [c] else [])
  {
    hide AllTxns, Run, HandsOver, Handed, Lane;
    var s, c := Run(before), HandsOver(Run(before), a).value;
    AllTxnsSnoc(Handed(before), c);
    AllTxnsSnoc(s.sent, c);
    AllTxnsSnoc(s.syncLog, c);
    LaneConcat(AllTxns(Handed(before)), c.txns, Write);
    LaneConcat(AllTxns(Handed(before)), c.txns, Sync);
    if a.Handler? {
      LaneOfAll(c.txns, Write, Sync);
    } else {
      LaneOfAll(c.txns, Sync, Write);
    }
    assert s.sent + [] == s.sent && s.syncLog + [] == s.syncLog;
  }

  // Commit numbers.

  lemma {:induction false} CommitsAscend(trace: seq<Action>)
    ensures NoWrap(Run(trace)) ==> Run(trace).nextId == Run(trace).issued + 1 && Ascending(Committed(trace), Run(trace).nextId)
  {
    hide Next, Ascending;
    if trace == [] {
      NoneAscend();
    } else {
      var before, a := trace[..|trace| - 1], trace[|trace| - 1];
      CommitsAscend(before);
      var s := Run(before);
      Issues(s, a);
      if !Arrives(a) {
        assert Committed(before) + [] == Committed(before);
      }
      if NoWrap(Run(trace)) && Next(s, a).issued != s.issued {
        var t := if a.Commit? then Queued(s, a.txn) else Txn(s.nextId, Write, [], 0, 0, true);
        AscendingSnoc(Committed(before), t, s.nextId);
      }
    }
  }

  lemma NoneAscend()
    ensures Ascending(Committed([]), Run([]).nextId) && Run([]).nextId == Run([]).issued + 1
  {}

  lemma Issues(s: State, a: Action)
    ensures var s' := Next(s, a);
            || (s'.issued == s.issued && s'.nextId == s.nextId && !Arrives(a))
            || (s'.issued == s.issued + 1 && s'.nextId == Add32(s.nextId, 1))
  {
    hide ProcessSyncStep, SkipSyncStep, FillStep, SyncFillStep;
    HandlerTakesNoId(s, if a.Handler? then a.stop else false);
  }

  // The condition.

  /** Transactions of the other kind that are committed and not handed over. */
  function OtherLane(s: State, a: Action): seq<Txn> {
    if a.Handler? then SyncUnsent(s) + s.syncList else Unsent(s) + s.txnList
  }

  /** No transaction of the other kind committed before the last member of the c_txn still waits when it is handed over. */
  ghost predicate Clear(s: State, a: Action) {
    var c := HandsOver(s, a);
    c.Some? && c.value.txns != [] ==>
      forall t :: t in OtherLane(s, a) ==> c.value.txns[|c.value.txns| - 1].id < t.id
  }

  lemma LaneHead(r: seq<Txn>, kind: Kind)
    requires r != []
    ensures Lane(r, kind) == (if r[0].kind == kind then [r[0]] else []) + Lane(r[1..], kind)
  {
    assert r == [r[0]] + r[1..];
    LaneConcat([r[0]], r[1..], kind);
    LaneOfOne([], r[0], kind);
    assert [] + [r[0]] == [r[0]];
  }

  lemma HeadIsLeast(r: seq<Txn>, bound: nat, t: Txn)
    requires Ascending(r, bound) && r != [] && t in r[1..]
    ensures r[0].id < t.id
  {
    var i :| 0 <= i < |r[1..]| && r[1..][i] == t;
    assert r[i + 1] == t;
  }

  /** The head of the sequence belongs to the other lane: the members cannot come first, and it precedes them. */
  lemma OtherFirst(r: seq<Txn>, members: seq<Txn>, rest: seq<Txn>, own: Kind, other: Kind, bound: nat)
    requires Ascending(r, bound) && own != other && r != [] && r[0].kind == other
    requires members != [] && Lane(r, own) == members + rest
    ensures !(members <= r)
    ensures r[0] in Lane(r, other) && r[0].id < members[|members| - 1].id
  {
    hide Lane, Ascending;
    LaneHead(r, own);
    LaneHead(r, other);
    LaneMembers(r[1..], own);
    var last := members[|members| - 1];
    assert (members + rest)[|members| - 1] == last && (members + rest)[0] == members[0];
    assert [] + Lane(r[1..], own) == Lane(r[1..], own);
    assert last in Lane(r[1..], own) && members[0] in Lane(r[1..], own);
    HeadIsLeast(r, bound, last);
    assert ([r[0]] + Lane(r[1..], other))[0] == r[0];
  }

  /**
   Of an ascending sequence with two lanes, the next members of one lane come first exactly
   when nothing of the other lane precedes the last of them.
   */
  lemma {:induction false} FirstOfLane(r: seq<Txn>, members: seq<Txn>, rest: seq<Txn>, own: Kind, other: Kind, bound: nat)
    requires Ascending(r, bound) && own != other && forall t :: t in r ==> t.kind == own || t.kind == other
    requires members != [] && Lane(r, own) == members + rest
    ensures members <= r <==> forall t :: t in Lane(r, other) ==> members[|members| - 1].id < t.id
    decreases |r|
  {
    hide Lane, Ascending;
    if r == [] {
      NoLane(own);
      assert false;
    }
    var x, tail := r[0], r[1..];
    assert x in r;
    if x.kind == own {
      LaneHead(r, own);
      LaneHead(r, other);
      assert (members + rest)[0] == members[0] == x && (members + rest)[1..] == members[1..] + rest;
      assert ([x] + Lane(tail, own))[1..] == Lane(tail, own) && [] + Lane(tail, other) == Lane(tail, other);
      assert members == [x] + members[1..];
      if members[1..] != [] {
        SuffixAscends(r, 1, bound);
        FirstOfLane(tail, members[1..], rest, own, other, bound);
        assert members <= r <==> members[1..] <= tail;
      } else {
        LaneMembers(tail, other);
        forall t | t in Lane(tail, other)
          ensures x.id < t.id
        {
          HeadIsLeast(r, bound, t);
        }
      }
    } else {
      OtherFirst(r, members, rest, own, other, bound);
    }
  }

  lemma NoLane(kind: Kind)
    ensures Lane([], kind) == []
  {}

  /** One step keeps the order exactly when it is clear. */
  lemma StepInOrder(before: seq<Action>, a: Action)
    requires InOrder(before) && NoWrap(Run(before))
    ensures InOrder(before + [a]) <==> Clear(Run(before), a)
  {
    hide Run, Committed, Handed, AllTxns, Lane, Ascending, Clear;
    var s := Run(before);
    GrowsBy(before, a);
    var c := HandsOver(s, a);
    if c.Some? {
      OnlyTwoHand(s, a);
      NextOfLane(before, a);
      Remaining(before);
      var h, all := AllTxns(Handed(before)), Committed(before);
      AllTxnsSnoc(Handed(before), c.value);
      assert h + c.value.txns <= all <==> c.value.txns <= all[|h|..];
      ClearIs(s, a);
      CommitsAscend(before);
      SuffixAscends(all, |h|, s.nextId);
      LanesCommitted(before);
      if a.Handler? {
        FirstOfLane(all[|h|..], c.value.txns, s.txnList, Write, Sync, s.nextId);
      } else {
        FirstOfLane(all[|h|..], c.value.txns, s.syncList, Sync, Write, s.nextId);
      }
    } else {
      assert Handed(before) + [] == Handed(before);
      ClearIs(s, a);
    }
  }

  lemma ClearIs(s: State, a: Action)
    ensures HandsOver(s, a).None? ==> Clear(s, a)
    ensures HandsOver(s, a).Some? && HandsOver(s, a).value.txns != [] ==>
      var members := HandsOver(s, a).value.txns;
      Clear(s, a) <==> forall t :: t in OtherLane(s, a) ==> members[|members| - 1].id < t.id
  {}

  lemma GrowsBy(before: seq<Action>, a: Action)
    ensures var s := Run(before);
            && Handed(before + [a]) == Handed(before) + (match HandsOver(s, a) case Some(c) => [c] case None => [])
            && Committed(before) <= Committed(before + [a])
            && (HandsOver(s, a).Some? ==> Committed(before + [a]) == Committed(before))
  {
    hide Run;
    assert (before + [a])[..|before|] == before;
  }

  lemma SuffixAscends(ts: seq<Txn>, n: nat, bound: nat)
    requires Ascending(ts, bound) && n <= |ts|
    ensures Ascending(ts[n..], bound)
  {}

  lemma Cancel(xs: seq<Txn>, ys: seq<Txn>, zs: seq<Txn>)
    ensures xs + ys == xs + zs ==> ys == zs
  {
    assert (xs + ys)[|xs|..] == ys && (xs + zs)[|xs|..] == zs;
  }

  /** The commits that are not handed over yet, lane by lane. */
  lemma Remaining(trace: seq<Action>)
    requires InOrder(trace)
    ensures var s, r := Run(trace), Committed(trace)[|AllTxns(Handed(trace))|..];
            && Lane(r, Write) == Unsent(s) + s.txnList && Lane(r, Sync) == SyncUnsent(s) + s.syncList
            && forall t :: t in r ==> t.kind == Write || t.kind == Sync
  {
    hide Run, Committed, Handed, AllTxns, Lane;
    var s, h, all := Run(trace), AllTxns(Handed(trace)), Committed(trace);
    var r := all[|h|..];
    LanesCommitted(trace);
    LanesHanded(trace);
    assert all == h + r;
    LaneConcat(h, r, Write);
    LaneConcat(h, r, Sync);
    Cancel(AllTxns(s.sent), Lane(r, Write), Unsent(s) + s.txnList);
    Cancel(AllTxns(s.syncLog), Lane(r, Sync), SyncUnsent(s) + s.syncList);
    assert Pipeline(s) == AllTxns(s.sent) + (Unsent(s) + s.txnList);
    assert SyncPipeline(s) == AllTxns(s.syncLog) + (SyncUnsent(s) + s.syncList);
    assert forall t :: t in r ==> t in all;
  }

  /** At every hand-over of the run. */
  ghost predicate AlwaysClear(trace: seq<Action>) {
    trace == [] || (AlwaysClear(trace[..|trace| - 1]) && Clear(Run(trace[..|trace| - 1]), trace[|trace| - 1]))
  }

  lemma {:induction false} LaneLengths(ts: seq<Txn>)
    requires forall t :: t in ts ==> t.kind == Write || t.kind == Sync
    ensures |ts| == |Lane(ts, Write)| + |Lane(ts, Sync)|
  {
    if ts != [] {
      LaneLengths(ts[..|ts| - 1]);
      assert ts[|ts| - 1] in ts;
    }
  }

  lemma {:induction false} HandedKinds(trace: seq<Action>)
    ensures forall t :: t in AllTxns(Handed(trace)) ==> t.kind == Write || t.kind == Sync
  {
    hide Run, HandsOver;
    if trace != [] {
      var before, a := trace[..|trace| - 1], trace[|trace| - 1];
      HandedKinds(before);
      if HandsOver(Run(before), a).Some? {
        NextOfLane(before, a);
        AllTxnsSnoc(Handed(before), HandsOver(Run(before), a).value);
      } else {
        assert Handed(before) + [] == Handed(before);
      }
    }
  }

  /** No more is handed over than was committed. */
  lemma HandedWithinCommitted(trace: seq<Action>)
    ensures |AllTxns(Handed(trace))| <= |Committed(trace)|
  {
    hide Run, Handed, Committed, AllTxns, Lane;
    LanesHanded(trace);
    LanesCommitted(trace);
    HandedKinds(trace);
    LaneLengths(AllTxns(Handed(trace)));
    LaneLengths(Committed(trace));
  }

  /** Hand-overs and commits only append, so order once lost is not regained. */
  lemma WasInOrder(before: seq<Action>, a: Action)
    ensures InOrder(before + [a]) ==> InOrder(before)
  {
    hide Run, Handed, Committed, AllTxns, HandsOver;
    GrowsBy(before, a);
    HandedWithinCommitted(before);
    if HandsOver(Run(before), a).Some? {
      AllTxnsSnoc(Handed(before), HandsOver(Run(before), a).value);
    } else {
      assert Handed(before) + [] == Handed(before);
    }
  }

  /**
   Without id wrap, a run has handed the commits of both kinds over in commit order if and only
   if every hand-over was clear.
   */
  lemma {:induction false} MixedOrderExactly(trace: seq<Action>)
    requires NoWrap(Run(trace))
    ensures InOrder(trace) <==> AlwaysClear(trace)
  {
    hide Run, InOrder, Clear;
    if trace == [] {
      StartsInOrder();
    } else {
      var before, a := trace[..|trace| - 1], trace[|trace| - 1];
      assert trace == before + [a];
      StillNoWrap(before, a);
      MixedOrderExactly(before);
      WasInOrder(before, a);
      if InOrder(before) {
        StepInOrder(before, a);
      }
    }
  }

  lemma StartsInOrder()
    ensures InOrder([])
  {}

  lemma StillNoWrap(before: seq<Action>, a: Action)
    requires NoWrap(Run(before + [a]))
    ensures NoWrap(Run(before))
  {
    hide Run, Next;
    RunSnoc(before, a);
    Issues(Run(before), a);
  }

  // The store.

  /** The non-empty commits of both kinds in a run, in order. */
  function AllCommits(trace: seq<Action>): seq<seq<TxnBuf>> {
    if trace == [] then []
    else
      var before, a := trace[..|trace| - 1], trace[|trace| - 1];
      AllCommits(before) + if Arrives(a) then [a.txn.bufs] else []
  }

  lemma {:induction false} CommittedPayloads(trace: seq<Action>)
    ensures Payloads(Committed(trace)) == AllCommits(trace)
  {
    hide Run;
    if trace != [] {
      CommittedPayloads(trace[..|trace| - 1]);
    }
  }

  /**
   In a run of clear hand-overs, what both kinds of c_txns leave in the store is what the
   commits, one by one in commit order, would.
   */
  lemma StoreFollowsMixedOrder(trace: seq<Action>, m: Store)
    requires NoWrap(Run(trace)) && AlwaysClear(trace)
    ensures var n := |AllTxns(Handed(trace))|;
            && n <= |AllCommits(trace)|
            && AppliedLog(m, Handed(trace)) == AppliedOneByOne(m, AllCommits(trace)[..n])
  {
    hide Run, Handed, Committed, AllCommits, AppliedLog, AppliedOneByOne, AppliedAll, AllTxns, Bufs;
    MixedOrderExactly(trace);
    CommittedPayloads(trace);
    var h := AllTxns(Handed(trace));
    LogIsAll(m, Handed(trace));
    OneByOneIsAll(m, h);
    assert Payloads(h) == Payloads(Committed(trace))[..|h|];
  }

  // A sync commit that overtakes.

  lemma {:induction false} HandedCount(trace: seq<Action>)
    ensures |Handed(trace)| == |Run(trace).sent| + |Run(trace).syncLog|
  {
    hide Next, Inv, HandsOver;
    if trace != [] {
      var before, a := trace[..|trace| - 1], trace[|trace| - 1];
      HandedCount(before);
      Reachable(before);
      LogsGrow(Run(before), a);
      if HandsOver(Run(before), a).Some? {
        OnlyTwoHand(Run(before), a);
      }
    }
  }

  /** Steps of the handler commit nothing, and only add to what is handed over. */
  lemma {:induction false} HandlersCommitNothing(trace: seq<Action>, n: nat)
    ensures AllCommits(trace + Handlers(n)) == AllCommits(trace) && Committed(trace + Handlers(n)) == Committed(trace)
    ensures Handed(trace) <= Handed(trace + Handlers(n))
    decreases n
  {
    if n == 0 {
      assert trace + Handlers(0) == trace;
    } else {
      OneMoreHandler(trace, n);
      hide Run, Committed, AllCommits, Handed, Handlers, HandsOver;
      HandlersCommitNothing(trace, n - 1);
      NoCommitSnoc(trace + Handlers(n - 1), Action.Handler(false));
      GrowsBy(trace + Handlers(n - 1), Action.Handler(false));
    }
  }

  lemma OneMoreHandler(trace: seq<Action>, n: nat)
    requires n > 0
    ensures trace + Handlers(n) == (trace + Handlers(n - 1)) + [Action.Handler(false)]
  {}

  lemma NoCommitSnoc(trace: seq<Action>, a: Action)
    requires !Arrives(a)
    ensures Committed(trace + [a]) == Committed(trace) && AllCommits(trace + [a]) == AllCommits(trace)
  {
    hide Run;
    assert (trace + [a])[..|trace|] == trace;
  }

  /** A transaction of one record, as the inserts charge it. */
  function OneRecord(kind: Kind, b: TxnBuf): Txn { Txn(0, kind, [b], 1, (8 + TxnBufSize(b)) % U32, false) }

  /** A non-empty orderless transaction and a non-empty sync one. */
  predicate Pair(w: Txn, y: Txn) { w.kind == Write && y.kind == Sync && w.cnt != 0 && y.cnt != 0 }

  function First(w: Txn): Txn { w.(id := 1, committed := true) }

  function Second(y: Txn): Txn { y.(id := 2, committed := true) }

  /** An orderless commit, a sync commit, the sync part of the handler's pass, and the sync hand-over. */
  function OvertakingRun(w: Txn, y: Txn): seq<Action> {
    [Action.Commit(w), Action.Commit(y)] + Handlers(5) + [SyncSend]
  }

  function BothQueued(w: Txn, y: Txn): State {
    INIT.(nextId := 3, issued := 2, txnCnt := 2, syncingCnt := 1, txnList := [First(w)], syncList := [Second(y)])
  }

  lemma QueuesBoth(w: Txn, y: Txn)
    requires Pair(w, y)
    ensures var commits := [Action.Commit(w), Action.Commit(y)];
            && Run(commits) == BothQueued(w, y) && Committed(commits) == [First(w), Second(y)]
            && AllCommits(commits) == [w.bufs, y.bufs]
  {
    hide Run, Committed, AllCommits;
    var none: seq<Action>, one: seq<Action> := [], [Action.Commit(w)];
    NothingYet();
    RunSnoc(none, Action.Commit(w));
    CommitsSnoc(none, Action.Commit(w));
    assert none + [Action.Commit(w)] == one;
    RunSnoc(one, Action.Commit(y));
    CommitsSnoc(one, Action.Commit(y));
    assert one + [Action.Commit(y)] == [Action.Commit(w), Action.Commit(y)];
    assert [] + [First(w)] == [First(w)] && [] + [Second(y)] == [Second(y)] && [] + [w.bufs] == [w.bufs];
  }

  lemma NothingYet()
    ensures Run([]) == INIT && Committed([]) == [] && AllCommits([]) == []
  {}

  lemma CommitsSnoc(trace: seq<Action>, a: Action)
    requires Arrives(a)
    ensures Committed(trace + [a]) == Committed(trace) + [Queued(Run(trace), a.txn)]
    ensures AllCommits(trace + [a]) == AllCommits(trace) + [a.txn.bufs]
  {
    hide Run;
    assert (trace + [a])[..|trace|] == trace;
  }

  /** The sync c_txn is on its way, the orderless transaction still queued. */
  ghost predicate SyncAhead(s: State, w: Txn, y: Txn) {
    && s.pc == SkipSync && s.txnList == [First(w)] && s.running == None && s.sent == [] && s.issued == 2
    && s.orderedCnt == 1 && s.orderlessCnt == 0 && s.runningCnt == 0 && s.runningId == 0
    && s.syncC.Some? && s.syncC.value.txns == [Second(y)]
  }

  /** A sync c_txn for one transaction, on its way. */
  function SyncCTxn(y: Txn): CTxn { CTxn(y.id, [y], y.size % U32, y.cnt % U32, true, false, true, 1) }

  /** The sync part of a pass, for a queue of one transaction. */
  lemma SyncPartRuns(q: State, y: Txn)
    requires q.pc == Top && q.syncList == [y] && y.committed && y.cnt != 0 && q.syncC == None && q.orderedCnt == 0
    ensures AfterHandlers(q, 5) ==
            q.(pc := SkipSync, syncList := [], txnCnt := Sub32(q.txnCnt, 1), orderedCnt := 1, syncC := Some(SyncCTxn(y)))
  {
    hide AfterHandlers, Sub32;
    AfterFew(q);
    var s2 := AfterHandlers(q, 2);
    assert s2 == q.(pc := SyncCreate);
    AfterAdd(q, 2, 2);
    AfterFew(s2);
    var s4 := AfterHandlers(q, 4);
    assert [] + [y] == [y];
    assert s4 == q.(pc := ProcessSync, syncList := [], txnCnt := Sub32(q.txnCnt, 1), orderedCnt := 1,
                    syncC := Some(SyncCTxn(y).(transfering := false)));
    AfterAdd(q, 4, 1);
    AfterOne(s4);
  }

  lemma AfterOne(s: State)
    ensures AfterHandlers(s, 1) == HandlerStep(s, false)
  {
    hide HandlerStep;
    assert AfterHandlers(s, 0) == s;
  }

  lemma Overtakes(w: Txn, y: Txn)
    requires Pair(w, y)
    ensures var trace := OvertakingRun(w, y);
            && SyncAhead(Run(trace), w, y) && AllTxns(Handed(trace)) == [Second(y)] && |Handed(trace)| == 1
            && Committed(trace) == [First(w), Second(y)] && AllCommits(trace) == [w.bufs, y.bufs]
  {
    hide Run, Handed, Handlers, AfterHandlers, Committed, AllCommits;
    var commits := [Action.Commit(w), Action.Commit(y)];
    var before := commits + Handlers(5);
    QueuesBoth(w, y);
    RunHandlers(commits, 5);
    SyncPartRuns(BothQueued(w, y), Second(y));
    HandlersCommitNothing(commits, 5);
    HandedCount(before);
    RunSnoc(before, SyncSend);
    GrowsBy(before, SyncSend);
    NoCommitSnoc(before, SyncSend);
    var c := Run(before).syncC.value;
    assert [] + [c] == [c];
    AllTxnsSnoc([], c);
    assert [] + c.txns == c.txns;
  }

  /**
   For every pair of commits there is a run that hands the later, sync one over while the
   earlier, orderless one still waits.
   */
  lemma SyncOvertakes(w: Txn, y: Txn)
    requires Pair(w, y)
    ensures NoWrap(Run(OvertakingRun(w, y))) && !InOrder(OvertakingRun(w, y))
  {
    hide Run, Handed, AllTxns, Committed, OvertakingRun;
    Overtakes(w, y);
    assert [First(w), Second(y)][0].id != [Second(y)][0].id;
  }

  /** The same run, with the orderless part of the pass. */
  function OvertakenRun(w: Txn, y: Txn): seq<Action> {
    OvertakingRun(w, y) + Handlers(4) + [Action.Handler(false)]
  }

  lemma OrderlessPartRuns(s: State, w: Txn, y: Txn)
    requires SyncAhead(s, w, y) && w.cnt != 0
    ensures var s' := AfterHandlers(s, 4);
            && s'.pc == Transfer(true) && s'.running.Some? && s'.running.value.txns == [First(w)]
            && s'.sent == [] && s'.syncLog == s.syncLog
  {
    hide AfterHandlers;
    AfterFew(s);
    var f := AfterHandlers(s, 2);
    assert f == s.(pc := Fill, orderlessCnt := 1);
    AfterAdd(s, 2, 2);
    AfterFew(f);
    FillsFirst(f);
  }

  lemma OvertakenHanded(w: Txn, y: Txn)
    requires Pair(w, y)
    ensures AllTxns(Handed(OvertakenRun(w, y))) == [Second(y), First(w)] && AllCommits(OvertakenRun(w, y)) == [w.bufs, y.bufs]
  {
    hide Run, Handed, Handlers, AfterHandlers, Committed, AllCommits, AllTxns, OvertakingRun;
    var first := OvertakingRun(w, y);
    var before := first + Handlers(4);
    Overtakes(w, y);
    RunHandlers(first, 4);
    OrderlessPartRuns(Run(first), w, y);
    HandedCount(first);
    HandedCount(before);
    HandlersCommitNothing(first, 4);
    assert Handed(before) == Handed(first);
    GrowsBy(before, Action.Handler(false));
    HandlersCommitNothing(before, 1);
    assert before + Handlers(1) == OvertakenRun(w, y) by { OneHandler(); }
    var c := Run(before).running.value.(transfering := true);
    AllTxnsSnoc(Handed(before), c);
    assert [Second(y)] + [First(w)] == [Second(y), First(w)];
  }

  lemma OneHandler()
    ensures Handlers(1) == [Action.Handler(false)]
  {}

  lemma OneRecordIsAccounted(kind: Kind, b: TxnBuf)
    ensures Accounted(OneRecord(kind, b))
  {
    assert [b][..0] == [];
  }

  /**
   So after an fsync the store may end with older metadata: an orderless commit sets the
   metadata of a key, a later fsync sets it again, and the older value is the one that stays.
   */
  lemma OvertakenStore(m: Store, w: TxnBuf, y: TxnBuf)
    requires w.ty.MetaSet? && y.ty.MetaSet? && y.key == w.key && WellFormed(w) && WellFormed(y)
    ensures var a, b := OneRecord(Write, w), OneRecord(Sync, y);
            var trace := OvertakenRun(a, b);
            var ended, meant := AppliedLog(m, Handed(trace)), AppliedOneByOne(m, AllCommits(trace));
            && Accounted(a) && Accounted(b)
            && w.key in ended && ended[w.key] == w.data && w.key in meant && meant[w.key] == y.data
  {
    hide Run, Handed, AllTxns, AllCommits, OvertakenRun, AppliedLog, AppliedOneByOne, AppliedAll, Applied, Bufs, Accounted;
    var a, b := OneRecord(Write, w), OneRecord(Sync, y);
    var trace := OvertakenRun(a, b);
    OneRecordIsAccounted(Write, w);
    OneRecordIsAccounted(Sync, y);
    OvertakenHanded(a, b);
    LogIsAll(m, Handed(trace));
    OneByOneIsAll(m, [First(a), Second(b)]);
    assert Payloads([First(a), Second(b)]) == [[w], [y]];
    TwoRecords(m, Second(b), First(a));
    TwoRecords(m, First(a), Second(b));
    SetTwice(m, w, y);
    SetTwice(m, y, w);
  }

  lemma SetTwice(m: Store, w: TxnBuf, y: TxnBuf)
    requires w.ty.MetaSet? && y.ty.MetaSet? && y.key == w.key
    ensures w.key in Applied(Applied(m, y), w) && Applied(Applied(m, y), w)[w.key] == w.data
  {}

  lemma TwoRecords(m: Store, t: Txn, u: Txn)
    requires |t.bufs| == 1 && |u.bufs| == 1
    ensures AppliedAll(m, Bufs([t, u])) == Applied(Applied(m, t.bufs[0]), u.bufs[0])
  {
    hide Applied;
    assert [t, u][..1] == [t] && [t][..0] == [];
    assert Bufs([t]) == [] + t.bufs && Bufs([t, u]) == Bufs([t]) + u.bufs;
    var x, y := t.bufs[0], u.bufs[0];
    assert Bufs([t, u]) == [x, y];
    assert [x, y][..1] == [x] && [x][..0] == [];
    assert AppliedAll(m, [x]) == Applied(m, x);
  }
}
