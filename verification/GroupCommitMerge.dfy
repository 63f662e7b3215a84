/**
 Merging.  The handler puts a transaction into the running c_txn exactly when it fits, so the
 hand-overs are the greedy packing of the queue, cut only where the queue ran empty.
 */
module GroupCommitMerge {
  import opened Bytes
  import opened TxnTypes
  import opened GroupCommit
  import opened GroupCommitCounters
  import opened GroupCommitOrder
  import opened GroupCommitIds

  /** What the limit leaves after `cur` and `t` is negative as a signed 32-bit number. */
  predicate NoRoom(cur: seq<Txn>, t: Txn) {
    (C_TXN_LIMIT_BYTES - SumSizes(cur) - t.size) % U32 >= U32 / 2
  }

  lemma SameRemainder(a: int, s: nat, x: nat)
    ensures (a - s % U32 - x) % U32 == (a - s - x) % U32
  {
    assert a - s % U32 - x == a - s - x + U32 * (s / U32);
  }

  /** The test the handler makes on the recorded size. */
  lemma TestIsNoRoom(c: CTxn, t: Txn)
    requires c.size == SumSizes(c.txns) % U32
    ensures Diff(c, t) < 0 <==> NoRoom(c.txns, t)
  {
    SameRemainder(C_TXN_LIMIT_BYTES, SumSizes(c.txns), t.size);
  }

  /** Up to 2 GiB above the limit, there is no room exactly when the sum passes the limit. */
  lemma NoRoomExactly(cur: seq<Txn>, t: Txn)
    requires SumSizes(cur) + t.size <= C_TXN_LIMIT_BYTES + U32 / 2
    ensures NoRoom(cur, t) <==> SumSizes(cur) + t.size > C_TXN_LIMIT_BYTES
  {
    hide SumSizes;
  }

  // Every run.

  /** Every member but the first was let in because there was room. */
  ghost predicate LetIn(c: CTxn) {
    forall j :: 0 < j < |c.txns| ==> !NoRoom(c.txns[..j], c.txns[j])
  }

  ghost predicate MergeOk(s: State) {
    && (s.running.Some? ==> LetIn(s.running.value))
    && (s.pc == Transfer(false) ==> s.running.Some? && s.txnList != [] && NoRoom(s.running.value.txns, s.txnList[0]))
  }

  lemma LetInSnoc(c: CTxn, t: Txn)
    requires LetIn(c) && (c.txns == [] || !NoRoom(c.txns, t))
    ensures LetIn(Insert(c, t))
  {
    hide NoRoom;
    var c' := Insert(c, t);
    if t.cnt != 0 {
      forall j | 0 < j < |c'.txns|
        ensures !NoRoom(c'.txns[..j], c'.txns[j])
      {
        assert c'.txns[..j] == c.txns[..j];
        assert j == |c.txns| ==> c.txns[..j] == c.txns;
      }
    }
  }

  lemma MergeStep(s: State, a: Action)
    requires Inv(s) && PackedOk(s) && MergeOk(s)
    ensures MergeOk(Next(s, a))
  {
    hide NoRoom, LetIn, ProcessSyncStep, SkipSyncStep, FillStep, PackedOk;
    if a.Handler? {
      match s.pc
      case ProcessSync => ProcessSyncFrame(s); ProcessSyncGoesOn(s);
      case SkipSync => MergeSkipSync(s);
      case Fill => MergeFill(s);
      case Transfer(now) => SameMembers(s.running.value, s.running.value.(transfering := true));
      case _ =>
    }
  }

  lemma SameMembers(c: CTxn, d: CTxn)
    requires c.txns == d.txns && LetIn(c)
    ensures LetIn(d)
  {}

  lemma MergeSkipSync(s: State)
    requires Inv(s) && PackedOk(s) && MergeOk(s) && s.pc.SkipSync?
    ensures MergeOk(SkipSyncStep(s))
  {
    hide NoRoom, LetIn, Diff, Insert, Sub32, SumSizes;
    if s.running.Some? {
      var c := s.running.value;
      SameMembers(c, CloseGroup(c, s.runningCnt));
      if s.txnList != [] {
        TestIsNoRoom(c, s.txnList[0]);
        if Diff(c, s.txnList[0]) >= 0 {
          LetInSnoc(c, s.txnList[0]);
        }
      }
    }
  }

  lemma MergeFill(s: State)
    requires Inv(s) && s.pc.Fill?
    ensures MergeOk(FillStep(s))
  {
    hide NoRoom, Sub32;
  }

  lemma {:induction false} MergeReachable(trace: seq<Action>)
    ensures MergeOk(Run(trace))
  {
    hide Next, Inv, PackedOk, MergeOk;
    if trace == [] {
      NothingMerged();
    } else {
      var before := trace[..|trace| - 1];
      MergeReachable(before);
      Reachable(before);
      PackedReachable(before);
      MergeStep(Run(before), trace[|trace| - 1]);
    }
  }

  lemma NothingMerged()
    ensures MergeOk(Run([]))
  {}

  /** For each orderless hand-over of a run, whether the handler made it because the head of the queue had no room. */
  function FoundFull(trace: seq<Action>): seq<bool> {
    if trace == [] then []
    else
      var before, a := trace[..|trace| - 1], trace[|trace| - 1];
      var s := Run(before);
      FoundFull(before) + if a.Handler? && s.pc.Transfer? && s.running.Some? then [!s.pc.now] else []
  }

  /** The number of transactions up to and including the c_txn at `i`. */
  function UpTo(log: seq<CTxn>, i: nat): nat
    requires i < |log|
  {
    |AllTxns(log[..i + 1])|
  }

  /**
   Each c_txn let in only what had room.  One found full has no room for the transaction that
   follows its last member; any other closed its group with the queue empty.
   */
  ghost predicate Greedy(log: seq<CTxn>, full: seq<bool>, pipe: seq<Txn>) {
    && |full| == |log|
    && forall i :: 0 <= i < |log| ==>
         && LetIn(log[i])
         && if full[i] then UpTo(log, i) < |pipe| && NoRoom(log[i].txns, pipe[UpTo(log, i)]) else log[i].flush
  }

  lemma UpToSnoc(log: seq<CTxn>, c: CTxn)
    ensures UpTo(log + [c], |log|) == |AllTxns(log)| + |c.txns|
    ensures forall i :: 0 <= i < |log| ==> UpTo(log + [c], i) == UpTo(log, i)
  {
    hide AllTxns;
    assert (log + [c])[..|log| + 1] == log + [c];
    AllTxnsSnoc(log, c);
    forall i | 0 <= i < |log|
      ensures UpTo(log + [c], i) == UpTo(log, i)
    {
      assert (log + [c])[..i + 1] == log[..i + 1];
    }
  }

  lemma GreedySnoc(log: seq<CTxn>, full: seq<bool>, pipe: seq<Txn>, c: CTxn, found: bool)
    requires Greedy(log, full, pipe) && LetIn(c)
    requires if found then |AllTxns(log)| + |c.txns| < |pipe| && NoRoom(c.txns, pipe[|AllTxns(log)| + |c.txns|]) else c.flush
    ensures Greedy(log + [c], full + [found], pipe)
  {
    hide NoRoom, LetIn, UpTo;
    UpToSnoc(log, c);
  }

  lemma GreedyGrows(log: seq<CTxn>, full: seq<bool>, pipe: seq<Txn>, longer: seq<Txn>)
    requires Greedy(log, full, pipe) && pipe <= longer
    ensures Greedy(log, full, longer)
  {
    hide NoRoom, LetIn, UpTo;
  }

  /**
   In every run the handler merges greedily: it hands a c_txn over only when the next
   transaction has no room, or there is none.
   */
  lemma {:induction false} MergesGreedily(trace: seq<Action>)
    ensures Greedy(Run(trace).sent, FoundFull(trace), Pipeline(Run(trace)))
  {
    hide Next, Inv, MergeOk, Greedy, Pipeline;
    if trace == [] {
      NoneSent();
    } else {
      var before, a := trace[..|trace| - 1], trace[|trace| - 1];
      var s := Run(before);
      MergesGreedily(before);
      Reachable(before);
      MergeReachable(before);
      PipelineStep(s, a);
      if a.Handler? && s.pc.Transfer? {
        HandsGreedily(s, a, FoundFull(before));
      } else {
        KeepsSent(s, a);
        GreedyGrows(s.sent, FoundFull(before), Pipeline(s), Pipeline(Next(s, a)));
        assert FoundFull(before) + [] == FoundFull(before);
      }
    }
  }

  lemma NoneSent()
    ensures Greedy(Run([]).sent, [], Pipeline(Run([])))
  {}

  lemma KeepsSent(s: State, a: Action)
    requires !(a.Handler? && s.pc.Transfer?)
    ensures Next(s, a).sent == s.sent
  {}

  lemma HandsGreedily(s: State, a: Action, full: seq<bool>)
    requires Inv(s) && MergeOk(s) && a.Handler? && s.pc.Transfer? && Greedy(s.sent, full, Pipeline(s))
    ensures s.running.Some? && Greedy(Next(s, a).sent, full + [!s.pc.now], Pipeline(s))
  {
    hide NoRoom, LetIn, Greedy, AllTxns;
    var c := s.running.value.(transfering := true);
    SameMembers(s.running.value, c);
    GreedySnoc(s.sent, full, Pipeline(s), c, !s.pc.now);
  }

  /**
   In every run: a c_txn found full and the first transaction of the next one are together above
   the limit, whenever they are within 2 GiB of it.
   */
  lemma FullIsFull(trace: seq<Action>, i: nat)
    requires i + 1 < |Run(trace).sent|
    ensures var sent := Run(trace).sent;
            && |FoundFull(trace)| == |sent| && sent[i + 1].txns != []
            && var sum := SumSizes(sent[i].txns) + sent[i + 1].txns[0].size;
               FoundFull(trace)[i] && sum <= C_TXN_LIMIT_BYTES + U32 / 2 ==> sum > C_TXN_LIMIT_BYTES
    ensures !FoundFull(trace)[i] ==> Run(trace).sent[i].flush
  {
    hide Run, SumSizes, FoundFull, AllTxns, LetIn, NoRoom;
    var s := Run(trace);
    MergesGreedily(trace);
    SentNonEmpty(trace);
    NextFirst(s.sent, i);
    if FoundFull(trace)[i] {
      assert Pipeline(s)[UpTo(s.sent, i)] == AllTxns(s.sent)[UpTo(s.sent, i)];
      if SumSizes(s.sent[i].txns) + s.sent[i + 1].txns[0].size <= C_TXN_LIMIT_BYTES + U32 / 2 {
        NoRoomExactly(s.sent[i].txns, s.sent[i + 1].txns[0]);
      }
    }
  }

  lemma {:induction false} NextFirst(log: seq<CTxn>, i: nat)
    requires i + 1 < |log| && log[i + 1].txns != []
    ensures UpTo(log, i) < |AllTxns(log)| && AllTxns(log)[UpTo(log, i)] == log[i + 1].txns[0]
    decreases |log|
  {
    var front, c := log[..|log| - 1], log[|log| - 1];
    if i + 2 == |log| {
      assert log[..i + 1] == front;
    } else {
      NextFirst(front, i);
      assert front[..i + 1] == log[..i + 1];
    }
  }

  // A queue nobody adds to.

  /** The greedy packing of a queue behind the members of a running c_txn. */
  function Packing(cur: seq<Txn>, queue: seq<Txn>): seq<seq<Txn>>
    decreases |queue|, |cur|
  {
    if queue == [] then if cur == [] then [] else [cur]
    else if cur == [] || !NoRoom(cur, queue[0]) then Packing(cur + [queue[0]], queue[1..])
    else [cur] + Packing([], queue)
  }

  function Members(log: seq<CTxn>): seq<seq<Txn>> { seq(|log|, i requires 0 <= i < |log| => log[i].txns) }

  lemma {:induction false} FitsInOne(cur: seq<Txn>, queue: seq<Txn>)
    requires cur + queue != [] && SumSizes(cur + queue) <= C_TXN_LIMIT_BYTES
    ensures Packing(cur, queue) == [cur + queue]
    decreases |queue|
  {
    hide NoRoom, SumSizes;
    if queue == [] {
      assert cur + queue == cur;
    } else {
      var t := queue[0];
      assert cur + queue == (cur + [t]) + queue[1..];
      SumSnoc(cur, t);
      SumPrefix(cur + [t], queue[1..]);
      NoRoomExactly(cur, t);
      FitsInOne(cur + [t], queue[1..]);
    }
  }

  lemma {:induction false} SumPrefix(xs: seq<Txn>, ys: seq<Txn>)
    ensures SumSizes(xs) <= SumSizes(xs + ys)
    decreases |ys|
  {
    if ys == [] {
      assert xs + ys == xs;
    } else {
      SumPrefix(xs, ys[..|ys| - 1]);
      assert (xs + ys)[..|xs + ys| - 1] == xs + ys[..|ys| - 1];
    }
  }

  /** A queue within the limit is packed into one c_txn. */
  lemma OneCTxnIsEnough(queue: seq<Txn>)
    requires queue != [] && SumSizes(queue) <= C_TXN_LIMIT_BYTES
    ensures Packing([], queue) == [queue]
  {
    assert [] + queue == queue;
    FitsInOne([], queue);
  }

  /** What is handed over and what the handler will make of the rest. */
  function Plan(s: State): seq<seq<Txn>> { Members(s.sent) + Packing(Unsent(s), s.txnList) }

  /** Every step of the handler follows the plan, the step that closes a group if the queue is still empty. */
  lemma PlanKept(s: State)
    requires Inv(s) && PackedOk(s) && MergeOk(s) && (s.pc == Transfer(true) ==> s.txnList == [])
    ensures Plan(HandlerStep(s, false)) == Plan(s)
  {
    hide Packing, ProcessSyncStep, SkipSyncStep, FillStep, PackedOk, NoRoom, LetIn, Members;
    match s.pc
    case ProcessSync => ProcessSyncFrame(s);
    case SkipSync => PlanSkipSync(s);
    case Fill => PlanFill(s);
    case Transfer(now) => PlanTransfer(s);
    case _ =>
  }

  lemma PlanSkipSync(s: State)
    requires Inv(s) && PackedOk(s) && s.pc.SkipSync?
    ensures Plan(SkipSyncStep(s)) == Plan(s)
  {
    hide NoRoom, Diff, Sub32, SumSizes, Members;
    if s.running.Some? && s.txnList != [] {
      TestIsNoRoom(s.running.value, s.txnList[0]);
    }
  }

  lemma PlanFill(s: State)
    requires Inv(s) && s.pc.Fill?
    ensures Plan(FillStep(s)) == Plan(s)
  {
    hide NoRoom, Sub32, Members;
    assert [] + [s.txnList[0]] == [s.txnList[0]];
  }

  lemma PlanTransfer(s: State)
    requires Inv(s) && MergeOk(s) && s.pc.Transfer? && (s.pc.now ==> s.txnList == [])
    ensures Plan(HandlerStep(s, false)) == Plan(s)
  {
    hide NoRoom, LetIn, Members;
    var c := s.running.value.(transfering := true);
    MembersSnoc(s.sent, c);
    Reassociated(Members(s.sent), c.txns, Packing([], s.txnList));
  }

  lemma MembersSnoc(log: seq<CTxn>, c: CTxn)
    ensures Members(log + [c]) == Members(log) + [c.txns]
  {}

  lemma Reassociated<T>(xs: seq<T>, y: T, zs: seq<T>)
    ensures (xs + [y]) + zs == xs + ([y] + zs)
    ensures (xs + [y]) + [] == xs + [y]
  {}
}
