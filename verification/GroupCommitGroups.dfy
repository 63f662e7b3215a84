/**
 Groups: the orderless hand-overs split into consecutive groups of at most sixteen c_txns,
 each closed by its only FLUSH c_txn and carrying the id of its first transaction.
 */
module GroupCommitGroups {
  import opened Bytes
  import opened TxnTypes
  import opened GroupCommit
  import opened GroupCommitCounters
  import opened Wire

  datatype Cut = Cut(closed: seq<seq<CTxn>>, open: seq<CTxn>)

  /** Cuts a log of c_txns after every FLUSH. */
  function Split(log: seq<CTxn>): Cut {
    if log == [] then Cut([], [])
    else
      var cut := Split(log[..|log| - 1]);
      var c := log[|log| - 1];
      if c.flush then Cut(cut.closed + [cut.open + [c]], []) else Cut(cut.closed, cut.open + [c])
  }

  lemma SplitSnoc(log: seq<CTxn>, c: CTxn)
    ensures var cut := Split(log);
            Split(log + [c]) == if c.flush then Cut(cut.closed + [cut.open + [c]], []) else Cut(cut.closed, cut.open + [c])
  {
    assert (log + [c])[..|log|] == log;
  }

  ghost predicate OnlyLastFlushes(g: seq<CTxn>) {
    g != [] && forall i :: 0 <= i < |g| ==> (g[i].flush <==> i == |g| - 1)
  }

  /** The cut loses nothing. */
  lemma {:induction false} SplitIsComplete(log: seq<CTxn>)
    ensures Flatten(Split(log).closed) + Split(log).open == log
  {
    hide Split, Flatten;
    if log == [] {
      SplitNone();
    } else {
      var before, c := log[..|log| - 1], log[|log| - 1];
      SplitIsComplete(before);
      SplitSnoc(before, c);
      assert before + [c] == log;
      var cut := Split(before);
      FlattenSnoc(cut.closed, cut.open + [c]);
      Whole(Flatten(cut.closed), cut.open, c);
    }
  }

  lemma SplitNone()
    ensures Split([]) == Cut([], []) && Flatten<CTxn>([]) == []
  {}

  lemma Whole<T>(closed: seq<T>, open: seq<T>, c: T)
    ensures closed + (open + [c]) == (closed + open) + [c]
    ensures closed + (open + [c]) + [] == (closed + open) + [c]
  {}

  /** Every FLUSH stands at the end of a closed group. */
  lemma {:induction false} SplitAtFlushes(log: seq<CTxn>)
    ensures forall k :: 0 <= k < |Split(log).closed| ==> OnlyLastFlushes(Split(log).closed[k])
    ensures forall i :: 0 <= i < |Split(log).open| ==> !Split(log).open[i].flush
  {
    hide Split;
    if log == [] {
      SplitNone();
    } else {
      var before, c := log[..|log| - 1], log[|log| - 1];
      SplitAtFlushes(before);
      SplitSnoc(before, c);
      assert before + [c] == log;
    }
  }

  /** The first nonzero id among the first transactions of a group's c_txns. */
  function GroupId(g: seq<CTxn>): nat {
    if g == [] then 0
    else
      var before := GroupId(g[..|g| - 1]);
      if before != 0 || g[|g| - 1].txns == [] then before else g[|g| - 1].txns[0].id
  }

  lemma GroupIdSnoc(g: seq<CTxn>, c: CTxn)
    ensures GroupId(g + [c]) == if GroupId(g) != 0 || c.txns == [] then GroupId(g) else c.txns[0].id
  {
    assert (g + [c])[..|g|] == g;
  }

  ghost predicate IdsAssigned(g: seq<CTxn>) {
    forall i :: 0 <= i < |g| ==> g[i].txns != [] && g[i].id == GroupId(g[..i + 1])
  }

  lemma IdsAssignedSnoc(g: seq<CTxn>, c: CTxn)
    ensures IdsAssigned(g + [c]) <==> IdsAssigned(g) && c.txns != [] && c.id == GroupId(g + [c])
  {
    var h := g + [c];
    assert forall i :: 0 <= i < |g| ==> h[i] == g[i] && h[..i + 1] == g[..i + 1];
    assert h[..|g| + 1] == h;
    if IdsAssigned(h) {
      forall i | 0 <= i < |g|
        ensures g[i].txns != [] && g[i].id == GroupId(g[..i + 1])
      {
        assert h[i].txns != [];
      }
      assert h[|g|].txns != [];
    }
  }

  /** The group being built: what is handed over since the last FLUSH, then the running c_txn. */
  function OpenGroup(s: State): seq<CTxn> {
    Split(s.sent).open + if s.running.Some? && !s.pc.Callback? then [s.running.value] else []
  }

  /** A closed group: ids assigned, at most sixteen c_txns, and the last one counts them all. */
  ghost predicate ClosedOk(g: seq<CTxn>) {
    IdsAssigned(g) && 1 <= |g| <= RUNNING_C_TXN_LIMIT && g[|g| - 1].committing == |g|
  }

  ghost predicate GroupsOk(s: State) {
    && (forall k :: 0 <= k < |Split(s.sent).closed| ==> ClosedOk(Split(s.sent).closed[k]))
    && (forall i :: 0 <= i < |s.sent| ==> !s.sent[i].ordered)
    && IdsAssigned(OpenGroup(s))
    && (if s.running.Some? && !s.pc.Callback? && s.running.value.flush
        then |OpenGroup(s)| == s.running.value.committing
        else |OpenGroup(s)| == s.runningCnt && s.runningId == GroupId(OpenGroup(s)))
  }

  /** Everything GroupsOk looks at, unchanged. */
  ghost predicate SameGroups(s: State, s': State) {
    && s'.sent == s.sent && s'.running == s.running && (s'.pc.Callback? <==> s.pc.Callback?)
    && s'.runningCnt == s.runningCnt && s'.runningId == s.runningId
  }

  lemma GroupsFrame(s: State, s': State)
    requires GroupsOk(s) && SameGroups(s, s')
    ensures GroupsOk(s')
  {
    hide Split, IdsAssigned, GroupId;
  }

  /** The running c_txn may gain members and flags, as long as its id and first member stay. */
  lemma GroupsRetouch(open: seq<CTxn>, c: CTxn, d: CTxn)
    requires IdsAssigned(open + [c])
    requires d.id == c.id && c.txns != [] && c.txns <= d.txns
    ensures IdsAssigned(open + [d]) && GroupId(open + [d]) == GroupId(open + [c])
  {
    IdsAssignedSnoc(open, c);
    IdsAssignedSnoc(open, d);
    GroupIdSnoc(open, c);
    GroupIdSnoc(open, d);
  }

  lemma GroupsSkipSync(s: State)
    requires Inv(s) && GroupsOk(s) && s.pc.SkipSync?
    ensures GroupsOk(SkipSyncStep(s))
  {
    hide Split, IdsAssigned, GroupId, Diff, Sub32;
    var s' := SkipSyncStep(s);
    if s.running.Some? {
      GroupsRetouch(Split(s.sent).open, s.running.value, s'.running.value);
    }
  }

  lemma GroupsFill(s: State)
    requires Inv(s) && GroupsOk(s) && s.pc.Fill?
    ensures GroupsOk(FillStep(s))
  {
    hide Split, IdsAssigned, GroupId, Sub32, Add32;
    var open := Split(s.sent).open;
    var c := FillStep(s).running.value;
    assert open == OpenGroup(s);
    IdsAssignedSnoc(open, c);
    GroupIdSnoc(open, c);
  }

  lemma GroupsTransfer(s: State, now: bool)
    requires Inv(s) && GroupsOk(s) && s.pc.Transfer?
    ensures GroupsOk(TransferStep(s, now))
  {
    hide Split, IdsAssigned, GroupId;
    var c := s.running.value.(transfering := true);
    SplitSnoc(s.sent, c);
    GroupsRetouch(Split(s.sent).open, s.running.value, c);
    EmptyGroup();
    var s' := TransferStep(s, now);
    assert OpenGroup(s') == Split(s'.sent).open;
  }

  lemma EmptyGroup()
    ensures IdsAssigned([]) && GroupId([]) == 0
  {}

  lemma GroupsHandler(s: State, stop: bool)
    requires Inv(s) && GroupsOk(s)
    ensures GroupsOk(HandlerStep(s, stop))
  {
    hide GroupsOk, ProcessSyncStep, SkipSyncStep, FillStep, TransferStep;
    match s.pc
    case SkipSync => GroupsSkipSync(s);
    case Fill => GroupsFill(s);
    case Transfer(now) => GroupsTransfer(s, now);
    case Callback(now) => GroupsCallback(s);
    case ProcessSync =>
      ProcessSyncKeepsGroups(s);
      GroupsFrame(s, HandlerStep(s, stop));
    case _ => GroupsFrame(s, HandlerStep(s, stop));
  }

  lemma ProcessSyncKeepsGroups(s: State)
    requires s.pc.ProcessSync?
    ensures SameGroups(s, ProcessSyncStep(s))
  {}

  lemma GroupsCallback(s: State)
    requires GroupsOk(s) && s.pc.Callback? && s.running.Some?
    ensures GroupsOk(CallbackStep(s, s.pc.now))
  {
    hide Split, IdsAssigned, GroupId;
  }

  lemma GroupsStep(s: State, a: Action)
    requires Inv(s) && GroupsOk(s)
    ensures GroupsOk(Next(s, a))
  {
    hide GroupsOk, HandlerStep;
    if a.Handler? {
      GroupsHandler(s, a.stop);
    } else {
      GroupsFrame(s, Next(s, a));
    }
  }

  lemma {:induction false} GroupsReachable(trace: seq<Action>)
    ensures GroupsOk(Run(trace))
  {
    if trace == [] {
    } else {
      GroupsReachable(trace[..|trace| - 1]);
      Reachable(trace[..|trace| - 1]);
      GroupsStep(Run(trace[..|trace| - 1]), trace[|trace| - 1]);
    }
  }

  // What closes a group.

  /** The group is complete; its last c_txn is on its way to the device. */
  ghost predicate Closing(s: State) {
    s.running.Some? && s.running.value.flush && !s.pc.Callback?
  }

  /** The handler finds the queue empty, with `k` groups closed and `n` c_txns in the open one. */
  ghost predicate RanDryAt(s: State, k: nat, n: nat) {
    s.pc.SkipSync? && s.txnList == [] && |Split(s.sent).closed| == k && |OpenGroup(s)| == n
  }

  ghost predicate RanDry(trace: seq<Action>, k: nat, n: nat) {
    exists j :: 0 <= j <= |trace| && RanDryAt(Run(trace[..j]), k, n)
  }

  /** The `k`-th group, of `n` c_txns, was full or the queue had run dry. */
  ghost predicate Caused(trace: seq<Action>, k: nat, n: nat) {
    n == RUNNING_C_TXN_LIMIT || RanDry(trace, k, n)
  }

  ghost predicate ClosingOk(trace: seq<Action>) {
    var s := Run(trace);
    var closed := Split(s.sent).closed;
    && (forall k :: 0 <= k < |closed| ==> Caused(trace, k, |closed[k]|))
    && (Closing(s) ==> Caused(trace, |closed|, |OpenGroup(s)|))
  }

  /** A group is closed only by the hand-over of its last c_txn, and becomes complete for one of the two reasons. */
  lemma ClosingMove(s: State, a: Action)
    requires Inv(s) && GroupsOk(s)
    ensures var s' := Next(s, a);
            var closed, closed' := Split(s.sent).closed, Split(s'.sent).closed;
            && (|| closed' == closed
                || (Closing(s) && closed' == closed + [closed'[|closed|]] && |closed'[|closed|]| == |OpenGroup(s)|))
            && (Closing(s') ==>
                  && closed' == closed
                  && ((Closing(s) && |OpenGroup(s')| == |OpenGroup(s)|) || |OpenGroup(s')| == RUNNING_C_TXN_LIMIT
                      || RanDryAt(s, |closed|, |OpenGroup(s')|)))
  {
    hide Split, IdsAssigned, GroupId, ProcessSyncStep, SkipSyncStep, FillStep, TransferStep;
    if a.Handler? {
      match s.pc
      case SkipSync => MoveSkipSync(s);
      case Fill =>
        GroupsFill(s);
        MoveFill(s);
      case Transfer(now) => MoveTransfer(s, now);
      case ProcessSync => ProcessSyncKeepsGroups(s);
      case _ =>
    }
  }

  lemma MoveSkipSync(s: State)
    requires Inv(s) && s.pc.SkipSync?
    ensures var s' := SkipSyncStep(s);
            && s'.sent == s.sent && |OpenGroup(s')| == |OpenGroup(s)|
            && (Closing(s') ==> Closing(s) || s.txnList == [])
  {
    hide Split, Diff, Sub32;
  }

  lemma MoveFill(s: State)
    requires Inv(s) && s.pc.Fill? && GroupsOk(FillStep(s))
    ensures var s' := FillStep(s); s'.sent == s.sent && (Closing(s') ==> |OpenGroup(s')| == RUNNING_C_TXN_LIMIT)
  {
    hide Split, IdsAssigned, GroupId, Sub32;
  }

  lemma MoveTransfer(s: State, now: bool)
    requires Inv(s) && s.pc.Transfer?
    ensures var s' := TransferStep(s, now);
            var closed, closed' := Split(s.sent).closed, Split(s'.sent).closed;
            && !Closing(s')
            && (|| closed' == closed
                || (Closing(s) && closed' == closed + [closed'[|closed|]] && |closed'[|closed|]| == |OpenGroup(s)|))
  {
    hide Split;
    SplitSnoc(s.sent, s.running.value.(transfering := true));
  }

  lemma RanDrySnoc(trace: seq<Action>, a: Action, k: nat, n: nat)
    ensures RanDry(trace, k, n) ==> RanDry(trace + [a], k, n)
    ensures RanDryAt(Run(trace), k, n) ==> RanDry(trace + [a], k, n)
  {
    hide Run, RanDryAt;
    assert (trace + [a])[..|trace|] == trace;
    if RanDry(trace, k, n) {
      var j :| 0 <= j <= |trace| && RanDryAt(Run(trace[..j]), k, n);
      assert (trace + [a])[..j] == trace[..j];
    }
  }

  lemma ClosingStep(trace: seq<Action>, a: Action)
    requires ClosingOk(trace) && Inv(Run(trace)) && GroupsOk(Run(trace))
    ensures ClosingOk(trace + [a])
  {
    hide Run, Next, Split, RanDry, RanDryAt, OpenGroup, Inv, GroupsOk, Closing;
    var s := Run(trace);
    RunSnoc(trace, a);
    ClosingMove(s, a);
    var s' := Next(s, a);
    var closed, closed': seq<seq<CTxn>> := Split(s.sent).closed, Split(s'.sent).closed;
    forall k | 0 <= k < |closed'|
      ensures Caused(trace + [a], k, |closed'[k]|)
    {
      RanDrySnoc(trace, a, k, |closed'[k]|);
    }
    RanDrySnoc(trace, a, |closed|, |OpenGroup(s')|);
  }

  lemma {:induction false} ClosingReachable(trace: seq<Action>)
    ensures ClosingOk(trace)
  {
    hide Inv, GroupsOk, Run, Next;
    if trace == [] {
      StartsUnclosed();
    } else {
      var before, a := trace[..|trace| - 1], trace[|trace| - 1];
      ClosingReachable(before);
      Reachable(before);
      GroupsReachable(before);
      ClosingStep(before, a);
      assert before + [a] == trace;
    }
  }

  lemma StartsUnclosed()
    ensures ClosingOk([])
  {}

  /**
   In every run the hand-overs are consecutive closed groups and one open group of less than
   sixteen c_txns.  In a closed group exactly the last c_txn carries FLUSH, exactly that one is
   sent with the COMMIT record, and it counts the group; the group is full, or the queue had
   run dry.
   */
  lemma GroupShape(trace: seq<Action>)
    ensures var s := Run(trace);
            var cut := Split(s.sent);
            && s.sent == Flatten(cut.closed) + cut.open
            && |cut.open| < RUNNING_C_TXN_LIMIT
            && (forall i :: 0 <= i < |cut.open| ==> !cut.open[i].flush)
            && (forall i :: 0 <= i < |s.sent| ==> (Marked(s.sent[i]) <==> s.sent[i].flush))
            && forall k :: 0 <= k < |cut.closed| ==>
                 && 1 <= |cut.closed[k]| <= RUNNING_C_TXN_LIMIT
                 && OnlyLastFlushes(cut.closed[k])
                 && IdsAssigned(cut.closed[k])
                 && cut.closed[k][|cut.closed[k]| - 1].committing == |cut.closed[k]|
                 && Caused(trace, k, |cut.closed[k]|)
  {
    hide IdsAssigned, Caused, OnlyLastFlushes;
    GroupsReachable(trace);
    Reachable(trace);
    ClosingReachable(trace);
    SplitIsComplete(Run(trace).sent);
    SplitAtFlushes(Run(trace).sent);
  }

  /** The handler completes the group exactly when it adds the sixteenth c_txn, or finds the queue empty. */
  lemma ClosesExactly(trace: seq<Action>, stop: bool)
    ensures var s := Run(trace);
            var s' := HandlerStep(s, stop);
            !Closing(s) ==>
              (Closing(s') <==>
                 || (s.pc.Fill? && |OpenGroup(s')| == RUNNING_C_TXN_LIMIT)
                 || (s.pc.SkipSync? && s.txnList == [] && s.running.Some?))
  {
    hide Split, IdsAssigned, GroupId, Run, ProcessSyncStep;
    var s := Run(trace);
    Reachable(trace);
    GroupsReachable(trace);
    if s.pc.Fill? {
      GroupsFill(s);
    } else if s.pc.ProcessSync? {
      ProcessSyncKeepsGroups(s);
    }
  }

  lemma {:induction false} GroupIdSticks(g: seq<CTxn>, i: nat)
    requires i <= |g| && GroupId(g[..i]) != 0
    ensures GroupId(g) == GroupId(g[..i])
    decreases |g| - i
  {
    if i == |g| {
      assert g[..i] == g;
    } else {
      assert g[..i + 1][..i] == g[..i];
      GroupIdSticks(g, i + 1);
    }
  }

  ghost predicate OneId(g: seq<CTxn>) {
    forall i :: 0 <= i < |g| ==> g[i].id == g[0].id
  }

  /**
   A group carries one id exactly when its first transaction did not get id 0, the value
   `running_c_txn_id` uses for "no group", or every c_txn in it starts with such an id.
   */
  lemma OneIdExactly(g: seq<CTxn>)
    requires g != [] && IdsAssigned(g)
    ensures g[0].id == g[0].txns[0].id
    ensures OneId(g) <==> g[0].txns[0].id != 0 || forall i :: 0 <= i < |g| ==> g[i].txns[0].id == 0
  {
    assert g[0].txns != [] && g[0].id == GroupId(g[..1]);
    assert g[..1] == [] + [g[0]];
    GroupIdSnoc([], g[0]);
    if g[0].txns[0].id != 0 {
      forall i | 0 <= i < |g|
        ensures g[i].id == g[0].id
      {
        assert g[i].txns != [];
        assert g[..i + 1][..1] == g[..1];
        GroupIdSticks(g[..i + 1], 1);
      }
    } else {
      ZeroIds(g);
    }
  }

  /** Ids stay zero as long as the first transactions have id zero, and no longer. */
  lemma {:induction false} ZeroIds(g: seq<CTxn>)
    requires IdsAssigned(g)
    ensures (forall i :: 0 <= i < |g| ==> g[i].id == 0) <==> (forall i :: 0 <= i < |g| ==> g[i].txns[0].id == 0)
    ensures (forall i :: 0 <= i < |g| ==> g[i].id == 0) ==> GroupId(g) == 0
  {
    if g == [] {
    } else {
      var h, c := g[..|g| - 1], g[|g| - 1];
      assert g == h + [c];
      IdsAssignedSnoc(h, c);
      GroupIdSnoc(h, c);
      ZeroIds(h);
      assert forall i :: 0 <= i < |h| ==> g[i] == h[i];
      assert g[|h|] == c;
    }
  }
}
