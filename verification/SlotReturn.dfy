/**
 Who gives a tag back, kind by kind.  The polling thread returns the tags of transfers; the
 tags of gets and commits stay with their requester, who still reads the buffer.
 */
module SlotReturn {
  import opened Bytes
  import opened SlotQueue
  import opened SlotInvariant
  import opened SlotOrder

  /** The step that takes a tag in flight off the processing list. */
  ghost predicate Gives(s: State, a: Action, id: nat)
    requires Inv(s) && id < CHEEZE_QUEUE_SIZE
  {
    match s.reqs[id].kind
    case Get => a == Free(id) && s.phase[id] == Acked
    case GetMulti => a == Free(id) && s.phase[id] == Acked
    case CommitOnly => a == Free(id) && s.phase[id] == Acked
    case TransferFlush => a == Receive(id) && s.recv[id]
    case TransferPlain => a == Receive(id) && s.recv[id]
  }

  /** What is answered and not given back yet is not a transfer. */
  ghost predicate ReadersOnly(s: State)
    requires Inv(s)
  {
    forall id :: 0 <= id < CHEEZE_QUEUE_SIZE && s.phase[id] == Acked ==>
      s.reqs[id].kind == Get || s.reqs[id].kind == GetMulti || s.reqs[id].kind == CommitOnly
  }

  lemma ReadersStep(s: State, a: Action)
    requires Inv(s) && ReadersOnly(s) && Inv(Next(s, a))
    ensures ReadersOnly(Next(s, a))
  {
    hide HistoryOk, CountsOk, RequestsOk, Tags, Without;
  }

  lemma {:induction false} ReadersReachable(trace: seq<Action>)
    ensures ReadersOnly(Run(trace))
  {
    hide Inv, Next, ReadersOnly;
    if trace == [] {
      NoReaders();
    } else {
      var before, a := trace[..|trace| - 1], trace[|trace| - 1];
      ReadersReachable(before);
      InvNext(Run(before), a);
      ReadersStep(Run(before), a);
    }
  }

  lemma NoReaders()
    ensures ReadersOnly(Run([])) && Run([]).released == {}
  {}

  /**
   In every reachable state, a step takes a tag off the processing list if and only if it is the
   requester's own return of an answered get, multi-get or commit, or the poll of an answered transfer.
   */
  lemma TagLeavesExactly(trace: seq<Action>, a: Action, id: nat)
    requires id in Run(trace).processing && id < CHEEZE_QUEUE_SIZE
    ensures var s := Run(trace);
            id !in Next(s, a).processing <==> Gives(s, a, id)
  {
    hide Run;
    var s := Run(trace);
    InvNext(s, a);
    ReadersReachable(trace);
    LeavesStep(s, a, id);
  }

  lemma LeavesStep(s: State, a: Action, id: nat)
    requires Inv(s) && ReadersOnly(s) && Inv(Next(s, a)) && id < CHEEZE_QUEUE_SIZE && s.phase[id] != Idle
    ensures id !in Next(s, a).processing <==> Gives(s, a, id)
  {
    hide HistoryOk, CountsOk, RequestsOk, Tags, Shaped, Without;
    InList(s, id);
    InList(Next(s, a), id);
    PhaseStep(s, a, id);
  }

  lemma InList(s: State, id: nat)
    requires Inv(s) && id < CHEEZE_QUEUE_SIZE
    ensures |s.phase| == |s.recv| == |s.reqs| == CHEEZE_QUEUE_SIZE && (id in s.processing <==> s.phase[id] != Idle)
  {}

  lemma PhaseStep(s: State, a: Action, id: nat)
    requires Inv(s) && ReadersOnly(s) && Inv(Next(s, a)) && id < CHEEZE_QUEUE_SIZE && s.phase[id] != Idle
    ensures Next(s, a).phase[id] == Idle <==> Gives(s, a, id)
  {
    hide HistoryOk, CountsOk, Tags, Without;
    if a.Prepare? && s.slots > 0 {
      PrepareLists(s, a.kind);
    }
  }

  // Over a run.

  /** Somewhere in the run the tag of request `n` was given back by the step its kind calls for. */
  ghost predicate GivenBack(trace: seq<Action>, n: nat) {
    exists j, id :: 0 <= j < |trace| && 0 <= id < CHEEZE_QUEUE_SIZE && GivesAt(trace, j, id, n)
  }

  ghost predicate GivesAt(trace: seq<Action>, j: nat, id: nat, n: nat)
    requires j < |trace| && id < CHEEZE_QUEUE_SIZE
  {
    var s := Run(trace[..j]);
    s.reqs[id].seqNo == n && n < |s.issued| && s.reqs[id].kind == s.issued[n] && Gives(s, trace[j], id)
  }

  /** Every released request was given back by the step its kind calls for. */
  lemma {:induction false} ReleasedWasGiven(trace: seq<Action>, n: nat)
    requires n in Run(trace).released
    ensures GivenBack(trace, n)
  {
    hide Inv, Next, Gives, ReadersOnly;
    if trace == [] {
      NoReaders();
    } else {
      var before, a := trace[..|trace| - 1], trace[|trace| - 1];
      var s := Run(before);
      if n in s.released {
        ReleasedWasGiven(before, n);
        var j, id :| 0 <= j < |before| && 0 <= id < CHEEZE_QUEUE_SIZE && GivesAt(before, j, id, n);
        assert before[..j] == trace[..j] && before[j] == trace[j];
        assert GivesAt(trace, j, id, n);
      } else {
        ReadersReachable(before);
        var id := ReleaseStep(s, a, n);
        assert trace[..|trace| - 1] == before;
        assert GivesAt(trace, |trace| - 1, id, n);
      }
    }
  }

  lemma ReleaseStep(s: State, a: Action, n: nat) returns (id: nat)
    requires Inv(s) && ReadersOnly(s) && n !in s.released && n in Next(s, a).released
    ensures id < CHEEZE_QUEUE_SIZE && s.reqs[id].seqNo == n < |s.issued| && s.reqs[id].kind == s.issued[n] && Gives(s, a, id)
  {
    hide HistoryOk, CountsOk, Tags, Without;
    id := 0;
    if a.Receive? || a.Free? {
      id := a.id;
    }
  }

  /**
   In every run, as long as the requester of a get, multi-get or commit has not given its tag
   back, no other request in flight shares its buffer and no later request has its tag.
   */
  lemma ReaderKeepsBuffer(trace: seq<Action>, n: nat)
    requires n < |Run(trace).issued| && n !in Run(trace).released
    ensures var s := Run(trace);
            && |s.issued| <= CHEEZE_QUEUE_SIZE + |s.returned| && TagOf(s, n) < CHEEZE_QUEUE_SIZE
            && StillOwn(s, n) && s.reqs[TagOf(s, n)].seqNo == n
            && forall id :: 0 <= id < CHEEZE_QUEUE_SIZE && s.phase[id] != Idle && s.reqs[id].seqNo != n ==>
                 || BufAddr(id) + CHEEZE_BUF_SIZE <= BufAddr(TagOf(s, n))
                 || BufAddr(TagOf(s, n)) + CHEEZE_BUF_SIZE <= BufAddr(id)
  {
    hide Run, Inv, BufAddr, TagOf, StillOwn;
    var s := Run(trace);
    Unfolded(s);
    WaitsRightExactly(trace, n);
    forall id | 0 <= id < CHEEZE_QUEUE_SIZE && s.phase[id] != Idle && s.reqs[id].seqNo != n
      ensures || BufAddr(id) + CHEEZE_BUF_SIZE <= BufAddr(TagOf(s, n))
              || BufAddr(TagOf(s, n)) + CHEEZE_BUF_SIZE <= BufAddr(id)
    {
      BuffersDisjoint(id, TagOf(s, n));
    }
  }

  /** In every run a plain transfer is never signalled, and every other request is by the time its tag is back. */
  lemma OnlyPlainUnsignalled(trace: seq<Action>, n: nat)
    requires n < |Run(trace).issued|
    ensures var s := Run(trace);
            && (n in s.completed ==> s.issued[n] != TransferPlain)
            && (n in s.released && s.issued[n] != TransferPlain ==> n in s.completed)
  {
    hide Run;
    assert HistoryOk(Run(trace));
  }
}
