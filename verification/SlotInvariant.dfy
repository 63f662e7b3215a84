/** What every run of the slot queue keeps. */
module SlotInvariant {
  import opened Bytes
  import opened SlotQueue

  ghost predicate Busy(s: State, id: nat)
    requires Shaped(s)
  {
    id < CHEEZE_QUEUE_SIZE && s.phase[id] != Idle
  }

  ghost predicate CountsOk(s: State) {
    && s.slots == |s.free| && s.qd == |s.processing|
    && s.nextSeq == |s.issued| % U64
    && |s.released| + |s.processing| == |s.issued|
    && s.acks == |s.completed|
  }

  /** A tag is idle exactly when it is free, and its flags say where its request is. */
  ghost predicate FlagsOk(s: State)
    requires Shaped(s)
  {
    forall id :: 0 <= id < CHEEZE_QUEUE_SIZE ==>
      && (id in s.free <==> s.phase[id] == Idle)
      && (id in s.processing <==> s.phase[id] != Idle)
      && (s.send[id] <==> s.phase[id] == Sent)
      && (s.recv[id] <==> s.phase[id] == Served)
  }

  /** Requests in flight are issued, not released, and completed exactly when acknowledged. */
  ghost predicate RequestsOk(s: State)
    requires Shaped(s)
  {
    && (forall id :: 0 <= id < CHEEZE_QUEUE_SIZE && s.phase[id] != Idle ==>
          && s.reqs[id].seqNo < |s.issued| && s.issued[s.reqs[id].seqNo] == s.reqs[id].kind
          && s.reqs[id].seqNo !in s.released
          && (s.reqs[id].seqNo in s.completed <==> s.phase[id] == Acked)
          && (s.phase[id] == Acked ==> IsSync(s.reqs[id].kind))
          && (s.phase[id] != Prepared ==> s.seqAddr[id] == s.reqs[id].seqNo % U64))
    && (forall a, b :: 0 <= a < b < CHEEZE_QUEUE_SIZE && s.phase[a] != Idle && s.phase[b] != Idle ==>
          s.reqs[a].seqNo != s.reqs[b].seqNo)
  }

  /** Of the requests done with, exactly the sync ones were completed. */
  ghost predicate HistoryOk(s: State) {
    && (forall n :: n in s.released ==> n < |s.issued|)
    && (forall n :: n in s.completed ==> n < |s.issued| && IsSync(s.issued[n]))
    && (forall n :: n in s.released && IsSync(s.issued[n]) ==> n in s.completed)
  }

  ghost predicate Inv(s: State) {
    Shaped(s) && CountsOk(s) && FlagsOk(s) && RequestsOk(s) && HistoryOk(s)
  }

  ghost function Next(s: State, a: Action): State
    requires Inv(s)
  {
    match a
    case Prepare(k) => PrepareStep(s, k)
    case Send(id) => SendStep(s, id)
    case Serve(id) => ServeStep(s, id)
    case Receive(id) => ReceiveStep(s, id)
    case Free(id) => FreeStep(s, id)
  }

  lemma InvInit()
    ensures Inv(Init())
  {
    assert multiset(Tags()) + multiset([]) == multiset(Tags());
    forall id | 0 <= id < CHEEZE_QUEUE_SIZE
      ensures id in Tags()
    {
      assert Tags()[id] == id;
    }
  }

  lemma {:induction false} NoRepeats(n: nat, id: nat)
    ensures multiset(seq(n, i => i))[id] == if id < n then 1 else 0
    decreases n
  {
    if n > 0 {
      NoRepeats(n - 1, id);
      assert seq(n, i => i) == seq(n - 1, i => i) + [n - 1];
    }
  }

  /** Each tag is in exactly one of the two lists, once. */
  lemma Partition(s: State, id: nat)
    requires Shaped(s)
    ensures id < CHEEZE_QUEUE_SIZE ==> multiset(s.free)[id] + multiset(s.processing)[id] == 1
    ensures id < CHEEZE_QUEUE_SIZE ==> (id in s.free <==> id !in s.processing)
    ensures id in s.free || id in s.processing ==> id < CHEEZE_QUEUE_SIZE
  {
    NoRepeats(CHEEZE_QUEUE_SIZE, id);
    assert (multiset(s.free) + multiset(s.processing))[id] == multiset(Tags())[id];
    assert id in s.free <==> id in multiset(s.free);
    assert id in s.processing <==> id in multiset(s.processing);
  }

  lemma PrepareLists(s: State, k: Kind)
    requires Inv(s) && s.slots > 0
    ensures var s', id := PrepareStep(s, k), s.free[0];
            && id < CHEEZE_QUEUE_SIZE && s.phase[id] == Idle
            && Shaped(s') && |s'.free| == |s.free| - 1 && |s'.processing| == |s.processing| + 1
            && forall i :: 0 <= i < CHEEZE_QUEUE_SIZE ==>
                 (i in s'.free <==> s'.phase[i] == Idle) && (i in s'.processing <==> s'.phase[i] != Idle)
  {
    hide RequestsOk, HistoryOk;
    var id := s.free[0];
    assert s.free == [id] + s.free[1..];
    Partition(s, id);
    var s' := PrepareStep(s, k);
    assert multiset(s'.processing) == multiset(s.processing) + multiset{id};
    forall i | 0 <= i < CHEEZE_QUEUE_SIZE
      ensures (i in s'.free <==> s'.phase[i] == Idle) && (i in s'.processing <==> s'.phase[i] != Idle)
    {
      Partition(s', i);
    }
  }

  lemma InvPrepare(s: State, k: Kind)
    requires Inv(s)
    ensures Inv(PrepareStep(s, k))
  {
    if s.slots > 0 {
      PrepareLists(s, k);
      assert |s.issued| !in s.released && |s.issued| !in s.completed;
    }
  }

  lemma InvSend(s: State, id: nat)
    requires Inv(s)
    ensures Inv(SendStep(s, id))
  {}

  lemma InvServe(s: State, id: nat)
    requires Inv(s)
    ensures Inv(ServeStep(s, id))
  {}

  /** Shape and counters of a tag's return. */
  lemma MovePopLists(s: State, id: nat)
    requires Shaped(s) && id in s.processing && id < CHEEZE_QUEUE_SIZE
    ensures var s' := MovePop(s, id);
            && Shaped(s') && |s'.free| == |s.free| + 1 && |s'.processing| == |s.processing| - 1
            && id in s'.free && id !in s'.processing
            && forall i :: 0 <= i < CHEEZE_QUEUE_SIZE && i != id ==>
                 (i in s'.free <==> i in s.free) && (i in s'.processing <==> i in s.processing)
  {
    WithoutRemoves(s.processing, id);
    var s' := MovePop(s, id);
    assert multiset(s'.free) == multiset(s.free) + multiset{id};
    assert multiset(s'.free) + multiset(s'.processing) == multiset(s.free) + multiset(s.processing);
    Partition(s', id);
    assert s'.free[|s.free|] == id;
    forall i | 0 <= i < CHEEZE_QUEUE_SIZE && i != id
      ensures (i in s'.free <==> i in s.free) && (i in s'.processing <==> i in s.processing)
    {
      assert i in s'.free <==> i in multiset(s'.free);
      assert i in s.free <==> i in multiset(s.free);
      Partition(s, i);
      Partition(s', i);
    }
  }

  /** A tag returns with everything else intact, once its request has been acknowledged if it is sync. */
  lemma InvMovePop(s: State, id: nat)
    requires Inv(s) && Busy(s, id) && !s.send[id] && !s.recv[id]
    requires IsSync(s.reqs[id].kind) ==> s.phase[id] == Acked
    ensures Inv(MovePop(s, id))
  {
    MovePopLists(s, id);
  }

  lemma InvComplete(s: State, id: nat)
    requires Inv(s) && id < CHEEZE_QUEUE_SIZE && s.recv[id] && IsSync(s.reqs[id].kind)
    ensures Inv(Complete(s.(recv := s.recv[id := false]), id))
  {}

  lemma InvReceive(s: State, id: nat)
    requires Inv(s)
    ensures Inv(ReceiveStep(s, id))
  {
    if id < CHEEZE_QUEUE_SIZE && s.recv[id] {
      var k := s.reqs[id].kind;
      var lowered := s.(recv := s.recv[id := false]);
      if IsSync(k) {
        InvComplete(s, id);
        if IsTransfer(k) {
          InvMovePop(Complete(lowered, id), id);
        }
      } else {
        var quiet := lowered.(phase := s.phase[id := Prepared]);
        assert Inv(quiet);
        InvMovePop(quiet, id);
        assert quiet.phase[id := Idle] == s.phase[id := Idle];
      }
    }
  }

  lemma InvFree(s: State, id: nat)
    requires Inv(s)
    ensures Inv(FreeStep(s, id))
  {
    if id < CHEEZE_QUEUE_SIZE && s.phase[id] == Acked {
      InvMovePop(s, id);
    }
  }

  lemma InvNext(s: State, a: Action)
    requires Inv(s)
    ensures Inv(Next(s, a))
  {
    match a
    case Prepare(k) => InvPrepare(s, k);
    case Send(id) => InvSend(s, id);
    case Serve(id) => InvServe(s, id);
    case Receive(id) => InvReceive(s, id);
    case Free(id) => InvFree(s, id);
  }

  /** The state after a run; every one of them satisfies the invariant. */
  ghost function Run(trace: seq<Action>): (s: State)
    ensures Inv(s)
  {
    InvInit();
    if trace == [] then Init()
    else
      var before := Run(trace[..|trace| - 1]);
      InvNext(before, trace[|trace| - 1]);
      Next(before, trace[|trace| - 1])
  }

  // What the invariant says, in the terms of the source.

  /** Free and in-flight tags partition 0..1023, `slots` and `qd` count them, and send_req never finds its flag raised. */
  lemma TagsPartition(trace: seq<Action>, id: nat)
    requires id < CHEEZE_QUEUE_SIZE
    ensures var s := Run(trace);
            && multiset(s.free)[id] + multiset(s.processing)[id] == 1
            && s.slots == |s.free| && s.qd == |s.processing| && s.slots + s.qd == CHEEZE_QUEUE_SIZE
            && (s.phase[id] == Prepared ==> !s.send[id] && !s.recv[id])
  {
    var s := Run(trace);
    Partition(s, id);
    assert |multiset(s.free) + multiset(s.processing)| == |multiset(Tags())|;
  }

  lemma {:induction false} BelowSize(xs: set<nat>, n: nat)
    requires forall x :: x in xs ==> x < n
    ensures |xs| <= n
    ensures |xs| == n ==> forall x: nat :: x < n ==> x in xs
    decreases n
  {
    if n == 0 {
      assert xs == {};
    } else if n - 1 in xs {
      var rest := xs - {n - 1};
      BelowSize(rest, n - 1);
      if |xs| == n {
        forall x: nat | x < n
          ensures x in xs
        {
          assert x == n - 1 || x in rest;
        }
      }
    } else {
      BelowSize(xs, n - 1);
    }
  }

  /** Sequence numbers of the requests on a list of tags. */
  ghost function SeqsOf(s: State, list: seq<nat>): set<nat>
    requires Shaped(s) && forall i :: 0 <= i < |list| ==> list[i] < CHEEZE_QUEUE_SIZE
  {
    if list == [] then {} else SeqsOf(s, list[..|list| - 1]) + {s.reqs[list[|list| - 1]].seqNo}
  }

  ghost predicate InFlight(s: State, n: nat)
    requires Shaped(s)
  {
    exists id :: 0 <= id < CHEEZE_QUEUE_SIZE && s.phase[id] != Idle && s.reqs[id].seqNo == n
  }

  ghost predicate DistinctBusy(s: State, list: seq<nat>)
    requires Shaped(s)
  {
    && (forall i :: 0 <= i < |list| ==> list[i] < CHEEZE_QUEUE_SIZE && s.phase[list[i]] != Idle)
    && (forall i, j :: 0 <= i < j < |list| ==> list[i] != list[j])
  }

  lemma Unfolded(s: State)
    requires Inv(s)
    ensures Shaped(s)
    ensures |s.phase| == |s.reqs| == |s.send| == |s.recv| == |s.seqAddr| == CHEEZE_QUEUE_SIZE
  {}

  lemma InFlightFacts(s: State, id: nat)
    requires Inv(s) && Busy(s, id)
    ensures s.reqs[id].seqNo < |s.issued| && s.reqs[id].seqNo !in s.released
  {}

  lemma Released(s: State)
    requires Inv(s)
    ensures |s.released| + |s.processing| == |s.issued| && s.acks == |s.completed|
    ensures forall n :: n in s.released ==> n < |s.issued| && (n in s.completed <==> IsSync(s.issued[n]))
  {}

  lemma Spelled(s: State, list: seq<nat>)
    requires Shaped(s) && DistinctBusy(s, list)
    ensures list != [] ==> list[|list| - 1] < CHEEZE_QUEUE_SIZE && s.phase[list[|list| - 1]] != Idle
    ensures list != [] ==> DistinctBusy(s, list[..|list| - 1]) && list[|list| - 1] !in list[..|list| - 1]
    ensures forall i :: 0 <= i < |list| ==> list[i] < CHEEZE_QUEUE_SIZE && s.phase[list[i]] != Idle
  {}

  lemma {:induction false} SeqsOfDistinct(s: State, list: seq<nat>)
    requires Shaped(s) && Inv(s) && DistinctBusy(s, list)
    ensures |SeqsOf(s, list)| == |list|
    ensures forall n :: n in SeqsOf(s, list) ==> exists i :: 0 <= i < |list| && s.reqs[list[i]].seqNo == n
  {
    hide Inv, Shaped, DistinctBusy;
    Unfolded(s);
    Spelled(s, list);
    if list != [] {
      var front, last := list[..|list| - 1], list[|list| - 1];
      SeqsOfDistinct(s, front);
      if s.reqs[last].seqNo in SeqsOf(s, front) {
        var i :| 0 <= i < |front| && s.reqs[front[i]].seqNo == s.reqs[last].seqNo;
        assert list[i] == front[i];
        TagsDiffer(s, front[i], last);
      }
      forall n | n in SeqsOf(s, list)
        ensures exists i :: 0 <= i < |list| && s.reqs[list[i]].seqNo == n
      {
        if n in SeqsOf(s, front) {
          var i :| 0 <= i < |front| && s.reqs[front[i]].seqNo == n;
          assert list[i] == front[i];
        }
      }
    }
  }

  lemma TagsDiffer(s: State, a: nat, b: nat)
    requires Inv(s) && a < CHEEZE_QUEUE_SIZE && b < CHEEZE_QUEUE_SIZE && a != b && s.phase[a] != Idle && s.phase[b] != Idle
    ensures s.reqs[a].seqNo != s.reqs[b].seqNo
  {
    if a < b {
    } else {
      assert b < a;
    }
  }

  lemma Twice(list: seq<nat>, i: nat, j: nat)
    requires i < j < |list|
    ensures list[i] == list[j] ==> multiset(list)[list[i]] >= 2
  {
    assert list == list[..j] + [list[j]] + list[j + 1..];
    assert list[i] in list[..j];
  }

  lemma ProcessingDistinct(s: State)
    requires Inv(s)
    ensures DistinctBusy(s, s.processing)
  {
    var list := s.processing;
    forall i | 0 <= i < |list|
      ensures list[i] < CHEEZE_QUEUE_SIZE && s.phase[list[i]] != Idle
    {
      Partition(s, list[i]);
      assert list[i] in s.processing;
    }
    forall i, j | 0 <= i < j < |list|
      ensures list[i] != list[j]
    {
      Partition(s, list[i]);
      Twice(list, i, j);
    }
  }

  /**
   Every request ever issued is either in flight or released, never both; a released request
   was signalled exactly when somebody waits for it.  Tags returned and signals given are as
   many as the requests they were for, so nothing is released or signalled twice.
   */
  lemma EveryRequestAccounted(trace: seq<Action>, n: nat)
    requires n < |Run(trace).issued|
    ensures var s := Run(trace);
            && (InFlight(s, n) <==> n !in s.released)
            && (n in s.released ==> (n in s.completed <==> IsSync(s.issued[n])))
            && |s.released| == |s.issued| - |s.processing| && s.acks == |s.completed|
  {
    hide Run, Inv, Shaped;
    var s := Run(trace);
    Unfolded(s);
    ProcessingDistinct(s);
    SeqsOfDistinct(s, s.processing);
    var flying := SeqsOf(s, s.processing);
    forall x | x in flying
      ensures x < |s.issued| && x !in s.released
    {
      var i :| 0 <= i < |s.processing| && s.reqs[s.processing[i]].seqNo == x;
      InFlightFacts(s, s.processing[i]);
    }
    Released(s);
    assert |s.released + flying| == |s.issued|;
    BelowSize(s.released + flying, |s.issued|);
    if n !in s.released {
      assert n in flying;
      var i :| 0 <= i < |s.processing| && s.reqs[s.processing[i]].seqNo == n;
      assert s.phase[s.processing[i]] != Idle;
    }
    forall id | 0 <= id < CHEEZE_QUEUE_SIZE && s.phase[id] != Idle
      ensures s.reqs[id].seqNo !in s.released
    {
      InFlightFacts(s, id);
    }
  }

  /** Before 2^64 requests, tags in flight show the device different sequence numbers. */
  lemma SequenceNumbersDiffer(trace: seq<Action>, a: nat, b: nat)
    requires a < CHEEZE_QUEUE_SIZE && b < CHEEZE_QUEUE_SIZE && a != b
    ensures var s := Run(trace);
            |s.issued| <= U64 && (s.send[a] || s.recv[a]) && (s.send[b] || s.recv[b]) ==> s.seqAddr[a] != s.seqAddr[b]
  {
    hide Run;
    var s := Run(trace);
    if |s.issued| <= U64 && (s.send[a] || s.recv[a]) && (s.send[b] || s.recv[b]) {
      TagsDiffer(s, a, b);
    }
  }

  // The free list is a queue.

  /**
   Every tag handed out so far, in order, and then the free ones, are the tags in numerical
   order followed by the returned ones.
   */
  ghost predicate Fifo(s: State) {
    |s.issued| <= CHEEZE_QUEUE_SIZE + |s.returned| && s.free == (Tags() + s.returned)[|s.issued|..]
  }

  lemma FifoStep(s: State, a: Action)
    requires Inv(s) && Fifo(s)
    ensures Fifo(Next(s, a))
  {
    hide FlagsOk, RequestsOk, HistoryOk, CountsOk, Tags;
    assert |Tags()| == CHEEZE_QUEUE_SIZE by { TagsLength(); }
    match a
    case Prepare(k) =>
    case Send(id) =>
    case Serve(id) =>
    case Receive(id) => ReturnedLast(s.returned, id, |s.issued|);
    case Free(id) => ReturnedLast(s.returned, id, |s.issued|);
  }

  lemma TagsLength()
    ensures |Tags()| == CHEEZE_QUEUE_SIZE
  {}

  lemma ReturnedLast(returned: seq<nat>, id: nat, n: nat)
    requires n <= CHEEZE_QUEUE_SIZE + |returned|
    ensures (Tags() + returned)[n..] + [id] == (Tags() + (returned + [id]))[n..]
  {}

  /** Tags are handed out in the order they came back, the fresh ones first. */
  lemma {:induction false} TagsInReturnOrder(trace: seq<Action>)
    ensures Fifo(Run(trace))
  {
    hide Inv;
    if trace == [] {
      assert Tags() + [] == Tags();
    } else {
      var before := trace[..|trace| - 1];
      TagsInReturnOrder(before);
      FifoStep(Run(before), trace[|trace| - 1]);
    }
  }
}
