/**
 Which request a tag stands for, and what follows from tags being given out again: the order in
 which a device that sweeps the tags serves requests, and whose completion a requester waits for.
 */
module SlotOrder {
  import opened Bytes
  import opened SlotQueue
  import opened SlotInvariant

  /** The tag of request `n`: the tags in numerical order, then the returned ones. */
  ghost function TagOf(s: State, n: nat): nat
    requires n < CHEEZE_QUEUE_SIZE + |s.returned|
  {
    (Tags() + s.returned)[n]
  }

  /** A tag's entry is the latest request that took the tag. */
  ghost predicate Latest(s: State, n: nat)
    requires Shaped(s) && n < |s.issued| <= CHEEZE_QUEUE_SIZE + |s.returned|
  {
    var id := TagOf(s, n);
    id < CHEEZE_QUEUE_SIZE &&
      var m := s.reqs[id].seqNo;
      n <= m < |s.issued| && TagOf(s, m) == id && s.reqs[id].kind == s.issued[m]
  }

  ghost predicate Holders(s: State)
    requires Shaped(s)
  {
    && |s.issued| <= CHEEZE_QUEUE_SIZE + |s.returned|
    && (forall n :: 0 <= n < |s.issued| ==> Latest(s, n))
    && (forall id :: 0 <= id < CHEEZE_QUEUE_SIZE && s.phase[id] != Idle ==>
          s.reqs[id].seqNo < |s.issued| && TagOf(s, s.reqs[id].seqNo) == id)
  }

  lemma HoldersPrepare(s: State, k: Kind)
    requires Inv(s) && Fifo(s) && Holders(s)
    ensures Shaped(PrepareStep(s, k)) && Holders(PrepareStep(s, k))
  {
    InvPrepare(s, k);
    hide Tags, FlagsOk, HistoryOk, RequestsOk;
    var s' := PrepareStep(s, k);
    if s.slots > 0 {
      var id, count := s.free[0], |s.issued|;
      TagsLength();
      TagInRange(s, id);
      assert TagOf(s, count) == id;
      forall n | 0 <= n < |s'.issued|
        ensures Latest(s', n)
      {
        assert TagOf(s', n) == TagOf(s, n);
        if n < count {
          assert Latest(s, n);
        }
      }
    }
  }

  /** Everything but taking a tag leaves the entries alone and at most returns tags. */
  lemma HoldersKept(s: State, s': State)
    requires Shaped(s) && Shaped(s') && Holders(s) && s'.issued == s.issued && s'.reqs == s.reqs && s.returned <= s'.returned
    requires forall id :: 0 <= id < CHEEZE_QUEUE_SIZE && s.phase[id] == Idle ==> s'.phase[id] == Idle
    ensures Holders(s')
  {
    hide Shaped, Tags;
    TagsLength();
    assert |s.reqs| == |s'.reqs| == |s.phase| == |s'.phase| == CHEEZE_QUEUE_SIZE by { ShapedLengths(s, s'); }
    assert forall n :: 0 <= n < |s.issued| ==> TagOf(s', n) == TagOf(s, n);
    forall n | 0 <= n < |s.issued|
      ensures Latest(s', n)
    {
      assert Latest(s, n);
    }
  }

  lemma ShapedLengths(s: State, s': State)
    requires Shaped(s) && Shaped(s')
    ensures |s.reqs| == |s'.reqs| == |s.phase| == |s'.phase| == CHEEZE_QUEUE_SIZE
  {}

  lemma OtherSteps(s: State, a: Action)
    requires Inv(s) && !a.Prepare?
    ensures var s' := Next(s, a);
            && s'.issued == s.issued && s'.reqs == s.reqs && s.returned <= s'.returned
            && |s'.phase| == |s.phase| == CHEEZE_QUEUE_SIZE
            && forall id :: 0 <= id < CHEEZE_QUEUE_SIZE && s.phase[id] == Idle ==> s'.phase[id] == Idle
  {
    hide HistoryOk, CountsOk, RequestsOk, Tags, Without, BufAddr;
  }

  lemma {:induction false} HoldersReachable(trace: seq<Action>)
    ensures Holders(Run(trace))
  {
    hide Holders, Inv, Next;
    if trace == [] {
      NoHolders();
    } else {
      var before, a := trace[..|trace| - 1], trace[|trace| - 1];
      HoldersReachable(before);
      TagsInReturnOrder(before);
      Unfolded(Run(before));
      InvNext(Run(before), a);
      Unfolded(Next(Run(before), a));
      if a.Prepare? {
        HoldersPrepare(Run(before), a.kind);
        PrepareIs(Run(before), a.kind);
      } else {
        OtherSteps(Run(before), a);
        HoldersKept(Run(before), Next(Run(before), a));
      }
    }
  }

  lemma PrepareIs(s: State, k: Kind)
    requires Inv(s)
    ensures Next(s, Prepare(k)) == PrepareStep(s, k)
  {}

  lemma NoHolders()
    ensures Holders(Run([]))
  {}

  // A device that sweeps the tags.

  /** Request `n` waits for the device. */
  ghost predicate Raised(s: State, n: nat)
    requires Shaped(s) && |s.issued| <= CHEEZE_QUEUE_SIZE + |s.returned|
  {
    n < |s.issued| && TagOf(s, n) < CHEEZE_QUEUE_SIZE && s.send[TagOf(s, n)] && s.reqs[TagOf(s, n)].seqNo == n
  }

  /** The requests one sweep over the first `n` tags serves, in order. */
  ghost function Swept(s: State, n: nat): seq<nat>
    requires Shaped(s) && n <= CHEEZE_QUEUE_SIZE
  {
    if n == 0 then [] else Swept(s, n - 1) + if s.send[n - 1] then [s.reqs[n - 1].seqNo] else []
  }

  ghost predicate Ascends(ns: seq<nat>) {
    forall i, j :: 0 <= i < j < |ns| ==> ns[i] < ns[j]
  }

  lemma {:induction false} SweptMembers(s: State, n: nat, x: nat)
    requires Shaped(s) && n <= CHEEZE_QUEUE_SIZE
    ensures x in Swept(s, n) <==> exists a :: 0 <= a < n && s.send[a] && s.reqs[a].seqNo == x
  {
    hide Tags;
    if n > 0 {
      SweptMembers(s, n - 1, x);
    }
  }

  /** Tag order and request order agree on the raised tags below `n`. */
  ghost predicate TagsFollow(s: State, n: nat)
    requires Shaped(s) && n <= CHEEZE_QUEUE_SIZE
  {
    forall a, b :: 0 <= a < b < n && s.send[a] && s.send[b] ==> s.reqs[a].seqNo < s.reqs[b].seqNo
  }

  lemma {:induction false} SweptAscends(s: State, n: nat)
    requires Shaped(s) && n <= CHEEZE_QUEUE_SIZE
    ensures Ascends(Swept(s, n)) <==> TagsFollow(s, n)
  {
    hide Tags;
    if n > 0 {
      SweptAscends(s, n - 1);
      var front := Swept(s, n - 1);
      if s.send[n - 1] {
        var x := s.reqs[n - 1].seqNo;
        forall y | y in front
          ensures exists a :: 0 <= a < n - 1 && s.send[a] && s.reqs[a].seqNo == y
        {
          SweptMembers(s, n - 1, y);
        }
        forall a | 0 <= a < n - 1 && s.send[a]
          ensures s.reqs[a].seqNo in front
        {
          SweptMembers(s, n - 1, s.reqs[a].seqNo);
        }
        AscendsSnoc(front, x);
      } else {
        assert front + [] == front;
      }
    }
  }

  lemma AscendsSnoc(ns: seq<nat>, x: nat)
    ensures Ascends(ns + [x]) <==> Ascends(ns) && forall y :: y in ns ==> y < x
  {
    var all := ns + [x];
    if Ascends(all) {
      assert forall i :: 0 <= i < |ns| ==> all[i] == ns[i] && all[i] < all[|ns|];
    }
    if Ascends(ns) && forall y :: y in ns ==> y < x {
      forall i, j | 0 <= i < j < |all|
        ensures all[i] < all[j]
      {
        assert ns[i] in ns;
      }
    }
  }

  /**
   In every reachable state, a device that sweeps the tags in numerical order serves the raised
   requests in the order they were made if and only if the earlier of any two has the smaller tag,
   the tags being given out in return order.
   */
  lemma SweepInOrderExactly(trace: seq<Action>)
    ensures var s := Run(trace);
            && |s.issued| <= CHEEZE_QUEUE_SIZE + |s.returned|
            && (Ascends(Swept(s, CHEEZE_QUEUE_SIZE)) <==>
                forall m, n :: 0 <= m < n && Raised(s, m) && Raised(s, n) ==> TagOf(s, m) < TagOf(s, n))
  {
    hide Run, Inv, Swept, Ascends, TagOf, Shaped, Latest;
    var s := Run(trace);
    Unfolded(s);
    HoldersReachable(trace);
    SweptAscends(s, CHEEZE_QUEUE_SIZE);
    if TagsFollow(s, CHEEZE_QUEUE_SIZE) {
      forall m, n | 0 <= m < n && Raised(s, m) && Raised(s, n)
        ensures TagOf(s, m) < TagOf(s, n)
      {}
    }
    if forall m, n :: 0 <= m < n && Raised(s, m) && Raised(s, n) ==> TagOf(s, m) < TagOf(s, n) {
      forall a, b | 0 <= a < b < CHEEZE_QUEUE_SIZE && s.send[a] && s.send[b]
        ensures s.reqs[a].seqNo < s.reqs[b].seqNo
      {
        SentIsBusy(s, a);
        SentIsBusy(s, b);
        TagsDiffer(s, a, b);
        assert Raised(s, s.reqs[a].seqNo) && Raised(s, s.reqs[b].seqNo);
      }
    }
  }

  lemma SentIsBusy(s: State, id: nat)
    requires Inv(s) && id < CHEEZE_QUEUE_SIZE && s.send[id]
    ensures s.phase[id] != Idle && s.reqs[id].seqNo < |s.issued| && s.seqAddr[id] == s.reqs[id].seqNo % U64
  {}

  /** As long as no tag was given out twice, the sweep is in order. */
  lemma FirstTagsInOrder(trace: seq<Action>)
    requires |Run(trace).issued| <= CHEEZE_QUEUE_SIZE
    ensures Ascends(Swept(Run(trace), CHEEZE_QUEUE_SIZE))
  {
    hide Run, Inv, Swept, Ascends;
    SweepInOrderExactly(trace);
  }

  // A device that serves the least sequence number first.

  ghost predicate Least(s: State, id: nat)
    requires Shaped(s)
  {
    && id < CHEEZE_QUEUE_SIZE && s.send[id]
    && forall b :: 0 <= b < CHEEZE_QUEUE_SIZE && s.send[b] ==> s.seqAddr[id] <= s.seqAddr[b]
  }

  ghost predicate ServesLeast(s: State, ids: seq<nat>)
    requires Inv(s)
    decreases |ids|
  {
    ids == [] || (Least(s, ids[0]) && (InvServe(s, ids[0]); ServesLeast(ServeStep(s, ids[0]), ids[1..])))
  }

  /** Serving the raised tag of the least sequence number restores the order of the requests. */
  lemma {:induction false} LeastRestoresOrder(s: State, ids: seq<nat>)
    requires Inv(s) && |s.issued| <= U64 && ServesLeast(s, ids)
    ensures forall i :: 0 <= i < |ids| ==> ids[i] < CHEEZE_QUEUE_SIZE && s.send[ids[i]]
    ensures forall i, j :: 0 <= i < j < |ids| ==> s.reqs[ids[i]].seqNo < s.reqs[ids[j]].seqNo
    decreases |ids|
  {
    if ids != [] {
      var s' := ServeStep(s, ids[0]);
      InvServe(s, ids[0]);
      LeastRestoresOrder(s', ids[1..]);
      Serves(s, ids[0]);
      hide Inv, ServesLeast, ServeStep;
      forall j | 0 < j < |ids|
        ensures ids[j] < CHEEZE_QUEUE_SIZE && s.send[ids[j]] && s.reqs[ids[0]].seqNo < s.reqs[ids[j]].seqNo
      {
        assert ids[1..][j - 1] == ids[j];
        Numbered(s, ids[0]);
        Numbered(s, ids[j]);
        SentIsBusy(s, ids[0]);
        SentIsBusy(s, ids[j]);
        TagsDiffer(s, ids[0], ids[j]);
      }
      assert forall i :: 0 < i < |ids| ==> ids[i] == ids[1..][i - 1];
    }
  }

  lemma Serves(s: State, id: nat)
    requires Inv(s) && id < CHEEZE_QUEUE_SIZE && s.send[id]
    ensures var s' := ServeStep(s, id);
            && s'.reqs == s.reqs && s'.issued == s.issued && |s'.send| == CHEEZE_QUEUE_SIZE
            && forall b :: 0 <= b < CHEEZE_QUEUE_SIZE ==> (s'.send[b] <==> s.send[b] && b != id)
  {}

  lemma Numbered(s: State, id: nat)
    requires Inv(s) && |s.issued| <= U64 && id < CHEEZE_QUEUE_SIZE && s.send[id]
    ensures s.seqAddr[id] == s.reqs[id].seqNo
  {
    SentIsBusy(s, id);
  }

  // Whose completion a requester waits for.

  /**
   After sending, cheeze_io reads the tag's entry and waits for the completion of the request it
   finds there, if that one is sync.
   */
  ghost function WaitsFor(s: State, id: nat): Option<nat>
    requires Shaped(s) && id < CHEEZE_QUEUE_SIZE
  {
    if IsSync(s.reqs[id].kind) then Some(s.reqs[id].seqNo) else None
  }

  /** The requester of `n` waits for its own request if that is sync, and does not wait otherwise. */
  ghost predicate WaitsRight(s: State, n: nat)
    requires Shaped(s) && n < |s.issued| <= CHEEZE_QUEUE_SIZE + |s.returned| && TagOf(s, n) < CHEEZE_QUEUE_SIZE
  {
    WaitsFor(s, TagOf(s, n)) == if IsSync(s.issued[n]) then Some(n) else None
  }

  /** No later request has taken the tag of `n`. */
  ghost predicate StillOwn(s: State, n: nat)
    requires n < |s.issued| <= CHEEZE_QUEUE_SIZE + |s.returned|
  {
    forall m :: n < m < |s.issued| ==> TagOf(s, m) != TagOf(s, n)
  }

  /**
   In every reachable state, the requester of `n` waits for the right thing if and only if its tag
   has not been given to a later request, or neither its own request nor the latest one on the
   tag is sync.  While the request is in flight the tag is its own.
   */
  lemma WaitsRightExactly(trace: seq<Action>, n: nat)
    requires n < |Run(trace).issued|
    ensures var s := Run(trace);
            && |s.issued| <= CHEEZE_QUEUE_SIZE + |s.returned| && TagOf(s, n) < CHEEZE_QUEUE_SIZE
            && (WaitsRight(s, n) <==>
                StillOwn(s, n) || (!IsSync(s.issued[n]) && !IsSync(s.reqs[TagOf(s, n)].kind)))
            && (StillOwn(s, n) <==> s.reqs[TagOf(s, n)].seqNo == n)
            && (n !in s.released ==> StillOwn(s, n))
  {
    hide Run, Inv, TagOf, Shaped;
    var s := Run(trace);
    Unfolded(s);
    HoldersReachable(trace);
    assert Latest(s, n);
    var id := TagOf(s, n);
    if s.reqs[id].seqNo == n {
      forall m | n < m < |s.issued|
        ensures TagOf(s, m) != id
      {
        assert Latest(s, m);
      }
    }
    EveryRequestAccounted(trace, n);
    if n !in s.released {
      var b :| 0 <= b < CHEEZE_QUEUE_SIZE && s.phase[b] != Idle && s.reqs[b].seqNo == n;
    }
  }

  // A tag given out again.

  function Prepares(n: nat): seq<Action> { seq(n, _ => Prepare(TransferPlain)) }

  lemma SlotsSnoc(trace: seq<Action>, a: Action)
    ensures Run(trace + [a]) == Next(Run(trace), a)
  {
    assert (trace + [a])[..|trace|] == trace;
  }

  /** The first `n` tags are taken by plain transfers that are not sent yet. */
  ghost predicate Fresh(s: State, n: nat)
    requires Shaped(s) && n <= CHEEZE_QUEUE_SIZE
  {
    && |s.issued| == n && s.returned == []
    && forall i :: 0 <= i < n ==> s.phase[i] == Prepared && s.reqs[i] == Req(TransferPlain, i)
  }

  lemma {:induction false} TakesFresh(n: nat)
    requires n <= CHEEZE_QUEUE_SIZE
    ensures Fresh(Run(Prepares(n)), n)
  {
    hide Inv, Next, Fresh, Run, Prepares, Fifo;
    if n == 0 {
      NoneTaken();
    } else {
      TakesFresh(n - 1);
      TagsInReturnOrder(Prepares(n - 1));
      OneMorePrepare(n);
      SlotsSnoc(Prepares(n - 1), Prepare(TransferPlain));
      TakesOne(Run(Prepares(n - 1)), n - 1);
    }
  }

  lemma OneMorePrepare(n: nat)
    requires n > 0
    ensures Prepares(n) == Prepares(n - 1) + [Prepare(TransferPlain)]
  {}

  lemma NoneTaken()
    ensures Fresh(Run(Prepares(0)), 0)
  {}

  lemma TakesOne(s: State, n: nat)
    requires Inv(s) && Fifo(s) && n < CHEEZE_QUEUE_SIZE && Fresh(s, n)
    ensures Shaped(Next(s, Prepare(TransferPlain))) && Fresh(Next(s, Prepare(TransferPlain)), n + 1)
  {
    InvPrepare(s, TransferPlain);
    hide FlagsOk, HistoryOk, RequestsOk;
    assert Tags() + [] == Tags();
    assert s.free[0] == n && |s.free| > 0;
  }

  /** Request 0 is done and request 1024 gets its tag, while 1023 is still waiting to be sent. */
  function ReissueRun(k: Kind): seq<Action> {
    Prepares(CHEEZE_QUEUE_SIZE) + [Send(0)] + [Serve(0)] + [Receive(0)] + [Prepare(k)]
  }

  ghost predicate Reissued(s: State, k: Kind)
    requires Shaped(s)
  {
    && s.reqs[0] == Req(k, CHEEZE_QUEUE_SIZE) && s.phase[0] == Prepared && s.returned == [0]
    && |s.issued| == CHEEZE_QUEUE_SIZE + 1 && s.issued[0] == TransferPlain
    && s.reqs[CHEEZE_QUEUE_SIZE - 1] == Req(TransferPlain, CHEEZE_QUEUE_SIZE - 1) && s.phase[CHEEZE_QUEUE_SIZE - 1] == Prepared
  }

  lemma ServedOnce(s: State)
    requires Inv(s) && Fresh(s, CHEEZE_QUEUE_SIZE)
    ensures var t := ServeStep(SendStep(s, 0), 0);
            && Shaped(t) && t.recv[0] && t.reqs == s.reqs && t.free == s.free && t.issued == s.issued && t.returned == []
            && t.slots == s.slots && t.phase[CHEEZE_QUEUE_SIZE - 1] == Prepared
  {}

  lemma GivenAgain(t: State, k: Kind)
    requires Shaped(t) && t.recv[0] && t.free == [] && t.slots == 0 && t.returned == [] && |t.issued| == CHEEZE_QUEUE_SIZE
    requires t.reqs[0] == Req(TransferPlain, 0) && t.reqs[CHEEZE_QUEUE_SIZE - 1] == Req(TransferPlain, CHEEZE_QUEUE_SIZE - 1)
    requires t.phase[CHEEZE_QUEUE_SIZE - 1] == Prepared && t.issued[0] == TransferPlain
    requires Shaped(ReceiveStep(t, 0)) && Shaped(PrepareStep(ReceiveStep(t, 0), k))
    ensures Reissued(PrepareStep(ReceiveStep(t, 0), k), k)
  {
    hide Tags, Without;
  }

  lemma TagGivenAgain(k: Kind)
    ensures Reissued(Run(ReissueRun(k)), k)
  {
    hide Run, Prepares, Inv, Fresh, Reissued, Next;
    var t0 := Prepares(CHEEZE_QUEUE_SIZE);
    var s := Run(t0);
    TakesFresh(CHEEZE_QUEUE_SIZE);
    SlotsSnoc(t0, Send(0));
    SlotsSnoc(t0 + [Send(0)], Serve(0));
    SlotsSnoc(t0 + [Send(0)] + [Serve(0)], Receive(0));
    SlotsSnoc(t0 + [Send(0)] + [Serve(0)] + [Receive(0)], Prepare(k));
    Unfolded(s);
    StepsAre(s, k);
    TagsInReturnOrder(t0);
    NoneFree(s);
    ServedOnce(s);
    FreshKinds(s);
    GivenAgain(ServeStep(SendStep(s, 0), 0), k);
  }

  lemma StepsAre(s: State, k: Kind)
    requires Inv(s)
    ensures Shaped(s) && Shaped(SendStep(s, 0)) && Shaped(ServeStep(SendStep(s, 0), 0))
    ensures Shaped(ReceiveStep(ServeStep(SendStep(s, 0), 0), 0))
    ensures var a := SendStep(s, 0);
            var b := ServeStep(a, 0);
            var c := ReceiveStep(b, 0);
            && Inv(a) && Next(s, Send(0)) == a && Inv(b) && Next(a, Serve(0)) == b
            && Inv(c) && Next(b, Receive(0)) == c && Inv(PrepareStep(c, k)) && Next(c, Prepare(k)) == PrepareStep(c, k)
  {
    hide Inv, SendStep, ServeStep, ReceiveStep, PrepareStep;
    Unfolded(s);
    InvSend(s, 0);
    var a := SendStep(s, 0);
    Unfolded(a);
    InvServe(a, 0);
    var b := ServeStep(a, 0);
    Unfolded(b);
    InvReceive(b, 0);
    Unfolded(ReceiveStep(b, 0));
    InvPrepare(ReceiveStep(b, 0), k);
  }

  lemma NoneFree(s: State)
    requires Inv(s) && Fifo(s) && Fresh(s, CHEEZE_QUEUE_SIZE)
    ensures s.free == [] && s.slots == 0
  {
    assert Tags() + [] == Tags();
  }

  lemma FreshKinds(s: State)
    requires Inv(s) && Fresh(s, CHEEZE_QUEUE_SIZE)
    ensures s.issued[0] == TransferPlain && s.reqs[0] == Req(TransferPlain, 0)
    ensures s.reqs[CHEEZE_QUEUE_SIZE - 1] == Req(TransferPlain, CHEEZE_QUEUE_SIZE - 1)
  {
    assert s.phase[0] == Prepared;
  }

  /**
   A run in which a plain transfer's requester, slow to look, finds a sync request on its tag and
   waits for that one's completion instead of not waiting.
   */
  lemma WaitsForAnother()
    ensures var s := Run(ReissueRun(Get));
            && |s.issued| == CHEEZE_QUEUE_SIZE + 1 && |s.returned| == 1 && !IsSync(s.issued[0]) && TagOf(s, 0) == 0
            && WaitsFor(s, TagOf(s, 0)) == Some(CHEEZE_QUEUE_SIZE) && !WaitsRight(s, 0)
  {
    hide Run, ReissueRun, Inv;
    TagGivenAgain(Get);
  }

  /** The same run, with the two waiting requests sent. */
  function SwappedRun(): seq<Action> {
    ReissueRun(TransferPlain) + [Send(CHEEZE_QUEUE_SIZE - 1)] + [Send(0)]
  }

  /** The device serves request 1024 before request 1023. */
  lemma SweptOutOfOrder()
    ensures var s := Run(SwappedRun());
            && s.send[0] && s.reqs[0].seqNo == CHEEZE_QUEUE_SIZE
            && s.send[CHEEZE_QUEUE_SIZE - 1] && s.reqs[CHEEZE_QUEUE_SIZE - 1].seqNo == CHEEZE_QUEUE_SIZE - 1
            && !Ascends(Swept(s, CHEEZE_QUEUE_SIZE))
  {
    hide Run, ReissueRun, Inv, Swept;
    var s := Run(ReissueRun(TransferPlain));
    TagGivenAgain(TransferPlain);
    SlotsSnoc(ReissueRun(TransferPlain), Send(CHEEZE_QUEUE_SIZE - 1));
    SlotsSnoc(ReissueRun(TransferPlain) + [Send(CHEEZE_QUEUE_SIZE - 1)], Send(0));
    Unfolded(Run(SwappedRun()));
    Unfolded(s);
    SweptAscends(Run(SwappedRun()), CHEEZE_QUEUE_SIZE);
  }
}
