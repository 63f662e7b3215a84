/** The tag lists, request records and shared flag arrays as the driver updates them in place. */
module SlotTable {
  import opened Bytes
  import opened SlotQueue
  import opened SlotInvariant

  /** One polling sweep over the first `n` slots. */
  ghost function Swept(s: State, n: nat): (r: State)
    requires Inv(s) && n <= CHEEZE_QUEUE_SIZE
    ensures Inv(r)
  {
    if n == 0 then s
    else
      InvReceive(Swept(s, n - 1), n - 1);
      ReceiveStep(Swept(s, n - 1), n - 1)
  }

  /** Receiving on one slot touches no other slot's flags, request or phase. */
  lemma ReceiveIsLocal(s: State, id: nat, other: nat)
    requires Inv(s) && other < CHEEZE_QUEUE_SIZE && other != id
    ensures Inv(ReceiveStep(s, id))
    ensures var r := ReceiveStep(s, id);
            r.recv[other] == s.recv[other] && r.reqs == s.reqs && r.phase[other] == s.phase[other]
  {
    InvReceive(s, id);
  }

  lemma ReadyToPrepare(s: State, k: Kind)
    requires Inv(s) && s.slots > 0
    ensures Shaped(s) && s.free != [] && s.free[0] < CHEEZE_QUEUE_SIZE && Inv(PrepareStep(s, k))
    ensures s.nextSeq == |s.issued| % U64
  {
    InvPrepare(s, k);
    TagInRange(s, s.free[0]);
  }

  /** What receiving does to its own slot. */
  lemma ReceiveAnswers(s: State, id: nat)
    requires Inv(s) && id < CHEEZE_QUEUE_SIZE
    ensures Inv(ReceiveStep(s, id)) && Answered(s, ReceiveStep(s, id), id)
  {
    InvReceive(s, id);
  }

  /**
   A raised receive flag is down.  A get, multi-get or commit is signalled and its requester still
   holds the tag; a flushing transfer is signalled and its tag is back; of a plain one only the tag is back.
   */
  ghost predicate Answered(s: State, r: State, id: nat)
    requires Inv(s) && Inv(r) && id < CHEEZE_QUEUE_SIZE
  {
    var n, k := s.reqs[id].seqNo, s.reqs[id].kind;
    && !r.recv[id]
    && (s.recv[id] ==>
          match k
          case Get => n in r.completed && r.phase[id] == Acked
          case GetMulti => n in r.completed && r.phase[id] == Acked
          case CommitOnly => n in r.completed && r.phase[id] == Acked
          case TransferFlush => n in r.completed && n in r.released && r.phase[id] == Idle
          case TransferPlain => n in r.released && r.phase[id] == Idle)
    && (!s.recv[id] ==> r.phase[id] == s.phase[id])
  }

  lemma ReceiveOnlyAdds(s: State, id: nat)
    requires Inv(s)
    ensures s.completed <= ReceiveStep(s, id).completed && s.released <= ReceiveStep(s, id).released
  {}

  lemma {:induction false} SweepKeeps(s: State, n: nat, id: nat)
    requires Inv(s) && n <= id < CHEEZE_QUEUE_SIZE
    ensures var r := Swept(s, n);
            r.recv[id] == s.recv[id] && r.reqs == s.reqs && r.phase[id] == s.phase[id]
    decreases n
  {
    hide Inv;
    if n > 0 {
      SweepKeeps(s, n - 1, id);
      ReceiveIsLocal(Swept(s, n - 1), n - 1, id);
    }
  }

  /** One sweep answers every raised flag: none is left up and none is skipped. */
  lemma {:induction false} SweepAnswers(s: State, n: nat, id: nat)
    requires Inv(s) && id < n <= CHEEZE_QUEUE_SIZE
    ensures Answered(s, Swept(s, n), id)
    decreases n
  {
    hide Inv, Shaped, ReceiveStep;
    var before := Swept(s, n - 1);
    Unfolded(s);
    Unfolded(before);
    if id == n - 1 {
      SweepKeeps(s, n - 1, id);
      ReceiveAnswers(before, id);
    } else {
      SweepAnswers(s, n - 1, id);
      ReceiveIsLocal(before, n - 1, id);
      ReceiveOnlyAdds(before, n - 1);
    }
  }

  class Table {
    var freeTags: seq<nat>
    var processing: seq<nat>
    var slots: nat
    var qd: int
    var nextSeq: nat
    const kinds: array<Kind>
    const sendFlags: array<bool>
    const recvFlags: array<bool>
    const seqAddr: array<nat>

    ghost var phase: seq<Phase>
    ghost var reqs: seq<Req>
    ghost var issued: seq<Kind>
    ghost var returned: seq<nat>
    ghost var acks: nat
    ghost var completed: set<nat>
    ghost var released: set<nat>

    ghost predicate Linked()
      reads this, kinds
    {
      && sendFlags != recvFlags
      && kinds.Length == sendFlags.Length == recvFlags.Length == seqAddr.Length == |reqs| == CHEEZE_QUEUE_SIZE
      && forall i :: 0 <= i < CHEEZE_QUEUE_SIZE ==> reqs[i].kind == kinds[i]
    }

    ghost function St(): State
      reads this, sendFlags, recvFlags, seqAddr
    {
      State(freeTags, processing, slots, qd, nextSeq, phase, reqs, sendFlags[..], recvFlags[..], seqAddr[..],
            issued, returned, acks, completed, released)
    }

    ghost predicate Valid()
      reads this, kinds, sendFlags, recvFlags, seqAddr
    {
      Linked() && Inv(St())
    }

    constructor ()
      ensures Valid() && St() == Init()
      ensures fresh(kinds) && fresh(sendFlags) && fresh(recvFlags) && fresh(seqAddr)
    {
      kinds := new Kind[CHEEZE_QUEUE_SIZE](_ => Get);
      sendFlags := new bool[CHEEZE_QUEUE_SIZE](_ => false);
      recvFlags := new bool[CHEEZE_QUEUE_SIZE](_ => false);
      seqAddr := new nat[CHEEZE_QUEUE_SIZE](_ => 0);
      processing, slots, qd, nextSeq := [], CHEEZE_QUEUE_SIZE, 0, 0;
      phase, reqs, issued, returned, acks, completed, released := AllTags(Idle), AllTags(Req(Get, 0)), [], [], 0, {}, {};
      var list: seq<nat> := [];
      for i := 0 to CHEEZE_QUEUE_SIZE
        invariant list == seq(i, k => k)
      {
        list := list + [i];
      }
      freeTags := list;
      new;
      assert sendFlags[..] == AllTags(false) && recvFlags[..] == AllTags(false) && seqAddr[..] == AllTags(0);
      InvInit();
    }

    /** Takes the first free tag; the caller has passed the `slots` semaphore. */
    method PrepareIo(k: Kind) returns (id: nat, number: nat)
      requires Valid() && slots > 0
      modifies this, kinds
      ensures Valid() && St() == PrepareStep(old(St()), k)
      ensures id == old(freeTags)[0] && number == |old(issued)| % U64
    {
      hide Inv;
      ghost var s := St();
      ReadyToPrepare(s, k);
      id, number := freeTags[0], nextSeq;
      freeTags, processing := freeTags[1..], processing + [id];
      slots, qd, nextSeq := slots - 1, qd + 1, (nextSeq + 1) % U64;
      kinds[id] := k;
      phase, reqs, issued := phase[id := Prepared], reqs[id := Req(k, |issued|)], issued + [k];
      assert St() == PrepareStep(s, k);
    }

    /** The flag is down when it is raised, so the warning in the source is never printed. */
    method SendReq(id: nat, number: nat) returns (alreadyUsed: bool)
      requires Valid() && id < CHEEZE_QUEUE_SIZE && phase[id] == Prepared && number == reqs[id].seqNo % U64
      modifies this, sendFlags, seqAddr
      ensures Valid() && St() == SendStep(old(St()), id) && !alreadyUsed
    {
      hide RequestsOk, HistoryOk;
      InvSend(St(), id);
      seqAddr[id] := number;
      alreadyUsed := sendFlags[id];
      sendFlags[id] := true;
      phase := phase[id := Sent];
    }

    /** The device's side of the handshake. */
    method Serve(id: nat)
      requires Valid() && id < CHEEZE_QUEUE_SIZE
      modifies this, sendFlags, recvFlags
      ensures Valid() && St() == ServeStep(old(St()), id)
    {
      hide RequestsOk, HistoryOk, FlagsOk;
      InvServe(St(), id);
      if sendFlags[id] {
        sendFlags[id] := false;
        recvFlags[id] := true;
        phase := phase[id := Served];
      }
    }

    method ReturnTag(id: nat)
      requires Linked() && Shaped(St()) && id < CHEEZE_QUEUE_SIZE
      modifies this
      ensures Linked() && St() == MovePop(old(St()), id)
    {
      hide Without;
      processing, freeTags := Without(processing, id), freeTags + [id];
      slots, qd := slots + 1, qd - 1;
      phase, returned, released := phase[id := Idle], returned + [id], released + {reqs[id].seqNo};
    }

    ghost method Signal(id: nat)
      requires Linked() && Shaped(St()) && id < CHEEZE_QUEUE_SIZE
      modifies this
      ensures Linked() && St() == Complete(old(St()), id)
    {
      acks, completed, phase := acks + 1, completed + {reqs[id].seqNo}, phase[id := Acked];
    }

    method ReceiveSlot(id: nat)
      requires Valid() && id < CHEEZE_QUEUE_SIZE
      modifies this, recvFlags
      ensures Valid() && St() == ReceiveStep(old(St()), id) && Answered(old(St()), St(), id)
    {
      hide RequestsOk, HistoryOk, FlagsOk, CountsOk;
      InvReceive(St(), id);
      ReceiveAnswers(St(), id);
      if recvFlags[id] {
        recvFlags[id] := false;
        var k := kinds[id];
        if !IsSync(k) {
          ReturnTag(id);
        } else {
          Signal(id);
          if IsTransfer(k) {
            ReturnTag(id);
          }
        }
      }
    }

    /** The polling thread's sweep answers every raised receive flag. */
    method RecvReq()
      requires Valid()
      modifies this, recvFlags
      ensures Valid() && St() == Swept(old(St()), CHEEZE_QUEUE_SIZE)
      ensures forall id :: 0 <= id < CHEEZE_QUEUE_SIZE ==> Answered(old(St()), St(), id)
    {
      hide Inv;
      ghost var s := St();
      for i := 0 to CHEEZE_QUEUE_SIZE
        invariant Valid() && St() == Swept(s, i)
      {
        ReceiveSlot(i);
      }
      forall id | 0 <= id < CHEEZE_QUEUE_SIZE
        ensures Answered(s, St(), id)
      {
        SweepAnswers(s, CHEEZE_QUEUE_SIZE, id);
      }
    }

    /** The requester of a get gives its tag back after reading the buffer. */
    method FreeIo(id: nat)
      requires Valid() && id < CHEEZE_QUEUE_SIZE && phase[id] == Acked
      modifies this
      ensures Valid() && St() == FreeStep(old(St()), id)
    {
      hide RequestsOk, HistoryOk, FlagsOk, CountsOk;
      InvFree(St(), id);
      ReturnTag(id);
    }
  }
}
