/**
 The slot allocator and the shared-memory handshake.  A request takes a tag from the free
 list, fills the tag's buffer, raises its send flag; the device answers by clearing it and
 raising the receive flag; the polling thread completes the request and the tag returns.
 */
module SlotQueue {
  import opened Bytes

  const CHEEZE_QUEUE_SIZE: nat := 1024
  const CHEEZE_BUF_SIZE: nat := 2 * 1024 * 1024
  const HP_SIZE: nat := 1024 * 1024 * 1024
  const ITEMS_PER_HP: nat := HP_SIZE / CHEEZE_BUF_SIZE
  const SHM_ADDR1: nat := 0x3ec0000000
  const SHM_ADDR2: nat := 0x3e80000000

  /** Start of a tag's buffer in the two shared huge pages. */
  function BufAddr(id: nat): nat {
    (if id / ITEMS_PER_HP == 0 then SHM_ADDR1 else SHM_ADDR2) + id % ITEMS_PER_HP * CHEEZE_BUF_SIZE
  }

  /** The first 512 tags lie in the first huge page, tag by tag, and the others in the second. */
  lemma BufferPlaces(id: nat)
    requires id < CHEEZE_QUEUE_SIZE
    ensures id < 512 ==> BufAddr(id) == SHM_ADDR1 + id * CHEEZE_BUF_SIZE
    ensures id >= 512 ==> BufAddr(id) == SHM_ADDR2 + (id - 512) * CHEEZE_BUF_SIZE
  {
    assert ITEMS_PER_HP == 512;
  }

  /** Different tags have disjoint buffers, each inside the mapped area. */
  lemma BuffersDisjoint(a: nat, b: nat)
    requires a < CHEEZE_QUEUE_SIZE && b < CHEEZE_QUEUE_SIZE && a != b
    ensures BufAddr(a) + CHEEZE_BUF_SIZE <= BufAddr(b) || BufAddr(b) + CHEEZE_BUF_SIZE <= BufAddr(a)
    ensures SHM_ADDR2 <= BufAddr(a) && BufAddr(a) + CHEEZE_BUF_SIZE <= SHM_ADDR1 + HP_SIZE
  {
    assert ITEMS_PER_HP == 512;
    var p, q := a % 512, b % 512;
    assert p * CHEEZE_BUF_SIZE <= 511 * CHEEZE_BUF_SIZE && q * CHEEZE_BUF_SIZE <= 511 * CHEEZE_BUF_SIZE;
    if a / 512 == b / 512 {
      assert p != q;
    }
  }

  datatype Kind = Get | GetMulti | CommitOnly | TransferFlush | TransferPlain

  predicate IsSync(k: Kind) { !k.TransferPlain? }

  predicate IsTransfer(k: Kind) { k.TransferFlush? || k.TransferPlain? }

  /** Where a tag's current request stands. */
  datatype Phase =
    | Idle       // in the free list
    | Prepared   // tag taken, request not sent
    | Sent       // send flag up
    | Served     // receive flag up
    | Acked      // completed; the requester still reads the buffer

  datatype Req = Req(kind: Kind, seqNo: nat)

  datatype State = State(
    free: seq<nat>,
    processing: seq<nat>,
    slots: nat,
    qd: int,
    nextSeq: nat,
    phase: seq<Phase>,
    reqs: seq<Req>,
    send: seq<bool>,
    recv: seq<bool>,
    seqAddr: seq<nat>,
    issued: seq<Kind>,       // every request so far, by sequence number
    returned: seq<nat>,      // tags given back, in order
    acks: nat,               // number of times a waiter was signalled
    completed: set<nat>,
    released: set<nat>)

  datatype Action =
    | Prepare(kind: Kind)    // cheeze_prepare_io
    | Send(id: nat)          // send_req
    | Serve(id: nat)         // the device answers a raised send flag
    | Receive(id: nat)       // the body of recv_req for one slot
    | Free(id: nat)          // cheeze_free_io by the requester

  function Tags(): seq<nat> { seq(CHEEZE_QUEUE_SIZE, i => i) }

  function AllTags<T>(x: T): seq<T> { seq(CHEEZE_QUEUE_SIZE, _ => x) }

  /** cheeze_queue_init: every tag free, every flag down. */
  function Init(): State {
    State(Tags(), [], CHEEZE_QUEUE_SIZE, 0, 0, AllTags(Idle), AllTags(Req(Get, 0)),
          AllTags(false), AllTags(false), AllTags(0), [], [], 0, {}, {})
  }

  function Without(list: seq<nat>, id: nat): seq<nat> {
    if list == [] then [] else if list[0] == id then list[1..] else [list[0]] + Without(list[1..], id)
  }

  ghost predicate Shaped(s: State) {
    && |s.phase| == |s.reqs| == |s.send| == |s.recv| == |s.seqAddr| == CHEEZE_QUEUE_SIZE
    && multiset(s.free) + multiset(s.processing) == multiset(Tags())
  }

  /** Blocks, that is changes nothing, while no slot is free. */
  function PrepareStep(s: State, k: Kind): State
    requires Shaped(s)
  {
    if s.slots == 0 || s.free == [] then s
    else
      TagInRange(s, s.free[0]);
      var id := s.free[0];
      s.(free := s.free[1..], processing := s.processing + [id], slots := s.slots - 1, qd := s.qd + 1,
         nextSeq := (s.nextSeq + 1) % U64, phase := s.phase[id := Prepared],
         reqs := s.reqs[id := Req(k, |s.issued|)], issued := s.issued + [k])
  }

  function SendStep(s: State, id: nat): State
    requires Shaped(s)
  {
    if id < CHEEZE_QUEUE_SIZE && s.phase[id] == Prepared
    then s.(send := s.send[id := true], seqAddr := s.seqAddr[id := s.reqs[id].seqNo % U64], phase := s.phase[id := Sent])
    else s
  }

  function ServeStep(s: State, id: nat): State
    requires Shaped(s)
  {
    if id < CHEEZE_QUEUE_SIZE && s.send[id]
    then s.(send := s.send[id := false], recv := s.recv[id := true], phase := s.phase[id := Served])
    else s
  }

  /** cheeze_move_pop: the tag goes to the tail of the free list. */
  function MovePop(s: State, id: nat): State
    requires Shaped(s) && id < CHEEZE_QUEUE_SIZE
  {
    s.(processing := Without(s.processing, id), free := s.free + [id], slots := s.slots + 1, qd := s.qd - 1,
       phase := s.phase[id := Idle], returned := s.returned + [id], released := s.released + {s.reqs[id].seqNo})
  }

  function Complete(s: State, id: nat): State
    requires Shaped(s) && id < CHEEZE_QUEUE_SIZE
  {
    s.(acks := s.acks + 1, completed := s.completed + {s.reqs[id].seqNo}, phase := s.phase[id := Acked])
  }

  function ReceiveStep(s: State, id: nat): State
    requires Shaped(s)
  {
    if id < CHEEZE_QUEUE_SIZE && s.recv[id] then
      var k := s.reqs[id].kind;
      var s' := s.(recv := s.recv[id := false]);
      if !IsSync(k) then MovePop(s', id)
      else if IsTransfer(k) then MovePop(Complete(s', id), id)
      else Complete(s', id)
    else s
  }

  function FreeStep(s: State, id: nat): State
    requires Shaped(s)
  {
    if id < CHEEZE_QUEUE_SIZE && s.phase[id] == Acked then MovePop(s, id) else s
  }

  lemma TagInRange(s: State, id: nat)
    requires Shaped(s) && (id in s.free || id in s.processing)
    ensures id < CHEEZE_QUEUE_SIZE
  {
    assert id in multiset(s.free) + multiset(s.processing);
    assert id in Tags();
  }

  lemma {:induction false} WithoutRemoves(list: seq<nat>, id: nat)
    requires id in list
    ensures multiset(Without(list, id)) == multiset(list) - multiset{id}
    ensures |Without(list, id)| == |list| - 1
  {
    assert list == [list[0]] + list[1..];
    if list[0] != id {
      WithoutRemoves(list[1..], id);
    }
  }
}
