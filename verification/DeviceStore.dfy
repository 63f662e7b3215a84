/**
 What a device makes of the slots it finds.  A device is any function of the records, the
 COMMIT marks and the ids in the headers; this module relates the slots of a log of c_txns to
 the transactions in it.
 */
module DeviceStore {
  import opened Bytes
  import opened TxnTypes
  import opened Wire
  import opened GroupCommit
  import opened GroupCommitOrder
  import opened GroupCommitGroups

  /** A state, and what one event does to it, over a sequence of events. */
  function Fold<M, E>(f: (M, E) -> M, m: M, es: seq<E>): M {
    if es == [] then m else f(Fold(f, m, es[..|es| - 1]), es[|es| - 1])
  }

  lemma {:induction false} FoldConcat<M, E>(f: (M, E) -> M, m: M, xs: seq<E>, ys: seq<E>)
    ensures Fold(f, m, xs + ys) == Fold(f, Fold(f, m, xs), ys)
    decreases |ys|
  {
    if ys == [] {
      assert xs + ys == xs;
    } else {
      FoldConcat(f, m, xs, ys[..|ys| - 1]);
      assert (xs + ys)[..|xs + ys| - 1] == xs + ys[..|ys| - 1];
    }
  }

  lemma FoldNothing<M, E>(f: (M, E) -> M, m: M)
    ensures Fold(f, m, []) == m
  {}

  /** What a device sees: a record or mark, and the id in the header of its slot. */
  datatype Event = Event(id: nat, rec: Record)

  function Events(id: nat, rs: seq<Record>): seq<Event> {
    seq(|rs|, i requires 0 <= i < |rs| => Event(id, rs[i]))
  }

  /** The device reads slot after slot and applies what it decodes. */
  function FoldSlots<M>(f: (M, Event) -> M, m: M, slots: seq<seq<Byte>>): Option<M> {
    if slots == [] then Some(m)
    else
      match FoldSlots(f, m, slots[..|slots| - 1])
      case None => None
      case Some(before) =>
        match Decode(slots[|slots| - 1])
        case None => None
        case Some(d) => Some(Fold(f, before, Events(d.id, d.records)))
  }

  /** The records of transactions, one transaction after the other. */
  function RecordsOf(payloads: seq<seq<TxnBuf>>): seq<Record> {
    if payloads == [] then [] else RecordsOf(payloads[..|payloads| - 1]) + MeantAll(payloads[|payloads| - 1])
  }

  lemma {:induction false} RecordsOfBufs(ts: seq<Txn>)
    ensures RecordsOf(Payloads(ts)) == MeantAll(Bufs(ts))
  {
    hide Meant;
    if ts == [] {
    } else {
      var front, t := ts[..|ts| - 1], ts[|ts| - 1];
      RecordsOfBufs(front);
      assert Payloads(ts)[..|ts| - 1] == Payloads(front);
      assert MeantAll(Bufs(front) + t.bufs) == MeantAll(Bufs(front)) + MeantAll(t.bufs);
    }
  }

  lemma {:induction false} RecordsOfConcat(xs: seq<seq<TxnBuf>>, ys: seq<seq<TxnBuf>>)
    ensures RecordsOf(xs + ys) == RecordsOf(xs) + RecordsOf(ys)
    decreases |ys|
  {
    hide MeantAll;
    if ys == [] {
      assert xs + ys == xs;
    } else {
      RecordsOfConcat(xs, ys[..|ys| - 1]);
      assert (xs + ys)[..|xs + ys| - 1] == xs + ys[..|ys| - 1];
    }
  }

  lemma PayloadsConcat(xs: seq<Txn>, ys: seq<Txn>)
    ensures Payloads(xs + ys) == Payloads(xs) + Payloads(ys)
  {}

  ghost predicate SlotsHold(slots: seq<seq<Byte>>, log: seq<CTxn>) {
    |slots| == |log| && forall i :: 0 <= i < |log| ==> Transferred(slots[i], log[i])
  }

  /** Every slot of the log decodes to its c_txn. */
  ghost predicate LogDecodes(log: seq<CTxn>) {
    forall i :: 0 <= i < |log| ==>
      forall w :: Transferred(w, log[i]) ==> Decode(w) == Some(Decoded(log[i].id, |AllRecords(log[i])|, AllRecords(log[i])))
  }

  /** The records of c_txns in order, with their COMMIT marks. */
  function LogRecords(log: seq<CTxn>): seq<Record> {
    if log == [] then [] else LogRecords(log[..|log| - 1]) + AllRecords(log[|log| - 1])
  }

  /** The same with the ids of the headers. */
  function LogEvents(log: seq<CTxn>): seq<Event> {
    if log == [] then [] else LogEvents(log[..|log| - 1]) + Events(log[|log| - 1].id, AllRecords(log[|log| - 1]))
  }

  lemma {:induction false} SlotsApplyInOrder<M>(f: (M, Event) -> M, m: M, slots: seq<seq<Byte>>, log: seq<CTxn>)
    requires SlotsHold(slots, log) && LogDecodes(log)
    ensures FoldSlots(f, m, slots) == Some(Fold(f, m, LogEvents(log)))
    decreases |log|
  {
    hide Decode, Transferred, AllRecords, Fold, Events;
    if log == [] {
      FoldNothing(f, m);
    } else {
      var front, c := log[..|log| - 1], log[|log| - 1];
      SlotsApplyInOrder(f, m, slots[..|log| - 1], front);
      FoldConcat(f, m, LogEvents(front), Events(c.id, AllRecords(c)));
      assert Transferred(slots[|log| - 1], log[|log| - 1]);
    }
  }

  /** A device that does not look at the ids. */
  function Ignoring<M>(f: (M, Record) -> M): (M, Event) -> M { (m: M, e: Event) => f(m, e.rec) }

  lemma {:induction false} IgnoringIds<M>(f: (M, Record) -> M, m: M, log: seq<CTxn>)
    ensures Fold(Ignoring(f), m, LogEvents(log)) == Fold(f, m, LogRecords(log))
  {
    hide Fold, AllRecords, Events, Ignoring;
    if log == [] {
      FoldNothing(Ignoring(f), m);
      FoldNothing(f, m);
    } else {
      var front, c := log[..|log| - 1], log[|log| - 1];
      IgnoringIds(f, m, front);
      FoldConcat(Ignoring(f), m, LogEvents(front), Events(c.id, AllRecords(c)));
      FoldConcat(f, m, LogRecords(front), AllRecords(c));
      IgnoringId(f, Fold(f, m, LogRecords(front)), c.id, AllRecords(c));
    }
  }

  lemma {:induction false} IgnoringId<M>(f: (M, Record) -> M, m: M, id: nat, rs: seq<Record>)
    ensures Fold(Ignoring(f), m, Events(id, rs)) == Fold(f, m, rs)
  {
    if rs != [] {
      IgnoringId(f, m, id, rs[..|rs| - 1]);
      assert Events(id, rs)[..|rs| - 1] == Events(id, rs[..|rs| - 1]);
    }
  }

  // The stream of records in terms of the commits.

  function Sum(sizes: seq<nat>): nat {
    if sizes == [] then 0 else sizes[0] + Sum(sizes[1..])
  }

  /** The records of commits, with a COMMIT mark after every group of so many commits; the rest is not marked. */
  function GroupStream(commits: seq<seq<TxnBuf>>, sizes: seq<nat>): seq<Record>
    requires Sum(sizes) <= |commits|
    decreases |sizes|
  {
    if sizes == [] then RecordsOf(commits)
    else RecordsOf(commits[..sizes[0]]) + [CommitMark] + GroupStream(commits[sizes[0]..], sizes[1..])
  }

  /** How many transactions each group holds. */
  function GroupSizes(groups: seq<seq<CTxn>>): seq<nat> {
    if groups == [] then [] else GroupSizes(groups[..|groups| - 1]) + [|AllTxns(groups[|groups| - 1])|]
  }

  lemma {:induction false} SumSnoc(sizes: seq<nat>, n: nat)
    ensures Sum(sizes + [n]) == Sum(sizes) + n
  {
    if sizes == [] {
      assert [] + [n] == [n];
    } else {
      SumSnoc(sizes[1..], n);
      assert (sizes + [n])[1..] == sizes[1..] + [n];
    }
  }

  /** More commits in the open group add their records at the end. */
  lemma {:induction false} StreamGrows(cs: seq<seq<TxnBuf>>, ds: seq<seq<TxnBuf>>, sizes: seq<nat>)
    requires Sum(sizes) <= |cs|
    ensures GroupStream(cs + ds, sizes) == GroupStream(cs, sizes) + RecordsOf(ds)
    decreases |sizes|
  {
    hide RecordsOf;
    if sizes == [] {
      RecordsOfConcat(cs, ds);
    } else {
      StreamGrows(cs[sizes[0]..], ds, sizes[1..]);
      assert (cs + ds)[..sizes[0]] == cs[..sizes[0]] && (cs + ds)[sizes[0]..] == cs[sizes[0]..] + ds;
    }
  }

  /** Closing the open group adds a mark at the end. */
  lemma {:induction false} StreamCloses(cs: seq<seq<TxnBuf>>, sizes: seq<nat>)
    requires Sum(sizes) <= |cs|
    ensures Sum(sizes + [|cs| - Sum(sizes)]) <= |cs|
    ensures GroupStream(cs, sizes + [|cs| - Sum(sizes)]) == GroupStream(cs, sizes) + [CommitMark]
    decreases |sizes|
  {
    hide RecordsOf, GroupStream, Sum;
    var n := |cs| - Sum(sizes);
    SumSnoc(sizes, n);
    if sizes == [] {
      NoSizes(cs);
      NoSizes([]);
      StreamCons(cs, n, []);
      assert [] + [n] == [n] && [n] + [] == [n] && cs[..n] == cs && cs[n..] == [];
      NoCommits();
      assert RecordsOf(cs) + [CommitMark] + [] == RecordsOf(cs) + [CommitMark];
    } else {
      var m, rest := sizes[0], sizes[1..];
      assert sizes == [m] + rest && sizes + [n] == [m] + (rest + [n]);
      StreamCons(cs, m, rest);
      var later := cs[m..];
      StreamCloses(later, rest);
      StreamCons(cs, m, rest + [n]);
      Reassociate(RecordsOf(cs[..m]) + [CommitMark], GroupStream(later, rest), CommitMark);
    }
  }

  lemma NoSizes(cs: seq<seq<TxnBuf>>)
    ensures Sum([]) == 0 && GroupStream(cs, []) == RecordsOf(cs)
  {}

  lemma StreamCons(cs: seq<seq<TxnBuf>>, n: nat, rest: seq<nat>)
    ensures Sum([n] + rest) == n + Sum(rest)
    ensures Sum([n] + rest) <= |cs| ==>
      GroupStream(cs, [n] + rest) == RecordsOf(cs[..n]) + [CommitMark] + GroupStream(cs[n..], rest)
  {
    hide RecordsOf;
    assert ([n] + rest)[1..] == rest;
  }

  lemma Reassociate(xs: seq<Record>, ys: seq<Record>, r: Record)
    ensures xs + (ys + [r]) == (xs + ys) + [r]
  {}

  lemma NoCommits()
    ensures RecordsOf([]) == []
  {}

  /** How many transactions lie between the marks of a log, and how many after the last. */
  datatype Cuts = Cuts(sizes: seq<nat>, open: nat)

  function Marks(log: seq<CTxn>): Cuts {
    if log == [] then Cuts([], 0)
    else
      var cuts, c := Marks(log[..|log| - 1]), log[|log| - 1];
      var n := cuts.open + |c.txns|;
      if Marked(c) then Cuts(cuts.sizes + [n], 0) else Cuts(cuts.sizes, n)
  }

  lemma {:induction false} MarksAdd(log: seq<CTxn>)
    ensures Sum(Marks(log).sizes) + Marks(log).open == |AllTxns(log)|
  {
    if log != [] {
      var front, c := log[..|log| - 1], log[|log| - 1];
      MarksAdd(front);
      SumSnoc(Marks(front).sizes, Marks(front).open + |c.txns|);
    }
  }

  /** What any log of c_txns sends is the stream of its transactions, with a mark after each marked c_txn. */
  lemma {:induction false} LogIsStream(log: seq<CTxn>)
    ensures Sum(Marks(log).sizes) <= |Payloads(AllTxns(log))|
    ensures LogRecords(log) == GroupStream(Payloads(AllTxns(log)), Marks(log).sizes)
  {
    hide AllRecords, GroupStream, RecordsOf, Payloads, Sum;
    MarksAdd(log);
    PayloadsLength(AllTxns(log));
    if log == [] {
      EmptyStream();
    } else {
      var front, c := log[..|log| - 1], log[|log| - 1];
      LogIsStream(front);
      MarksAdd(front);
      PayloadsConcat(AllTxns(front), c.txns);
      PayloadsLength(AllTxns(front));
      PayloadsLength(c.txns);
      StreamSnoc(Payloads(AllTxns(front)), Marks(front).sizes, c);
    }
  }

  lemma EmptyStream()
    ensures Payloads([]) == [] && Sum([]) == 0 && GroupStream([], []) == []
  {}

  lemma StreamSnoc(cs: seq<seq<TxnBuf>>, sizes: seq<nat>, c: CTxn)
    requires Sum(sizes) <= |cs|
    ensures var all := cs + Payloads(c.txns);
            var sizes' := if Marked(c) then sizes + [|all| - Sum(sizes)] else sizes;
            Sum(sizes') <= |all| && GroupStream(all, sizes') == GroupStream(cs, sizes) + AllRecords(c)
  {
    hide Sum, GroupStream, Payloads, RecordsOf, MeantAll, Bufs;
    StreamGrows(cs, Payloads(c.txns), sizes);
    RecordsOfBufs(c.txns);
    if Marked(c) {
      StreamCloses(cs + Payloads(c.txns), sizes);
    }
  }

  lemma GroupSizesSnoc(groups: seq<seq<CTxn>>, g: seq<CTxn>)
    ensures GroupSizes(groups + [g]) == GroupSizes(groups) + [|AllTxns(g)|]
  {
    assert (groups + [g])[..|groups|] == groups;
  }

  lemma NoTxns()
    ensures AllTxns([]) == []
  {}

  /** Where only FLUSH marks, the marks end the closed groups. */
  lemma {:induction false} MarksOfGroups(log: seq<CTxn>)
    requires forall i :: 0 <= i < |log| ==> (Marked(log[i]) <==> log[i].flush)
    ensures Marks(log) == Cuts(GroupSizes(Split(log).closed), |AllTxns(Split(log).open)|)
  {
    hide AllTxns, GroupSizes, Split;
    if log == [] {
      SplitNone();
      NoTxns();
      NoGroups();
    } else {
      var front, c := log[..|log| - 1], log[|log| - 1];
      var cut := Split(front);
      MarksOfGroups(front);
      assert front + [c] == log;
      SplitSnoc(front, c);
      AllTxnsSnoc(cut.open, c);
      GroupSizesSnoc(cut.closed, cut.open + [c]);
      NoTxns();
    }
  }

  lemma NoGroups()
    ensures GroupSizes([]) == []
  {}

  lemma PayloadsLength(ts: seq<Txn>)
    ensures |Payloads(ts)| == |ts|
  {}

  // Ids stay within their 32 bits, so the header carries them whole.

  ghost predicate IdsInRange(s: State) {
    && s.nextId < U32 && s.runningId < U32
    && (forall i :: 0 <= i < |s.txnList| ==> s.txnList[i].id < U32)
    && (forall i :: 0 <= i < |s.syncList| ==> s.syncList[i].id < U32)
    && (s.running.Some? ==> s.running.value.id < U32)
    && (s.syncC.Some? ==> s.syncC.value.id < U32)
    && (forall i :: 0 <= i < |s.sent| ==> s.sent[i].id < U32)
    && (forall i :: 0 <= i < |s.syncLog| ==> s.syncLog[i].id < U32)
  }

  lemma IdsInRangeStep(s: State, a: Action)
    requires IdsInRange(s)
    ensures IdsInRange(Next(s, a))
  {
    hide HandlerStep;
    if a.Handler? {
      HandlerKeepsIds(s, a.stop);
    }
  }

  lemma HandlerKeepsIds(s: State, stop: bool)
    requires IdsInRange(s)
    ensures IdsInRange(HandlerStep(s, stop))
  {
    hide ProcessSyncStep, SyncFillStep, SkipSyncStep, FillStep, TransferStep;
    if s.pc.ProcessSync? {
      ProcessSyncKeepsIds(s);
    } else if s.pc.SyncFill? && s.syncC.Some? && s.syncList != [] {
      SyncFillKeepsIds(s);
    } else if s.pc.SkipSync? {
      SkipSyncKeepsIds(s);
    } else if s.pc.Fill? && s.txnList != [] {
      FillKeepsIds(s);
    } else if s.pc.Transfer? && s.running.Some? {
      TransferKeepsIds(s, s.pc.now);
    }
  }

  lemma FillKeepsIds(s: State)
    requires IdsInRange(s) && s.txnList != []
    ensures IdsInRange(FillStep(s))
  {}

  lemma SyncFillKeepsIds(s: State)
    requires IdsInRange(s) && s.syncC.Some? && s.syncList != []
    ensures IdsInRange(SyncFillStep(s))
  {}

  lemma TransferKeepsIds(s: State, now: bool)
    requires IdsInRange(s) && s.running.Some?
    ensures IdsInRange(TransferStep(s, now))
  {}

  lemma SkipSyncKeepsIds(s: State)
    requires IdsInRange(s)
    ensures IdsInRange(SkipSyncStep(s))
  {
    hide Diff;
  }

  lemma ProcessSyncKeepsIds(s: State)
    requires IdsInRange(s)
    ensures IdsInRange(ProcessSyncStep(s))
  {}

  lemma {:induction false} IdsInRangeReachable(trace: seq<Action>)
    ensures IdsInRange(Run(trace))
  {
    if trace == [] {
    } else {
      IdsInRangeReachable(trace[..|trace| - 1]);
      IdsInRangeStep(Run(trace[..|trace| - 1]), trace[|trace| - 1]);
    }
  }

  // What holds at a mark.

  /** A stream without its marks. */
  function Unmarked(rs: seq<Record>): seq<Record> {
    if rs == [] then []
    else Unmarked(rs[..|rs| - 1]) + if rs[|rs| - 1].CommitMark? then [] else [rs[|rs| - 1]]
  }

  lemma {:induction false} UnmarkedConcat(xs: seq<Record>, ys: seq<Record>)
    ensures Unmarked(xs + ys) == Unmarked(xs) + Unmarked(ys)
    decreases |ys|
  {
    if ys == [] {
      assert xs + ys == xs;
    } else {
      UnmarkedConcat(xs, ys[..|ys| - 1]);
      assert (xs + ys)[..|xs + ys| - 1] == xs + ys[..|ys| - 1];
    }
  }

  lemma {:induction false} RecordsAreUnmarked(cs: seq<seq<TxnBuf>>)
    ensures Unmarked(RecordsOf(cs)) == RecordsOf(cs)
    ensures forall i :: 0 <= i < |RecordsOf(cs)| ==> !RecordsOf(cs)[i].CommitMark?
  {
    if cs != [] {
      RecordsAreUnmarked(cs[..|cs| - 1]);
      NoMarks(MeantAll(cs[|cs| - 1]));
      UnmarkedConcat(RecordsOf(cs[..|cs| - 1]), MeantAll(cs[|cs| - 1]));
    }
  }

  lemma {:induction false} NoMarks(rs: seq<Record>)
    requires forall i :: 0 <= i < |rs| ==> !rs[i].CommitMark?
    ensures Unmarked(rs) == rs
  {
    if rs != [] {
      NoMarks(rs[..|rs| - 1]);
    }
  }

  /** Marks only come from closed groups. */
  lemma MarkNeedsGroup(cs: seq<seq<TxnBuf>>, sizes: seq<nat>, i: nat)
    requires Sum(sizes) <= |cs| && i < |GroupStream(cs, sizes)| && GroupStream(cs, sizes)[i] == CommitMark
    ensures sizes != [] && sizes[0] <= |cs| && i >= |RecordsOf(cs[..sizes[0]])|
  {
    RecordsAreUnmarked(cs);
    if sizes != [] {
      RecordsAreUnmarked(cs[..sizes[0]]);
    }
  }

  lemma UnmarkedPast(first: seq<Record>, later: seq<Record>, i: nat)
    requires Unmarked(first) == first && |first| <= i < |first| + 1 + |later|
    ensures i == |first| ==> Unmarked((first + [CommitMark] + later)[..i]) == first
    ensures i > |first| ==> Unmarked((first + [CommitMark] + later)[..i]) == first + Unmarked(later[..i - |first| - 1])
  {
    hide Unmarked;
    CutPast(first, CommitMark, later, i);
    if i > |first| {
      UnmarkedConcat(first + [CommitMark], later[..i - |first| - 1]);
      UnmarkedConcat(first, [CommitMark]);
      OneMark();
      assert first + [] == first;
    }
  }

  lemma CutPast<T>(first: seq<T>, mark: T, later: seq<T>, i: nat)
    requires |first| <= i < |first| + 1 + |later|
    ensures (first + [mark] + later)[..i] == if i == |first| then first else (first + [mark]) + later[..i - |first| - 1]
  {}

  /** At every COMMIT of a stream, what came before it are the transactions up to one of its cuts. */
  lemma {:induction false} MarksEndGroups(cs: seq<seq<TxnBuf>>, sizes: seq<nat>, i: nat) returns (k: nat)
    requires Sum(sizes) <= |cs| && i < |GroupStream(cs, sizes)| && GroupStream(cs, sizes)[i] == CommitMark
    ensures k < |sizes| && Sum(sizes[..k + 1]) <= |cs|
    ensures Unmarked(GroupStream(cs, sizes)[..i]) == RecordsOf(cs[..Sum(sizes[..k + 1])])
    decreases |sizes|
  {
    hide RecordsOf, Unmarked;
    MarkNeedsGroup(cs, sizes, i);
    var n, rest := sizes[0], sizes[1..];
    var first, later := RecordsOf(cs[..n]), GroupStream(cs[n..], rest);
    RecordsAreUnmarked(cs[..n]);
    UnmarkedPast(first, later, i);
    if i == |first| {
      k := 0;
      SumCons(n, []);
      assert sizes[..1] == [n] + [];
    } else {
      var l := MarksEndGroups(cs[n..], rest, i - |first| - 1);
      k := l + 1;
      var done := Sum(rest[..l + 1]);
      assert sizes[..k + 1] == [n] + rest[..l + 1];
      SumCons(n, rest[..l + 1]);
      RecordsOfConcat(cs[..n], cs[n..][..done]);
      assert cs[..n] + cs[n..][..done] == cs[..n + done];
    }
  }

  lemma OneMark()
    ensures Unmarked([CommitMark]) == []
  {}

  lemma SumCons(n: nat, sizes: seq<nat>)
    ensures Sum([n] + sizes) == n + Sum(sizes)
  {
    assert ([n] + sizes)[1..] == sizes;
  }

  // A device that makes a group visible at its COMMIT.

  /** Records go to a working copy; a COMMIT publishes it.  The published copy is what a power loss leaves. */
  function Publishing<M>(f: (M, Record) -> M): ((M, M), Record) -> (M, M) {
    (s: (M, M), r: Record) => if r.CommitMark? then (s.1, s.1) else (s.0, f(s.1, r))
  }

  lemma {:induction false} WorkInProgress<M>(f: (M, Record) -> M, p: M, w: M, rs: seq<Record>)
    requires forall i :: 0 <= i < |rs| ==> !rs[i].CommitMark?
    ensures Fold(Publishing(f), (p, w), rs) == (p, Fold(f, w, rs))
  {
    if rs != [] {
      WorkInProgress(f, p, w, rs[..|rs| - 1]);
    }
  }

  lemma PublishesNow<M>(f: (M, Record) -> M, p: M, w: M)
    ensures Fold(Publishing(f), (p, w), [CommitMark]) == (w, w)
  {
    FoldNothing(Publishing(f), (p, w));
  }
}
