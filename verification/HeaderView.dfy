/**
 A device that goes by the transaction id in each slot's header.  Whatever order sync and
 orderless c_txns reach it in, it shows whole groups and whole sync c_txns.
 */
module HeaderView {
  import opened Bytes
  import opened TxnTypes
  import opened Wire
  import opened GroupCommit
  import opened GroupCommitCounters
  import opened GroupCommitOrder
  import opened GroupCommitGroups
  import opened GroupCommitIds
  import opened IoTransfer
  import opened TransferSize
  import opened DeviceStore
  import RbTransfer
  import opened HandOver
  import opened DeviceView

  /** What is shown, and the records waiting under each id. */
  datatype Held<M> = Held(shown: M, waiting: map<nat, seq<Record>>)

  function Waiting(w: map<nat, seq<Record>>, id: nat): seq<Record> { if id in w then w[id] else [] }

  /** A record waits under its id; a COMMIT shows what waits under its own. */
  function ByHeader<M>(f: (M, Record) -> M): (Held<M>, Event) -> Held<M> {
    (s: Held<M>, e: Event) =>
      if e.rec.CommitMark? then Held(Fold(f, s.shown, Waiting(s.waiting, e.id)), s.waiting - {e.id})
      else s.(waiting := s.waiting[e.id := Waiting(s.waiting, e.id) + [e.rec]])
  }

  /** Records waiting under one id. */
  function Under(id: nat, rs: seq<Record>): map<nat, seq<Record>> { if rs == [] then map[] else map[id := rs] }

  // One c_txn.

  lemma EventsSnoc(id: nat, rs: seq<Record>, r: Record)
    ensures Events(id, rs + [r]) == Events(id, rs) + [Event(id, r)]
  {}

  lemma FoldSnoc<M, E>(f: (M, E) -> M, m: M, es: seq<E>, e: E)
    ensures Fold(f, m, es + [e]) == f(Fold(f, m, es), e)
  {
    assert (es + [e])[..|es|] == es;
  }

  lemma {:induction false} RecordsWait<M>(f: (M, Record) -> M, p: M, w: map<nat, seq<Record>>, id: nat, rs: seq<Record>)
    requires CommitMark !in rs
    ensures Fold(ByHeader(f), Held(p, w), Events(id, rs)) ==
            Held(p, if rs == [] then w else w[id := Waiting(w, id) + rs])
    decreases |rs|
  {
    hide Fold, Events;
    if rs == [] {
      NoEvents(id);
      FoldNothing(ByHeader(f), Held(p, w));
    } else {
      var front, r := rs[..|rs| - 1], rs[|rs| - 1];
      assert rs == front + [r];
      RecordsWait(f, p, w, id, front);
      EventsSnoc(id, front, r);
      FoldSnoc(ByHeader(f), Held(p, w), Events(id, front), Event(id, r));
      OneMoreWaits(w, id, front, r);
    }
  }

  lemma NoEvents(id: nat)
    ensures Events(id, []) == []
  {}

  lemma OneMoreWaits(w: map<nat, seq<Record>>, id: nat, rs: seq<Record>, r: Record)
    ensures var u := if rs == [] then w else w[id := Waiting(w, id) + rs];
            u[id := Waiting(u, id) + [r]] == w[id := Waiting(w, id) + (rs + [r])]
  {
    assert Waiting(w, id) + (rs + [r]) == (Waiting(w, id) + rs) + [r];
    assert rs == [] ==> Waiting(w, id) + rs == Waiting(w, id);
  }

  /** The records of a c_txn wait; its COMMIT, if it has one, shows what waits under its id. */
  lemma OneCTxn<M>(f: (M, Record) -> M, p: M, w: map<nat, seq<Record>>, c: CTxn)
    ensures var rs := MeantAll(Bufs(c.txns));
            var u := if rs == [] then w else w[c.id := Waiting(w, c.id) + rs];
            Fold(ByHeader(f), Held(p, w), Events(c.id, AllRecords(c))) ==
              if Marked(c) then Held(Fold(f, p, Waiting(w, c.id) + rs), w - {c.id}) else Held(p, u)
  {
    hide Fold, Events, AllRecords, Bufs, MeantAll;
    var rs := MeantAll(Bufs(c.txns));
    RecordsThenMark(c);
    NoMarkMeant(Bufs(c.txns));
    RecordsWait(f, p, w, c.id, rs);
    if Marked(c) {
      EventsSnoc(c.id, rs, CommitMark);
      FoldSnoc(ByHeader(f), Held(p, w), Events(c.id, rs), Event(c.id, CommitMark));
      assert rs == [] ==> Waiting(w, c.id) + rs == Waiting(w, c.id);
      Dropped(w, c.id, Waiting(w, c.id) + rs);
    } else {
      assert rs + [] == rs;
    }
  }

  lemma NoMarkMeant(bs: seq<TxnBuf>)
    ensures CommitMark !in MeantAll(bs)
  {}

  lemma Dropped(w: map<nat, seq<Record>>, id: nat, rs: seq<Record>)
    ensures w[id := rs] - {id} == w - {id}
  {}

  // A log of c_txns.

  /** What a log completes: a group that is closed, or a sync c_txn. */
  datatype Unit = Group(members: seq<CTxn>) | Single(c: CTxn)

  function Units(log: seq<CTxn>): seq<Unit> {
    if log == [] then []
    else
      var front, c := log[..|log| - 1], log[|log| - 1];
      Units(front) +
        if c.ordered then [Single(c)] else if c.flush then [Group(Split(Orderless(front)).open + [c])] else []
  }

  function Groups(us: seq<Unit>): seq<seq<CTxn>> {
    if us == [] then []
    else Groups(us[..|us| - 1]) + if us[|us| - 1].Group? then [us[|us| - 1].members] else []
  }

  function Singles(us: seq<Unit>): seq<CTxn> {
    if us == [] then []
    else Singles(us[..|us| - 1]) + if us[|us| - 1].Single? then [us[|us| - 1].c] else []
  }

  lemma UnitsSnoc(us: seq<Unit>, u: Unit)
    ensures Groups(us + [u]) == Groups(us) + if u.Group? then [u.members] else []
    ensures Singles(us + [u]) == Singles(us) + if u.Single? then [u.c] else []
  {
    assert (us + [u])[..|us|] == us;
  }

  /** The units are the closed groups and the sync c_txns, each kind in its own order. */
  lemma {:induction false} UnitsAre(log: seq<CTxn>)
    ensures Groups(Units(log)) == Split(Orderless(log)).closed && Singles(Units(log)) == Ordered(log)
  {
    hide Split, Groups, Singles;
    if log == [] {
      NoUnits();
    } else {
      var front, c := log[..|log| - 1], log[|log| - 1];
      UnitsAre(front);
      SplitSnoc(Orderless(front), c);
      if c.ordered {
        UnitsSnoc(Units(front), Single(c));
        NothingAdded(Orderless(front), Ordered(front), []);
        assert Groups(Units(front)) + [] == Groups(Units(front));
      } else if c.flush {
        UnitsSnoc(Units(front), Group(Split(Orderless(front)).open + [c]));
        NothingAdded(Singles(Units(front)), Ordered(front), []);
      } else {
        assert Units(front) + [] == Units(front);
        NothingAdded(Ordered(front), [], []);
      }
    }
  }

  lemma NoUnits()
    ensures Groups([]) == [] && Singles([]) == [] && Split([]) == Cut([], [])
  {}

  /** What the transactions of c_txns tell the store. */
  function Records(cs: seq<CTxn>): seq<Record> { MeantAll(Bufs(AllTxns(cs))) }

  function UnitRecords(us: seq<Unit>): seq<Record> {
    if us == [] then []
    else
      var u := us[|us| - 1];
      UnitRecords(us[..|us| - 1]) + Records(if u.Group? then u.members else [u.c])
  }

  lemma RecordsSnoc(cs: seq<CTxn>, c: CTxn)
    ensures Records(cs + [c]) == Records(cs) + MeantAll(Bufs(c.txns))
  {
    hide AllTxns, Bufs, MeantAll;
    AllTxnsSnoc(cs, c);
    RbTransfer.BufsConcat(AllTxns(cs), c.txns);
    MeantConcat(Bufs(AllTxns(cs)), Bufs(c.txns));
  }

  lemma RecordsNone()
    ensures Records([]) == []
  {}

  /** Every c_txn carries the id of the group it joins, and a sync c_txn another one. */
  ghost predicate IdsApart(log: seq<CTxn>) {
    log == [] ||
      var front, c := log[..|log| - 1], log[|log| - 1];
      IdsApart(front) && Joins(Split(Orderless(front)).open, c)
  }

  ghost predicate Joins(open: seq<CTxn>, c: CTxn) {
    open != [] ==> (c.id == open[0].id <==> !c.ordered)
  }

  /** What waits: the records of the open group, under its id. */
  function StillWaiting(open: seq<CTxn>): map<nat, seq<Record>> {
    Under(if open == [] then 0 else open[0].id, Records(open))
  }

  /** One more c_txn completes its unit and leaves the rest of the open group waiting. */
  lemma OneMore<M>(f: (M, Record) -> M, p: M, open: seq<CTxn>, c: CTxn)
    requires Joins(open, c)
    ensures Fold(ByHeader(f), Held(p, StillWaiting(open)), Events(c.id, AllRecords(c))) ==
            if c.ordered then Held(Fold(f, p, Records([c])), StillWaiting(open))
            else if c.flush then Held(Fold(f, p, Records(open + [c])), StillWaiting([]))
            else Held(p, StillWaiting(open + [c]))
  {
    hide Fold, Events, AllRecords, Bufs, MeantAll, Records, ByHeader;
    var w, rs := StillWaiting(open), MeantAll(Bufs(c.txns));
    OneCTxn(f, p, w, c);
    RecordsSnoc(open, c);
    RecordsSnoc([], c);
    RecordsNone();
    assert [] + [c] == [c] && [] + rs == rs;
    if c.ordered {
      assert w - {c.id} == w;
    } else {
      assert w - {c.id} == map[];
      assert Records(open) + [] == Records(open);
    }
  }

  /**
   For every log whose ids keep the groups and the sync c_txns apart: such a device shows the
   units the log completes, in that order, and nothing of the open group.
   */
  lemma {:induction false} ByHeaderShows<M>(f: (M, Record) -> M, m: M, log: seq<CTxn>)
    requires IdsApart(log)
    ensures Fold(ByHeader(f), Held(m, map[]), LogEvents(log)) ==
            Held(Fold(f, m, UnitRecords(Units(log))), StillWaiting(Split(Orderless(log)).open))
  {
    hide Fold, Events, AllRecords, Records, ByHeader, Split, Joins, StillWaiting, UnitRecords;
    var g := ByHeader(f);
    if log == [] {
      FoldNothing(g, Held(m, map[]));
      FoldNothing(f, m);
      NothingWaits();
    } else {
      var front, c := log[..|log| - 1], log[|log| - 1];
      var open := Split(Orderless(front)).open;
      ByHeaderShows(f, m, front);
      FoldConcat(g, Held(m, map[]), LogEvents(front), Events(c.id, AllRecords(c)));
      OneMore(f, Fold(f, m, UnitRecords(Units(front))), open, c);
      SplitSnoc(Orderless(front), c);
      var before := Units(front);
      if c.ordered {
        UnitRecordsSnoc(f, m, before, Single(c));
        NothingAdded(Orderless(front), [], []);
      } else if c.flush {
        UnitRecordsSnoc(f, m, before, Group(open + [c]));
      } else {
        assert before + [] == before;
      }
    }
  }

  lemma NothingWaits()
    ensures StillWaiting(Split([]).open) == map[] && UnitRecords([]) == []
  {}

  lemma UnitRecordsSnoc<M>(f: (M, Record) -> M, m: M, us: seq<Unit>, u: Unit)
    ensures Fold(f, m, UnitRecords(us + [u])) ==
            Fold(f, Fold(f, m, UnitRecords(us)), Records(if u.Group? then u.members else [u.c]))
  {
    hide Fold, Records;
    assert (us + [u])[..|us|] == us;
    FoldConcat(f, m, UnitRecords(us), Records(if u.Group? then u.members else [u.c]));
  }

  // Ids over a run.

  /** A sync c_txn carries the id of its first member. */
  ghost predicate FirstId(c: CTxn) { c.txns != [] && c.id == c.txns[0].id }

  ghost predicate SyncIds(s: State) {
    && (s.syncC.Some? && !s.pc.SyncFill? ==> FirstId(s.syncC.value))
    && (forall i :: 0 <= i < |s.syncLog| ==> FirstId(s.syncLog[i]))
  }

  lemma SyncIdsStep(s: State, a: Action)
    requires Inv(s) && SyncIds(s)
    ensures SyncIds(Next(s, a))
  {
    hide SkipSyncStep, FillStep, FirstId;
    LogsGrow(s, a);
    SyncCStep(s, a);
  }

  lemma SyncCStep(s: State, a: Action)
    requires Inv(s) && (s.syncC.Some? && !s.pc.SyncFill? ==> FirstId(s.syncC.value))
    ensures Next(s, a).syncC.Some? && !Next(s, a).pc.SyncFill? ==> FirstId(Next(s, a).syncC.value)
    ensures a.SyncSend? && HandsOver(s, a).Some? ==> FirstId(HandsOver(s, a).value)
  {}

  lemma {:induction false} SyncIdsReachable(trace: seq<Action>)
    ensures SyncIds(Run(trace))
  {
    hide Next, SyncIds, Inv;
    if trace == [] {
      NoSyncIds();
    } else {
      SyncIdsReachable(trace[..|trace| - 1]);
      Reachable(trace[..|trace| - 1]);
      SyncIdsStep(Run(trace[..|trace| - 1]), trace[|trace| - 1]);
    }
  }

  lemma NoSyncIds()
    ensures SyncIds(Run([]))
  {}

  /** Members of the two lanes carry different ids. */
  lemma LanesDiffer(trace: seq<Action>, x: Txn, y: Txn)
    requires NoWrap(Run(trace)) && x in Pipeline(Run(trace)) && y in SyncPipeline(Run(trace))
    ensures x.id != y.id
  {
    hide Run, Committed, Lane, Pipeline, SyncPipeline;
    var all := Committed(trace);
    LanesCommitted(trace);
    LaneMembers(all, Write);
    LaneMembers(all, Sync);
    CommitsAscend(trace);
    var i :| 0 <= i < |all| && all[i] == x;
    var j :| 0 <= j < |all| && all[j] == y;
  }

  lemma {:induction false} InAll(log: seq<CTxn>, i: nat, t: Txn)
    requires i < |log| && t in log[i].txns
    ensures t in AllTxns(log)
  {
    if i < |log| - 1 {
      InAll(log[..|log| - 1], i, t);
    }
  }

  lemma {:induction false} OpenInLog(log: seq<CTxn>)
    ensures forall c :: c in Split(log).open ==> c in log
  {
    if log != [] {
      OpenInLog(log[..|log| - 1]);
      assert log == log[..|log| - 1] + [log[|log| - 1]];
    }
  }

  /** The step that hands `c` over, after which the run holds it in one of its logs. */
  lemma JoinsStep(before: seq<Action>, a: Action)
    requires HandsOver(Run(before), a).Some? && NoWrap(Run(before + [a]))
    ensures Joins(Split(Run(before).sent).open, HandsOver(Run(before), a).value)
  {
    hide Run, Next, Split, Inv, HandsOver, Numbered, FirstId;
    var s, c := Run(before), HandsOver(Run(before), a).value;
    var trace := before + [a];
    RunSnoc(before, a);
    Reachable(before);
    LogsGrow(s, a);
    KindOfHandOver(s, a);
    OnlyTwoHand(s, a);
    if c.ordered {
      SyncJoins(trace, c);
      assert s.sent + [] == s.sent;
    } else {
      OrderlessJoins(trace, s.sent, c);
    }
  }

  lemma OrderlessJoins(trace: seq<Action>, sent: seq<CTxn>, c: CTxn)
    requires NoWrap(Run(trace)) && Run(trace).sent == sent + [c] && !c.ordered
    ensures Joins(Split(sent).open, c)
  {
    hide Run, Split;
    var open := Split(sent).open;
    GroupIdsIncrease(trace);
    SplitSnoc(sent, c);
    var g := open + [c];
    if c.flush {
      var closed := Split(sent + [c]).closed;
      assert closed[|closed| - 1] == g;
    }
    assert Numbered(g);
    assert g[|g| - 1].id == g[0].id;
  }

  lemma SyncJoins(trace: seq<Action>, c: CTxn)
    requires NoWrap(Run(trace)) && c.ordered && |Run(trace).syncLog| > 0 && Run(trace).syncLog[|Run(trace).syncLog| - 1] == c
    ensures Joins(Split(Run(trace).sent).open, c)
  {
    hide Run, Split, AllTxns, OneId;
    var s := Run(trace);
    var open := Split(s.sent).open;
    if open != [] {
      GroupIdsIncrease(trace);
      SyncIdsReachable(trace);
      OpenInLog(s.sent);
      assert open[0] in open;
      var i :| 0 <= i < |s.sent| && s.sent[i] == open[0];
      InAll(s.sent, i, open[0].txns[0]);
      InAll(s.syncLog, |s.syncLog| - 1, c.txns[0]);
      InPipelines(s, open[0].txns[0], c.txns[0]);
      LanesDiffer(trace, open[0].txns[0], c.txns[0]);
    }
  }

  lemma InPipelines(s: State, x: Txn, y: Txn)
    requires x in AllTxns(s.sent) && y in AllTxns(s.syncLog)
    ensures x in Pipeline(s) && y in SyncPipeline(s)
  {}

  /** Without id wrap, the ids of a run keep its groups and its sync c_txns apart. */
  lemma {:induction false} IdsKeepApart(trace: seq<Action>)
    requires NoWrap(Run(trace))
    ensures IdsApart(Handed(trace))
  {
    hide Run, Next, Split, Joins, HandsOver;
    if trace != [] {
      var before, a := trace[..|trace| - 1], trace[|trace| - 1];
      assert trace == before + [a];
      StillNoWrap(before, a);
      IdsKeepApart(before);
      var c := HandsOver(Run(before), a);
      if c.Some? {
        JoinsStep(before, a);
        HandedSplits(before);
        assert (Handed(before) + [c.value])[..|Handed(before)|] == Handed(before);
      } else {
        assert Handed(before) + [] == Handed(before);
      }
    }
  }

  /**
   In every run without id wrap, a device that goes by the header ids shows exactly the closed
   groups and the sync c_txns, each whole, as they are completed; the groups are those of the
   orderless hand-overs and the sync c_txns those of the sync ones, and only the open group waits.
   */
  lemma HeaderDeviceShowsWhole<M>(trace: seq<Action>, slots: seq<seq<Byte>>, f: (M, Record) -> M, m: M)
    requires ProperRun(trace) && SyncSendable(Handed(trace)) && SlotsHold(slots, Handed(trace)) && NoWrap(Run(trace))
    ensures var s, us := Run(trace), Units(Handed(trace));
            && FoldSlots(ByHeader(f), Held(m, map[]), slots) ==
               Some(Held(Fold(f, m, UnitRecords(us)), StillWaiting(Split(s.sent).open)))
            && Groups(us) == Split(s.sent).closed && Singles(us) == s.syncLog
  {
    hide Run, Handed, SyncSendable, SlotsHold, ProperRun, FoldSlots, Fold, LogDecodes, LogEvents, Split, Orderless, Ordered;
    hide Units, UnitRecords, StillWaiting, Groups, Singles, ByHeader, IdsApart;
    var log := Handed(trace);
    HandedDecodes(trace);
    SlotsApplyInOrder(ByHeader(f), Held(m, map[]), slots, log);
    IdsKeepApart(trace);
    ByHeaderShows(f, m, log);
    UnitsAre(log);
    HandedSplits(trace);
  }
}
