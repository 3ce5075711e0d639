/** From the shards' rings to the recovered store: whatever order the recorder drained the rings in, sorting
    the file and replaying it through the duplicate window recovers the live orders. */
module CrashRecovery {
  import opened ExecTypes
  import S = OmsSpec
  import opened ReportSpec
  import opened Journal
  import W = ShardedOms
  import opened RecoveryStreaming
  import opened JournalRoundTrip
  import opened HeldReports
  import opened JournalRuns
  import opened WindowedReplay
  import opened WalMerge

  /** The records of one request carry its number and its order, and no two of them are alike. */
  ghost predicate FromRequest(records: seq<Record>, ref: Ref, ts: nat) {
    && |records| <= 2
    && (forall r <- records :: r.ts == ts && RefOf(r) == ref)
    && (|records| == 2 ==> records[0].kind != records[1].kind)
  }

  lemma RecordsAreFromRequest(st: State, req: W.Request, ts: nat)
    requires CacheOk(st.cache) && W.WellFormed(req)
    ensures FromRequest(W.Records(st, req, ts), req.ref, ts)
  {
    hide W.Apply;
    if req.ReportReq? && req.ref in st.store.live {
      ReportRecordsAreFromRequest(st.store.live[req.ref], req.report, ts);
    }
  }

  lemma ReportRecordsAreFromRequest(o: Order, report: ExecReport, ts: nat)
    ensures FromRequest(W.ReportRecs(ts, report.ref, o, report), report.ref, ts)
  {
  }

  lemma LogUnfolds(sys: System, reqs: seq<W.Request>)
    requires WellFormedRun(sys, reqs) && reqs != []
    ensures var last := |reqs| - 1;
            var recs := SysRecords(RunSys(sys, reqs[..last]), reqs[last], last);
            Log(sys, reqs) == Log(sys, reqs[..last]) + recs && FromRequest(recs, reqs[last].ref, last)
  {
    hide W.Records;
    var last := |reqs| - 1;
    var now := RunSys(sys, reqs[..last]);
    RecordsAreFromRequest(ShardFor(now, reqs[last].ref), reqs[last], last);
  }

  /** The record at `i` was written by the request its timestamp names. */
  ghost predicate Stamped(r: Record, reqs: seq<W.Request>) {
    r.ts < |reqs| && RefOf(r) == reqs[r.ts].ref
  }

  ghost predicate Ordered(log: seq<Record>, reqs: seq<W.Request>) {
    (forall i | 0 <= i < |log| :: Stamped(log[i], reqs)) && Sorted(log) && Distinct(log)
  }

  lemma OrderedExtends(log: seq<Record>, reqs: seq<W.Request>, recs: seq<Record>)
    requires reqs != [] && Ordered(log, reqs[..|reqs| - 1]) && FromRequest(recs, reqs[|reqs| - 1].ref, |reqs| - 1)
    ensures Ordered(log + recs, reqs)
  {
    var last := |reqs| - 1;
    var all := log + recs;
    forall i | 0 <= i < |all| ensures Stamped(all[i], reqs) && (i >= |log| ==> all[i].ts == last) {
      if i >= |log| { assert all[i] in recs; } else { assert Stamped(log[i], reqs[..last]); }
    }
    assert forall i | 0 <= i < |log| :: all[i].ts < last;
    forall i, j | 0 <= i < j < |all| ensures all[i].ts <= all[j].ts && all[i] != all[j] {
      if i >= |log| { assert recs[i - |log|].kind != recs[j - |log|].kind; }
    }
  }

  lemma {:induction false} LogIsOrdered(sys: System, reqs: seq<W.Request>)
    requires WellFormedRun(sys, reqs)
    ensures Ordered(Log(sys, reqs), reqs)
  {
    if reqs != [] {
      hide Log, RunSys, SysRecords, WellFormedRun, Ordered, FromRequest;
      var last := |reqs| - 1;
      PrefixIsWellFormed(sys, reqs, last);
      LogIsOrdered(sys, reqs[..last]);
      LogUnfolds(sys, reqs);
      OrderedExtends(Log(sys, reqs[..last]), reqs, SysRecords(RunSys(sys, reqs[..last]), reqs[last], last));
    }
  }

  lemma PrefixIsWellFormed(sys: System, reqs: seq<W.Request>, n: nat)
    requires WellFormedRun(sys, reqs) && n <= |reqs|
    ensures WellFormedRun(sys, reqs[..n])
  {
  }

  /** What recovery should hold for an order: all but its price, its state and its report sequence as live. */
  predicate RecoveredAs(o: Option<Order>, recovered: map<Ref, Order>, ref: Ref) {
    if o.Some? then
      && ref in recovered
      && recovered[ref] == o.value.(limitPrice := W.PriorPrice(o.value), state := Unknown, lastSeq := 0)
    else ref !in recovered
  }

  lemma MarkedImage(o: Option<Order>, live: map<Ref, Order>, ref: Ref)
    requires MirrorsAt(o, live, ref) && (o.Some? ==> Sound(o.value))
    ensures RecoveredAs(o, MarkAll(live), ref)
  {
  }

  /** The durability round trip: after any journalable run, in any number of shards and however their records
      were interleaved in the file, recovery yields exactly the live orders, each ambiguous. */
  lemma CrashRecovers(sys: System, reqs: seq<W.Request>, file: seq<Record>, capacity: nat, netting: bool, window: nat,
                      hash: Record -> nat)
    requires Init(sys) && WellFormedRun(sys, reqs) && JournalableRun(sys, reqs, capacity)
    requires Interleaves(file, Log(sys, reqs), |sys.shards|)
    requires window > 1 && InjectiveOn(hash, Log(sys, reqs))
    ensures var r := Recover(capacity, netting, window, hash, StableSort(file));
            r.Some? && forall ref :: RecoveredAs(Live(RunSys(sys, reqs), ref), r.value.store.live, ref)
  {
    var log := Log(sys, reqs);
    LogIsOrdered(sys, reqs);
    RunFollows(sys, reqs, |reqs|, capacity, netting);
    assert reqs[..|reqs|] == reqs;
    hide JournalableAt, RunSys, Log, Sorted, Distinct, InjectiveOn, ReadAll, Flagged, Init, WellFormedRun;
    TimesNameOrders(log, reqs, |sys.shards|);
    SortUndoesInterleaving(file, log, |sys.shards|);
    var p := Start(capacity, netting);
    DistinctIsUnflagged(hash, window, log);
    WindowOnlyStopsRepeats(p, hash, window, log);
    var q := ReadPlain(p, log).value;
    forall ref ensures RecoveredAs(Live(RunSys(sys, reqs), ref), MarkAll(q.store.live), ref) {
      SimAt(RunSys(sys, reqs), q, ref, capacity, |reqs|);
      MarkedImage(Live(RunSys(sys, reqs), ref), q.store.live, ref);
    }
  }

  lemma SimAt(sys: System, p: Replay, ref: Ref, capacity: nat, ts: nat)
    requires Sim(sys, p, capacity, ts)
    ensures MirrorsAt(Live(sys, ref), p.store.live, ref) && (Live(sys, ref).Some? ==> Sound(Live(sys, ref).value))
  {
  }

  lemma TimesNameOrders(log: seq<Record>, reqs: seq<W.Request>, shards: nat)
    requires shards > 0 && Ordered(log, reqs)
    ensures TimesAreLocal(log, shards)
  {
  }

  // ---- runs the journal cannot carry ----

  /** A run that is journalable up to its last request and not there: replaying its whole log fails. */
  lemma LastRequestLost(sys: System, reqs: seq<W.Request>, n: nat, capacity: nat, netting: bool)
    requires Init(sys) && WellFormedRun(sys, reqs) && n < |reqs|
    requires forall k | 0 <= k < n :: JournalableAt(sys, reqs, k, capacity)
    requires !JournalableAt(sys, reqs, n, capacity)
    ensures !RecoversAt(sys, reqs, n + 1, capacity, netting)
  {
    hide JournalableAt, RecoversAt, Init, WellFormedRun;
    if RecoversAt(sys, reqs, n + 1, capacity, netting) {
      LastMustBeJournalable(sys, reqs, n, capacity, netting);
      assert false;
    }
  }

  lemma OneMore(sys: System, reqs: seq<W.Request>, n: nat)
    requires WellFormedRun(sys, reqs) && n < |reqs|
    ensures RunSys(sys, reqs[..n + 1]) == SysApply(RunSys(sys, reqs[..n]), reqs[n])
  {
    assert reqs[..n + 1][..n] == reqs[..n];
  }

  lemma FillBeforeSend(st: State, ref: Ref)
    requires CacheOk(st.cache) && st.store.live == map[] && st.store.capacity > 0 && ref.runId != 0 && ref.logicalId != 0
    ensures var create, fill := W.CreateReq(ref, 0, 10, true), W.FillReq(ref, 4);
            && Kept(st, create, true)
            && var created := W.Apply(st, create).0;
               && (forall room :: !Kept(created, fill, room))
               && W.Lookup(W.Apply(created, fill).0.store.live, ref) == Some(Order(ref, 0, 10, 4, 0, PendingSend, 0))
  {
  }

  /** Filling an order before it is sent is refused, yet adds its volume, and nothing is written. */
  lemma UnsentFillIsLost(sys: System, ref: Ref, capacity: nat, netting: bool)
    requires Init(sys) && capacity > 0 && ref.runId != 0 && ref.logicalId != 0
    requires ShardFor(sys, ref).store.capacity > 0
    ensures var reqs := [W.CreateReq(ref, 0, 10, true), W.FillReq(ref, 4)];
            && WellFormedRun(sys, reqs)
            && Live(RunSys(sys, reqs), ref) == Some(Order(ref, 0, 10, 4, 0, PendingSend, 0))
            && !RecoversAt(sys, reqs, 2, capacity, netting)
  {
    hide LiveCount, RunSys, W.Apply, Kept;
    var reqs := [W.CreateReq(ref, 0, 10, true), W.FillReq(ref, 4)];
    EmptyCount(sys.shards);
    FillBeforeSend(ShardFor(sys, ref), ref);
    assert reqs[..0] == [] && reqs[..2] == reqs;
    NothingRun(sys);
    ShardAfter(sys, reqs, 0);
    ShardAfter(sys, reqs, 1);
    hide Init;
    LastRequestLost(sys, reqs, 1, capacity, netting);
  }

  lemma NothingRun(sys: System)
    requires Wf(sys)
    ensures WellFormedRun(sys, []) && RunSys(sys, []) == sys
  {
  }

  lemma ShardAfter(sys: System, reqs: seq<W.Request>, n: nat)
    requires WellFormedRun(sys, reqs) && n < |reqs|
    ensures ShardFor(RunSys(sys, reqs[..n + 1]), reqs[n].ref)
         == W.Apply(ShardFor(RunSys(sys, reqs[..n]), reqs[n].ref), reqs[n]).0
  {
    hide W.Apply, RunSys;
    OneMore(sys, reqs, n);
  }

  function Sent3(ref: Ref): seq<W.Request> {
    [ W.CreateReq(ref, 0, 10, true), W.TransitionReq(ref, Sent),
      W.ReportReq(ref, ExecReport(ref, 2, CancelPendingReport, 0, 0)) ]
  }

  /** The shard with an order sent and its second report held back. */
  function HeldBack(st: State, ref: Ref): State {
    State(S.Store(map[ref := Order(ref, 0, 10, 0, 0, Sent, 0)], st.store.reserved + 10, st.store.capacity),
          [Some(ExecReport(ref, 2, CancelPendingReport, 0, 0))], st.cache)
  }

  function Created(st: State, ref: Ref, state: OrderState): State {
    st.(store := S.Store(map[ref := Order(ref, 0, 10, 0, 0, state, 0)], st.store.reserved + 10, st.store.capacity))
  }

  lemma HeldBackSteps(st: State, ref: Ref)
    requires CacheOk(st.cache) && st.store.live == map[] && st.store.capacity > 0 && st.slots == [None]
    requires ref.runId != 0 && ref.logicalId != 0
    ensures var reqs := Sent3(ref);
            && Kept(st, reqs[0], true) && W.Apply(st, reqs[0]).0 == Created(st, ref, PendingSend)
            && Kept(Created(st, ref, PendingSend), reqs[1], true)
            && W.Apply(Created(st, ref, PendingSend), reqs[1]).0 == Created(st, ref, Sent)
            && Kept(Created(st, ref, Sent), reqs[2], true)
            && W.Apply(Created(st, ref, Sent), reqs[2]).0 == HeldBack(st, ref)
  {
    hide Drain;
    assert forall a: Order, b: Order :: map[ref := a][ref := b] == map[ref := b];
    assert map[][ref := Order(ref, 0, 10, 0, 0, PendingSend, 0)] == map[ref := Order(ref, 0, 10, 0, 0, PendingSend, 0)];
    assert [None][0 := Some(ExecReport(ref, 2, CancelPendingReport, 0, 0))]
        == [Some(ExecReport(ref, 2, CancelPendingReport, 0, 0))];
  }

  lemma HeldBackRun(sys: System, ref: Ref, capacity: nat)
    requires Init(sys) && capacity > 0 && ref.runId != 0 && ref.logicalId != 0
    requires var st := ShardFor(sys, ref); st.store.capacity > 0 && st.slots == [None]
    ensures WellFormedRun(sys, Sent3(ref)) && JournalableRun(sys, Sent3(ref), capacity)
    ensures ShardFor(RunSys(sys, Sent3(ref)), ref) == HeldBack(ShardFor(sys, ref), ref)
  {
    var reqs := Sent3(ref);
    EmptyCount(sys.shards);
    NothingRun(sys);
    HeldBackSteps(ShardFor(sys, ref), ref);
    hide LiveCount, RunSys, W.Apply, HeldBack, Created;
    assert reqs[..0] == [] && reqs[..3] == reqs;
    ShardAfter(sys, reqs, 0);
    ShardAfter(sys, reqs, 1);
    ShardAfter(sys, reqs, 2);
    forall k | 0 <= k < 3 ensures JournalableAt(sys, reqs, k, capacity) {
      assert k == 0 || k == 1 || k == 2;
    }
  }

  lemma OneHeld(ref: Ref, r: ExecReport)
    requires r.ref == ref
    ensures Chain([Some(r)], ref, r.seq_) == [r]
  {
    assert [Some(r)][0 := None] == [None];
    assert Chain([None], ref, r.seq_ + 1) == [];
  }

  lemma AckApplies(st: State, ref: Ref)
    requires CacheOk(st.cache)
    ensures var ack, acked := ExecReport(ref, 1, AckReport, 0, 0), Order(ref, 0, 10, 0, 0, Acknowledged, 1);
            var held := HeldBack(st, ref);
            && ApplyToOrder(held.store.live[ref], ack) == Lives(acked) && ApplyOne(held, ack).1
            && ref in ApplyOne(held, ack).0.store.live && ApplyOne(held, ack).0.store.live[ref] == acked
  {
    ApplyOneIsLocal(HeldBack(st, ref), ExecReport(ref, 1, AckReport, 0, 0));
    hide ApplyOne;
  }

  /** The held report would act on the order once the missing one has been applied. */
  lemma HeldOneActs(ref: Ref)
    ensures var acked, pending := Order(ref, 0, 10, 0, 0, Acknowledged, 1), ExecReport(ref, 2, CancelPendingReport, 0, 0);
            && !Quiet(acked, [pending])
            && Drained(acked, [pending]) == Some(Order(ref, 0, 10, 0, 0, CancelPending, 2))
  {
    var acked, pending := Order(ref, 0, 10, 0, 0, Acknowledged, 1), ExecReport(ref, 2, CancelPendingReport, 0, 0);
    assert [pending][1..] == [];
    assert Drained(acked, [pending]) == Drained(Order(ref, 0, 10, 0, 0, CancelPending, 2), []);
  }

  /** The missing report releases the held one, whose effect is not written. */
  lemma ReleaseIsNotKept(st: State, ref: Ref)
    requires CacheOk(st.cache)
    ensures var req := W.ReportReq(ref, ExecReport(ref, 1, AckReport, 0, 0));
            && (forall room :: !Kept(HeldBack(st, ref), req, room))
            && W.Lookup(W.Apply(HeldBack(st, ref), req).0.store.live, ref) == Some(Order(ref, 0, 10, 0, 0, CancelPending, 2))
  {
    hide ApplyOne, Drain, Chain, ApplyToOrder, Quiet, Drained, ReportKept;
    var ack, pending := ExecReport(ref, 1, AckReport, 0, 0), ExecReport(ref, 2, CancelPendingReport, 0, 0);
    AckApplies(st, ref);
    OneHeld(ref, pending);
    HeldOneActs(ref);
    DrainIsDrained(ApplyOne(HeldBack(st, ref), ack).0, ref);
  }

  /** A report applied from the gap pool, when the missing one arrives, is not written either. */
  lemma DrainedReportIsLost(sys: System, ref: Ref, capacity: nat, netting: bool)
    requires Init(sys) && capacity > 0 && ref.runId != 0 && ref.logicalId != 0
    requires var st := ShardFor(sys, ref); st.store.capacity > 0 && st.slots == [None]
    ensures var reqs := Sent3(ref) + [W.ReportReq(ref, ExecReport(ref, 1, AckReport, 0, 0))];
            && WellFormedRun(sys, reqs)
            && Live(RunSys(sys, reqs), ref) == Some(Order(ref, 0, 10, 0, 0, CancelPending, 2))
            && !RecoversAt(sys, reqs, 4, capacity, netting)
  {
    hide RunSys, W.Apply, Init, LiveCount, HeldBack, Kept;
    HeldBackRun(sys, ref, capacity);
    ReleaseIsNotKept(ShardFor(sys, ref), ref);
    var reqs := Sent3(ref) + [W.ReportReq(ref, ExecReport(ref, 1, AckReport, 0, 0))];
    assert reqs[..4] == reqs && reqs[..3] == Sent3(ref);
    ShardAfter(sys, reqs, 3);
    forall k | 0 <= k < 3 ensures JournalableAt(sys, reqs, k, capacity) {
      assert reqs[..k] == Sent3(ref)[..k];
      assert JournalableAt(sys, Sent3(ref), k, capacity);
    }
    LastRequestLost(sys, reqs, 3, capacity, netting);
  }
}
