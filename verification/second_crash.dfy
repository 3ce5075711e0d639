/** A second crash. The restart puts the recovered orders back into fresh shards, writes nothing of it, and numbers its
    requests from 0 again; so the records of the second run, put behind those of the first, are sorted in between them. */
module SecondCrash {
  import opened ExecTypes
  import opened ReportSpec
  import opened Journal
  import W = ShardedOms
  import opened RecoveryStreaming
  import opened JournalRoundTrip
  import opened HeldReports
  import opened JournalRuns
  import opened WindowedReplay
  import opened WalMerge
  import opened CrashRecovery
  import opened TornCrash
  import opened ByOrder
  import opened Restarts
  import opened TwoLogs

  // ---- what a run writes about a recovered order ----

  lemma {:induction false} AllAboutOne(recs: seq<Record>, other: Ref, ref: Ref)
    requires forall i | 0 <= i < |recs| :: RefOf(recs[i]) == other
    ensures Own(recs, ref) == if ref == other then recs else []
  {
    if recs != [] {
      AllAboutOne(recs[..|recs| - 1], other, ref);
      OwnNext(recs, ref);
    }
  }

  /** One request more: its records join those of its order. */
  lemma OwnUnfolds(sys: System, reqs: seq<W.Request>, ref: Ref)
    requires WellFormedRun(sys, reqs) && reqs != []
    ensures var last := |reqs| - 1;
            var now := RunSys(sys, reqs[..last]);
            && Wf(now) && RunSys(sys, reqs) == SysApply(now, reqs[last])
            && Own(Log(sys, reqs), ref) == Own(Log(sys, reqs[..last]), ref)
                                         + if reqs[last].ref == ref then SysRecords(now, reqs[last], last) else []
  {
    hide SysRecords, SysApply, Own;
    var last := |reqs| - 1;
    var now := RunSys(sys, reqs[..last]);
    LogUnfolds(sys, reqs);
    var recs := SysRecords(now, reqs[last], last);
    hide Log, RunSys;
    OwnAppend(Log(sys, reqs[..last]), recs, ref);
    AllAboutOne(recs, reqs[last].ref, ref);
  }

  lemma OwnAppend(a: seq<Record>, b: seq<Record>, ref: Ref)
    ensures Own(a + b, ref) == Own(a, ref) + Own(b, ref)
  {
    FilterAppend(About(ref), a, b);
  }

  lemma NotLive(st: State, req: W.Request, ts: nat)
    requires CacheOk(st.cache) && W.WellFormed(req) && req.ref !in st.store.live && !req.CreateReq?
    ensures W.Records(st, req, ts) == [] && req.ref !in W.Apply(st, req).0.store.live
  {
  }

  /** A run writes nothing about an order that is not live and that it does not create. */
  lemma {:induction false} NeverThere(sys: System, reqs: seq<W.Request>, ref: Ref)
    requires WellFormedRun(sys, reqs) && Live(sys, ref).None?
    requires forall i | 0 <= i < |reqs| :: reqs[i].CreateReq? ==> reqs[i].ref != ref
    ensures Own(Log(sys, reqs), ref) == [] && Live(RunSys(sys, reqs), ref).None?
  {
    if reqs != [] {
      hide Own, Log, RunSys, SysApply, W.Apply, W.Records;
      var last := |reqs| - 1;
      NeverThere(sys, reqs[..last], ref);
      OwnUnfolds(sys, reqs, ref);
      var now := RunSys(sys, reqs[..last]);
      SysApplyLive(now, reqs[last], ref);
      if reqs[last].ref == ref { NotLive(ShardFor(now, ref), reqs[last], last); }
    }
  }

  /** A kept request leaves an unknown order as it is, or ends it and writes that. */
  lemma KeepsOrResolves(st: State, req: W.Request, room: bool, ts: nat)
    requires CacheOk(st.cache) && W.WellFormed(req) && req.ref in st.store.live && st.store.live[req.ref].state.Unknown?
    requires Kept(st, req, room)
    ensures var o, rs := W.Lookup(W.Apply(st, req).0.store.live, req.ref), W.Records(st, req, ts);
            (rs == [] && o.Some? && o.value.state.Unknown?) || (Resolves(rs, ts) && o.None?)
  {
    if req.ReportReq? {
      ReportKeepsOrResolves(st, req, room, ts);
    }
    hide Process;
  }

  lemma ReportKeepsOrResolves(st: State, req: W.Request, room: bool, ts: nat)
    requires CacheOk(st.cache) && W.WellFormed(req) && req.ref in st.store.live && st.store.live[req.ref].state.Unknown?
    requires req.ReportReq? && Kept(st, req, room)
    ensures var o, rs := W.Lookup(W.Apply(st, req).0.store.live, req.ref), W.Records(st, req, ts);
            (rs == [] && o.Some? && o.value.state.Unknown?) || (Resolves(rs, ts) && o.None?)
  {
    var report := req.report;
    if report.seq_ == st.store.live[req.ref].lastSeq + 1 {
      ApplyOneIsLocal(st, report);
      var (st1, ok) := ApplyOne(st, report);
      if ok { DrainUnfolds(st1, req.ref); }
      hide ApplyOne, Drain;
    }
  }

  /** A recovered order after a run: as it was and nothing written, or ended and that written. */
  predicate KeptOrResolved(o: Option<Order>, rs: seq<Record>) {
    if rs == [] then o.Some? && o.value.state.Unknown? else Resolves(rs, rs[0].ts) && o.None?
  }

  lemma StepKeepsOrResolves(now: System, req: W.Request, rs: seq<Record>, ref: Ref, capacity: nat, ts: nat)
    requires Wf(now) && W.WellFormed(req) && Journalable(now, req, capacity) && (req.CreateReq? ==> req.ref != ref)
    requires KeptOrResolved(Live(now, ref), rs)
    ensures KeptOrResolved(Live(SysApply(now, req), ref), rs + if req.ref == ref then SysRecords(now, req, ts) else [])
  {
    hide SysApply, W.Apply, W.Records, Kept, Resolves;
    SysApplyLive(now, req, ref);
    WfGives(now, ref);
    if req.ref != ref {
      assert rs + [] == rs;
    } else {
      var recs := SysRecords(now, req, ts);
      if rs == [] {
        KeepsOrResolves(ShardFor(now, ref), req, LiveCount(now.shards) < capacity, ts);
        ResolvesAt(recs, ts);
        assert rs + recs == recs;
      } else {
        NotLive(ShardFor(now, ref), req, ts);
        assert rs + [] == rs;
      }
    }
  }

  /** What a journalable run writes about a recovered order: nothing, or its end. */
  lemma {:induction false} RunKeepsOrResolves(sys: System, reqs: seq<W.Request>, ref: Ref, capacity: nat)
    requires WellFormedRun(sys, reqs) && JournalableRun(sys, reqs, capacity)
    requires Live(sys, ref).Some? && Live(sys, ref).value.state.Unknown?
    requires forall i | 0 <= i < |reqs| :: reqs[i].CreateReq? ==> reqs[i].ref != ref
    ensures KeptOrResolved(Live(RunSys(sys, reqs), ref), Own(Log(sys, reqs), ref))
  {
    if reqs != [] {
      hide Own, Log, RunSys, SysApply, Journalable, KeptOrResolved, SysRecords, Live, Wf;
      var last := |reqs| - 1;
      var front := reqs[..last];
      FrontIsJournalable(sys, reqs, capacity);
      RunKeepsOrResolves(sys, front, ref, capacity);
      OwnUnfolds(sys, reqs, ref);
      StepKeepsOrResolves(RunSys(sys, front), reqs[last], Own(Log(sys, front), ref), ref, capacity, last);
    } else {
      assert Log(sys, reqs) == [] && RunSys(sys, reqs) == sys;
    }
  }

  lemma FrontIsJournalable(sys: System, reqs: seq<W.Request>, capacity: nat)
    requires WellFormedRun(sys, reqs) && JournalableRun(sys, reqs, capacity) && reqs != []
    ensures var last := |reqs| - 1;
            && WellFormedRun(sys, reqs[..last]) && JournalableRun(sys, reqs[..last], capacity)
            && Journalable(RunSys(sys, reqs[..last]), reqs[last], capacity)
  {
    hide Journalable, RunSys, Wf;
    var last := |reqs| - 1;
    assert JournalableAt(sys, reqs, last, capacity);
    forall k | 0 <= k < last ensures JournalableAt(sys, reqs[..last], k, capacity) {
      assert reqs[..last][..k] == reqs[..k] && JournalableAt(sys, reqs, k, capacity);
    }
  }

  lemma ResolvesAt(rs: seq<Record>, ts: nat)
    ensures Resolves(rs, ts) ==> rs != [] && rs[0].ts == ts
  {
  }

  // ---- what the reader leaves ----

  /** What a shard takes back: the order a reader builds from written records. */
  predicate Readable(o: Order, ref: Ref) {
    o.ref == ref && Sound(o) && o.limitPrice > 0 && o.lastSeq == 0
  }

  predicate Priced(r: Record) {
    OrderKind(r.kind) && (r.kind == COMMAND ==> r.c > 0)
  }

  lemma StepIsReadable(o: Option<Order>, r: Record)
    requires Priced(r) && r.symbol < MAX_SYMBOLS && OrderStep(o, r).Some? && (o.Some? ==> Readable(o.value, RefOf(r)))
    ensures var o' := OrderStep(o, r).value;
            o'.Some? ==> Readable(o'.value, RefOf(r))
  {
  }

  lemma {:induction false} FoldIsReadable(rs: seq<Record>, ref: Ref)
    requires forall i | 0 <= i < |rs| :: Priced(rs[i]) && rs[i].symbol < MAX_SYMBOLS && RefOf(rs[i]) == ref
    requires Fold(None, rs).Some?
    ensures Fold(None, rs).value.Some? ==> Readable(Fold(None, rs).value.value, ref)
  {
    if rs != [] {
      hide OrderStep, Readable, Priced;
      var front := rs[..|rs| - 1];
      FoldIsReadable(front, ref);
      StepIsReadable(Fold(None, front).value, rs[|rs| - 1]);
    }
  }

  lemma RecordsArePriced(st: State, req: W.Request, ts: nat)
    requires CacheOk(st.cache)
    ensures forall r <- W.Records(st, req, ts) :: Priced(r)
  {
    hide W.Apply;
  }

  lemma {:induction false} LogIsPriced(sys: System, reqs: seq<W.Request>)
    requires WellFormedRun(sys, reqs)
    ensures forall r <- Log(sys, reqs) :: Priced(r)
  {
    if reqs != [] {
      hide W.Records, Wf, Priced;
      var last := |reqs| - 1;
      PrefixIsWellFormed(sys, reqs, last);
      LogIsPriced(sys, reqs[..last]);
      var now := RunSys(sys, reqs[..last]);
      WfGives(now, reqs[last].ref);
      RecordsArePriced(ShardFor(now, reqs[last].ref), reqs[last], last);
    }
  }

  /** The reader's orders, each fit to be taken back. */
  ghost predicate AllReadable(live: map<Ref, Order>) {
    forall ref <- live :: Readable(live[ref], ref)
  }

  lemma ReadIsReadable(p: Replay, log: seq<Record>)
    requires p.store.live == map[] && ReadPlain(p, log).Some? && forall i | 0 <= i < |log| :: Priced(log[i])
    ensures AllReadable(ReadPlain(p, log).value.store.live)
  {
    hide ReadPlain, Readable, Fold;
    AcceptedInTime(p, log);
    AcceptedFolds(p, log);
    var live := ReadPlain(p, log).value.store.live;
    forall ref | ref in live ensures Readable(live[ref], ref) {
      assert FoldsAt(p, log, ReadPlain(p, log).value, ref);
      OwnPriced(log, ref);
      FoldIsReadable(Own(log, ref), ref);
    }
  }

  lemma OwnPriced(log: seq<Record>, ref: Ref)
    requires forall i | 0 <= i < |log| :: Priced(log[i]) && log[i].symbol < MAX_SYMBOLS
    ensures var rs := Own(log, ref);
            forall i | 0 <= i < |rs| :: Priced(rs[i]) && rs[i].symbol < MAX_SYMBOLS && RefOf(rs[i]) == ref
  {
    var rs := Own(log, ref);
    OwnMembers(log, ref);
    hide Own, Priced;
    forall i | 0 <= i < |rs| ensures Priced(rs[i]) && rs[i].symbol < MAX_SYMBOLS && RefOf(rs[i]) == ref {
      assert rs[i] in rs;
    }
  }

  /** A reader that starts from the recovered orders mirrors the restarted system. */
  lemma RestartMirrors(sys: System, live: map<Ref, Order>, p: Replay, capacity: nat)
    requires AllReadable(live) && Restarted(sys, MarkAll(live)) && p.store.live == MarkAll(live)
    requires p.store.capacity == capacity && p.ledger.lastTs == 0 && !p.ledger.haveAccount && !p.ledger.havePnl
    ensures Sim(sys, p, capacity, 0)
  {
    hide Wf, LiveCount, Live;
    assert Wf(sys);
    WfGives(sys, Ref(0, 0));
    forall ref ensures MirrorsAt(Live(sys, ref), p.store.live, ref) && (Live(sys, ref).Some? ==> Readable(Live(sys, ref).value, ref)) {
      assert Live(sys, ref) == W.Lookup(MarkAll(live), ref);
      if ref in live { assert Readable(live[ref], ref); }
    }
  }

  // ---- the second crash ----

  /** The orders the first run left, before recovery marks them. */
  function LeftBy(file: seq<Record>, capacity: nat, netting: bool): map<Ref, Order> {
    var p := ReadPlain(Start(capacity, netting), StableSort(file));
    if p.Some? then p.value.store.live else map[]
  }

  lemma RecoverReads(capacity: nat, netting: bool, window: nat, hash: Record -> nat, log: seq<Record>)
    requires window > 0
    ensures Recover(capacity, netting, window, hash, log)
         == if Flagged(hash, window, log) || ReadPlain(Start(capacity, netting), log).None? then None
            else Finish(ReadPlain(Start(capacity, netting), log).value)
  {
    hide ReadAll, ReadPlain, Flagged;
    WindowOnlyStopsRepeats(Start(capacity, netting), hash, window, log);
  }

  /** No reference that the first run wrote about is created again. */
  ghost predicate FreshRefs(reqs: seq<W.Request>, file: seq<Record>) {
    forall i, j | 0 <= i < |reqs| && 0 <= j < |file| :: reqs[i].CreateReq? ==> RefOf(file[j]) != reqs[i].ref
  }

  lemma RunIsDivided(sys: System, reqs: seq<W.Request>, capacity: nat, left: map<Ref, Order>, first: seq<Record>, ref: Ref)
    requires WellFormedRun(sys, reqs) && JournalableRun(sys, reqs, capacity) && Restarted(sys, MarkAll(left))
    requires AllReadable(left) && FreshRefs(reqs, first)
    requires ref in left ==> Own(first, ref) != []
    ensures Divided(first, left, Log(sys, reqs), ref)
  {
    hide RunSys, Log, Resolves, Wf, LiveCount, Live, JournalableRun;
    WfGives(sys, ref);
    assert Live(sys, ref) == W.Lookup(MarkAll(left), ref);
    OwnMembers(first, ref);
    if Own(first, ref) != [] {
      var j :| 0 <= j < |first| && RefOf(first[j]) == ref;
      hide Own;
      if ref in left {
        assert Readable(left[ref], ref);
        RunKeepsOrResolves(sys, reqs, ref, capacity);
      } else {
        NeverThere(sys, reqs, ref);
      }
    }
  }

  /** What the first crash left, and a run over the restarted shards after it. */
  ghost predicate RunAfter(file: seq<Record>, left: Replay, sys: System, reqs: seq<W.Request>, capacity: nat, netting: bool) {
    && ReadPlain(Start(capacity, netting), StableSort(file)) == Some(left) && AllReadable(left.store.live)
    && Restarted(sys, MarkAll(left.store.live)) && WellFormedRun(sys, reqs) && JournalableRun(sys, reqs, capacity)
    && FreshRefs(reqs, file) && Commands(file) + Commands(Log(sys, reqs)) <= capacity
    && forall i | 0 <= i < |file| :: OrderKind(file[i].kind)
  }

  function Restarting(left: Replay, netting: bool): Replay {
    Replay(left.store.(live := MarkAll(left.store.live)), FreshLedger(netting))
  }

  lemma SortedFile(file: seq<Record>, capacity: nat, netting: bool)
    requires ReadPlain(Start(capacity, netting), StableSort(file)).Some?
    requires forall i | 0 <= i < |file| :: OrderKind(file[i].kind)
    ensures InTime(Start(capacity, netting), StableSort(file))
    ensures var left := ReadPlain(Start(capacity, netting), StableSort(file)).value;
            && left.store.capacity == capacity && !left.ledger.haveAccount && !left.ledger.havePnl
            && forall ref | ref in left.store.live :: Own(StableSort(file), ref) != []
  {
    hide ReadPlain, StableSort, Own, Fold;
    var p, log := Start(capacity, netting), StableSort(file);
    forall i | 0 <= i < |log| ensures OrderKind(log[i].kind) {
      SortKeepsMembers(file, log[i]);
      assert log[i] in log;
    }
    AcceptedInTime(p, log);
    AcceptedFolds(p, log);
    var left := ReadPlain(p, log).value;
    forall ref | ref in left.store.live ensures Own(log, ref) != [] {
      assert FoldsAt(p, log, left, ref);
      FoldNothing(None);
    }
  }

  /** The second log is read from the recovered orders, and mirrors the second run. */
  lemma SecondIsRead(file: seq<Record>, left: Replay, sys: System, reqs: seq<W.Request>, capacity: nat, netting: bool)
    requires RunAfter(file, left, sys, reqs, capacity, netting)
    ensures var q := Restarting(left, netting);
            var q1 := ReadPlain(q, Log(sys, reqs));
            q1.Some? && InTime(q, Log(sys, reqs)) && Sim(RunSys(sys, reqs), q1.value, capacity, |reqs|)
  {
    SortedFile(file, capacity, netting);
    LogIsAboutOrders(sys, reqs);
    hide ReadPlain, StableSort, Sim, RunSys, Log, Own, JournalableAt, Restarted, AllReadable, InTime, WellFormedRun;
    var q := Restarting(left, netting);
    RestartMirrors(sys, left.store.live, q, capacity);
    MirrorFollows(sys, q, reqs, |reqs|, capacity);
    assert reqs[..|reqs|] == reqs;
    var log := Log(sys, reqs);
    forall i | 0 <= i < |log| ensures OrderKind(log[i].kind) { assert log[i] in log; }
    AcceptedInTime(q, log);
  }

  lemma AreTwoRuns(file: seq<Record>, left: Replay, sys: System, reqs: seq<W.Request>, capacity: nat, netting: bool)
    requires RunAfter(file, left, sys, reqs, capacity, netting)
    requires ReadPlain(Restarting(left, netting), Log(sys, reqs)).Some?
    requires InTime(Restarting(left, netting), Log(sys, reqs))
    ensures var q := Restarting(left, netting);
            TwoRuns(Start(capacity, netting), StableSort(file), left, q, Log(sys, reqs), ReadPlain(q, Log(sys, reqs)).value)
  {
    hide ReadPlain, StableSort, RunSys, Log, Own, JournalableRun, Restarted, AllReadable, InTime, Divided, WellFormedRun;
    SortedFile(file, capacity, netting);
    CommandsSort(file);
    forall ref ensures Divided(StableSort(file), left.store.live, Log(sys, reqs), ref) {
      FreshAfterSort(reqs, file);
      RunIsDivided(sys, reqs, capacity, left.store.live, StableSort(file), ref);
    }
  }

  lemma FreshAfterSort(reqs: seq<W.Request>, file: seq<Record>)
    requires FreshRefs(reqs, file)
    ensures FreshRefs(reqs, StableSort(file))
  {
    hide StableSort;
    var log := StableSort(file);
    forall i, j | 0 <= i < |reqs| && 0 <= j < |log| ensures reqs[i].CreateReq? ==> RefOf(log[j]) != reqs[i].ref {
      SortKeepsMembers(file, log[j]);
      assert log[j] in log;
      var k :| 0 <= k < |file| && file[k] == log[j];
    }
  }

  lemma FitsAfterSort(file: seq<Record>, left: map<Ref, Order>, second: seq<Record>, ref: Ref)
    ensures Fits(StableSort(file), left, second, ref) <==> Fits(file, left, second, ref)
  {
    forall r ensures r in StableSort(file) <==> r in file { SortKeepsMembers(file, r); }
    hide StableSort, Mentions;
  }

  lemma RecoveredAlike(o: Option<Order>, p: Replay, q: Replay, ref: Ref)
    requires MirrorsAt(o, q.store.live, ref) && (o.Some? ==> Sound(o.value))
    requires MarkedOne(At(p, ref)) == MarkedOne(At(q, ref))
    ensures RecoveredAs(o, MarkAll(p.store.live), ref)
  {
    MarkedImage(o, q.store.live, ref);
    hide Sound, Image, Marked;
  }

  /** Reading both runs sorted into each other. */
  lemma ReadAfter(file: seq<Record>, left: Replay, sys: System, reqs: seq<W.Request>, capacity: nat, netting: bool)
    requires RunAfter(file, left, sys, reqs, capacity, netting)
    ensures var m := ReadPlain(Start(capacity, netting), StableSort(StableSort(file) + Log(sys, reqs)));
            && (m.Some? <==> forall ref :: Fits(file, left.store.live, Log(sys, reqs), ref))
            && (m.Some? ==>
                  && !m.value.ledger.haveAccount && !m.value.ledger.havePnl
                  && forall ref :: RecoveredAs(Live(RunSys(sys, reqs), ref), MarkAll(m.value.store.live), ref))
  {
    SecondIsRead(file, left, sys, reqs, capacity, netting);
    AreTwoRuns(file, left, sys, reqs, capacity, netting);
    hide ReadPlain, StableSort, RunSys, Log, RunAfter, InTime, TwoRuns, Fits, RecoveredAs, MarkAll, WellFormedRun, Sim;
    var p, q := Start(capacity, netting), Restarting(left, netting);
    var first, second := StableSort(file), Log(sys, reqs);
    var q1 := ReadPlain(q, second).value;
    TwoRunsRead(p, first, left, q, second, q1);
    forall ref ensures Fits(first, left.store.live, second, ref) <==> Fits(file, left.store.live, second, ref) {
      FitsAfterSort(file, left.store.live, second, ref);
    }
    var m := ReadPlain(p, StableSort(first + second));
    if m.Some? {
      forall ref ensures RecoveredAs(Live(RunSys(sys, reqs), ref), MarkAll(m.value.store.live), ref) {
        SimAt(RunSys(sys, reqs), q1, ref, capacity, |reqs|);
        RecoveredAlike(Live(RunSys(sys, reqs), ref), m.value, q1, ref);
      }
    }
  }

  /** The first recovery, taken apart. */
  lemma FirstRecovery(sys: System, reqs: seq<W.Request>, file: seq<Record>, rec: Replay, capacity: nat, netting: bool,
                      window: nat, hash: Record -> nat) returns (left: Replay)
    requires WellFormedRun(sys, reqs) && (forall r <- file :: r in Log(sys, reqs)) && window > 0
    requires Recover(capacity, netting, window, hash, StableSort(file)) == Some(rec)
    ensures ReadPlain(Start(capacity, netting), StableSort(file)) == Some(left) && AllReadable(left.store.live)
    ensures left.store.live == LeftBy(file, capacity, netting) && rec.store.live == MarkAll(left.store.live)
    ensures forall i | 0 <= i < |file| :: OrderKind(file[i].kind)
  {
    LogIsPriced(sys, reqs);
    hide ReadPlain, StableSort, Log, Flagged, AllReadable, WellFormedRun, MarkAll;
    var log := StableSort(file);
    forall i | 0 <= i < |log| ensures Priced(log[i]) {
      SortKeepsMembers(file, log[i]);
      assert log[i] in log;
    }
    forall i | 0 <= i < |file| ensures OrderKind(file[i].kind) { assert file[i] in file && Priced(file[i]); }
    RecoverReads(capacity, netting, window, hash, log);
    left := ReadPlain(Start(capacity, netting), log).value;
    ReadIsReadable(Start(capacity, netting), log);
  }

  /** A system crashes and is recovered from whatever of its records the first file holds. Its orders go back into fresh
      shards, these run on and crash in their turn. The next recovery accepts both files exactly when the window flags
      nothing and every recovered order the second run wrote about had been left unknown, with no record numbered higher
      than those of the second run. Then it yields exactly the live orders of the second run. */
  lemma SecondCrashRecovers(sys1: System, reqs1: seq<W.Request>, file1: seq<Record>, rec: Replay, sys2: System,
                            reqs2: seq<W.Request>, file2: seq<Record>, capacity: nat, netting: bool, window: nat,
                            hash: Record -> nat)
    requires WellFormedRun(sys1, reqs1) && (forall r <- file1 :: r in Log(sys1, reqs1)) && window > 0
    requires Recover(capacity, netting, window, hash, StableSort(file1)) == Some(rec)
    requires Restarted(sys2, rec.store.live) && WellFormedRun(sys2, reqs2) && JournalableRun(sys2, reqs2, capacity)
    requires Interleaves(file2, Log(sys2, reqs2), |sys2.shards|)
    requires FreshRefs(reqs2, file1) && Commands(file1) + Commands(Log(sys2, reqs2)) <= capacity
    ensures var r := Recover(capacity, netting, window, hash, StableSort(file1 + file2));
            var left := LeftBy(file1, capacity, netting);
            && (r.Some? <==> !Flagged(hash, window, StableSort(file1 + file2))
                             && forall ref :: Fits(file1, left, Log(sys2, reqs2), ref))
            && (r.Some? ==> forall ref :: RecoveredAs(Live(RunSys(sys2, reqs2), ref), r.value.store.live, ref))
  {
    LogIsOrdered(sys2, reqs2);
    hide ReadPlain, StableSort, Log, RunSys, Flagged, AllReadable, Fits, RecoveredAs, MarkAll, Commands, JournalableRun, FreshRefs;
    hide LeftBy, Recover, Ordered, WellFormedRun, Restarted;
    var left := FirstRecovery(sys1, reqs1, file1, rec, capacity, netting, window, hash);
    ReadAfter(file1, left, sys2, reqs2, capacity, netting);
    SecondSorts(sys2, reqs2, file2);
    SortAgain(file1, file2);
    RecoverReads(capacity, netting, window, hash, StableSort(file1 + file2));
  }

  lemma SecondSorts(sys: System, reqs: seq<W.Request>, file: seq<Record>)
    requires WellFormedRun(sys, reqs) && Interleaves(file, Log(sys, reqs), |sys.shards|)
    ensures StableSort(file) == Log(sys, reqs)
  {
    LogIsOrdered(sys, reqs);
    hide StableSort, Log, RunSys, WellFormedRun, Interleaves, Sorted;
    TimesNameOrders(Log(sys, reqs), reqs, |sys.shards|);
    SortUndoesInterleaving(file, Log(sys, reqs), |sys.shards|);
  }

  // ---- a journal of its own ----

  /** What the second log alone says of an order the first run left live: not that it is live. */
  lemma AloneForgets(file: seq<Record>, left: Replay, sys: System, reqs: seq<W.Request>, capacity: nat, netting: bool, ref: Ref)
    requires RunAfter(file, left, sys, reqs, capacity, netting) && ref in left.store.live
    requires ReadPlain(Start(capacity, netting), Log(sys, reqs)).Some?
    requires InTime(Start(capacity, netting), Log(sys, reqs))
    ensures ref !in ReadPlain(Start(capacity, netting), Log(sys, reqs)).value.store.live && Live(RunSys(sys, reqs), ref).Some?
  {
    SortedFile(file, capacity, netting);
    hide ReadPlain, StableSort, Log, RunSys, Sorted, Own, JournalableRun, FreshRefs, WellFormedRun, Resolves, Fold;
    var p, second := Start(capacity, netting), Log(sys, reqs);
    AcceptedFolds(p, second);
    var m := ReadPlain(p, second).value;
    assert FoldsAt(p, second, m, ref) && Readable(left.store.live[ref], ref);
    assert Live(sys, ref) == W.Lookup(MarkAll(left.store.live), ref);
    FreshAfterSort(reqs, file);
    NotCreated(reqs, StableSort(file), ref);
    RunKeepsOrResolves(sys, reqs, ref, capacity);
    var rs := Own(second, ref);
    if rs != [] { ResolvesUnknown(None, rs, rs[0].ts); }
    FoldNothing(None);
  }

  lemma NotCreated(reqs: seq<W.Request>, file: seq<Record>, ref: Ref)
    requires FreshRefs(reqs, file) && Own(file, ref) != []
    ensures forall i | 0 <= i < |reqs| :: reqs[i].CreateReq? ==> reqs[i].ref != ref
  {
    OwnMembers(file, ref);
    var j :| 0 <= j < |file| && RefOf(file[j]) == ref;
    hide Own;
  }

  /** The second run's log read alone, when nothing was left live. */
  lemma AloneIsAll(file: seq<Record>, left: Replay, sys: System, reqs: seq<W.Request>, capacity: nat, netting: bool)
    requires RunAfter(file, left, sys, reqs, capacity, netting) && left.store.live == map[]
    ensures var m := ReadPlain(Start(capacity, netting), Log(sys, reqs));
            && m.Some? && !m.value.ledger.haveAccount && !m.value.ledger.havePnl
            && forall ref :: RecoveredAs(Live(RunSys(sys, reqs), ref), MarkAll(m.value.store.live), ref)
  {
    SecondIsRead(file, left, sys, reqs, capacity, netting);
    hide ReadPlain, StableSort, RunSys, Log, Own, Fold, RecoveredAs, WellFormedRun, Sim, JournalableRun, Restarted, Sorted;
    var p, q := Start(capacity, netting), Restarting(left, netting);
    var second := Log(sys, reqs);
    var q1 := ReadPlain(q, second).value;
    AcceptedFolds(q, second);
    assert InTime(p, second);
    forall ref ensures Fold(At(p, ref), Own(second, ref)) == Some(At(q1, ref)) {
      assert FoldsAt(q, second, q1, ref) && At(p, ref) == At(q, ref);
    }
    FoldsAreAccepted(p, second);
    AcceptedFolds(p, second);
    var m := ReadPlain(p, second).value;
    forall ref ensures RecoveredAs(Live(RunSys(sys, reqs), ref), MarkAll(m.store.live), ref) {
      assert FoldsAt(p, second, m, ref);
      SimAt(RunSys(sys, reqs), q1, ref, capacity, |reqs|);
      RecoveredAlike(Live(RunSys(sys, reqs), ref), m, q1, ref);
    }
  }

  /** The second run's file alone recovers its live orders exactly when the first crash left none, and the window flags
      nothing. */
  lemma AloneRecoversIffNothingLeft(sys1: System, reqs1: seq<W.Request>, file1: seq<Record>, rec: Replay, sys2: System,
                                    reqs2: seq<W.Request>, file2: seq<Record>, capacity: nat, netting: bool, window: nat,
                                    hash: Record -> nat)
    requires WellFormedRun(sys1, reqs1) && (forall r <- file1 :: r in Log(sys1, reqs1)) && window > 0
    requires Recover(capacity, netting, window, hash, StableSort(file1)) == Some(rec)
    requires Restarted(sys2, rec.store.live) && WellFormedRun(sys2, reqs2) && JournalableRun(sys2, reqs2, capacity)
    requires Interleaves(file2, Log(sys2, reqs2), |sys2.shards|)
    requires FreshRefs(reqs2, file1) && Commands(file1) + Commands(Log(sys2, reqs2)) <= capacity
    ensures var r := Recover(capacity, netting, window, hash, StableSort(file2));
            r.Some? && (forall ref :: RecoveredAs(Live(RunSys(sys2, reqs2), ref), r.value.store.live, ref))
            <==> !Flagged(hash, window, StableSort(file2)) && rec.store.live == map[]
  {
    hide ReadPlain, StableSort, Log, RunSys, Flagged, AllReadable, Commands, JournalableRun, FreshRefs, LeftBy, Recover;
    hide WellFormedRun, Restarted, InTime;
    var left := FirstRecovery(sys1, reqs1, file1, rec, capacity, netting, window, hash);
    SecondSorts(sys2, reqs2, file2);
    RecoverReads(capacity, netting, window, hash, StableSort(file2));
    SecondIsRead(file1, left, sys2, reqs2, capacity, netting);
    if left.store.live == map[] {
      AloneIsAll(file1, left, sys2, reqs2, capacity, netting);
    } else {
      var ref :| ref in left.store.live;
      assert ref in rec.store.live;
      if ReadPlain(Start(capacity, netting), Log(sys2, reqs2)).Some? {
        InTimeFromStart(left, capacity, netting, Log(sys2, reqs2));
        AloneForgets(file1, left, sys2, reqs2, capacity, netting, ref);
      }
    }
  }

  lemma InTimeFromStart(left: Replay, capacity: nat, netting: bool, log: seq<Record>)
    requires InTime(Restarting(left, netting), log)
    ensures InTime(Start(capacity, netting), log)
  {
  }

  // ---- resolving a recovered order ----

  function CreateAndSend(ref: Ref): seq<W.Request> {
    [W.CreateReq(ref, 0, 10, true), W.TransitionReq(ref, Sent)]
  }

  function CommandOf(ref: Ref): Record {
    W.Rec(0, ref, COMMAND, 0, 0, 0, 10, 1, 0)
  }

  function RecoveredOf(ref: Ref): Order {
    Order(ref, 0, 10, 0, 1, Unknown, 0)
  }

  lemma CreatesAndSends(st: State, ref: Ref)
    requires CacheOk(st.cache) && st.store.live == map[] && st.store.capacity > 0
    ensures var reqs := CreateAndSend(ref);
            var st1 := W.Apply(st, reqs[0]).0;
            && W.Records(st, reqs[0], 0) == [CommandOf(ref)] && CacheOk(st1.cache)
            && st1.store.live == map[ref := Order(ref, 0, 10, 0, 0, PendingSend, 0)] && W.Records(st1, reqs[1], 1) == []
  {
  }

  lemma FirstLog(sys: System, ref: Ref)
    requires Init(sys) && ShardFor(sys, ref).store.capacity > 0
    ensures WellFormedRun(sys, CreateAndSend(ref)) && Log(sys, CreateAndSend(ref)) == [CommandOf(ref)]
  {
    var reqs := CreateAndSend(ref);
    CreatesAndSends(ShardFor(sys, ref), ref);
    NothingRun(sys);
    assert reqs[..0] == [] && reqs[..2] == reqs && reqs[..1][..0] == [] && reqs[..1][0] == reqs[0];
    hide RunSys, W.Apply, W.Records;
    ShardAfter(sys, reqs, 0);
    assert Log(sys, reqs[..1]) == Log(sys, []) + SysRecords(RunSys(sys, []), reqs[0], 0);
    assert Log(sys, reqs) == Log(sys, reqs[..1]) + SysRecords(RunSys(sys, reqs[..1]), reqs[1], 1);
  }

  lemma CancelsUnknown(st: State, ref: Ref)
    requires CacheOk(st.cache) && ref in st.store.live && st.store.live[ref] == RecoveredOf(ref)
    ensures var req := W.TransitionReq(ref, Cancelled);
            && W.Records(st, req, 0) == [W.StateRec(0, ref, 0, Unknown, Cancelled, 0, 10)]
            && ref !in W.Apply(st, req).0.store.live && forall room :: Kept(st, req, room)
  {
  }

  lemma SecondLog(sys: System, ref: Ref, capacity: nat)
    requires Restarted(sys, map[ref := RecoveredOf(ref)])
    ensures var reqs := [W.TransitionReq(ref, Cancelled)];
            && WellFormedRun(sys, reqs) && JournalableRun(sys, reqs, capacity) && Live(RunSys(sys, reqs), ref) == None
            && Log(sys, reqs) == [W.StateRec(0, ref, 0, Unknown, Cancelled, 0, 10)]
  {
    var reqs := [W.TransitionReq(ref, Cancelled)];
    hide W.Apply, W.Records, Kept;
    assert Live(sys, ref) == Some(RecoveredOf(ref));
    WfGives(sys, ref);
    CancelsUnknown(ShardFor(sys, ref), ref);
    NothingRun(sys);
    assert reqs[..0] == [] && reqs[..1] == reqs;
    SysApplyLive(sys, reqs[0], ref);
    assert JournalableAt(sys, reqs, 0, capacity);
  }

  lemma ReadsBoth(ref: Ref, capacity: nat, netting: bool)
    requires capacity > 0 && ref.runId != 0 && ref.logicalId != 0
    ensures var p, cmd, end := Start(capacity, netting), CommandOf(ref), W.StateRec(0, ref, 0, Unknown, Cancelled, 0, 10);
            && ReadPlain(p, [cmd]).Some? && ReadPlain(p, [cmd, end]) == None
            && MarkAll(ReadPlain(p, [cmd]).value.store.live) == map[ref := RecoveredOf(ref)]
            && !ReadPlain(p, [cmd]).value.ledger.haveAccount && !ReadPlain(p, [cmd]).value.ledger.havePnl
  {
    var p, cmd, end := Start(capacity, netting), CommandOf(ref), W.StateRec(0, ref, 0, Unknown, Cancelled, 0, 10);
    ReadOne(p, cmd);
    ReadTwo(p, cmd, end);
    assert RefOf(cmd) == ref && RefOf(end) == ref;
    CodesRoundTrip(Unknown);
  }

  lemma NotFlagged(hash: Record -> nat, window: nat, r: Record)
    requires window > 0
    ensures !Flagged(hash, window, [r])
  {
  }

  lemma SortsAsWritten(r: Record, q: Record)
    requires r.ts <= q.ts
    ensures StableSort([r]) == [r] && StableSort([r] + [q]) == [r, q]
  {
    hide StableSort;
    SortedStays([r]);
    SortedStays([r, q]);
    assert [r] + [q] == [r, q];
  }

  lemma RecoversOnce(ref: Ref, capacity: nat, netting: bool, window: nat, hash: Record -> nat)
    requires capacity > 0 && ref.runId != 0 && ref.logicalId != 0 && window > 0
    ensures var cmd, end := CommandOf(ref), W.StateRec(0, ref, 0, Unknown, Cancelled, 0, 10);
            var rec := Recover(capacity, netting, window, hash, StableSort([cmd]));
            && rec.Some? && rec.value.store.live == map[ref := RecoveredOf(ref)]
            && Recover(capacity, netting, window, hash, StableSort([cmd] + [end])) == None
  {
    hide ReadPlain, MarkAll, Recover, Flagged, StableSort, RecoveredOf;
    var cmd, end := CommandOf(ref), W.StateRec(0, ref, 0, Unknown, Cancelled, 0, 10);
    ReadsBoth(ref, capacity, netting);
    SortsAsWritten(cmd, end);
    NotFlagged(hash, window, cmd);
    RecoverReads(capacity, netting, window, hash, [cmd]);
    RecoverReads(capacity, netting, window, hash, [cmd, end]);
  }

  /** An order is sent, and the system crashes. It is recovered, its fate is found out, it is cancelled, and the system
      crashes again: what is on disk then cannot be recovered any more. */
  lemma ResolutionIsRefused(sys1: System, sys2: System, ref: Ref, capacity: nat, netting: bool, window: nat, hash: Record -> nat)
    requires Init(sys1) && ShardFor(sys1, ref).store.capacity > 0 && capacity > 0 && ref.runId != 0 && ref.logicalId != 0
    requires window > 0 && Restarted(sys2, map[ref := RecoveredOf(ref)])
    ensures var reqs1, reqs2 := CreateAndSend(ref), [W.TransitionReq(ref, Cancelled)];
            && WellFormedRun(sys1, reqs1) && WellFormedRun(sys2, reqs2) && JournalableRun(sys2, reqs2, capacity)
            && var file1, file2 := Log(sys1, reqs1), Log(sys2, reqs2);
               var rec := Recover(capacity, netting, window, hash, StableSort(file1));
               && rec.Some? && rec.value.store.live == map[ref := RecoveredOf(ref)]
               && Live(RunSys(sys2, reqs2), ref) == None
               && Recover(capacity, netting, window, hash, StableSort(file1 + file2)) == None
  {
    hide Log, RunSys, WellFormedRun, JournalableRun, Restarted, Recover, StableSort, W.StateRec, CommandOf, RecoveredOf, Live;
    FirstLog(sys1, ref);
    SecondLog(sys2, ref, capacity);
    RecoversOnce(ref, capacity, netting, window, hash);
  }
}
