/** Whole runs of the sharded system: after any run of journalable requests, replaying the log rebuilds
    the live orders of every shard, and only such runs can be replayed at every crash point. */
module JournalRuns {
  import opened ExecTypes
  import S = OmsSpec
  import opened ReportSpec
  import opened Journal
  import W = ShardedOms
  import opened RecoveryStreaming
  import opened JournalRoundTrip
  import opened HeldReports

  // ---- one request on the whole system ----

  lemma SysApplyLive(sys: System, req: W.Request, ref: Ref)
    requires Wf(sys) && W.WellFormed(req)
    ensures Wf(SysApply(sys, req))
    ensures ref != req.ref ==> Live(SysApply(sys, req), ref) == Live(sys, ref)
    ensures Live(SysApply(sys, req), req.ref) == W.Lookup(W.Apply(ShardFor(sys, req.ref), req).0.store.live, req.ref)
  {
    ApplyIsLocal(ShardFor(sys, req.ref), req);
    hide W.Apply;
    var n := |sys.shards|;
    var s := ShardOf(req.ref, n);
    var sys' := SysApply(sys, req);
    forall x <- sys'.shards[s].store.live ensures ShardOf(x, n) == s {
      if x != req.ref { assert x in sys.shards[s].store.live; }
    }
    assert forall t | 0 <= t < n && t != s :: sys'.shards[t] == sys.shards[t];
  }

  lemma SimGivesReady(sys: System, p: Replay, req: W.Request, capacity: nat, ts: nat)
    requires Sim(sys, p, capacity, ts) && W.WellFormed(req)
    ensures Ready(ShardFor(sys, req.ref), p, req, ts)
  {
    assert MirrorsAt(Live(sys, req.ref), p.store.live, req.ref);
    assert Live(sys, req.ref).Some? ==> Live(sys, req.ref).value.ref == req.ref && Sound(Live(sys, req.ref).value);
  }

  /** The image of a live order is all that matters for what the journal relies on. */
  lemma SoundImage(o: Order)
    requires Sound(o) || Sound(Image(o))
    ensures Sound(o) && Sound(Image(o))
  {
  }

  lemma ReportSoundAfter(st: State, ref: Ref, report: ExecReport)
    requires CacheOk(st.cache) && report.ref == ref && ref in st.store.live && ReportKept(st.store, ref, report)
    requires st.store.live[ref].ref == ref && Sound(st.store.live[ref])
    ensures var o := W.Lookup(ApplyOne(st, report).0.store.live, ref);
            o.Some? ==> o.value.ref == ref && Sound(o.value)
  {
    ApplyOneIsLocal(st, report);
    hide ApplyOne;
  }

  lemma DrainSoundAfter(st: State, ref: Ref)
    requires CacheOk(st.cache) && DrainIsSilent(st, ref)
    requires ref in st.store.live ==> st.store.live[ref].ref == ref && Sound(st.store.live[ref])
    ensures var o := W.Lookup(Drain(st, ref).store.live, ref);
            o.Some? ==> o.value.ref == ref && Sound(o.value)
  {
    hide Drain;
    var o := W.Lookup(Drain(st, ref).store.live, ref);
    if o.Some? {
      SoundImage(st.store.live[ref]);
      SoundImage(o.value);
      assert Image(o.value).ref == o.value.ref;
    }
  }

  /** What a kept request leaves behind is sound again. */
  lemma SoundAfter(st: State, p: Replay, req: W.Request, room: bool, ts: nat)
    requires Ready(st, p, req, ts) && Kept(st, req, room)
    ensures var o := W.Lookup(W.Apply(st, req).0.store.live, req.ref);
            o.Some? ==> o.value.ref == req.ref && Sound(o.value)
  {
    if req.ReportReq? {
      hide Drain, ApplyOne, ReportKept, Sound, CascadeKept, DrainIsSilent;
      if req.ref in st.store.live && req.report.seq_ == st.store.live[req.ref].lastSeq + 1 {
        ReportSoundAfter(st, req.ref, req.report);
        var (st1, ok) := ApplyOne(st, req.report);
        if ok {
          CascadeRound(st, req.report);
          DrainSoundAfter(st1, req.ref);
        }
      }
    }
  }

  lemma PutCount(live: map<Ref, Order>, ref: Ref, o: Option<Order>)
    ensures |Put(live, ref, o)| == |live| + (if o.Some? then 1 else 0) - (if ref in live then 1 else 0)
  {
    if o.Some? {
      assert live[ref := Image(o.value)].Keys == live.Keys + {ref};
    } else {
      assert (live - {ref}).Keys == live.Keys - {ref};
    }
  }

  lemma ElsewhereCount(a: map<Ref, Order>, b: map<Ref, Order>, ref: Ref)
    requires Elsewhere(a, b, ref)
    ensures |b| == |a| + (if ref in b then 1 else 0) - (if ref in a then 1 else 0)
  {
    assert a.Keys - {ref} == b.Keys - {ref};
    assert |a.Keys - {ref}| == |a| - (if ref in a then 1 else 0);
    assert |b.Keys - {ref}| == |b| - (if ref in b then 1 else 0);
  }

  lemma WfGives(sys: System, ref: Ref)
    requires Wf(sys)
    ensures |sys.shards| > 0 && CacheOk(ShardFor(sys, ref).cache)
  {
  }

  /** Changing one order on both sides keeps the mirror and the soundness of every order. */
  lemma StepMirrors(sys: System, p: Replay, p': Replay, req: W.Request)
    requires Wf(sys) && W.WellFormed(req) && Mirrors(sys, p) && AllSound(sys)
    requires var o := W.Lookup(W.Apply(ShardFor(sys, req.ref), req).0.store.live, req.ref);
             && p'.store.live == Put(p.store.live, req.ref, o)
             && (o.Some? ==> o.value.ref == req.ref && Sound(o.value))
    ensures Wf(SysApply(sys, req)) && Mirrors(SysApply(sys, req), p') && AllSound(SysApply(sys, req))
  {
    hide W.Apply, SysApply, Live, Sound, Image, Wf;
    WfGives(sys, req.ref);
    SysApplyLive(sys, req, req.ref);
    WfGives(SysApply(sys, req), req.ref);
    var sys' := SysApply(sys, req);
    forall ref ensures MirrorsAt(Live(sys', ref), p'.store.live, ref) {
      SysApplyLive(sys, req, ref);
      assert MirrorsAt(Live(sys, ref), p.store.live, ref);
    }
    forall ref ensures Live(sys', ref).Some? ==> Live(sys', ref).value.ref == ref && Sound(Live(sys', ref).value) {
      SysApplyLive(sys, req, ref);
    }
  }

  lemma StepCount(sys: System, p: Replay, p': Replay, req: W.Request)
    requires Wf(sys) && W.WellFormed(req) && |p.store.live| == LiveCount(sys.shards)
    requires MirrorsAt(Live(sys, req.ref), p.store.live, req.ref)
    requires p'.store.live
          == Put(p.store.live, req.ref, W.Lookup(W.Apply(ShardFor(sys, req.ref), req).0.store.live, req.ref))
    ensures |p'.store.live| == LiveCount(SysApply(sys, req).shards)
  {
    hide W.Apply, Put, Wf;
    WfGives(sys, req.ref);
    var st := ShardFor(sys, req.ref);
    var st' := W.Apply(st, req).0;
    ApplyIsLocal(st, req);
    ElsewhereCount(st.store.live, st'.store.live, req.ref);
    PutCount(p.store.live, req.ref, W.Lookup(st'.store.live, req.ref));
    LiveCountUpdate(sys.shards, ShardOf(req.ref, |sys.shards|), st');
  }

  /** A journalable request keeps the simulation. */
  lemma StepFollows(sys: System, p: Replay, req: W.Request, capacity: nat, ts: nat) returns (p': Replay)
    requires Sim(sys, p, capacity, ts) && W.WellFormed(req) && Journalable(sys, req, capacity)
    ensures ReadPlain(p, SysRecords(sys, req, ts)) == Some(p')
    ensures Sim(SysApply(sys, req), p', capacity, ts + 1)
  {
    hide W.Apply, W.Records, ReadPlain, Kept, Mirrors, AllSound, SysApply, Put, LiveCount, Ready;
    var st := ShardFor(sys, req.ref);
    SimGivesReady(sys, p, req, capacity, ts);
    RequestRound(st, p, req, ts);
    SoundAfter(st, p, req, LiveCount(sys.shards) < capacity, ts);
    p' := ReadPlain(p, SysRecords(sys, req, ts)).value;
    StepMirrors(sys, p, p', req);
    SimMirrorsAt(sys, p, req.ref, capacity, ts);
    StepCount(sys, p, p', req);
  }

  lemma SimMirrorsAt(sys: System, p: Replay, ref: Ref, capacity: nat, ts: nat)
    requires Sim(sys, p, capacity, ts)
    ensures MirrorsAt(Live(sys, ref), p.store.live, ref)
  {
  }

  /** Only a journalable request keeps the reader a mirror of the live orders. */
  lemma StepNeedsJournalable(sys: System, p: Replay, req: W.Request, capacity: nat, ts: nat)
    requires Sim(sys, p, capacity, ts) && W.WellFormed(req)
    requires ReadPlain(p, SysRecords(sys, req, ts)).Some?
    requires Mirrors(SysApply(sys, req), ReadPlain(p, SysRecords(sys, req, ts)).value)
    ensures Journalable(sys, req, capacity)
  {
    SimGivesReady(sys, p, req, capacity, ts);
    RequestRound(ShardFor(sys, req.ref), p, req, ts);
    SysApplyLive(sys, req, req.ref);
    hide W.Apply, W.Records, ReadPlain, Kept;
    assert MirrorsAt(Live(SysApply(sys, req), req.ref), ReadPlain(p, SysRecords(sys, req, ts)).value.store.live, req.ref);
  }

  // ---- runs ----

  ghost predicate Init(sys: System) {
    Wf(sys) && forall s | 0 <= s < |sys.shards| :: sys.shards[s].store.live == map[]
  }

  ghost predicate WellFormedRun(sys: System, reqs: seq<W.Request>) {
    Wf(sys) && forall req <- reqs :: W.WellFormed(req)
  }

  function RunSys(sys: System, reqs: seq<W.Request>): (sys': System)
    requires WellFormedRun(sys, reqs)
    ensures Wf(sys') && |sys'.shards| == |sys.shards|
  {
    if reqs == [] then sys
    else
      var req := reqs[|reqs| - 1];
      var before := RunSys(sys, reqs[..|reqs| - 1]);
      SysApplyLive(before, req, req.ref);
      SysApply(before, req)
  }

  /** Everything written, in the order applied: the k-th request's records carry timestamp k. */
  function Log(sys: System, reqs: seq<W.Request>): seq<Record>
    requires WellFormedRun(sys, reqs)
  {
    if reqs == [] then []
    else
      var before := reqs[..|reqs| - 1];
      Log(sys, before) + SysRecords(RunSys(sys, before), reqs[|reqs| - 1], |before|)
  }

  /** The n-th request of the run is journalable when its turn comes. */
  ghost predicate JournalableAt(sys: System, reqs: seq<W.Request>, n: nat, capacity: nat)
    requires WellFormedRun(sys, reqs) && n < |reqs|
  {
    Journalable(RunSys(sys, reqs[..n]), reqs[n], capacity)
  }

  ghost predicate JournalableRun(sys: System, reqs: seq<W.Request>, capacity: nat)
    requires WellFormedRun(sys, reqs)
  {
    forall n | 0 <= n < |reqs| :: JournalableAt(sys, reqs, n, capacity)
  }

  function Start(capacity: nat, netting: bool): Replay {
    Replay(S.Empty(capacity), FreshLedger(netting))
  }

  lemma {:induction false} EmptyCount(shards: seq<State>)
    requires forall s | 0 <= s < |shards| :: shards[s].store.live == map[]
    ensures LiveCount(shards) == 0
  {
    if shards != [] {
      EmptyCount(shards[..|shards| - 1]);
    }
  }

  lemma StartSim(sys: System, capacity: nat, netting: bool)
    requires Init(sys)
    ensures Sim(sys, Start(capacity, netting), capacity, 0)
  {
    EmptyCount(sys.shards);
  }

  /** What the reader makes of a run's log; the run is replayed when it stands for the live orders. */
  function Replayed(sys: System, reqs: seq<W.Request>, capacity: nat, netting: bool): Option<Replay>
    requires WellFormedRun(sys, reqs)
  {
    ReadPlain(Start(capacity, netting), Log(sys, reqs))
  }

  lemma ReadsUnfold(sys: System, p: Replay, reqs: seq<W.Request>, n: nat)
    requires WellFormedRun(sys, reqs) && n < |reqs| && ReadPlain(p, Log(sys, reqs[..n])).Some?
    ensures var now := RunSys(sys, reqs[..n]);
            var q := ReadPlain(p, Log(sys, reqs[..n])).value;
            && ReadPlain(p, Log(sys, reqs[..n + 1])) == ReadPlain(q, SysRecords(now, reqs[n], n))
            && RunSys(sys, reqs[..n + 1]) == SysApply(now, reqs[n])
  {
    hide ReadPlain, SysRecords, SysApply, Wf;
    var upTo := reqs[..n + 1];
    assert upTo[..n] == reqs[..n] && upTo[n] == reqs[n] && |upTo| == n + 1;
    ReadPlainAppend(p, Log(sys, reqs[..n]), SysRecords(RunSys(sys, reqs[..n]), reqs[n], n));
  }

  /** From any reader that mirrors the system: the log of a journalable run keeps it a mirror. */
  lemma {:induction false} MirrorFollows(sys: System, p: Replay, reqs: seq<W.Request>, n: nat, capacity: nat)
    requires Sim(sys, p, capacity, 0) && WellFormedRun(sys, reqs) && n <= |reqs|
    requires forall k | 0 <= k < n :: JournalableAt(sys, reqs, k, capacity)
    ensures var q := ReadPlain(p, Log(sys, reqs[..n]));
            q.Some? && Sim(RunSys(sys, reqs[..n]), q.value, capacity, n)
  {
    if n > 0 {
      MirrorFollows(sys, p, reqs, n - 1, capacity);
      hide Sim, Journalable, RunSys, Log, Wf, ReadPlain;
      assert JournalableAt(sys, reqs, n - 1, capacity);
      ReadsUnfold(sys, p, reqs, n - 1);
      var q := StepFollows(RunSys(sys, reqs[..n - 1]), ReadPlain(p, Log(sys, reqs[..n - 1])).value, reqs[n - 1], capacity,
                           n - 1);
    }
  }

  lemma ReplayedUnfolds(sys: System, reqs: seq<W.Request>, n: nat, capacity: nat, netting: bool)
    requires WellFormedRun(sys, reqs) && n < |reqs| && Replayed(sys, reqs[..n], capacity, netting).Some?
    ensures var now := RunSys(sys, reqs[..n]);
            var q := Replayed(sys, reqs[..n], capacity, netting).value;
            && Replayed(sys, reqs[..n + 1], capacity, netting) == ReadPlain(q, SysRecords(now, reqs[n], n))
            && RunSys(sys, reqs[..n + 1]) == SysApply(now, reqs[n])
  {
    hide ReadPlain, SysRecords, SysApply, RunSys, Log, Wf;
    ReadsUnfold(sys, Start(capacity, netting), reqs, n);
  }

  lemma RunFollows(sys: System, reqs: seq<W.Request>, n: nat, capacity: nat, netting: bool)
    requires Init(sys) && WellFormedRun(sys, reqs) && n <= |reqs|
    requires forall k | 0 <= k < n :: JournalableAt(sys, reqs, k, capacity)
    ensures var p := Replayed(sys, reqs[..n], capacity, netting);
            p.Some? && Sim(RunSys(sys, reqs[..n]), p.value, capacity, n)
  {
    hide Journalable, RunSys, Log, ReadPlain;
    StartSim(sys, capacity, netting);
    hide Sim, Wf, Init, JournalableAt;
    MirrorFollows(sys, Start(capacity, netting), reqs, n, capacity);
  }

  /** Replaying what was written up to the n-th request mirrors the live orders at that moment. */
  ghost predicate RecoversAt(sys: System, reqs: seq<W.Request>, n: nat, capacity: nat, netting: bool)
    requires WellFormedRun(sys, reqs) && n <= |reqs|
  {
    var p := Replayed(sys, reqs[..n], capacity, netting);
    p.Some? && Mirrors(RunSys(sys, reqs[..n]), p.value)
  }

  lemma RunRecovers(sys: System, reqs: seq<W.Request>, n: nat, capacity: nat, netting: bool)
    requires Init(sys) && WellFormedRun(sys, reqs) && n <= |reqs| && JournalableRun(sys, reqs, capacity)
    ensures RecoversAt(sys, reqs, n, capacity, netting)
  {
    hide Journalable, RunSys, Log, Wf, ReadPlain, Init, Replayed, Mirrors, AllSound, LiveCount;
    RunFollows(sys, reqs, n, capacity, netting);
  }

  /** A crash point at which every earlier request was journalable, but not the last: it cannot be replayed. */
  lemma LastMustBeJournalable(sys: System, reqs: seq<W.Request>, n: nat, capacity: nat, netting: bool)
    requires Init(sys) && WellFormedRun(sys, reqs) && n < |reqs| && RecoversAt(sys, reqs, n + 1, capacity, netting)
    requires forall k | 0 <= k < n :: JournalableAt(sys, reqs, k, capacity)
    ensures JournalableAt(sys, reqs, n, capacity)
  {
    hide Sim, Journalable, RunSys, Log, Wf, ReadPlain, Init, Replayed, Mirrors;
    RunFollows(sys, reqs, n, capacity, netting);
    ReplayedUnfolds(sys, reqs, n, capacity, netting);
    StepNeedsJournalable(RunSys(sys, reqs[..n]), Replayed(sys, reqs[..n], capacity, netting).value, reqs[n], capacity, n);
  }

  lemma {:induction false} AllJournalable(sys: System, reqs: seq<W.Request>, n: nat, capacity: nat, netting: bool)
    requires Init(sys) && WellFormedRun(sys, reqs) && n <= |reqs|
    requires forall k | 0 <= k <= |reqs| :: RecoversAt(sys, reqs, k, capacity, netting)
    ensures forall k | 0 <= k < n :: JournalableAt(sys, reqs, k, capacity)
  {
    hide JournalableAt, RecoversAt, Init, WellFormedRun;
    if n > 0 {
      AllJournalable(sys, reqs, n - 1, capacity, netting);
      assert RecoversAt(sys, reqs, n - 1 + 1, capacity, netting);
      LastMustBeJournalable(sys, reqs, n - 1, capacity, netting);
    }
  }

  /** A crash after any request can be replayed, exactly when every request of the run is journalable. */
  lemma RecoversAtEveryCrashPoint(sys: System, reqs: seq<W.Request>, capacity: nat, netting: bool)
    requires Init(sys) && WellFormedRun(sys, reqs)
    ensures (forall n | 0 <= n <= |reqs| :: RecoversAt(sys, reqs, n, capacity, netting))
            <==> JournalableRun(sys, reqs, capacity)
  {
    hide JournalableAt, RecoversAt, Init, WellFormedRun;
    if JournalableRun(sys, reqs, capacity) {
      forall n | 0 <= n <= |reqs| ensures RecoversAt(sys, reqs, n, capacity, netting) {
        RunRecovers(sys, reqs, n, capacity, netting);
      }
    }
    if forall n | 0 <= n <= |reqs| :: RecoversAt(sys, reqs, n, capacity, netting) {
      AllJournalable(sys, reqs, |reqs|, capacity, netting);
    }
  }
}
