/** A crash that catches the recorder in the middle: of every shard's stream some prefix is durable, each shard cut at a
    point of its own. Recovery still accepts the file, and every order comes back as of its own shard's prefix. */
module TornCrash {
  import opened ExecTypes
  import S = OmsSpec
  import opened ReportSpec
  import opened Journal
  import W = ShardedOms
  import opened RecoveryStreaming
  import opened JournalRoundTrip
  import opened HeldReports
  import opened JournalRuns
  import opened WindowedReplay
  import opened WalMerge
  import opened CrashRecovery
  import opened Words

  /** How many records of each shard are durable. */
  type Cuts = nat -> nat

  function ShardOfRecord(r: Record, shards: nat): nat
    requires shards > 0
  {
    ShardOf(RefOf(r), shards)
  }

  /** `file` holds a prefix of each shard's stream, in any interleaving. */
  ghost predicate KeepsPrefixes(file: seq<Record>, log: seq<Record>, shards: nat)
    requires shards > 0
  {
    forall s | 0 <= s < shards :: Stream(file, s, shards) <= Stream(log, s, shards)
  }

  /** The last record of `log` is among the durable ones of its shard. */
  predicate Durable(log: seq<Record>, cuts: Cuts, shards: nat)
    requires shards > 0 && log != []
  {
    var s := ShardOfRecord(log[|log| - 1], shards);
    |Stream(log[..|log| - 1], s, shards)| < cuts(s)
  }

  /** The durable records in the order of the log. */
  function Survivors(log: seq<Record>, cuts: Cuts, shards: nat): seq<Record>
    requires shards > 0
  {
    if log == [] then []
    else Survivors(log[..|log| - 1], cuts, shards) + if Durable(log, cuts, shards) then [log[|log| - 1]] else []
  }

  lemma {:induction false} SurvivorsByShard(log: seq<Record>, cuts: Cuts, shards: nat, s: nat)
    requires shards > 0
    ensures var stream := Stream(log, s, shards);
            Stream(Survivors(log, cuts, shards), s, shards) == stream[..Min(cuts(s), |stream|)]
  {
    if log != [] {
      var front, last := log[..|log| - 1], log[|log| - 1];
      SurvivorsByShard(front, cuts, shards, s);
      var kept := Survivors(front, cuts, shards);
      FilterAppend(InShard(s, shards), kept, [last]);
      assert [last][..0] == [] && kept + [] == kept;
      var stream := Stream(front, s, shards);
      if ShardOfRecord(last, shards) == s {
        assert Stream(log, s, shards) == stream + [last];
      } else {
        assert Stream(log, s, shards) == stream + [] == stream;
      }
    }
  }

  lemma {:induction false} SurvivorsAreLogged(log: seq<Record>, cuts: Cuts, shards: nat, r: Record)
    requires shards > 0 && r in Survivors(log, cuts, shards)
    ensures r in log
  {
    if r in Survivors(log[..|log| - 1], cuts, shards) { SurvivorsAreLogged(log[..|log| - 1], cuts, shards, r); }
  }

  lemma {:induction false} SurvivorsStayOrdered(log: seq<Record>, cuts: Cuts, shards: nat)
    requires shards > 0 && Sorted(log) && Distinct(log)
    ensures Sorted(Survivors(log, cuts, shards)) && Distinct(Survivors(log, cuts, shards))
  {
    if log != [] {
      var front := log[..|log| - 1];
      SurvivorsStayOrdered(front, cuts, shards);
      var kept := Survivors(front, cuts, shards);
      forall i | 0 <= i < |kept| ensures kept[i].ts <= log[|log| - 1].ts && kept[i] != log[|log| - 1] {
        SurvivorsAreLogged(front, cuts, shards, kept[i]);
        var k :| 0 <= k < |front| && front[k] == kept[i];
        assert log[k] == kept[i];
      }
      hide Durable;
    }
  }

  // ---- the reader minds one order at a time ----

  function At(p: Replay, ref: Ref): Option<Order> { W.Lookup(p.store.live, ref) }

  predicate OrderKind(kind: nat) {
    kind == COMMAND || kind == ACKNOWLEDGEMENT || kind == REJECTION || kind == FILL || kind == CANCEL || kind == REPLACE
    || kind == ORDER_STATE
  }

  /** What a record does to its own order; None when it does not fit. */
  function OrderStep(o: Option<Order>, r: Record): Option<Option<Order>> {
    if r.kind == COMMAND then
      if o.Some? || r.runId == 0 || r.logicalId == 0 || r.ticket != 0 || r.a < 0 || r.a > 1 || r.b <= 0 || r.c < 0 ||
         r.d < 0 || r.d > 1 then None
      else Some(Some(Order(RefOf(r), r.symbol, r.b, 0, r.c, Sent, 0)))
    else if r.kind == ORDER_STATE then
      if StateOfCode(r.a).None? || StateOfCode(r.b).None? || r.ticket != 0 || r.c < 0 || r.d < 0 then None
      else
        var from, to := StateOfCode(r.a).value, StateOfCode(r.b).value;
        if o.None? then if from.PendingSend? && to.Sent? then Some(o) else None
        else if o.value.state != from || o.value.filled != r.c || o.value.requested != r.d || !Legal(from, to) then None
        else if IsTerminal(to) then Some(None)
        else Some(Some(o.value.(state := to)))
    else if r.kind == ACKNOWLEDGEMENT then
      if o.Some? && o.value.state.Acknowledged? && r.a >= 0 && r.ticket == 0 then Some(o) else None
    else if r.kind == REJECTION then
      if r.a > 0 && (r.logicalId == 0 || (o.Some? && o.value.state.Sent?)) then Some(o) else None
    else if r.kind == CANCEL then
      if o.Some? && o.value.state.CancelPending? && r.a >= 0 && r.ticket == 0 then Some(o) else None
    else if r.kind == FILL then
      if o.Some? && r.ticket != 0 && r.a > 0 && 0 < r.b <= o.value.Remaining() && r.c >= 0 && (r.d == 0 || r.d == 1)
      then Some(Some(o.value.(filled := o.value.filled + r.b)))
      else None
    else if o.Some? && o.value.state.Acknowledged? && r.a > 0 && r.b > 0 && r.c > 0 && r.d > 0 && r.d >= o.value.filled
            && r.a == o.value.limitPrice && r.c == o.value.requested
    then Some(Some(o.value.(limitPrice := r.b, requested := r.d)))
    else None
  }

  function Written(live: map<Ref, Order>, ref: Ref, o: Option<Order>): map<Ref, Order> {
    if o.Some? then live[ref := o.value] else live - {ref}
  }

  lemma WrittenSame(live: map<Ref, Order>, ref: Ref)
    ensures Written(live, ref, W.Lookup(live, ref)) == live
  {
  }

  lemma WrittenSize(live: map<Ref, Order>, ref: Ref, o: Option<Order>)
    ensures |Written(live, ref, o)| <= |live| + (if ref !in live && o.Some? then 1 else 0)
    ensures forall x :: W.Lookup(Written(live, ref, o), x) == if x == ref then o else W.Lookup(live, x)
  {
    if o.Some? {
      assert live[ref := o.value].Keys == live.Keys + {ref};
    } else {
      assert (live - {ref}).Keys == live.Keys - {ref};
    }
  }

  lemma StateStep(s: S.Store, r: Record)
    requires r.kind == ORDER_STATE
    ensures var out, o := ApplyState(s, r), OrderStep(W.Lookup(s.live, RefOf(r)), r);
            && (out.ok <==> o.Some?) && out.store.capacity == s.capacity
            && (out.ok ==> out.store.live == Written(s.live, RefOf(r), o.value))
  {
    WrittenSame(s.live, RefOf(r));
  }

  lemma CommandStep(s: S.Store, r: Record)
    requires r.kind == COMMAND
    ensures var out, o := ApplyCommand(s, r), OrderStep(W.Lookup(s.live, RefOf(r)), r);
            && (out.ok <==> o.Some? && |s.live| < s.capacity) && out.store.capacity == s.capacity
            && (out.ok ==> out.store.live == Written(s.live, RefOf(r), o.value))
  {
  }

  /** The reader minds one order at a time: what a record does depends on its own order only, and on room for a new one. */
  lemma StepIsLocal(s: S.Store, r: Record)
    requires OrderKind(r.kind)
    ensures var out, o := StoreStep(s, r), OrderStep(W.Lookup(s.live, RefOf(r)), r);
            && (out.ok <==> o.Some? && (r.kind == COMMAND ==> |s.live| < s.capacity)) && out.store.capacity == s.capacity
            && (out.ok ==> out.store.live == Written(s.live, RefOf(r), o.value))
  {
    if r.kind == ORDER_STATE {
      StateStep(s, r);
    } else if r.kind == COMMAND {
      CommandStep(s, r);
    } else {
      WrittenSame(s.live, RefOf(r));
    }
    hide ApplyState, ApplyCommand, StateOfCode;
  }

  predicate SameFlags(p: Replay, q: Replay) {
    p.ledger.haveAccount == q.ledger.haveAccount && p.ledger.havePnl == q.ledger.havePnl
  }

  lemma ReadIsLocal(p: Replay, r: Record)
    requires OrderKind(r.kind)
    ensures var p', o := ReadStep(p, r), OrderStep(At(p, RefOf(r)), r);
            && (p'.Some? <==> HeaderOk(p.ledger, r) && o.Some? && (r.kind == COMMAND ==> |p.store.live| < p.store.capacity))
            && (p'.Some? ==>
                  && p'.value.store.live == Written(p.store.live, RefOf(r), o.value)
                  && p'.value.store.capacity == p.store.capacity && p'.value.ledger.lastTs == r.ts
                  && SameFlags(p, p'.value))
  {
    StepIsLocal(p.store, r);
    hide StoreStep, OrderStep, Written;
  }

  /** Only a command brings in an order. */
  lemma OnlyCommandsAdd(o: Option<Order>, r: Record)
    requires OrderKind(r.kind) && OrderStep(o, r).Some? && o.None? && OrderStep(o, r).value.Some?
    ensures r.kind == COMMAND
  {
  }

  /** Two readers that agree on an order agree on it after the next record about it. */
  lemma ReadAlike(p: Replay, q: Replay, r: Record)
    requires OrderKind(r.kind) && ReadStep(p, r).Some? && At(p, RefOf(r)) == At(q, RefOf(r))
    requires q.ledger.lastTs <= p.ledger.lastTs && (r.kind == COMMAND ==> |q.store.live| < q.store.capacity)
    ensures ReadStep(q, r).Some? && At(ReadStep(p, r).value, RefOf(r)) == At(ReadStep(q, r).value, RefOf(r))
  {
    hide ReadStep, OrderStep, Written;
    ReadIsLocal(p, r);
    ReadIsLocal(q, r);
    var o := OrderStep(At(p, RefOf(r)), r).value;
    WrittenSize(p.store.live, RefOf(r), o);
    WrittenSize(q.store.live, RefOf(r), o);
  }

  /** It touches no other order, and only a command adds one. */
  lemma ReadTouchesOne(p: Replay, r: Record)
    requires OrderKind(r.kind) && ReadStep(p, r).Some?
    ensures var p' := ReadStep(p, r).value;
            && (forall ref | ref != RefOf(r) :: At(p', ref) == At(p, ref))
            && p'.store.capacity == p.store.capacity && p'.ledger.lastTs == r.ts >= p.ledger.lastTs && SameFlags(p, p')
            && |p'.store.live| <= |p.store.live| + (if r.kind == COMMAND then 1 else 0)
  {
    hide ReadStep, OrderStep, Written;
    ReadIsLocal(p, r);
    var before := At(p, RefOf(r));
    var o := OrderStep(before, r).value;
    WrittenSize(p.store.live, RefOf(r), o);
    if before.None? && o.Some? { OnlyCommandsAdd(before, r); }
  }

  function Commands(log: seq<Record>): nat {
    if log == [] then 0 else Commands(log[..|log| - 1]) + if log[|log| - 1].kind == COMMAND then 1 else 0
  }

  /** Where a shard's first record among `log[..j]` was lost, or `j`. */
  function LostFrom(log: seq<Record>, cuts: Cuts, shards: nat, s: nat, j: nat): (c: nat)
    requires shards > 0 && j <= |log|
    ensures c <= j
  {
    if j == 0 then 0
    else
      var c := LostFrom(log, cuts, shards, s, j - 1);
      if c < j - 1 then c
      else if ShardOfRecord(log[j - 1], shards) == s && !Durable(log[..j], cuts, shards) then j - 1
      else j
  }

  /** What was read when the shard of `ref` lost its first record. */
  ghost predicate Tracks(q: Replay, p0: Replay, log: seq<Record>, cuts: Cuts, shards: nat, j: nat, ref: Ref)
    requires shards > 0 && j <= |log|
  {
    var c := LostFrom(log, cuts, shards, ShardOf(ref, shards), j);
    ReadPlain(p0, log[..c]).Some? && At(q, ref) == At(ReadPlain(p0, log[..c]).value, ref)
  }

  /** The state of reading the survivors of the first `j` records. */
  ghost predicate Following(q: Option<Replay>, p0: Replay, log: seq<Record>, cuts: Cuts, shards: nat, j: nat)
    requires shards > 0 && j <= |log|
  {
    && q.Some? && ReadPlain(p0, log[..j]).Some?
    && q.value.ledger.lastTs <= ReadPlain(p0, log[..j]).value.ledger.lastTs && SameFlags(p0, q.value)
    && q.value.store.capacity == p0.store.capacity && |q.value.store.live| <= |p0.store.live| + Commands(log[..j])
    && forall ref :: Tracks(q.value, p0, log, cuts, shards, j, ref)
  }

  lemma ReadNext(p0: Replay, log: seq<Record>, j: nat)
    requires j < |log|
    ensures ReadPlain(p0, log[..j + 1])
         == match ReadPlain(p0, log[..j]) case None => None case Some(p) => ReadStep(p, log[j])
  {
    assert log[..j + 1] == log[..j] + [log[j]];
    ReadPlainAppend(p0, log[..j], [log[j]]);
    if ReadPlain(p0, log[..j]).Some? { ReadOne(ReadPlain(p0, log[..j]).value, log[j]); }
  }

  /** A shard that has lost a record keeps none after it. */
  lemma {:induction false} LostStaysLost(log: seq<Record>, cuts: Cuts, shards: nat, s: nat, j: nat)
    requires shards > 0 && j <= |log|
    ensures LostFrom(log, cuts, shards, s, j) < j ==> |Stream(log[..j], s, shards)| >= cuts(s)
  {
    if j > 0 {
      LostStaysLost(log, cuts, shards, s, j - 1);
      assert log[..j][..j - 1] == log[..j - 1];
      FilterGrows(InShard(s, shards), log[..j]);
    }
  }

  lemma FilterGrows(keep: Record -> bool, log: seq<Record>)
    requires log != []
    ensures |Filter(keep, log)| >= |Filter(keep, log[..|log| - 1])|
  {
  }

  lemma SurvivorsNext(log: seq<Record>, cuts: Cuts, shards: nat, j: nat)
    requires shards > 0 && j < |log|
    ensures Survivors(log[..j + 1], cuts, shards)
         == Survivors(log[..j], cuts, shards) + if Durable(log[..j + 1], cuts, shards) then [log[j]] else []
    ensures Commands(log[..j + 1]) == Commands(log[..j]) + if log[j].kind == COMMAND then 1 else 0
    ensures var s := ShardOfRecord(log[j], shards);
            Durable(log[..j + 1], cuts, shards) ==> LostFrom(log, cuts, shards, s, j) == j
  {
    assert log[..j + 1][..j] == log[..j];
    LostStaysLost(log, cuts, shards, ShardOfRecord(log[j], shards), j);
  }

  /** One record more, lost: the full reader goes on, the survivors' stays. */
  lemma LostKeeps(q: Replay, p0: Replay, log: seq<Record>, cuts: Cuts, shards: nat, j: nat)
    requires shards > 0 && j < |log| && Following(Some(q), p0, log, cuts, shards, j)
    requires OrderKind(log[j].kind) && !Durable(log[..j + 1], cuts, shards) && ReadPlain(p0, log[..j + 1]).Some?
    ensures Following(Some(q), p0, log, cuts, shards, j + 1)
  {
    hide ReadPlain, ReadStep, Survivors, Durable;
    ReadNext(p0, log, j);
    SurvivorsNext(log, cuts, shards, j);
    var p := ReadPlain(p0, log[..j]).value;
    ReadTouchesOne(p, log[j]);
    var next := j + 1;
    forall ref ensures Tracks(q, p0, log, cuts, shards, next, ref) {
      assert Tracks(q, p0, log, cuts, shards, j, ref);
      LostNext(log, cuts, shards, ShardOf(ref, shards), j);
    }
  }

  lemma LostNext(log: seq<Record>, cuts: Cuts, shards: nat, s: nat, j: nat)
    requires shards > 0 && j < |log|
    ensures var c := LostFrom(log, cuts, shards, s, j);
            LostFrom(log, cuts, shards, s, j + 1)
            == if c < j || (ShardOfRecord(log[j], shards) == s && !Durable(log[..j + 1], cuts, shards)) then c else j + 1
  {
  }

  /** One record more, durable: both readers go on, and agree on its order. */
  lemma KeptKeeps(q: Replay, p0: Replay, log: seq<Record>, cuts: Cuts, shards: nat, j: nat)
    requires shards > 0 && j < |log| && Following(Some(q), p0, log, cuts, shards, j)
    requires OrderKind(log[j].kind) && Durable(log[..j + 1], cuts, shards) && ReadPlain(p0, log[..j + 1]).Some?
    requires log[j].kind == COMMAND ==> |p0.store.live| + Commands(log[..j]) < p0.store.capacity
    ensures Following(ReadStep(q, log[j]), p0, log, cuts, shards, j + 1)
  {
    hide ReadPlain, ReadStep, Survivors, Durable, At;
    var r := log[j];
    ReadNext(p0, log, j);
    SurvivorsNext(log, cuts, shards, j);
    var p := ReadPlain(p0, log[..j]).value;
    assert Tracks(q, p0, log, cuts, shards, j, RefOf(r));
    ReadAlike(p, q, r);
    ReadTouchesOne(p, r);
    ReadTouchesOne(q, r);
    var q' := ReadStep(q, r).value;
    var next := j + 1;
    forall ref ensures Tracks(q', p0, log, cuts, shards, next, ref) {
      assert Tracks(q, p0, log, cuts, shards, j, ref);
      LostNext(log, cuts, shards, ShardOf(ref, shards), j);
    }
  }

  /** The survivors are accepted, and every order is read as the whole log stood when its shard lost its first record. */
  lemma {:induction false} SurvivorsFollow(p0: Replay, log: seq<Record>, cuts: Cuts, shards: nat, j: nat)
    requires shards > 0 && j <= |log| && ReadPlain(p0, log).Some?
    requires forall r <- log :: OrderKind(r.kind)
    requires |p0.store.live| + Commands(log) <= p0.store.capacity
    ensures Following(ReadPlain(p0, Survivors(log[..j], cuts, shards)), p0, log, cuts, shards, j)
  {
    PrefixIsRead(p0, log, j);
    if j == 0 {
      assert log[..0] == [];
    } else {
      SurvivorsFollow(p0, log, cuts, shards, j - 1);
      CommandsGrow(log, j - 1);
      PrefixIsRead(p0, log, j - 1);
      hide Following, ReadStep;
      var kept := Survivors(log[..j - 1], cuts, shards);
      var q := ReadPlain(p0, kept);
      FollowingReads(q, p0, log, cuts, shards, j - 1);
      SurvivorsNext(log, cuts, shards, j - 1);
      assert log[j - 1] in log;
      if Durable(log[..j], cuts, shards) {
        ReadPlainAppend(p0, kept, [log[j - 1]]);
        ReadOne(q.value, log[j - 1]);
        KeptKeeps(q.value, p0, log, cuts, shards, j - 1);
      } else {
        assert kept + [] == kept;
        LostKeeps(q.value, p0, log, cuts, shards, j - 1);
      }
    }
  }

  lemma FollowingReads(q: Option<Replay>, p0: Replay, log: seq<Record>, cuts: Cuts, shards: nat, j: nat)
    requires shards > 0 && j <= |log| && Following(q, p0, log, cuts, shards, j)
    ensures q.Some?
  {
  }

  lemma PrefixIsRead(p0: Replay, log: seq<Record>, j: nat)
    requires j <= |log| && ReadPlain(p0, log).Some?
    ensures ReadPlain(p0, log[..j]).Some?
  {
    assert log == log[..j] + log[j..];
    ReadPlainAppend(p0, log[..j], log[j..]);
  }

  lemma {:induction false} CommandsGrow(log: seq<Record>, j: nat)
    requires j < |log|
    ensures Commands(log[..j]) + (if log[j].kind == COMMAND then 1 else 0) <= Commands(log)
    decreases |log|
  {
    var front := log[..|log| - 1];
    if j < |front| {
      CommandsGrow(front, j);
      assert front[..j] == log[..j];
    } else {
      assert log[..j] == front;
    }
  }

  // ---- what the whole log stood for at a cut ----

  lemma RecordsAreAboutOrders(st: State, req: W.Request, ts: nat)
    requires CacheOk(st.cache)
    ensures forall r <- W.Records(st, req, ts) :: OrderKind(r.kind)
  {
    hide W.Apply;
  }

  /** The first of two records of a request: a fill's volume, a confirmation, or the step to acknowledged. */
  predicate LeadsIn(r: Record) {
    r.kind == FILL || r.kind == CANCEL || r.kind == REJECTION
    || (r.kind == ORDER_STATE && r.b == StateCode(Acknowledged))
  }

  lemma FirstOfTwo(st: State, req: W.Request, ts: nat)
    requires CacheOk(st.cache) && |W.Records(st, req, ts)| == 2
    ensures LeadsIn(W.Records(st, req, ts)[0])
  {
    hide W.Apply;
  }

  lemma {:induction false} LogIsAboutOrders(sys: System, reqs: seq<W.Request>)
    requires WellFormedRun(sys, reqs)
    ensures forall r <- Log(sys, reqs) :: OrderKind(r.kind)
  {
    if reqs != [] {
      hide W.Records, Wf;
      var last := |reqs| - 1;
      PrefixIsWellFormed(sys, reqs, last);
      LogIsAboutOrders(sys, reqs[..last]);
      var now := RunSys(sys, reqs[..last]);
      WfGives(now, reqs[last].ref);
      RecordsAreAboutOrders(ShardFor(now, reqs[last].ref), reqs[last], last);
    }
  }

  /** `recs` stand in the log after `before`, and hold the place `c`. */
  predicate Placed(log: seq<Record>, before: seq<Record>, recs: seq<Record>, c: nat) {
    && |before| <= c < |before| + |recs| <= |log| && |recs| <= 2
    && log[..|before|] == before && log[|before|..|before| + |recs|] == recs
  }

  /** The place of the records of the `n`-th request. */
  ghost predicate WrittenAt(sys: System, reqs: seq<W.Request>, n: nat, c: nat)
    requires WellFormedRun(sys, reqs)
  {
    n < |reqs| && Placed(Log(sys, reqs), Log(sys, reqs[..n]), SysRecords(RunSys(sys, reqs[..n]), reqs[n], n), c)
  }

  lemma PlacedLast(before: seq<Record>, recs: seq<Record>, ref: Ref, ts: nat, c: nat)
    requires FromRequest(recs, ref, ts) && |before| <= c < |before + recs|
    ensures Placed(before + recs, before, recs, c) && (before + recs)[c].ts == ts
  {
    assert (before + recs)[c] == recs[c - |before|] && recs[c - |before|] in recs;
  }

  lemma PlacedEarlier(log: seq<Record>, more: seq<Record>, before: seq<Record>, recs: seq<Record>, c: nat)
    requires Placed(log, before, recs, c)
    ensures Placed(log + more, before, recs, c) && (log + more)[c] == log[c]
  {
  }

  lemma WrittenBefore(sys: System, reqs: seq<W.Request>, n: nat, c: nat)
    requires WellFormedRun(sys, reqs) && reqs != [] && WrittenAt(sys, reqs[..|reqs| - 1], n, c)
    ensures Log(sys, reqs)[c] == Log(sys, reqs[..|reqs| - 1])[c] && WrittenAt(sys, reqs, n, c)
  {
    hide RunSys, SysRecords, Log, Placed, FromRequest, Wf;
    LogUnfolds(sys, reqs);
    var last := |reqs| - 1;
    var front := reqs[..last];
    assert front[..n] == reqs[..n] && front[n] == reqs[n];
    PlacedEarlier(Log(sys, front), SysRecords(RunSys(sys, front), reqs[last], last), Log(sys, reqs[..n]),
                  SysRecords(RunSys(sys, reqs[..n]), reqs[n], n), c);
  }

  lemma {:induction false} EveryRecordHasItsRequest(sys: System, reqs: seq<W.Request>, c: nat)
    requires WellFormedRun(sys, reqs) && c < |Log(sys, reqs)|
    ensures WrittenAt(sys, reqs, Log(sys, reqs)[c].ts, c)
  {
    hide RunSys, SysRecords, Placed, FromRequest, Wf;
    assert reqs != [];
    hide Log;
    LogUnfolds(sys, reqs);
    var last := |reqs| - 1;
    var before := Log(sys, reqs[..last]);
    if c >= |before| {
      PlacedLast(before, SysRecords(RunSys(sys, reqs[..last]), reqs[last], last), reqs[last].ref, last, c);
    } else {
      EveryRecordHasItsRequest(sys, reqs[..last], c);
      WrittenBefore(sys, reqs, before[c].ts, c);
    }
  }

  /** The live order after the requests whose records come before `c`; when the crash left a fill's volume and took the
      state it led to, that volume is added. */
  ghost function AsOf(sys: System, reqs: seq<W.Request>, c: nat, ref: Ref): Option<Order>
    requires WellFormedRun(sys, reqs) && c <= |Log(sys, reqs)|
  {
    LogIsOrdered(sys, reqs);
    var log := Log(sys, reqs);
    assert c < |log| ==> Stamped(log[c], reqs);
    var n := if c < |log| then log[c].ts else |reqs|;
    PrefixIsWellFormed(sys, reqs, n);
    var o := Live(RunSys(sys, reqs[..n]), ref);
    if o.Some? && 0 < c < |log| && log[c - 1].ts == n && log[c - 1].kind == FILL && RefOf(log[c - 1]) == ref
    then Some(o.value.(filled := o.value.filled + log[c - 1].b))
    else o
  }

  lemma RecoveredUntouched(p: Replay, q: Replay, o: Option<Order>, ref: Ref)
    requires MirrorsAt(o, p.store.live, ref) && (o.Some? ==> Sound(o.value)) && At(q, ref) == At(p, ref)
    ensures RecoveredAs(o, MarkAll(q.store.live), ref)
  {
    MarkedImage(o, p.store.live, ref);
    hide Sound;
  }

  /** The first of two records changes at most the state, which recovery forgets, or adds a fill's volume. */
  lemma RecoveredTorn(p: Replay, r: Record, o: Option<Order>)
    requires MirrorsAt(o, p.store.live, RefOf(r)) && (o.Some? ==> Sound(o.value))
    requires OrderKind(r.kind) && LeadsIn(r) && ReadStep(p, r).Some?
    ensures var o' := if o.Some? && r.kind == FILL then Some(o.value.(filled := o.value.filled + r.b)) else o;
            RecoveredAs(o', MarkAll(ReadStep(p, r).value.store.live), RefOf(r))
  {
    ReadIsLocal(p, r);
    WrittenSize(p.store.live, RefOf(r), OrderStep(At(p, RefOf(r)), r).value);
    TornStep(o, r);
    hide ReadStep, OrderStep, Written, LeadsIn;
  }

  lemma TornStep(o: Option<Order>, r: Record)
    requires OrderKind(r.kind) && LeadsIn(r) && (o.Some? ==> Sound(o.value))
    ensures var image := if o.Some? then Some(Image(o.value)) else None;
            OrderStep(image, r).Some? ==>
              if o.None? then OrderStep(image, r).value.None?
              else
                && OrderStep(image, r).value.Some?
                && var after := OrderStep(image, r).value.value;
                   && after == Image(o.value).(filled := after.filled, state := after.state) && ReservesExposure(after.state)
                   && after.filled == o.value.filled + if r.kind == FILL then r.b else 0
  {
  }

  /** Before any record of the request: the live orders as they were. */
  lemma CutBetween(sys: System, reqs: seq<W.Request>, n: nat, c: nat, capacity: nat, netting: bool, ref: Ref)
    requires Init(sys) && WellFormedRun(sys, reqs) && JournalableRun(sys, reqs, capacity) && WrittenAt(sys, reqs, n, c)
    requires c == |Log(sys, reqs[..n])| && Log(sys, reqs)[c].ts == n
    ensures var q := ReadPlain(Start(capacity, netting), Log(sys, reqs)[..c]);
            q.Some? && RecoveredAs(AsOf(sys, reqs, c, ref), MarkAll(q.value.store.live), ref)
  {
    hide JournalableAt, RunSys, Log, Init, Start, SysRecords, RecoveredAs, Ordered;
    RunFollows(sys, reqs, n, capacity, netting);
    hide ReadPlain;
    PrefixIsWellFormed(sys, reqs, n);
    var q := ReadPlain(Start(capacity, netting), Log(sys, reqs)[..c]).value;
    SimAt(RunSys(sys, reqs[..n]), q, ref, capacity, n);
    LogIsOrdered(sys, reqs[..n]);
    if c > 0 {
      StampedAt(Log(sys, reqs[..n]), reqs[..n], c - 1);
      assert Log(sys, reqs)[c - 1] == Log(sys, reqs[..n])[c - 1];
    }
    RecoveredUntouched(q, q, Live(RunSys(sys, reqs[..n]), ref), ref);
  }

  /** The first of two records carries the request's number. */
  lemma FirstOfRequest(sys: System, reqs: seq<W.Request>, n: nat, c: nat)
    requires WellFormedRun(sys, reqs) && WrittenAt(sys, reqs, n, c) && c == |Log(sys, reqs[..n])| + 1
    ensures var r := Log(sys, reqs)[c - 1];
            r.ts == n && OrderKind(r.kind) && LeadsIn(r)
  {
    hide RunSys, Log, W.Records, LeadsIn, OrderKind, W.Apply;
    var now := RunSys(sys, reqs[..n]);
    WfGives(now, reqs[n].ref);
    var st := ShardFor(now, reqs[n].ref);
    var recs := SysRecords(now, reqs[n], n);
    assert |recs| == 2 && Log(sys, reqs)[c - 1] == recs[0] && recs[0] in recs;
    RecordsAreFromRequest(st, reqs[n], n);
    FirstOfTwo(st, reqs[n], n);
    RecordsAreAboutOrders(st, reqs[n], n);
  }

  /** Between the two records of a request. */
  lemma CutThrough(sys: System, reqs: seq<W.Request>, n: nat, c: nat, capacity: nat, netting: bool, ref: Ref)
    requires Init(sys) && WellFormedRun(sys, reqs) && JournalableRun(sys, reqs, capacity) && WrittenAt(sys, reqs, n, c)
    requires c == |Log(sys, reqs[..n])| + 1 && Log(sys, reqs)[c].ts == n
    ensures var q := ReadPlain(Start(capacity, netting), Log(sys, reqs)[..c]);
            q.Some? && RecoveredAs(AsOf(sys, reqs, c, ref), MarkAll(q.value.store.live), ref)
  {
    hide JournalableAt, RunSys, Log, Init, Start, RecoveredAs, SysRecords, LeadsIn, OrderKind, Ordered, ReadPlain;
    FirstOfRequest(sys, reqs, n, c);
    PrefixIsWellFormed(sys, reqs, n);
    TornIsRead(sys, reqs, n, c, capacity, netting);
    var log, now := Log(sys, reqs), RunSys(sys, reqs[..n]);
    var p := ReadPlain(Start(capacity, netting), log[..c - 1]).value;
    SimAt(now, p, ref, capacity, n);
    CutOrder(p, log[c - 1], Live(now, ref), ref);
  }

  /** Reading on by the first record of a request from the state before it. */
  lemma TornIsRead(sys: System, reqs: seq<W.Request>, n: nat, c: nat, capacity: nat, netting: bool)
    requires Init(sys) && WellFormedRun(sys, reqs) && JournalableRun(sys, reqs, capacity) && WrittenAt(sys, reqs, n, c)
    requires c == |Log(sys, reqs[..n])| + 1
    ensures var log, p0 := Log(sys, reqs), Start(capacity, netting);
            var p := ReadPlain(p0, log[..c - 1]);
            && p.Some? && Sim(RunSys(sys, reqs[..n]), p.value, capacity, n)
            && ReadStep(p.value, log[c - 1]).Some? && ReadPlain(p0, log[..c]) == ReadStep(p.value, log[c - 1])
  {
    hide JournalableAt, RunSys, Log, Init, Start, SysRecords, Sim, WellFormedRun;
    RunFollows(sys, reqs, n, capacity, netting);
    RunFollows(sys, reqs, |reqs|, capacity, netting);
    hide ReadPlain, ReadStep;
    assert reqs[..|reqs|] == reqs;
    PrefixIsRead(Start(capacity, netting), Log(sys, reqs), c);
    ReadNext(Start(capacity, netting), Log(sys, reqs), c - 1);
  }

  lemma CutOrder(p: Replay, r: Record, o: Option<Order>, ref: Ref)
    requires MirrorsAt(o, p.store.live, ref) && (o.Some? ==> Sound(o.value))
    requires OrderKind(r.kind) && LeadsIn(r) && ReadStep(p, r).Some?
    ensures var o' := if o.Some? && r.kind == FILL && RefOf(r) == ref then Some(o.value.(filled := o.value.filled + r.b)) else o;
            RecoveredAs(o', MarkAll(ReadStep(p, r).value.store.live), ref)
  {
    hide ReadStep, MirrorsAt, RecoveredAs, Sound;
    if RefOf(r) == ref {
      RecoveredTorn(p, r, o);
    } else {
      ReadTouchesOne(p, r);
      RecoveredUntouched(p, ReadStep(p, r).value, o, ref);
    }
  }

  /** Reading the log up to a cut and marking what is live gives every order as of the cut. */
  lemma CutRecovers(sys: System, reqs: seq<W.Request>, c: nat, capacity: nat, netting: bool, ref: Ref)
    requires Init(sys) && WellFormedRun(sys, reqs) && JournalableRun(sys, reqs, capacity) && c <= |Log(sys, reqs)|
    ensures var q := ReadPlain(Start(capacity, netting), Log(sys, reqs)[..c]);
            q.Some? && RecoveredAs(AsOf(sys, reqs, c, ref), MarkAll(q.value.store.live), ref)
  {
    var log := Log(sys, reqs);
    var p0 := Start(capacity, netting);
    LogIsOrdered(sys, reqs);
    hide JournalableAt, RunSys, Log, Init, ReadPlain, Start, SysRecords, RecoveredAs, Ordered;
    if c == |log| {
      RunFollows(sys, reqs, |reqs|, capacity, netting);
      assert reqs[..|reqs|] == reqs && log[..c] == log;
      SimAt(RunSys(sys, reqs), ReadPlain(p0, log).value, ref, capacity, |reqs|);
      var q := ReadPlain(p0, log[..c]).value;
      RecoveredUntouched(q, q, Live(RunSys(sys, reqs), ref), ref);
    } else {
      StampedAt(log, reqs, c);
      EveryRecordHasItsRequest(sys, reqs, c);
      if c == |Log(sys, reqs[..log[c].ts])| {
        CutBetween(sys, reqs, log[c].ts, c, capacity, netting, ref);
      } else {
        CutThrough(sys, reqs, log[c].ts, c, capacity, netting, ref);
      }
    }
  }

  lemma StampedAt(log: seq<Record>, reqs: seq<W.Request>, c: nat)
    requires Ordered(log, reqs) && c < |log|
    ensures log[c].ts < |reqs|
  {
    assert Stamped(log[c], reqs);
  }

  // ---- the crash ----

  lemma PrefixesSurvive(file: seq<Record>, log: seq<Record>, shards: nat)
    requires shards > 0 && KeepsPrefixes(file, log, shards)
    ensures Interleaves(file, Survivors(log, DurableCounts(file, shards), shards), shards)
  {
    var cuts := DurableCounts(file, shards);
    forall s | 0 <= s < shards ensures Stream(file, s, shards) == Stream(Survivors(log, cuts, shards), s, shards) {
      SurvivorsByShard(log, cuts, shards, s);
      assert Stream(file, s, shards) <= Stream(log, s, shards);
    }
  }

  /** How much of each shard's stream the file holds. */
  function DurableCounts(file: seq<Record>, shards: nat): Cuts
    requires shards > 0
  {
    (s: nat) => |Stream(file, s, shards)|
  }

  lemma SurvivorsSort(file: seq<Record>, log: seq<Record>, reqs: seq<W.Request>, shards: nat, hash: Record -> nat, window: nat)
    requires shards > 0 && KeepsPrefixes(file, log, shards) && Ordered(log, reqs) && InjectiveOn(hash, log) && window > 1
    ensures var kept := Survivors(log, DurableCounts(file, shards), shards);
            StableSort(file) == kept && !Flagged(hash, window, kept)
  {
    var cuts := DurableCounts(file, shards);
    var kept := Survivors(log, cuts, shards);
    PrefixesSurvive(file, log, shards);
    TimesNameOrders(log, reqs, shards);
    SurvivorsStayOrdered(log, cuts, shards);
    forall r | r in kept ensures r in log { SurvivorsAreLogged(log, cuts, shards, r); }
    hide Survivors, StableSort, Flagged, Ordered, Interleaves, Sorted, Distinct;
    SortUndoesInterleaving(file, kept, shards);
    DistinctIsUnflagged(hash, window, kept);
  }

  /** The index in the log of the first record that the shard of `ref` lost. */
  ghost function FirstLost(sys: System, reqs: seq<W.Request>, file: seq<Record>, ref: Ref): (c: nat)
    requires WellFormedRun(sys, reqs)
    ensures c <= |Log(sys, reqs)|
  {
    var n, log := |sys.shards|, Log(sys, reqs);
    LostFrom(log, DurableCounts(file, n), n, ShardOf(ref, n), |log|)
  }

  /** After any journalable run, whatever prefix of its stream each shard got into the file and however they are
      interleaved there, recovery accepts the file, provided the store has room for every order the run created. Every
      order is recovered as of the first record its shard lost. */
  lemma TornCrashRecovers(sys: System, reqs: seq<W.Request>, file: seq<Record>, capacity: nat, netting: bool, window: nat,
                          hash: Record -> nat)
    requires Init(sys) && WellFormedRun(sys, reqs) && JournalableRun(sys, reqs, capacity)
    requires KeepsPrefixes(file, Log(sys, reqs), |sys.shards|) && Commands(Log(sys, reqs)) <= capacity
    requires window > 1 && InjectiveOn(hash, Log(sys, reqs))
    ensures var r := Recover(capacity, netting, window, hash, StableSort(file));
            && r.Some?
            && forall ref :: RecoveredAs(AsOf(sys, reqs, FirstLost(sys, reqs, file, ref), ref), r.value.store.live, ref)
  {
    var log, shards := Log(sys, reqs), |sys.shards|;
    var p0 := Start(capacity, netting);
    var cuts := DurableCounts(file, shards);
    LogIsOrdered(sys, reqs);
    LogIsAboutOrders(sys, reqs);
    hide JournalableAt, RunSys, Log, Ordered, InjectiveOn, Flagged, Init, WellFormedRun, Survivors, StableSort, ReadPlain, ReadAll;
    hide RecoveredAs, AsOf, Commands, KeepsPrefixes, MarkAll, LostFrom;
    assert reqs[..|reqs|] == reqs && log[..|log|] == log;
    RunFollows(sys, reqs, |reqs|, capacity, netting);
    SurvivorsSort(file, log, reqs, shards, hash, window);
    var kept := Survivors(log, cuts, shards);
    SurvivorsFollow(p0, log, cuts, shards, |log|);
    WindowOnlyStopsRepeats(p0, hash, window, kept);
    var q := ReadPlain(p0, kept).value;
    forall ref ensures RecoveredAs(AsOf(sys, reqs, FirstLost(sys, reqs, file, ref), ref), MarkAll(q.store.live), ref) {
      var c := FirstLost(sys, reqs, file, ref);
      CutRecovers(sys, reqs, c, capacity, netting, ref);
      assert Tracks(q, p0, log, cuts, shards, |log|, ref);
      MarkedAlike(AsOf(sys, reqs, c, ref), ReadPlain(p0, log[..c]).value, q, ref);
    }
  }

  lemma MarkedAlike(o: Option<Order>, p: Replay, q: Replay, ref: Ref)
    requires RecoveredAs(o, MarkAll(p.store.live), ref) && At(q, ref) == At(p, ref)
    ensures RecoveredAs(o, MarkAll(q.store.live), ref)
  {
  }
}
