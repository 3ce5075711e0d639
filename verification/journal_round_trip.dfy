/** The journal written by the shards and the streaming reader undo each other: after any run of
    journalable requests, replaying the log rebuilds the live orders of every shard. */
module JournalRoundTrip {
  import opened ExecTypes
  import S = OmsSpec
  import opened ReportSpec
  import opened Journal
  import W = ShardedOms
  import opened RecoveryStreaming
  import opened HeldReports

  // ---- the system: shards that share one global sequence ----

  datatype System = System(shards: seq<State>)

  /** Every event of one order goes to one shard. */
  function ShardOf(ref: Ref, shards: nat): (s: nat)
    requires shards > 0
    ensures s < shards
  {
    ref.logicalId % shards
  }

  ghost predicate Wf(sys: System) {
    && |sys.shards| > 0
    && (forall s | 0 <= s < |sys.shards| :: CacheOk(sys.shards[s].cache))
    && (forall s | 0 <= s < |sys.shards| :: Routed(sys.shards[s].store.live, s, |sys.shards|))
  }

  ghost predicate Routed(live: map<Ref, Order>, s: nat, shards: nat)
    requires shards > 0
  {
    forall ref <- live :: ShardOf(ref, shards) == s
  }

  function ShardFor(sys: System, ref: Ref): State
    requires |sys.shards| > 0
  {
    sys.shards[ShardOf(ref, |sys.shards|)]
  }

  function Live(sys: System, ref: Ref): Option<Order>
    requires |sys.shards| > 0
  {
    W.Lookup(ShardFor(sys, ref).store.live, ref)
  }

  function LiveCount(shards: seq<State>): nat {
    if shards == [] then 0 else LiveCount(shards[..|shards| - 1]) + |shards[|shards| - 1].store.live|
  }

  lemma {:induction false} LiveCountUpdate(shards: seq<State>, s: nat, st: State)
    requires s < |shards|
    ensures LiveCount(shards[s := st]) == LiveCount(shards) - |shards[s].store.live| + |st.store.live|
  {
    var last := |shards| - 1;
    if s == last {
      assert shards[s := st][..last] == shards[..last];
    } else {
      assert shards[s := st][..last] == shards[..last][s := st];
      LiveCountUpdate(shards[..last], s, st);
    }
  }

  function SysApply(sys: System, req: W.Request): System
    requires Wf(sys)
  {
    System(sys.shards[ShardOf(req.ref, |sys.shards|) := W.Apply(ShardFor(sys, req.ref), req).0])
  }

  function SysRecords(sys: System, req: W.Request, ts: nat): seq<Record>
    requires Wf(sys)
  {
    W.Records(ShardFor(sys, req.ref), req, ts)
  }

  // ---- a request touches only its own order ----

  /** `b` agrees with `a` away from `ref`. */
  ghost predicate Elsewhere(a: map<Ref, Order>, b: map<Ref, Order>, ref: Ref) {
    forall x | x != ref :: (x in a <==> x in b) && (x in a ==> a[x] == b[x])
  }

  lemma {:induction false} DrainIsLocal(st: State, ref: Ref)
    requires CacheOk(st.cache)
    ensures Elsewhere(st.store.live, Drain(st, ref).store.live, ref)
    decreases Held(st.slots)
  {
    hide ApplyOne, Drain;
    DrainUnfolds(st, ref);
    if ref in st.store.live {
      var i := FirstMatch(st.slots, ref, st.store.live[ref].lastSeq + 1, 0);
      if i < |st.slots| {
        HeldUpdate(st.slots, i, None);
        var taken := st.(slots := st.slots[i := None]);
        ApplyOneIsLocal(taken, st.slots[i].value);
        DrainIsLocal(ApplyOne(taken, st.slots[i].value).0, ref);
      }
    }
  }

  lemma ApplyIsLocal(st: State, req: W.Request)
    requires CacheOk(st.cache) && W.WellFormed(req)
    ensures Elsewhere(st.store.live, W.Apply(st, req).0.store.live, req.ref)
  {
    if req.ReportReq? && req.ref in st.store.live {
      ApplyOneIsLocal(st, req.report);
      DrainIsLocal(ApplyOne(st, req.report).0, req.ref);
    }
  }

  predicate Sound(o: Order) {
    && 0 <= o.filled <= o.requested && 0 < o.requested && o.symbol < MAX_SYMBOLS
    && o.ref.runId != 0 && o.ref.logicalId != 0 && ReservesExposure(o.state)
  }

  /** The replayed orders are the images of the live ones. */
  ghost predicate Mirrors(sys: System, p: Replay)
    requires |sys.shards| > 0
  {
    forall ref :: MirrorsAt(Live(sys, ref), p.store.live, ref)
  }

  predicate MirrorsAt(o: Option<Order>, replayed: map<Ref, Order>, ref: Ref) {
    if o.Some? then ref in replayed && replayed[ref] == Image(o.value) else ref !in replayed
  }

  ghost predicate AllSound(sys: System)
    requires |sys.shards| > 0
  {
    forall ref :: Live(sys, ref).Some? ==> Live(sys, ref).value.ref == ref && Sound(Live(sys, ref).value)
  }

  /** The simulation relation between the live system and the reader, before the request numbered `now`. */
  ghost predicate Sim(sys: System, p: Replay, capacity: nat, now: nat) {
    && Wf(sys) && Mirrors(sys, p) && AllSound(sys)
    && |p.store.live| == LiveCount(sys.shards) && p.store.capacity == capacity
    && p.ledger.lastTs <= now && !p.ledger.haveAccount && !p.ledger.havePnl
  }

  // ---- which requests the journal can carry ----

  /** Checked on the shard a request meets; `room` says the recovered store can hold one more order. */
  ghost predicate Kept(st: State, req: W.Request, room: bool)
    requires CacheOk(st.cache)
  {
    match req
    case CreateReq(ref, symbol, volume, _) =>
      W.Apply(st, req).1 ==> ref.runId != 0 && ref.logicalId != 0 && symbol < MAX_SYMBOLS && volume > 0 && room
    case FindReq(_) => true
    case TransitionReq(_, _) => true
    case FillReq(ref, volume) => FillKept(st.store, ref, volume)
    case ReplaceReq(ref, price, volume) => ReplaceKept(st.store, ref, price, volume)
    case ReportReq(ref, report) =>
      ref in st.store.live && report.seq_ == st.store.live[ref].lastSeq + 1 ==>
        && ReportKept(st.store, ref, report)
        && CascadeKept(ApplyToOrder(st.store.live[ref], report), st.slots, ref)
  }

  /** The reports held next for an order that lives on come to nothing. */
  predicate CascadeKept(res: OrderResult, slots: Slots, ref: Ref) {
    res.Lives? ==> Quiet(res.order, Chain(slots, ref, res.order.lastSeq + 1))
  }

  /** That is what it takes for the cascade to change nothing the journal would have had to record. */
  lemma CascadeRound(st: State, report: ExecReport)
    requires CacheOk(st.cache) && report.ref in st.store.live && ApplyOne(st, report).1
    ensures CascadeKept(ApplyToOrder(st.store.live[report.ref], report), st.slots, report.ref)
            <==> DrainIsSilent(ApplyOne(st, report).0, report.ref)
  {
    ApplyOneIsLocal(st, report);
    SilentIffQuiet(ApplyOne(st, report).0, report.ref);
    hide ApplyOne, ApplyToOrder, DrainIsSilent, Quiet, Chain;
  }

  ghost predicate Journalable(sys: System, req: W.Request, capacity: nat)
    requires Wf(sys)
  {
    Kept(ShardFor(sys, req.ref), req, LiveCount(sys.shards) < capacity)
  }

  /** A fill that fits must also be legal; otherwise its volume is added and never recorded. */
  predicate FillKept(s: S.Store, ref: Ref, volume: int) {
    S.FillFits(s, ref, volume) ==> Legal(s.live[ref].state, S.FillTarget(s.live[ref], volume))
  }

  /** The reader takes replaces only on acknowledged orders and at positive prices. */
  predicate ReplaceKept(s: S.Store, ref: Ref, price: int, volume: int) {
    S.Replaceable(s, ref, volume) ==> s.live[ref].state.Acknowledged? && price > 0
  }

  predicate ReportKept(s: S.Store, ref: Ref, report: ExecReport)
    requires ref in s.live
  {
    match report.kind
    case AckReport => true
    case CancelPendingReport => true
    case FillReport => FillKept(s, ref, report.volume)
    case CancelledReport => !s.live[ref].state.Unknown?
    case RejectReport => !s.live[ref].state.Unknown?
    case ReplaceAck => ReplaceKept(s, ref, report.price, report.volume)
  }

  // ---- reading what one request wrote ----

  function ReadPlain(p: Replay, records: seq<Record>): Option<Replay>
    decreases |records|
  {
    if records == [] then Some(p)
    else
      match ReadStep(p, records[0])
      case None => None
      case Some(p') => ReadPlain(p', records[1..])
  }

  lemma {:induction false} ReadPlainAppend(p: Replay, a: seq<Record>, b: seq<Record>)
    ensures ReadPlain(p, a + b) == match ReadPlain(p, a) case None => None case Some(q) => ReadPlain(q, b)
    decreases |a|
  {
    if a == [] {
      assert a + b == b;
    } else {
      assert (a + b)[1..] == a[1..] + b;
      match ReadStep(p, a[0])
      case None =>
      case Some(q) => ReadPlainAppend(q, a[1..], b);
    }
  }

  lemma ReadOne(p: Replay, r: Record)
    ensures ReadPlain(p, [r]) == ReadStep(p, r)
  {
    assert [r][1..] == [];
  }

  lemma ReadTwo(p: Replay, r: Record, q: Record)
    ensures ReadPlain(p, [r, q]) == match ReadStep(p, r) case None => None case Some(p') => ReadStep(p', q)
  {
    assert [r, q][1..] == [q];
    if ReadStep(p, r).Some? {
      ReadOne(ReadStep(p, r).value, q);
    }
  }

  /** The replayed orders once `ref` stands as `o`. */
  function Put(live: map<Ref, Order>, ref: Ref, o: Option<Order>): map<Ref, Order> {
    if o.Some? then live[ref := Image(o.value)] else live - {ref}
  }

  /** The reader is as before except that `ref` stands as `o`. */
  ghost predicate Advanced(p: Replay, p': Option<Replay>, ref: Ref, o: Option<Order>, ts: nat) {
    && p'.Some?
    && p'.value.store.live == Put(p.store.live, ref, o)
    && p'.value.store.capacity == p.store.capacity
    && p.ledger.lastTs <= p'.value.ledger.lastTs <= ts
    && p'.value.ledger.haveAccount == p.ledger.haveAccount && p'.value.ledger.havePnl == p.ledger.havePnl
  }

  /** What reading a request's records must meet: the reader knows the order exactly as its image. */
  ghost predicate Ready(st: State, p: Replay, req: W.Request, ts: nat) {
    && CacheOk(st.cache) && W.WellFormed(req)
    && MirrorsAt(W.Lookup(st.store.live, req.ref), p.store.live, req.ref)
    && (req.ref in st.store.live ==> st.store.live[req.ref].ref == req.ref && Sound(st.store.live[req.ref]))
    && p.ledger.lastTs <= ts
  }

  lemma SameImage(live: map<Ref, Order>, ref: Ref, o: Option<Order>)
    requires MirrorsAt(o, live, ref)
    ensures Put(live, ref, o) == live
  {
  }

  lemma CodesRoundTrip(s: OrderState)
    ensures StateOfCode(StateCode(s)) == Some(s)
  {
  }

  /** A state record is accepted exactly when the reader's order is in the state, volumes and legality it names. */
  lemma ReadState(p: Replay, ts: nat, o: Order, symbol: nat, from: OrderState, to: OrderState, filled: int, requested: int)
    requires p.ledger.lastTs <= ts && symbol < MAX_SYMBOLS && o.ref in p.store.live && 0 <= filled && 0 <= requested
    ensures var p' := ReadStep(p, W.StateRec(ts, o.ref, symbol, from, to, filled, requested));
            var q := p.store.live[o.ref];
            && (p'.Some? <==> q.state == from && q.filled == filled && q.requested == requested && Legal(from, to))
            && (p'.Some? ==>
                  p'.value.store.live
                     == (if IsTerminal(to) then p.store.live - {o.ref} else p.store.live[o.ref := q.(state := to)])
                  && p'.value.store.capacity == p.store.capacity
                  && p'.value.ledger == p.ledger.(lastTs := ts))
  {
    CodesRoundTrip(from);
    CodesRoundTrip(to);
    assert RefOf(W.StateRec(ts, o.ref, symbol, from, to, filled, requested)) == o.ref;
  }

  /** The orders and the account flags are as before. */
  predicate OnlyCounted(p: Replay, q: Replay, ts: nat) {
    && q.store == p.store && q.ledger.lastTs == ts
    && q.ledger.haveAccount == p.ledger.haveAccount && q.ledger.havePnl == p.ledger.havePnl
  }

  lemma ReadConfirm(p: Replay, r: Record)
    requires HeaderOk(p.ledger, r) && (r.kind == ACKNOWLEDGEMENT || r.kind == CANCEL) && r.a == 0 && r.ticket == 0
    ensures var wanted := if r.kind == CANCEL then CancelPending else Acknowledged;
            var p' := ReadStep(p, r);
            && (p'.Some? <==> RefOf(r) in p.store.live && p.store.live[RefOf(r)].state == wanted)
            && (p'.Some? ==> OnlyCounted(p, p'.value, r.ts))
  {
  }

  lemma ReadRejection(p: Replay, r: Record)
    requires HeaderOk(p.ledger, r) && r.kind == REJECTION && r.a > 0 && r.logicalId != 0
    ensures var p' := ReadStep(p, r);
            && (p'.Some? <==> RefOf(r) in p.store.live && p.store.live[RefOf(r)].state.Sent?)
            && (p'.Some? ==> OnlyCounted(p, p'.value, r.ts))
  {
  }

  lemma CreateRound(st: State, p: Replay, req: W.Request, ts: nat)
    requires Ready(st, p, req, ts) && req.CreateReq? && W.Apply(st, req).1
    ensures var p' := ReadPlain(p, W.Records(st, req, ts));
            var o := Order(req.ref, req.symbol, req.volume, 0, 0, PendingSend, 0);
            var fits := req.ref.runId != 0 && req.ref.logicalId != 0 && req.symbol < MAX_SYMBOLS && req.volume > 0
                        && |p.store.live| < p.store.capacity;
            && (p'.Some? <==> fits)
            && (fits ==> Advanced(p, p', req.ref, Some(o), ts))
  {
    ReadOne(p, W.Records(st, req, ts)[0]);
    assert RefOf(W.Records(st, req, ts)[0]) == req.ref;
  }

  lemma TransitionRound(st: State, p: Replay, req: W.Request, ts: nat)
    requires Ready(st, p, req, ts) && req.TransitionReq? && W.Apply(st, req).1
    ensures Advanced(p, ReadPlain(p, W.Records(st, req, ts)), req.ref,
                     W.Lookup(W.Apply(st, req).0.store.live, req.ref), ts)
  {
    var o := st.store.live[req.ref];
    var recs := W.Records(st, req, ts);
    if o.state.PendingSend? {
      assert recs == [];
    } else {
      var symbol := W.SymbolIn(W.Apply(st, req).0.store.live, req.ref);
      ReadState(p, ts, o, symbol, o.state, req.target, o.filled, o.requested);
      if req.target.Acknowledged? {
        ReadTwo(p, recs[0], recs[1]);
        ReadConfirm(ReadStep(p, recs[0]).value, recs[1]);
      } else {
        assert recs == [recs[0]];
        ReadOne(p, recs[0]);
      }
    }
  }

  /** A fill that happened is read back: first its volume, then its state. */
  lemma FillRound(p: Replay, o: Order, volume: int, ts: nat)
    requires p.ledger.lastTs <= ts && Sound(o) && MirrorsAt(Some(o), p.store.live, o.ref)
    requires 0 < volume <= o.Remaining() && Legal(o.state, S.FillTarget(o, volume))
    ensures var after := if IsTerminal(S.FillTarget(o, volume)) then None
                         else Some(o.(filled := o.filled + volume, state := S.FillTarget(o, volume)));
            Advanced(p, ReadPlain(p, W.FillRecs(ts, o.ref, o, volume)), o.ref, after, ts)
  {
    var recs := W.FillRecs(ts, o.ref, o, volume);
    assert RefOf(recs[0]) == o.ref;
    ReadTwo(p, recs[0], recs[1]);
    var p1 := ReadStep(p, recs[0]).value;
    ReadState(p1, ts, o, o.symbol, o.state, S.FillTarget(o, volume), o.filled + volume, o.requested);
  }

  lemma ReplaceRound(p: Replay, o: Order, price: int, volume: int, ts: nat)
    requires p.ledger.lastTs <= ts && Sound(o) && MirrorsAt(Some(o), p.store.live, o.ref) && volume > o.filled
    ensures var p' := ReadPlain(p, W.ReplaceRecs(ts, o.ref, o, price, volume));
            && (p'.Some? <==> o.state.Acknowledged? && price > 0)
            && (p'.Some? ==> Advanced(p, p', o.ref, Some(o.(limitPrice := price, requested := volume)), ts))
  {
    var recs := W.ReplaceRecs(ts, o.ref, o, price, volume);
    assert RefOf(recs[0]) == o.ref;
    ReadOne(p, recs[0]);
  }

  lemma AckRound(p: Replay, o: Order, ts: nat)
    requires p.ledger.lastTs <= ts && Sound(o) && MirrorsAt(Some(o), p.store.live, o.ref) && o.state.Sent?
    ensures Advanced(p, ReadPlain(p, W.ReportRecs(ts, o.ref, o, ExecReport(o.ref, 0, AckReport, 0, 0))), o.ref,
                     Some(o.(state := Acknowledged)), ts)
  {
    var recs := W.ReportRecs(ts, o.ref, o, ExecReport(o.ref, 0, AckReport, 0, 0));
    ReadTwo(p, recs[0], recs[1]);
    ReadState(p, ts, o, o.symbol, o.state, Acknowledged, o.filled, o.requested);
    ReadConfirm(ReadStep(p, recs[0]).value, recs[1]);
  }

  lemma CancelPendingRound(p: Replay, o: Order, ts: nat)
    requires p.ledger.lastTs <= ts && Sound(o) && MirrorsAt(Some(o), p.store.live, o.ref)
    requires Legal(o.state, CancelPending)
    ensures Advanced(p, ReadPlain(p, [W.StateRec(ts, o.ref, o.symbol, o.state, CancelPending, o.filled, o.requested)]),
                     o.ref, Some(o.(state := CancelPending)), ts)
  {
    ReadOne(p, W.StateRec(ts, o.ref, o.symbol, o.state, CancelPending, o.filled, o.requested));
    ReadState(p, ts, o, o.symbol, o.state, CancelPending, o.filled, o.requested);
  }

  /** A cancel or a reject is confirmed first, in the state it confirms, and then ends the order. */
  lemma EndingRound(p: Replay, o: Order, kind: ReportKind, ts: nat)
    requires p.ledger.lastTs <= ts && Sound(o) && MirrorsAt(Some(o), p.store.live, o.ref)
    requires kind.CancelledReport? || kind.RejectReport?
    requires Legal(o.state, if kind.CancelledReport? then Cancelled else Rejected)
    ensures var p' := ReadPlain(p, W.ReportRecs(ts, o.ref, o, ExecReport(o.ref, 0, kind, 0, 0)));
            && (p'.Some? <==> !o.state.Unknown?)
            && (p'.Some? ==> Advanced(p, p', o.ref, None, ts))
  {
    var recs := W.ReportRecs(ts, o.ref, o, ExecReport(o.ref, 0, kind, 0, 0));
    ReadTwo(p, recs[0], recs[1]);
    if kind.CancelledReport? { ReadConfirm(p, recs[0]); } else { ReadRejection(p, recs[0]); }
    if ReadStep(p, recs[0]).Some? {
      ReadState(ReadStep(p, recs[0]).value, ts, o, o.symbol, o.state,
                if kind.CancelledReport? then Cancelled else Rejected, o.filled, o.requested);
    }
  }

  /** The records of an applied report: read back exactly when the reader's stricter conditions hold. */
  lemma ReportRound(st: State, p: Replay, report: ExecReport, ts: nat)
    requires CacheOk(st.cache) && report.ref in st.store.live && p.ledger.lastTs <= ts
    requires var o := st.store.live[report.ref];
             o.ref == report.ref && Sound(o) && MirrorsAt(Some(o), p.store.live, report.ref)
    requires ApplyOne(st, report).1
    ensures var p' := ReadPlain(p, W.ReportRecs(ts, report.ref, st.store.live[report.ref], report));
            var after := W.Lookup(ApplyOne(st, report).0.store.live, report.ref);
            && (p'.Some? <==> ReportKept(st.store, report.ref, report))
            && (p'.Some? ==> Advanced(p, p', report.ref, after, ts))
  {
    hide ReadPlain, ReadStep, ApplyOne;
    var o := st.store.live[report.ref];
    ApplyOneIsLocal(st, report);
    match report.kind
    case AckReport => AckRound(p, o, ts);
    case FillReport => FillRound(p, o, report.volume, ts);
    case CancelPendingReport => CancelPendingRound(p, o, ts);
    case CancelledReport => EndingRound(p, o, report.kind, ts);
    case RejectReport => EndingRound(p, o, report.kind, ts);
    case ReplaceAck => ReplaceRound(p, o, report.price, report.volume, ts);
  }

  // ---- one request ----

  /** The reader follows the request, and ends up knowing the order as its image. */
  ghost predicate Follows(st: State, p: Replay, req: W.Request, ts: nat)
    requires CacheOk(st.cache)
  {
    Advanced(p, ReadPlain(p, W.Records(st, req, ts)), req.ref, W.Lookup(W.Apply(st, req).0.store.live, req.ref), ts)
  }

  /** The weaker outcome: the records are accepted and the reader knows the order as its image. */
  ghost predicate Matched(st: State, p: Replay, req: W.Request, ts: nat)
    requires CacheOk(st.cache)
  {
    var p' := ReadPlain(p, W.Records(st, req, ts));
    p'.Some? && MirrorsAt(W.Lookup(W.Apply(st, req).0.store.live, req.ref), p'.value.store.live, req.ref)
  }

  lemma NothingWritten(st: State, p: Replay, req: W.Request, ts: nat)
    requires Ready(st, p, req, ts) && W.Records(st, req, ts) == []
    requires W.Lookup(W.Apply(st, req).0.store.live, req.ref) == W.Lookup(st.store.live, req.ref)
    ensures Follows(st, p, req, ts)
  {
    SameImage(p.store.live, req.ref, W.Lookup(st.store.live, req.ref));
  }

  lemma FillFollows(st: State, p: Replay, req: W.Request, ts: nat)
    requires Ready(st, p, req, ts) && req.FillReq?
    ensures FillKept(st.store, req.ref, req.volume) ==> Follows(st, p, req, ts)
    ensures Matched(st, p, req, ts) ==> FillKept(st.store, req.ref, req.volume)
  {
    if S.FillFits(st.store, req.ref, req.volume) {
      if FillKept(st.store, req.ref, req.volume) {
        FillRound(p, st.store.live[req.ref], req.volume, ts);
      }
    } else {
      NothingWritten(st, p, req, ts);
    }
  }

  lemma ReplaceFollows(st: State, p: Replay, req: W.Request, ts: nat)
    requires Ready(st, p, req, ts) && req.ReplaceReq?
    ensures ReplaceKept(st.store, req.ref, req.price, req.volume) ==> Follows(st, p, req, ts)
    ensures Matched(st, p, req, ts) ==> ReplaceKept(st.store, req.ref, req.price, req.volume)
  {
    if S.Replaceable(st.store, req.ref, req.volume) {
      ReplaceRound(p, st.store.live[req.ref], req.price, req.volume, ts);
    } else {
      NothingWritten(st, p, req, ts);
    }
  }

  lemma ReportFollows(st: State, p: Replay, req: W.Request, ts: nat)
    requires Ready(st, p, req, ts) && req.ReportReq?
    ensures Kept(st, req, true) ==> Follows(st, p, req, ts)
    ensures Matched(st, p, req, ts) ==> Kept(st, req, true)
  {
    var ref, report := req.ref, req.report;
    if ref in st.store.live && report.seq_ == st.store.live[ref].lastSeq + 1 {
      ApplyOneIsLocal(st, report);
      if ApplyOne(st, report).1 {
        hide ReadPlain, ApplyOne, Drain, ReportKept, ApplyToOrder, CascadeKept;
        CascadeRound(st, report);
        ReportRound(st, p, report, ts);
      } else {
        RefusedFollows(st, p, req, ts);
      }
    } else {
      NothingWritten(st, p, req, ts);
    }
  }

  /** A refused report writes nothing; it is harmless unless it is a fill that fits. */
  lemma RefusedFollows(st: State, p: Replay, req: W.Request, ts: nat)
    requires Ready(st, p, req, ts) && req.ReportReq? && req.ref in st.store.live
    requires req.report.seq_ == st.store.live[req.ref].lastSeq + 1 && !ApplyOne(st, req.report).1
    ensures ReportKept(st.store, req.ref, req.report) ==> Follows(st, p, req, ts)
    ensures Matched(st, p, req, ts) ==> ReportKept(st.store, req.ref, req.report)
  {
    var ref, report := req.ref, req.report;
    var o := st.store.live[ref];
    ApplyOneIsLocal(st, report);
    assert W.Records(st, req, ts) == [];
    if ApplyToOrder(o, report).order == o {
      NothingWritten(st, p, req, ts);
    } else {
      assert report.kind.FillReport? && !ReportKept(st.store, ref, report);
    }
  }

  /** A request is followed by the reader when it is kept, and matched only when it is kept. */
  lemma RequestRound(st: State, p: Replay, req: W.Request, ts: nat)
    requires Ready(st, p, req, ts)
    ensures var room := |p.store.live| < p.store.capacity;
            && (Kept(st, req, room) ==> Follows(st, p, req, ts))
            && (Matched(st, p, req, ts) ==> Kept(st, req, room))
  {
    match req
    case CreateReq(_, _, _, _) =>
      if W.Apply(st, req).1 { CreateRound(st, p, req, ts); } else { NothingWritten(st, p, req, ts); }
    case FindReq(_) => NothingWritten(st, p, req, ts);
    case TransitionReq(_, _) =>
      if W.Apply(st, req).1 { TransitionRound(st, p, req, ts); } else { NothingWritten(st, p, req, ts); }
    case FillReq(_, _) => FillFollows(st, p, req, ts);
    case ReplaceReq(_, _, _) => ReplaceFollows(st, p, req, ts);
    case ReportReq(_, _) => ReportFollows(st, p, req, ts);
  }
}
