/** One shard of the order-management system: it applies requests one at a time and writes, for each
    accepted change, the journal records that a replay needs. */
module ShardedOms {
  import opened ExecTypes
  import S = OmsSpec
  import opened OmsStore
  import T = StoreTable
  import opened ReportSpec
  import R = ReportSequencer
  import opened Journal

  datatype Request =
    | CreateReq(ref: Ref, symbol: nat, volume: int, approved: bool)
    | FindReq(ref: Ref)
    | TransitionReq(ref: Ref, target: OrderState)
    | FillReq(ref: Ref, volume: int)
    | ReplaceReq(ref: Ref, price: int, volume: int)
    | ReportReq(ref: Ref, report: ExecReport)

  /** A report request carries the reference its report is about. */
  predicate WellFormed(req: Request) {
    req.ReportReq? ==> req.report.ref == req.ref
  }

  /** What applying a request does to its shard, and whether it was accepted. */
  function Apply(st: State, req: Request): (res: (State, bool))
    requires CacheOk(st.cache)
    ensures CacheOk(res.0.cache)
  {
    match req
    case CreateReq(ref, symbol, volume, approved) =>
      if !approved then (st, false)
      else var out := S.Create(st.store, ref, symbol, volume); (st.(store := out.store), out.ok)
    case FindReq(ref) => (st, ref in st.store.live)
    case TransitionReq(ref, target) =>
      var out := S.Transition(st.store, ref, target); (st.(store := out.store), out.ok)
    case FillReq(ref, volume) =>
      var out := S.Fill(st.store, ref, volume); (st.(store := out.store), out.ok)
    case ReplaceReq(ref, price, volume) =>
      var out := S.Replace(st.store, ref, price, volume); (st.(store := out.store), out.ok)
    case ReportReq(_, report) =>
      var (st', outcome) := Process(st, report); (st', outcome.Applied?)
  }

  // ---- the records ----

  function Rec(ts: nat, ref: Ref, kind: nat, symbol: nat, ticket: nat, a: int, b: int, c: int, d: int): Record {
    Record(ts, kind, 0, symbol, ref.runId, ref.logicalId, ticket, a, b, c, d)
  }

  function StateRec(ts: nat, ref: Ref, symbol: nat, from: OrderState, to: OrderState, filled: int, requested: int): Record {
    Rec(ts, ref, ORDER_STATE, symbol, 0, StateCode(from), StateCode(to), filled, requested)
  }

  /** The price recorded for an order whose price nothing has set. */
  const SYNTHETIC_INITIAL_PRICE: int := 1

  function PriorPrice(o: Order): int {
    if o.limitPrice > 0 then o.limitPrice else SYNTHETIC_INITIAL_PRICE
  }

  /** The fill record first (it adds the volume), then the state it led to. */
  function FillRecs(ts: nat, ref: Ref, o: Order, volume: int): seq<Record> {
    var filled := o.filled + volume;
    var fully := filled >= o.requested;
    [ Rec(ts, ref, FILL, o.symbol, if ref.logicalId == 0 then 1 else ref.logicalId, volume, volume, if fully then 1 else 0, 0),
      StateRec(ts, ref, o.symbol, o.state, if fully then Filled else PartiallyFilled, filled, o.requested) ]
  }

  function ReplaceRecs(ts: nat, ref: Ref, o: Order, price: int, volume: int): seq<Record> {
    [Rec(ts, ref, REPLACE, o.symbol, 0, PriorPrice(o), price, o.requested, volume)]
  }

  /** Confirmations of a cancel or a reject precede the state that ends the order; an ack follows its state. */
  function ReportRecs(ts: nat, ref: Ref, o: Order, report: ExecReport): seq<Record> {
    match report.kind
    case AckReport =>
      [ StateRec(ts, ref, o.symbol, o.state, Acknowledged, o.filled, o.requested),
        Rec(ts, ref, ACKNOWLEDGEMENT, o.symbol, 0, 0, 0, 0, 0) ]
    case FillReport => FillRecs(ts, ref, o, report.volume)
    case CancelPendingReport => [StateRec(ts, ref, o.symbol, o.state, CancelPending, o.filled, o.requested)]
    case CancelledReport =>
      [ Rec(ts, ref, CANCEL, o.symbol, 0, 0, 0, 0, 0),
        StateRec(ts, ref, o.symbol, o.state, Cancelled, o.filled, o.requested) ]
    case RejectReport =>
      [ Rec(ts, ref, REJECTION, o.symbol, 0, 1, 0, 0, 0),
        StateRec(ts, ref, o.symbol, o.state, Rejected, o.filled, o.requested) ]
    case ReplaceAck => ReplaceRecs(ts, ref, o, report.price, report.volume)
  }

  /** Records of an accepted request, given the order before and the symbol of the order afterwards. */
  function Emit(ts: nat, req: Request, before: Option<Order>, symbolAfter: nat): seq<Record> {
    match req
    case CreateReq(ref, symbol, volume, _) =>
      [Rec(ts, ref, COMMAND, symbol, 0, 0, volume, SYNTHETIC_INITIAL_PRICE, 0)]
    case FindReq(_) => []
    case TransitionReq(ref, target) =>
      if before.None? || (before.value.state.PendingSend? && target.Sent?) then []
      else
        var o := before.value;
        [StateRec(ts, ref, symbolAfter, o.state, target, o.filled, o.requested)]
        + if target.Acknowledged? then [Rec(ts, ref, ACKNOWLEDGEMENT, symbolAfter, 0, 0, 0, 0, 0)] else []
    case FillReq(ref, volume) => if before.None? then [] else FillRecs(ts, ref, before.value, volume)
    case ReplaceReq(ref, price, volume) => if before.None? then [] else ReplaceRecs(ts, ref, before.value, price, volume)
    case ReportReq(ref, report) => if before.None? then [] else ReportRecs(ts, ref, before.value, report)
  }

  function Lookup(live: map<Ref, Order>, ref: Ref): Option<Order> {
    if ref in live then Some(live[ref]) else None
  }

  /** The symbol of the order afterwards; a finished order leaves the default 0. */
  function SymbolIn(live: map<Ref, Order>, ref: Ref): nat {
    if ref in live then live[ref].symbol else 0
  }

  /** The records a shard writes for a request: none unless it was accepted. */
  function Records(st: State, req: Request, ts: nat): seq<Record>
    requires CacheOk(st.cache)
  {
    var (st', ok) := Apply(st, req);
    if ok then Emit(ts, req, Lookup(st.store.live, req.ref), SymbolIn(st'.store.live, req.ref)) else []
  }

  class Shard {
    const oms: Oms
    const sequencer: R.Sequencer
    var outbox: seq<Record>

    ghost predicate Valid()
      reads this, oms, oms.orders, oms.index
      reads sequencer, sequencer.pool, sequencer.pool.slots, sequencer.cache, sequencer.cache.ring
    {
      oms.Valid() && sequencer.Valid()
    }

    ghost function View(): State
      reads this, oms, oms.orders, oms.index
      reads sequencer, sequencer.pool, sequencer.pool.slots, sequencer.cache, sequencer.cache.ring
    {
      sequencer.View(oms.View())
    }

    constructor (capacity: nat, hash: Ref -> nat, poolCapacity: nat, cacheCapacity: nat)
      ensures Valid() && outbox == [] && View().store == S.Empty(capacity)
    {
      oms := new Oms(capacity, hash);
      sequencer := new R.Sequencer(poolCapacity, cacheCapacity);
      outbox := [];
    }

    /** Applies one request to the store, or through the sequencer. */
    method Perform(req: Request) returns (ok: bool)
      requires Valid() && WellFormed(req)
      modifies oms, oms.orders, oms.index
      modifies sequencer.pool, sequencer.pool.slots, sequencer.cache, sequencer.cache.ring
      ensures Valid()
      ensures (View(), ok) == Apply(old(View()), req)
    {
      hide Oms.Valid, Process, S.Create, S.Transition, S.Fill, S.Replace, T.Step, T.Moved, T.SlotFor;
      match req {
        case CreateReq(ref, symbol, volume, approved) =>
          if approved { ok := oms.Create(ref, symbol, volume); } else { ok := false; }
        case FindReq(ref) =>
          var found := oms.Find(ref);
          ok := found.Some?;
        case TransitionReq(ref, target) => ok := oms.Transition(ref, target);
        case FillReq(ref, volume) => ok := oms.Fill(ref, volume);
        case ReplaceReq(ref, price, volume) => ok := oms.Replace(ref, price, volume);
        case ReportReq(_, report) =>
          var outcome := sequencer.Process(oms, report);
          ok := outcome.Applied?;
      }
    }

    /** Applies one request under the global sequence number `ts` and pushes its records. */
    method ApplyRequest(req: Request, ts: nat) returns (ok: bool)
      requires Valid() && WellFormed(req)
      modifies this, oms, oms.orders, oms.index
      modifies sequencer.pool, sequencer.pool.slots, sequencer.cache, sequencer.cache.ring
      ensures Valid()
      ensures (View(), ok) == Apply(old(View()), req)
      ensures outbox == old(outbox) + Records(old(View()), req, ts)
    {
      hide Oms.Valid, Apply, Emit, T.SlotFor;
      var before := oms.Find(req.ref);
      ok := Perform(req);
      if ok {
        var after := oms.Find(req.ref);
        outbox := outbox + Emit(ts, req, before, if after.Some? then after.value.symbol else 0);
      }
    }
  }
}
