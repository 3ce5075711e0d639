/** What the execution-report sequencer does, on values: the reorder pool as a sequence of slots,
    the cache of recently finished references as a ring, and the order store as a map. */
module ReportSpec {
  import opened ExecTypes
  import S = OmsSpec

  datatype ReportKind = AckReport | FillReport | CancelPendingReport | CancelledReport | RejectReport | ReplaceAck

  /** A venue report; `seq_` counts from 1 per order. For ReplaceAck, `volume` and `price` are the new ones. */
  datatype ExecReport = ExecReport(ref: Ref, seq_: nat, kind: ReportKind, volume: int, price: int)

  datatype ReportOutcome =
    | Applied
    | Duplicate
    | HeldForGap
    | UnknownOrder
    | TerminalLate
    | Illegal
    | GapPoolExhausted

  type Slots = seq<Option<ExecReport>>

  datatype Cache = Cache(ring: seq<Ref>, write: nat, count: nat)

  datatype State = State(store: S.Store, slots: Slots, cache: Cache)

  // ---- the reorder pool ----

  predicate IsFor(slot: Option<ExecReport>, ref: Ref) {
    slot.Some? && slot.value.ref == ref
  }

  predicate Matches(slot: Option<ExecReport>, ref: Ref, seq_: nat) {
    IsFor(slot, ref) && slot.value.seq_ == seq_
  }

  function FirstFree(slots: Slots, i: nat): (r: nat)
    requires i <= |slots|
    ensures i <= r <= |slots| && (r < |slots| ==> slots[r].None?)
    ensures forall k | i <= k < r :: slots[k].Some?
    decreases |slots| - i
  {
    if i == |slots| || slots[i].None? then i else FirstFree(slots, i + 1)
  }

  function FirstMatch(slots: Slots, ref: Ref, seq_: nat, i: nat): (r: nat)
    requires i <= |slots|
    ensures i <= r <= |slots| && (r < |slots| ==> Matches(slots[r], ref, seq_))
    ensures forall k | i <= k < r :: !Matches(slots[k], ref, seq_)
    decreases |slots| - i
  {
    if i == |slots| || Matches(slots[i], ref, seq_) then i else FirstMatch(slots, ref, seq_, i + 1)
  }

  function Discard(slots: Slots, ref: Ref): (r: Slots)
    ensures |r| == |slots|
    ensures forall i | 0 <= i < |slots| :: r[i] == if IsFor(slots[i], ref) then None else slots[i]
  {
    seq(|slots|, i requires 0 <= i < |slots| => if IsFor(slots[i], ref) then None else slots[i])
  }

  function Held(slots: Slots): nat {
    if slots == [] then 0 else Held(slots[..|slots| - 1]) + (if slots[|slots| - 1].Some? then 1 else 0)
  }

  lemma {:induction false} HeldUpdate(slots: Slots, i: nat, v: Option<ExecReport>)
    requires i < |slots|
    ensures Held(slots[i := v]) == Held(slots) + (if v.Some? then 1 else 0) - (if slots[i].Some? then 1 else 0)
  {
    var last := |slots| - 1;
    if i == last {
      assert slots[i := v][..last] == slots[..last];
    } else {
      assert slots[i := v][..last] == slots[..last][i := v];
      HeldUpdate(slots[..last], i, v);
    }
  }

  lemma {:induction false} HeldAll(slots: Slots)
    ensures Held(slots) <= |slots|
    ensures Held(slots) == |slots| <==> forall i | 0 <= i < |slots| :: slots[i].Some?
    ensures Held(slots) == 0 <==> forall i | 0 <= i < |slots| :: slots[i].None?
  {
    if slots != [] {
      HeldAll(slots[..|slots| - 1]);
    }
  }

  lemma {:induction false} HeldDiscard(slots: Slots, ref: Ref)
    ensures Held(Discard(slots, ref)) <= Held(slots)
  {
    if slots != [] {
      var last := |slots| - 1;
      HeldDiscard(slots[..last], ref);
      assert Discard(slots, ref)[..last] == Discard(slots[..last], ref);
    }
  }

  // ---- the cache of finished references ----

  function Record(c: Cache, ref: Ref): Cache
    requires |c.ring| > 0
  {
    Cache(c.ring[c.write % |c.ring| := ref], c.write + 1, if c.count < |c.ring| then c.count + 1 else c.count)
  }

  predicate Remembers(c: Cache, ref: Ref)
    requires c.count <= |c.ring|
  {
    ref in c.ring[..c.count]
  }

  predicate CacheOk(c: Cache) {
    |c.ring| > 0 && c.count <= |c.ring|
  }

  // ---- applying one report ----

  function ApplyKind(s: S.Store, r: ExecReport): S.Outcome {
    match r.kind
    case AckReport => S.Transition(s, r.ref, Acknowledged)
    case FillReport => S.Fill(s, r.ref, r.volume)
    case CancelPendingReport => S.Transition(s, r.ref, CancelPending)
    case CancelledReport => S.Transition(s, r.ref, Cancelled)
    case RejectReport => S.Transition(s, r.ref, Rejected)
    case ReplaceAck => S.Replace(s, r.ref, r.price, r.volume)
  }

  /** A live order is stamped with the report's number; a finished one is remembered in the cache. */
  function ApplyOne(st: State, r: ExecReport): (res: (State, bool))
    requires CacheOk(st.cache)
    ensures CacheOk(res.0.cache) && res.0.slots == st.slots
  {
    var out := ApplyKind(st.store, r);
    if !out.ok then (st.(store := out.store), false)
    else if r.ref in out.store.live then
      (st.(store := out.store.(live := out.store.live[r.ref := out.store.live[r.ref].(lastSeq := r.seq_)])), true)
    else (st.(store := out.store, cache := Record(st.cache, r.ref)), true)
  }

  /** Applies held reports for `ref` for as long as the next number is held. */
  function Drain(st: State, ref: Ref): (res: State)
    requires CacheOk(st.cache)
    ensures CacheOk(res.cache) && |res.slots| == |st.slots|
    decreases Held(st.slots)
  {
    if ref !in st.store.live then st.(slots := Discard(st.slots, ref))
    else
      var i := FirstMatch(st.slots, ref, st.store.live[ref].lastSeq + 1, 0);
      if i == |st.slots| then st
      else
        HeldUpdate(st.slots, i, None);
        var (st', ok) := ApplyOne(st.(slots := st.slots[i := None]), st.slots[i].value);
        if ok then Drain(st', ref) else st'
  }

  function Process(st: State, r: ExecReport): (res: (State, ReportOutcome))
    requires CacheOk(st.cache)
    ensures CacheOk(res.0.cache) && |res.0.slots| == |st.slots|
  {
    if r.ref !in st.store.live then (st, if Remembers(st.cache, r.ref) then TerminalLate else UnknownOrder)
    else
      var o := st.store.live[r.ref];
      if r.seq_ <= o.lastSeq then (st, Duplicate)
      else if r.seq_ > o.lastSeq + 1 then
        var i := FirstFree(st.slots, 0);
        if i == |st.slots| then (st, GapPoolExhausted)
        else (st.(slots := st.slots[i := Some(r)]), HeldForGap)
      else
        var (st', ok) := ApplyOne(st, r);
        if ok then (Drain(st', r.ref), Applied) else (st', Illegal)
  }

  function ProcessAll(st: State, reports: seq<ExecReport>): (res: State)
    requires CacheOk(st.cache)
    ensures CacheOk(res.cache) && |res.slots| == |st.slots|
  {
    if reports == [] then st
    else Process(ProcessAll(st, reports[..|reports| - 1]), reports[|reports| - 1]).0
  }

  // ---- one order's share of it ----

  datatype OrderResult = Lives(order: Order) | Ends | Refused(order: Order)

  function StampOrEnd(o: Order, next: OrderState, seq_: nat): OrderResult {
    if !Legal(o.state, next) then Refused(o)
    else if IsTerminal(next) then Ends
    else Lives(o.(state := next, lastSeq := seq_))
  }

  /** The effect of a report on its own order. A refused fill still leaves its volume in `filled`. */
  function ApplyToOrder(o: Order, r: ExecReport): OrderResult {
    match r.kind
    case AckReport => StampOrEnd(o, Acknowledged, r.seq_)
    case CancelPendingReport => StampOrEnd(o, CancelPending, r.seq_)
    case CancelledReport => StampOrEnd(o, Cancelled, r.seq_)
    case RejectReport => StampOrEnd(o, Rejected, r.seq_)
    case FillReport =>
      if r.volume <= 0 || r.volume > o.Remaining() then Refused(o)
      else StampOrEnd(o.(filled := o.filled + r.volume), S.FillTarget(o, r.volume), r.seq_)
    case ReplaceAck =>
      if IsTerminal(o.state) || o.state.Unknown? || r.volume <= o.filled then Refused(o)
      else Lives(o.(limitPrice := r.price, requested := r.volume, lastSeq := r.seq_))
  }

  function WithResult(live: map<Ref, Order>, ref: Ref, res: OrderResult): map<Ref, Order> {
    match res
    case Lives(o) => live[ref := o]
    case Refused(o) => live[ref := o]
    case Ends => live - {ref}
  }

  /** Applying a report touches no other order. */
  lemma ApplyOneIsLocal(st: State, r: ExecReport)
    requires CacheOk(st.cache) && r.ref in st.store.live
    ensures var res := ApplyToOrder(st.store.live[r.ref], r);
            && ApplyOne(st, r).0.store.live == WithResult(st.store.live, r.ref, res)
            && ApplyOne(st, r).1 == !res.Refused?
  {
    var o := st.store.live[r.ref];
    assert st.store.live[r.ref := o] == st.store.live;
    if r.kind.FillReport? {
      var o' := o.(filled := o.filled + r.volume);
      assert st.store.live[r.ref := o'] - {r.ref} == st.store.live - {r.ref};
    }
  }

  /** The drain, one turn at a time. */
  lemma DrainUnfolds(st: State, ref: Ref)
    requires CacheOk(st.cache)
    ensures ref !in st.store.live ==> Drain(st, ref) == st.(slots := Discard(st.slots, ref))
    ensures ref in st.store.live ==>
      var i := FirstMatch(st.slots, ref, st.store.live[ref].lastSeq + 1, 0);
      if i == |st.slots| then Drain(st, ref) == st
      else
        var (st1, ok) := ApplyOne(st.(slots := st.slots[i := None]), st.slots[i].value);
        Drain(st, ref) == if ok then Drain(st1, ref) else st1
  {
    hide ApplyOne;
  }
}
