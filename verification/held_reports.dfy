/** What the cascade over held reports does to an order, read off the reports that are held. The journal does not record
    it, so a report can be replayed only when the cascade it sets off comes to nothing. */
module HeldReports {
  import opened ExecTypes
  import opened ReportSpec
  import W = ShardedOms

  // ---- what the journal knows of a live order ----

  /** Price falls back to the placeholder, and the send is taken for granted. */
  function Image(o: Order): Order {
    o.(limitPrice := W.PriorPrice(o), state := if o.state.PendingSend? then Sent else o.state, lastSeq := 0)
  }

  /** The drain after a report changes nothing the journal would have had to record. */
  predicate DrainIsSilent(st: State, ref: Ref)
    requires CacheOk(st.cache)
  {
    var a, b := W.Lookup(st.store.live, ref), W.Lookup(Drain(st, ref).store.live, ref);
    a.Some? == b.Some? && (a.Some? ==> Image(a.value) == Image(b.value))
  }

  // ---- the guard, on the pool ----

  /** The held reports of an order with consecutive numbers from `n` on. */
  function Chain(slots: Slots, ref: Ref, n: nat): seq<ExecReport>
    decreases Held(slots)
  {
    var i := FirstMatch(slots, ref, n, 0);
    if i == |slots| then []
    else
      HeldUpdate(slots, i, None);
      [slots[i].value] + Chain(slots[i := None], ref, n + 1)
  }

  predicate TakesReplace(o: Order, r: ExecReport) {
    r.kind.ReplaceAck? && !IsTerminal(o.state) && !o.state.Unknown? && r.volume > o.filled
  }

  /** How many reports at the beginning are replaces that the order takes. */
  function Replaces(o: Order, chain: seq<ExecReport>): (k: nat)
    ensures k <= |chain| && (k < |chain| ==> !TakesReplace(o, chain[k])) && forall i | 0 <= i < k :: TakesReplace(o, chain[i])
  {
    if chain == [] || !TakesReplace(o, chain[0]) then 0 else 1 + Replaces(o, chain[1..])
  }

  /** A report that would move the order on; a fill that fits adds its volume even when it is refused. */
  predicate Acts(o: Order, r: ExecReport) {
    match r.kind
    case AckReport => Legal(o.state, Acknowledged)
    case CancelPendingReport => Legal(o.state, CancelPending)
    case CancelledReport => Legal(o.state, Cancelled)
    case RejectReport => Legal(o.state, Rejected)
    case FillReport => 0 < r.volume <= o.Remaining()
    case ReplaceAck => TakesReplace(o, r)
  }

  /** The held reports come to nothing: replaces, the last of which restates the volume and the recorded price, and after
      them nothing that acts on the order. */
  predicate Quiet(o: Order, chain: seq<ExecReport>) {
    var k := Replaces(o, chain);
    && (k > 0 ==> chain[k - 1].volume == o.requested && W.PriorPrice(o.(limitPrice := chain[k - 1].price)) == W.PriorPrice(o))
    && (k < |chain| ==> !Acts(o, chain[k]))
  }

  // ---- the cascade on one order ----

  function Drained(o: Order, chain: seq<ExecReport>): Option<Order>
    decreases |chain|
  {
    if chain == [] then Some(o)
    else
      match ApplyToOrder(o, chain[0])
      case Lives(q) => Drained(q, chain[1..])
      case Refused(q) => Some(q)
      case Ends => None
  }

  lemma DrainEnded(st: State, ref: Ref)
    requires CacheOk(st.cache) && ref !in st.store.live
    ensures Drain(st, ref).store == st.store
  {
  }

  lemma LivesOn(o: Order, r: ExecReport)
    ensures ApplyToOrder(o, r).Lives? ==> ApplyToOrder(o, r).order.lastSeq == r.seq_
  {
  }

  /** The drain does to its order what the held reports, taken by number, do to it one after the other. */
  lemma {:induction false} DrainIsDrained(st: State, ref: Ref)
    requires CacheOk(st.cache) && ref in st.store.live
    ensures var o := st.store.live[ref];
            W.Lookup(Drain(st, ref).store.live, ref) == Drained(o, Chain(st.slots, ref, o.lastSeq + 1))
    decreases Held(st.slots)
  {
    hide ApplyOne, Drain, ApplyToOrder;
    var o := st.store.live[ref];
    var i := FirstMatch(st.slots, ref, o.lastSeq + 1, 0);
    DrainUnfolds(st, ref);
    if i < |st.slots| {
      var r := st.slots[i].value;
      var taken := st.(slots := st.slots[i := None]);
      HeldUpdate(st.slots, i, None);
      ApplyOneIsLocal(taken, r);
      LivesOn(o, r);
      var st1 := ApplyOne(taken, r).0;
      assert Chain(st.slots, ref, o.lastSeq + 1)[1..] == Chain(taken.slots, ref, o.lastSeq + 2);
      if ApplyToOrder(o, r).Lives? {
        DrainIsDrained(st1, ref);
      } else if ApplyToOrder(o, r).Ends? {
        DrainEnded(st1, ref);
      }
    }
  }

  /** How far an order has come. */
  function Rank(s: OrderState): nat {
    match s
    case Acknowledged => 1
    case PartiallyFilled => 2
    case CancelPending => 3
    case _ => 0
  }

  predicate Later(a: Order, b: Order) {
    Rank(b.state) > Rank(a.state) || (Rank(b.state) == Rank(a.state) && b.filled > a.filled)
  }

  predicate NotEarlier(a: Order, b: Order) {
    Later(a, b) || (Rank(b.state) == Rank(a.state) && b.filled == a.filled)
  }

  /** A report that acts and is not a replace takes the order further or ends it; any other leaves it where it is. */
  lemma ReportMovesOn(o: Order, r: ExecReport)
    ensures var res := ApplyToOrder(o, r);
            && (res.Ends? || NotEarlier(o, res.order))
            && (!r.kind.ReplaceAck? && Acts(o, r) ==> res.Ends? || Later(o, res.order))
            && (!Acts(o, r) ==> res == Refused(o))
  {
  }

  lemma {:induction false} DrainedIsNotEarlier(o: Order, chain: seq<ExecReport>)
    ensures Drained(o, chain).Some? ==> NotEarlier(o, Drained(o, chain).value)
    decreases |chain|
  {
    if chain != [] {
      ReportMovesOn(o, chain[0]);
      var res := ApplyToOrder(o, chain[0]);
      hide ApplyToOrder, Acts;
      if res.Lives? { DrainedIsNotEarlier(res.order, chain[1..]); }
    }
  }

  /** An order that has come further does not look the same to the journal. */
  lemma LaterLooksDifferent(a: Order, b: Order)
    requires Later(a, b)
    ensures Image(a) != Image(b)
  {
  }

  /** The order once the replaces it takes have been applied. */
  function Restated(o: Order, chain: seq<ExecReport>): Order {
    var k := Replaces(o, chain);
    if k == 0 then o
    else o.(limitPrice := chain[k - 1].price, requested := chain[k - 1].volume, lastSeq := chain[k - 1].seq_)
  }

  lemma {:induction false} ReplacesApart(o: Order, chain: seq<ExecReport>)
    ensures Drained(o, chain) == Drained(Restated(o, chain), chain[Replaces(o, chain)..])
    decreases |chain|
  {
    if chain != [] && TakesReplace(o, chain[0]) {
      var tail := chain[1..];
      var q := o.(limitPrice := chain[0].price, requested := chain[0].volume, lastSeq := chain[0].seq_);
      assert ApplyToOrder(o, chain[0]) == Lives(q);
      ReplacesApart(q, tail);
      SameReplaces(o, q, tail);
      assert tail[Replaces(q, tail)..] == chain[Replaces(o, chain)..];
    } else {
      assert chain[0..] == chain;
    }
  }

  /** Which replaces are taken depends on the state and the filled volume only. */
  lemma {:induction false} SameReplaces(o: Order, q: Order, chain: seq<ExecReport>)
    requires o.state == q.state && o.filled == q.filled
    ensures Replaces(o, chain) == Replaces(q, chain)
    decreases |chain|
  {
    if chain != [] { SameReplaces(o, q, chain[1..]); }
  }

  /** After its replaces, an order looks the same exactly when it does so at once and nothing more acts on it. */
  lemma RestIsSilent(o: Order, z: Order, rest: seq<ExecReport>)
    requires z == o.(limitPrice := z.limitPrice, requested := z.requested, lastSeq := z.lastSeq)
    requires rest != [] ==> !TakesReplace(z, rest[0])
    ensures (Drained(z, rest).Some? && Image(Drained(z, rest).value) == Image(o))
            <==> Image(z) == Image(o) && (rest == [] || !Acts(z, rest[0]))
  {
    if rest != [] {
      var r := rest[0];
      ReportMovesOn(z, r);
      DrainedIsNotEarlier(z, rest);
      var res := ApplyToOrder(z, r);
      if res.Lives? { DrainedIsNotEarlier(res.order, rest[1..]); }
      hide ApplyToOrder, Acts, Image;
      if Acts(z, r) && Drained(z, rest).Some? {
        assert Later(o, Drained(z, rest).value);
        LaterLooksDifferent(o, Drained(z, rest).value);
      }
    }
  }

  lemma SilentIffQuietOrder(o: Order, chain: seq<ExecReport>)
    ensures (Drained(o, chain).Some? && Image(Drained(o, chain).value) == Image(o)) <==> Quiet(o, chain)
  {
    var k := Replaces(o, chain);
    var z := Restated(o, chain);
    ReplacesApart(o, chain);
    RestIsSilent(o, z, chain[k..]);
  }

  /** The drain is silent exactly when the held reports are quiet. */
  lemma SilentIffQuiet(st: State, ref: Ref)
    requires CacheOk(st.cache)
    ensures DrainIsSilent(st, ref)
            <==> (ref in st.store.live ==> Quiet(st.store.live[ref], Chain(st.slots, ref, st.store.live[ref].lastSeq + 1)))
  {
    hide Drain, Chain, Quiet, Drained;
    if ref in st.store.live {
      DrainIsDrained(st, ref);
      SilentIffQuietOrder(st.store.live[ref], Chain(st.slots, ref, st.store.live[ref].lastSeq + 1));
    } else {
      DrainEnded(st, ref);
    }
  }

  /** With no held report for the next number the drain is silent. */
  lemma NothingHeldIsSilent(st: State, ref: Ref)
    requires CacheOk(st.cache) && ref in st.store.live
    requires forall i | 0 <= i < |st.slots| :: !Matches(st.slots[i], ref, st.store.live[ref].lastSeq + 1)
    ensures DrainIsSilent(st, ref)
  {
    SilentIffQuiet(st, ref);
  }
}
