/** Streaming recovery: consumes journal records one at a time, checks each against the state rebuilt so
    far, and fails closed at the first record that does not fit. */
module RecoveryStreaming {
  import opened ExecTypes
  import S = OmsSpec
  import opened OmsStore
  import opened Words
  import opened Journal

  datatype Position = Position(symbol: nat, side: Side, volume: int, avgPrice: int, realized: int, closed: bool)

  datatype Account = Account(balance: int, equity: int, marginUsed: int, freeMargin: int,
                             realized: int, unrealized: int, commission: int)

  datatype Counters = Counters(commands: nat, acks: nat, rejections: nat, fills: nat, cancels: nat, replacements: nat)

  /** The state rebuilt so far. The store itself is passed alongside, since it is updated in place. */
  datatype Ledger = Ledger(
    lastTs: nat,
    haveAccount: bool,
    havePnl: bool,
    account: Account,
    positions: map<nat, Position>,
    netting: bool,
    counters: Counters)

  datatype Replay = Replay(store: S.Store, ledger: Ledger)

  function FreshLedger(netting: bool): Ledger {
    Ledger(0, false, false, Account(0, 0, 0, 0, 0, 0, 0), map[], netting, Counters(0, 0, 0, 0, 0, 0))
  }

  /** The checks every record must pass, whatever its kind. */
  predicate HeaderOk(l: Ledger, r: Record) {
    r.reserved == 0 && r.ts >= l.lastTs && r.symbol < MAX_SYMBOLS && 1 <= r.kind <= 10
  }

  function SideOf(a: int): Side { if a == 0 then Buy else Sell }

  /** Position updates open, change or close a ticket; a closed ticket never comes back. */
  function ApplyPosition(l: Ledger, r: Record): Option<Ledger> {
    if r.logicalId != 0 || r.ticket == 0 || r.a < 0 || r.a > 1 || r.b < 0 || r.c < 0 then None
    else
      var p := Position(r.symbol, SideOf(r.a), r.b, r.c, r.d, r.b == 0);
      var known := r.ticket in l.positions;
      if known && (l.positions[r.ticket].symbol != r.symbol || l.positions[r.ticket].side != p.side ||
                   l.positions[r.ticket].closed) then None
      else if !known && (r.b == 0 || |l.positions| >= MAX_POSITIONS) then None
      else if l.netting && exists t <- l.positions :: t != r.ticket && l.positions[t].symbol == r.symbol then None
      else Some(l.(positions := l.positions[r.ticket := p]))
  }

  function ApplyAccount(l: Ledger, r: Record): Option<Ledger> {
    if r.logicalId != 0 || r.ticket != 0 || r.c < 0 || r.d < 0 || r.b - r.c != r.d then None
    else
      var account := l.account.(balance := r.a, equity := r.b, marginUsed := r.c, freeMargin := r.d);
      Some(l.(account := account, haveAccount := true, havePnl := false))
  }

  function ApplyPnl(l: Ledger, r: Record): Option<Ledger> {
    if r.logicalId != 0 || r.ticket != 0 || r.d != 0 || !l.haveAccount || l.havePnl ||
       l.account.equity != l.account.balance + r.b then None
    else
      var account := l.account.(realized := r.a, unrealized := r.b, commission := r.c);
      Some(l.(account := account, havePnl := true))
  }

  function ApplyCommand(s: S.Store, r: Record): S.Outcome {
    if r.runId == 0 || r.logicalId == 0 || r.ticket != 0 || r.a < 0 || r.a > 1 || r.b <= 0 || r.c < 0 ||
       r.d < 0 || r.d > 1 then S.Outcome(s, false)
    else S.Restore(s, Order(RefOf(r), r.symbol, r.b, 0, r.c, Sent, 0))
  }

  function ApplyState(s: S.Store, r: Record): S.Outcome {
    if StateOfCode(r.a).None? || StateOfCode(r.b).None? || r.ticket != 0 || r.c < 0 || r.d < 0
    then S.Outcome(s, false)
    else
      var ref, from, to := RefOf(r), StateOfCode(r.a).value, StateOfCode(r.b).value;
      if ref !in s.live && from.PendingSend? && to.Sent? then S.Outcome(s, true)
      else if ref !in s.live || s.live[ref].state != from || s.live[ref].filled != r.c || s.live[ref].requested != r.d
      then S.Outcome(s, false)
      else S.Transition(s, ref, to)
  }

  predicate FillRecordOk(s: S.Store, r: Record) {
    RefOf(r) in s.live && r.ticket != 0 && r.a > 0 && r.b > 0 && r.c >= 0 && (r.d == 0 || r.d == 1)
  }

  predicate ReplaceRecordOk(s: S.Store, r: Record) {
    var ref := RefOf(r);
    && ref in s.live && s.live[ref].state.Acknowledged?
    && r.a > 0 && r.b > 0 && r.c > 0 && r.d > 0 && r.d >= s.live[ref].filled
    && r.a == s.live[ref].limitPrice && r.c == s.live[ref].requested
  }

  /** A confirmation only counts; it checks that the order is in the state it confirms. */
  predicate Confirms(s: S.Store, r: Record, state: OrderState) {
    RefOf(r) in s.live && s.live[RefOf(r)].state == state && r.a >= 0 && r.ticket == 0
  }

  /** The effect of one record on the orders. */
  function StoreStep(s: S.Store, r: Record): S.Outcome {
    if r.kind == COMMAND then ApplyCommand(s, r)
    else if r.kind == ORDER_STATE then ApplyState(s, r)
    else if r.kind == ACKNOWLEDGEMENT then S.Outcome(s, Confirms(s, r, Acknowledged))
    else if r.kind == REJECTION then
      S.Outcome(s, r.a > 0 && (r.logicalId == 0 || (RefOf(r) in s.live && s.live[RefOf(r)].state.Sent?)))
    else if r.kind == FILL then
      if FillRecordOk(s, r) then S.RecoverFill(s, RefOf(r), r.b) else S.Outcome(s, false)
    else if r.kind == CANCEL then S.Outcome(s, Confirms(s, r, CancelPending))
    else if r.kind == REPLACE then
      if ReplaceRecordOk(s, r) then
        var o := s.live[RefOf(r)];
        S.Outcome(s.(live := s.live[RefOf(r) := o.(limitPrice := r.b, requested := r.d)]), true)
      else S.Outcome(s, false)
    else S.Outcome(s, true)
  }

  function Counted(c: Counters, kind: nat): Counters {
    if kind == COMMAND then c.(commands := c.commands + 1)
    else if kind == ACKNOWLEDGEMENT then c.(acks := c.acks + 1)
    else if kind == REJECTION then c.(rejections := c.rejections + 1)
    else if kind == FILL then c.(fills := c.fills + 1)
    else if kind == CANCEL then c.(cancels := c.cancels + 1)
    else if kind == REPLACE then c.(replacements := c.replacements + 1)
    else c
  }

  /** The effect of one record on everything but the orders. */
  function LedgerStep(l: Ledger, r: Record): Option<Ledger> {
    var l' := l.(lastTs := r.ts, counters := Counted(l.counters, r.kind));
    if r.kind == POSITION_UPDATE then ApplyPosition(l', r)
    else if r.kind == ACCOUNT_UPDATE then ApplyAccount(l', r)
    else if r.kind == PNL_UPDATE then ApplyPnl(l', r)
    else Some(l')
  }

  function ReadStep(p: Replay, r: Record): Option<Replay> {
    if !HeaderOk(p.ledger, r) then None
    else
      var out := StoreStep(p.store, r);
      var l := LedgerStep(p.ledger, r);
      if out.ok && l.Some? then Some(Replay(out.store, l.value)) else None
  }

  // ---- the duplicate window ----

  /** What the window stores for a hash; 0 marks an empty slot and is stored as 1. */
  function Stored(h: nat): nat { if h == 0 then 1 else h }

  /** Reading `records` with the window's table, stopping at the first misfit or duplicate. */
  function ReadAll(p: Replay, table: seq<nat>, hash: Record -> nat, records: seq<Record>): Option<Replay>
    requires |table| > 0
    decreases |records|
  {
    if records == [] then Some(p)
    else
      var r := records[0];
      var h := hash(r);
      var slot := h % |table|;
      if !HeaderOk(p.ledger, r) || (table[slot] == h && h != 0) then None
      else
        match ReadStep(p, r)
        case None => None
        case Some(p') => ReadAll(p', table[slot := Stored(h)], hash, records[1..])
  }

  class DuplicateWindow {
    const hash: Record -> nat
    const table: array<nat>

    /** The window is a power of two, so masking the hash is `hash % capacity`. */
    constructor (window: nat, hash: Record -> nat)
      ensures fresh(table) && this.hash == hash
      ensures table.Length > 0 && IsPowerOfTwo(table.Length) && window <= table.Length
      ensures table[..] == seq(table.Length, _ => 0)
    {
      var n := NextPowerOfTwo(if window == 0 then 1 else window);
      this.hash := hash;
      table := new nat[n](i => 0);
    }

    method CheckAndRecord(r: Record) returns (duplicate: bool)
      requires table.Length > 0
      modifies table
      ensures var h := hash(r);
              var slot := h % table.Length;
              && duplicate == (old(table[slot]) == h && h != 0)
              && table[..] == old(table[..])[slot := Stored(h)]
    {
      var h := hash(r);
      var slot := h % table.Length;
      duplicate := table[slot] == h && h != 0;
      table[slot] := if h == 0 then 1 else h;
    }
  }

  // ---- the loop ----

  /** What recovery makes of an order still live at the end: anything not finished is ambiguous. */
  function Marked(o: Order): Order {
    if IsTerminal(o.state) then o else o.(state := Unknown)
  }

  /** The orders of `live`, those in `refs` marked. */
  function MarkSome(live: map<Ref, Order>, refs: set<Ref>): map<Ref, Order> {
    map r | r in live :: if r in refs then Marked(live[r]) else live[r]
  }

  function MarkAll(live: map<Ref, Order>): map<Ref, Order> {
    map r | r in live :: Marked(live[r])
  }

  function Finish(p: Replay): Option<Replay> {
    if p.ledger.haveAccount != p.ledger.havePnl then None
    else Some(p.(store := p.store.(live := MarkAll(p.store.live))))
  }

  function Recover(capacity: nat, netting: bool, window: nat, hash: Record -> nat, records: seq<Record>): Option<Replay>
    requires window > 0
  {
    match ReadAll(Replay(S.Empty(capacity), FreshLedger(netting)), seq(window, _ => 0), hash, records)
    case None => None
    case Some(p) => Finish(p)
  }

  /** Applies one record to the store in place. */
  method ApplyToStore(o: Oms, r: Record) returns (ok: bool)
    requires o.Valid()
    modifies o, o.orders, o.index
    ensures o.Valid()
    ensures ok == StoreStep(old(o.View()), r).ok
    ensures ok ==> o.View() == StoreStep(old(o.View()), r).store
  {
    hide IndexTable.Holds;
    var ref := RefOf(r);
    var order := o.Find(ref);
    if r.kind == COMMAND {
      if r.runId == 0 || r.logicalId == 0 || r.ticket != 0 || r.a < 0 || r.a > 1 || r.b <= 0 || r.c < 0 ||
         r.d < 0 || r.d > 1 {
        return false;
      }
      ok := o.Restore(Order(ref, r.symbol, r.b, 0, r.c, Sent, 0));
    } else if r.kind == ORDER_STATE {
      var from, to := StateOfCode(r.a), StateOfCode(r.b);
      if from.None? || to.None? || r.ticket != 0 || r.c < 0 || r.d < 0 {
        return false;
      }
      if order.None? && from.value.PendingSend? && to.value.Sent? {
        return true;
      }
      if order.None? || order.value.state != from.value || order.value.filled != r.c || order.value.requested != r.d {
        return false;
      }
      ok := o.Transition(ref, to.value);
    } else if r.kind == ACKNOWLEDGEMENT {
      ok := order.Some? && order.value.state.Acknowledged? && r.a >= 0 && r.ticket == 0;
    } else if r.kind == REJECTION {
      ok := r.a > 0 && (r.logicalId == 0 || (order.Some? && order.value.state.Sent?));
    } else if r.kind == FILL {
      if order.None? || r.ticket == 0 || r.a <= 0 || r.b <= 0 || r.c < 0 || (r.d != 0 && r.d != 1) {
        return false;
      }
      ok := o.RecoverFill(ref, r.b);
    } else if r.kind == CANCEL {
      ok := order.Some? && order.value.state.CancelPending? && r.a >= 0 && r.ticket == 0;
    } else if r.kind == REPLACE {
      if order.None? || !order.value.state.Acknowledged? || r.a <= 0 || r.b <= 0 || r.c <= 0 || r.d <= 0 ||
         r.d < order.value.filled || r.a != order.value.limitPrice || r.c != order.value.requested {
        return false;
      }
      var found, slot := o.SlotOf(ref);
      o.Write(slot, order.value.(limitPrice := r.b, requested := r.d));
      ok := true;
    } else {
      ok := true;
    }
  }

  /** The records of a source, which ends cleanly or in a corrupt frame. */
  method RecoverStreaming(source: seq<Record>, corrupt: bool, capacity: nat, netting: bool, orderHash: Ref -> nat,
                          window: DuplicateWindow)
    returns (ok: bool, next: Oms, ledger: Ledger)
    requires window.table.Length > 0 && window.table[..] == seq(window.table.Length, _ => 0)
    modifies window.table
    ensures next.Valid()
    ensures ok == (!corrupt && Recover(capacity, netting, window.table.Length, window.hash, source).Some?)
    ensures ok ==>
      Replay(next.View(), ledger) == Recover(capacity, netting, window.table.Length, window.hash, source).value
  {
    hide IndexTable.Holds, StoreStep, LedgerStep;
    next := new Oms(capacity, orderHash);
    ledger := FreshLedger(netting);
    ghost var start := Replay(next.View(), ledger);
    ghost var table0 := window.table[..];
    var i := 0;
    assert source[i..] == source;
    while i < |source|
      invariant i <= |source| && next.Valid() && fresh(next) && fresh(next.orders) && fresh(next.index)
      invariant ReadAll(start, table0, window.hash, source)
             == ReadAll(Replay(next.View(), ledger), window.table[..], window.hash, source[i..])
    {
      var r := source[i];
      assert source[i..][0] == r && source[i..][1..] == source[i + 1..];
      if !HeaderOk(ledger, r) {
        return false, next, ledger;
      }
      var duplicate := window.CheckAndRecord(r);
      if duplicate {
        return false, next, ledger;
      }
      var applied := ApplyToStore(next, r);
      var l := LedgerStep(ledger, r);
      if !applied || l.None? {
        return false, next, ledger;
      }
      ledger := l.value;
      i := i + 1;
    }
    if corrupt || ledger.haveAccount != ledger.havePnl {
      return false, next, ledger;
    }
    MarkLive(next);
    return true, next, ledger;
  }

  /** Every order still live and not yet Unknown becomes Unknown. */
  method MarkLive(o: Oms)
    requires o.Valid()
    modifies o.orders, o`live
    ensures o.Valid() && o.View() == old(o.View()).(live := MarkAll(old(o.live)))
  {
    hide IndexTable.Holds, IndexTable.Tombstones, IsPowerOfTwo;
    ghost var before, slot := o.live, o.places.slot;
    ghost var dense := o.orders[..o.count];
    IndexTable.SlotsOfLive(o.hash, o.index[..], dense, o.places, before);
    hide Oms.Valid;
    ghost var done: set<Ref> := {};
    var i := 0;
    while i < o.count
      invariant i <= o.count && o.Valid() && o.live == MarkSome(before, done)
      invariant forall k | 0 <= k < o.count :: o.orders[k].ref == dense[k].ref
      invariant forall k | 0 <= k < i :: dense[k].ref in done
    {
      MarkSlot(o, i);
      assert o.live == MarkSome(before, done + {dense[i].ref});
      done := done + {dense[i].ref};
      i := i + 1;
    }
    assert forall r <- before :: dense[slot[r]].ref in done;
    assert o.live == MarkAll(before);
  }

  method MarkSlot(o: Oms, i: nat)
    requires o.Valid() && i < o.count
    modifies o.orders, o`live
    ensures o.Valid() && forall k | 0 <= k < o.count :: o.orders[k].ref == old(o.orders[k].ref)
    ensures var ref := old(o.orders[i].ref);
            ref in old(o.live) && o.live == old(o.live)[ref := Marked(old(o.live)[ref])]
  {
    hide IndexTable.Holds;
    var order := o.At(i);
    if !IsTerminal(order.state) && !order.state.Unknown? {
      var ok := o.MarkUnknownOnRestart(order.ref);
    }
  }
}
