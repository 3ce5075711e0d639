/** The broker as it runs, over fixed arrays of positions, orders and markets. Every operation does to `View()` what
    the operation of the same name in `BrokerSpec` does. */
module PaperBrokers {
  import opened ExecTypes
  import opened AccountSpec
  import opened BrokerSpec
  import opened Money

  class PositionBook {
    const slots: array<Position>
    var count: nat

    ghost predicate Valid()
      reads this
    {
      slots.Length == MAX_POSITIONS && count <= MAX_POSITIONS
    }

    ghost function View(): seq<Position>
      requires Valid()
      reads this, slots
    {
      slots[..count]
    }

    constructor ()
      ensures Valid() && fresh(slots) && View() == []
    {
      slots := new Position[MAX_POSITIONS](_ => Position(0, 0, Buy, false, 0, 0, 0));
      count := 0;
    }

    method Find(symbol: nat) returns (i: nat)
      requires Valid()
      ensures i == FindSymbol(View(), symbol)
    {
      i := 0;
      ghost var book := View();
      while i < count && !(slots[i].open && slots[i].symbol == symbol)
        invariant i <= count && book == View() && forall k | 0 <= k < i :: !(book[k].open && book[k].symbol == symbol)
      {
        i := i + 1;
      }
      assert i < count ==> book[i] == slots[i];
    }

    /** Reuses the first closed slot, or takes a new one while there is room. */
    method Open(p: Position) returns (ok: bool)
      requires Valid()
      modifies this`count, slots
      ensures Valid() && (View(), ok) == Opened(old(View()), p)
    {
      ghost var book := View();
      var i := 0;
      while i < count && slots[i].open
        invariant i <= count && count == old(count) && forall k | 0 <= k < i :: book[k].open
      {
        i := i + 1;
      }
      assert i < count ==> book[i] == slots[i];
      assert i == FirstClosed(book);
      if i == count {
        if count >= MAX_POSITIONS {
          return false;
        }
        count := count + 1;
      }
      slots[i] := p;
      assert View() == if i < |book| then book[i := p] else book + [p];
      return true;
    }

    method Change(i: nat, p: Position)
      requires Valid() && i < count
      modifies slots
      ensures Valid() && View() == old(View())[i := p]
    {
      slots[i] := p;
    }

    /** Nets one fill into the book. */
    method Net(tickets: nat, symbol: nat, side: Side, price: int, volume: int, tickValue: int)
      returns (realized: int, tickets': nat, ok: bool)
      requires Valid()
      modifies this`count, slots
      ensures Valid()
      ensures FillResult(View(), realized, tickets', ok) == Netted(old(View()), tickets, symbol, side, price, volume, tickValue)
    {
      hide Opened, Added, Realized;
      var i := Find(symbol);
      if i == count {
        ok := Open(Position(tickets + 1, symbol, side, true, volume, price, 0));
        return 0, tickets + 1, ok;
      }
      var p := slots[i];
      if p.side == side {
        Change(i, Added(p, volume, price));
        return 0, tickets, true;
      }
      var closing := if volume < p.volume then volume else p.volume;
      realized := Realized(p, price, closing, tickValue);
      Change(i, Reduced(p, closing, realized));
      if p.volume == closing && volume > closing {
        ok := Open(Position(tickets + 1, symbol, side, true, volume - closing, price, 0));
        return realized, tickets + 1, ok;
      }
      return realized, tickets, true;
    }
  }

  class PaperBroker {
    const specs: seq<Spec>
    const positions: PositionBook
    const orders: array<Ticket>
    const markets: array<Market>
    var live: nat
    var tickets: nat
    var account: Account
    var halted: Option<HaltReason>
    var fills: nat
    ghost var trace: seq<Fill>

    ghost predicate Valid()
      reads this, positions, positions.slots, orders, markets
    {
      && positions.Valid() && orders.Length == MAX_ORDERS && live <= MAX_ORDERS && markets.Length == MAX_SYMBOLS
      && Sized(View(), specs) && forall i | live <= i < MAX_ORDERS :: orders[i] == BLANK
    }

    ghost function View(): Broker
      requires positions.Valid() && live <= orders.Length
      reads this, positions, positions.slots, orders, markets
    {
      Broker(orders[..live], positions.View(), tickets, account, markets[..], halted, fills, trace)
    }

    constructor (specs: seq<Spec>, initial: int)
      requires |specs| == MAX_SYMBOLS
      ensures Valid() && View() == Opening(initial) && this.specs == specs
    {
      this.specs := specs;
      positions := new PositionBook();
      orders := new Ticket[MAX_ORDERS](_ => BLANK);
      markets := new Market[MAX_SYMBOLS](_ => Market(0, 0, 0, 0, false));
      live, tickets, account, halted, fills := 0, 0, Account(initial, 0, 0), None, 0;
      trace := [];
    }

    method ApplyFill(i: nat, price: int, volume: int)
      requires Valid() && i < live
      modifies this, positions`count, positions.slots, orders
      ensures Valid() && live == old(live) && View() == BrokerSpec.ApplyFill(old(View()), specs, i, price, volume)
    {
      hide Netted, Commission;
      ghost var before := View();
      var o := orders[i];
      assert before.orders[i] == o;
      var spec := specs[o.symbol];
      var fee := Commission(spec, volume);
      var realized, tickets', ok := positions.Net(tickets, o.symbol, o.side, price, volume, spec.tickValue);
      tickets := tickets';
      account := Account(account.balance - fee + realized, account.realized + realized, account.commission + fee);
      fills := fills + 1;
      trace := trace + [Traced(o, markets[o.symbol], price, volume)];
      var left := Remaining(o) - volume;
      orders[i] := o.(filled := o.filled + volume, state := if left <= 0 then Filled else PartiallyFilled);
      if !ok && halted.None? {
        halted := Some(CorruptedState);
      }
      assert View().orders == before.orders[i := orders[i]];
    }

    method AttemptFill(i: nat, slip: int)
      requires Valid() && i < live
      modifies this, positions`count, positions.slots, orders
      ensures Valid() && live == old(live) && View() == BrokerSpec.AttemptFill(old(View()), specs, i, slip)
    {
      hide BrokerSpec.ApplyFill, Offer, Impossible;
      var o := orders[i];
      assert View().orders[i] == o;
      var m := markets[o.symbol];
      if !m.valid || Remaining(o) <= 0 || !(o.state.Acknowledged? || o.state.PartiallyFilled?) {
        return;
      }
      var (price, available) := Offer(o, m, slip);
      if price <= 0 {
        HaltFor(InvalidPrice);
        return;
      }
      var volume := if available < Remaining(o) then available else Remaining(o);
      if volume <= 0 {
        return;
      }
      if Impossible(o, m, price) {
        HaltFor(ImpossibleFill);
        return;
      }
      ApplyFill(i, price, volume);
    }

    method HaltFor(reason: HaltReason)
      requires Valid()
      modifies this`halted
      ensures Valid() && View() == Halt(old(View()), reason)
    {
      if halted.None? {
        halted := Some(reason);
      }
    }

    method End(i: nat, state: OrderState)
      requires Valid() && i < live
      modifies orders
      ensures Valid() && View() == Ended(old(View()), i, state)
    {
      ghost var before := View();
      orders[i] := orders[i].(state := state);
      assert View().orders == before.orders[i := orders[i]];
    }

    method ProcessOne(models: Models, now: nat, i: nat)
      requires Valid() && i < live
      modifies this, positions`count, positions.slots, orders
      ensures Valid() && live == old(live) && View() == BrokerSpec.ProcessOne(old(View()), specs, models, now, i)
    {
      hide BrokerSpec.AttemptFill, IsTerminal, Ended;
      var o := orders[i];
      assert View().orders[i] == o;
      if IsTerminal(o.state) {
        return;
      }
      if o.expires != 0 && now >= o.expires {
        End(i, Expired);
        return;
      }
      if now < o.effective {
        return;
      }
      if o.state.Sent? {
        if models.rejects(o.id) {
          End(i, Rejected);
          return;
        }
        End(i, Acknowledged);
      }
      AttemptFill(i, models.slip(o.id));
    }

    method ProcessAll(models: Models, now: nat)
      requires Valid()
      modifies this, positions`count, positions.slots, orders
      ensures Valid() && live == old(live) && View() == Process(old(View()), specs, models, now, |old(View()).orders|)
    {
      hide BrokerSpec.ProcessOne, PaperBroker.Valid;
      Bounds();
      ghost var before := View();
      var i := 0;
      while i < live
        invariant i <= live == |before.orders| && live <= orders.Length && positions.Valid() && Valid() && Sized(before, specs)
        invariant View() == Process(before, specs, models, now, i)
      {
        ProcessOne(models, now, i);
        Bounds();
        i := i + 1;
      }
    }

    lemma Bounds()
      requires Valid()
      ensures live <= orders.Length && positions.Valid() && Sized(View(), specs)
    {
    }

    /** Resting orders of the symbol move forward in the queue. */
    method CreditQueue(models: Models, symbol: nat, m: Market, next: Market)
      requires Valid() && symbol < MAX_SYMBOLS
      modifies orders
      ensures Valid() && View() == old(View()).(orders := CreditAll(old(View().orders), models, symbol, m, next))
    {
      hide CreditAll, Sized;
      SizedCredit(View(), specs, CreditAll(View().orders, models, symbol, m, next));
      CreditOrders(models, symbol, m, next);
    }

    method CreditOrders(models: Models, symbol: nat, m: Market, next: Market)
      requires live <= orders.Length
      modifies orders
      ensures orders[..live] == CreditAll(old(orders[..live]), models, symbol, m, next)
      ensures forall k | live <= k < orders.Length :: orders[k] == old(orders[k])
    {
      hide Credited;
      ghost var before := orders[..];
      var i := 0;
      while i < live
        invariant i <= live && orders[..i] == CreditAll(before[..i], models, symbol, m, next)
        invariant forall k | i <= k < orders.Length :: orders[k] == before[k]
      {
        assert before[..i + 1][..i] == before[..i];
        orders[i] := Credited(orders[i], symbol, m, next, models.queueCredit(orders[i].id));
        assert orders[..i + 1] == orders[..i] + [orders[i]];
        i := i + 1;
      }
      assert before[..live] == old(orders[..live]);
    }

    method OnQuote(models: Models, symbol: nat, next: Market, now: nat, stopsOut: bool)
      requires Valid()
      modifies this, positions`count, positions.slots, orders, markets
      ensures Valid() && View() == Quote(old(View()), specs, models, symbol, next, now, stopsOut)
    {
      hide Process, CreditAll;
      if symbol >= MAX_SYMBOLS {
        return;
      }
      UpdateMarket(models, symbol, next);
      if halted.None? {
        ProcessAll(models, now);
      }
      if stopsOut {
        HaltFor(InsufficientMargin);
      }
    }

    method UpdateMarket(models: Models, symbol: nat, next: Market)
      requires Valid() && symbol < MAX_SYMBOLS
      modifies orders, markets
      ensures Valid() && View() == Updated(old(View()), specs, models, symbol, next)
    {
      hide CreditAll;
      var m := markets[symbol];
      if m.valid {
        CreditQueue(models, symbol, m, next);
      }
      markets[symbol] := next.(valid := next.bid > 0 && next.ask > 0 && next.ask > next.bid);
    }

    /** The slot is taken before the quote and the margin are looked at. */
    method SubmitOrder(r: Request, early: bool, late: bool, effective: nat, queueAhead: int) returns (ok: bool)
      requires Valid()
      modifies this`live, orders
      ensures Valid() && (View(), ok) == Submit(old(View()), specs, r, early, late, effective, queueAhead)
    {
      hide VolumeOk, PriceAligned, IsTerminal;
      if !early || r.symbol >= MAX_SYMBOLS || !specs[r.symbol].tradable || r.volume <= 0 || !VolumeOk(specs[r.symbol], r.volume)
         || (r.limit && !PriceAligned(specs[r.symbol], r.price)) {
        return false;
      }
      ghost var before := View();
      var i := FindFree();
      if i == live {
        if live >= MAX_ORDERS {
          return false;
        }
        live := live + 1;
        assert View().orders == before.orders + [BLANK];
      }
      if !markets[r.symbol].valid || !late {
        return false;
      }
      ghost var taken := View().orders;
      orders[i] := Ticket(r.id, r.symbol, r.side, r.limit, r.volume, 0, r.price, Sent, if r.limit then queueAhead else 0,
                          r.expires, effective);
      assert View().orders == taken[i := orders[i]];
      return true;
    }

    method FindFree() returns (i: nat)
      requires Valid()
      ensures i == FreeSlot(View().orders)
    {
      hide IsTerminal;
      ghost var tickets := View().orders;
      i := 0;
      while i < live && !IsTerminal(orders[i].state)
        invariant i <= live && forall k | 0 <= k < i :: !IsTerminal(tickets[k].state)
      {
        i := i + 1;
      }
      assert i < live ==> tickets[i] == orders[i];
    }

    method FindOrder(id: nat) returns (i: nat)
      requires Valid()
      ensures i == FindLive(View().orders, id)
    {
      hide IsTerminal;
      ghost var tickets := View().orders;
      i := 0;
      while i < live && !(orders[i].id == id && !IsTerminal(orders[i].state))
        invariant i <= live && tickets == View().orders
        invariant forall k | 0 <= k < i :: !(tickets[k].id == id && !IsTerminal(tickets[k].state))
      {
        i := i + 1;
      }
      assert i < live ==> tickets[i] == orders[i];
    }

    method CancelOrder(id: nat) returns (ok: bool)
      requires Valid()
      modifies orders
      ensures Valid() && (View(), ok) == Cancel(old(View()), id)
    {
      hide FindLive, IsTerminal;
      var i := FindOrder(id);
      if i == live {
        return false;
      }
      assert View().orders[i] == orders[i];
      if orders[i].state.Unknown? {
        return false;
      }
      End(i, Cancelled);
      return true;
    }

    method ReplaceOrder(id: nat, price: int, volume: int, queueAhead: int) returns (ok: bool)
      requires Valid()
      modifies orders
      ensures Valid() && (View(), ok) == Replace(old(View()), specs, id, price, volume, queueAhead)
    {
      hide FindLive, IsTerminal, VolumeOk, PriceAligned;
      ghost var before := View();
      var i := FindOrder(id);
      if i == live {
        return false;
      }
      var o := orders[i];
      assert before.orders[i] == o;
      if o.state.Unknown? || volume <= o.filled || !VolumeOk(specs[o.symbol], volume) ||
         (o.limit && !PriceAligned(specs[o.symbol], price)) {
        return false;
      }
      orders[i] := o.(price := price, requested := volume, queueAhead := if o.limit then queueAhead else o.queueAhead);
      assert View().orders == before.orders[i := orders[i]];
      return true;
    }
  }
}
