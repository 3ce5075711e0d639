/** Which orders are filled, at what price and for how much, and what that costs: said of a quote and an order, and of whole
    runs. */
module BrokerFills {
  import opened ExecTypes
  import opened AccountSpec
  import opened Money
  import opened BrokerSpec

  // ---- one order at a quote ----

  /** It can trade at all. */
  predicate Working(o: Ticket, m: Market) {
    m.valid && o.filled < o.requested && (o.state.Acknowledged? || o.state.PartiallyFilled?)
  }

  /** A market order trades on the other side of the book, the slippage against it; a limit order at its own price. */
  function PriceFor(o: Ticket, m: Market, slip: int): int {
    if o.limit then o.price else if o.side.Buy? then m.ask + slip else m.bid - slip
  }

  /** The market has gone through the price of a limit order, and no one is queued before it. */
  predicate Reached(o: Ticket, m: Market) {
    (if o.side.Buy? then m.ask < o.price else o.price < m.bid) && o.queueAhead <= 0
  }

  /** What is left, but no more than the size shown on the other side, when one is shown. */
  function VolumeFor(o: Ticket, m: Market): int {
    var shown := if o.side.Buy? then m.askSize else m.bidSize;
    if 0 < shown < o.requested - o.filled then shown else o.requested - o.filled
  }

  /** An order is filled exactly when it works, its price is positive, and, for a market order, the slippage is not in its
      favour, for a limit order, it has been reached. A working market order whose price is not, or whose slippage is, stops
      the broker, and so does a limit order reached at a price that is not positive. */
  lemma FillsExactlyWhen(b: Broker, specs: seq<Spec>, i: nat, slip: int)
    requires Sized(b, specs) && i < |b.orders| && MarketOk(b.markets[b.orders[i].symbol])
    ensures var o, m := b.orders[i], b.markets[b.orders[i].symbol];
            var b', price := AttemptFill(b, specs, i, slip), PriceFor(o, m, slip);
            var turn := Working(o, m) && (o.limit ==> Reached(o, m));
            var fills := turn && price > 0 && (o.limit || slip >= 0);
            && b'.trace == (if fills then b.trace + [Fill(o.symbol, o.side, o.limit, price, VolumeFor(o, m), m.bid, m.ask)] else b.trace)
            && (!fills ==> b' == b.(halted := b'.halted))
            && (fills ==>
                  var left := o.requested - o.filled - VolumeFor(o, m);
                  b'.orders == b.orders[i := o.(filled := o.requested - left, state := if left == 0 then Filled else PartiallyFilled)])
            && (!fills && turn ==> b'.halted.Some?)
            && (!turn ==> b' == b)
  {
    hide Netted, Commission, Settled;
  }

  /** An order is filled only in its time: not before it is effective, not once it has expired, and not when it is rejected. */
  lemma FilledInTime(b: Broker, specs: seq<Spec>, models: Models, now: nat, i: nat)
    requires Sized(b, specs) && i < |b.orders|
    ensures var o := b.orders[i];
            ProcessOne(b, specs, models, now, i).trace != b.trace ==>
              && !IsTerminal(o.state) && o.effective <= now && (o.expires == 0 || now < o.expires)
              && (o.state.Sent? ==> !models.rejects(o.id))
  {
    hide AttemptFill;
  }

  /** How one turn can end an order: it expires exactly when its time is over, and is rejected exactly when it is not, its
      first turn has come and the venue rejects it; any other order that ends was filled. */
  lemma EndsInTurn(b: Broker, specs: seq<Spec>, models: Models, now: nat, i: nat)
    requires Sized(b, specs) && i < |b.orders| && MarketOk(b.markets[b.orders[i].symbol])
    ensures var o, o' := b.orders[i], ProcessOne(b, specs, models, now, i).orders[i];
            var expired := o.expires != 0 && o.expires <= now;
            !IsTerminal(o.state) ==>
              && (o'.state.Expired? <==> expired)
              && (o'.state.Rejected? <==> !expired && o.effective <= now && o.state.Sent? && models.rejects(o.id))
              && (o'.state.Filled? <==> o'.filled != o.filled && o'.filled >= o'.requested)
              && !o'.state.Cancelled? && !o'.state.RiskRejected?
  {
    var o := b.orders[i];
    var b1 := if o.state.Sent? then Ended(b, i, Acknowledged) else b;
    FillsExactlyWhen(b1, specs, i, models.slip(o.id));
    hide AttemptFill, PriceFor, Reached;
  }

  /** What a quote credits: a limit order of the symbol still queued moves forward exactly when the best price of its own side
      is and was its own and the size shown there fell, and then by the credit, to the front at most. */
  lemma CreditedExactly(o: Ticket, symbol: nat, m: Market, next: Market, credit: nat)
    ensures var (best, best') := if o.side.Buy? then (m.bid, next.bid) else (m.ask, next.ask);
            var (shown, shown') := if o.side.Buy? then (m.bidSize, next.bidSize) else (m.askSize, next.askSize);
            var moves := o.symbol == symbol && o.limit && !IsTerminal(o.state) && o.queueAhead > 0
                         && best == best' == o.price && shown' < shown;
            Credited(o, symbol, m, next, credit)
            == o.(queueAhead := if !moves then o.queueAhead else if credit < o.queueAhead then o.queueAhead - credit else 0)
  {
  }

  /** The first live order of a name. */
  predicate FirstLive(orders: seq<Ticket>, i: nat, id: nat) {
    && i < |orders| && orders[i].id == id && !IsTerminal(orders[i].state)
    && forall k | 0 <= k < i :: orders[k].id != id || IsTerminal(orders[k].state)
  }

  lemma FoundIsFirst(orders: seq<Ticket>, id: nat)
    ensures forall i: nat :: FirstLive(orders, i, id) <==> i == FindLive(orders, id) < |orders|
  {
    var found := FindLive(orders, id);
    assert forall k | 0 <= k < found :: !(orders[k].id == id && !IsTerminal(orders[k].state));
    hide IsTerminal, FindLive;
  }

  /** A cancel is accepted exactly when the first live order of that name is not unknown, and it ends that one alone. */
  lemma CancelledExactly(b: Broker, id: nat)
    ensures var (b', ok) := Cancel(b, id);
            && (ok <==> exists i: nat :: FirstLive(b.orders, i, id) && !b.orders[i].state.Unknown?)
            && (forall i: nat | FirstLive(b.orders, i, id) && ok ::
                  b' == b.(orders := b.orders[i := b.orders[i].(state := Cancelled)]))
            && (!ok ==> b' == b)
  {
    FoundIsFirst(b.orders, id);
    hide FindLive, FirstLive;
    if FindLive(b.orders, id) < |b.orders| { assert FirstLive(b.orders, FindLive(b.orders, id), id); }
  }

  /** What a replace may ask of an order. */
  predicate Changeable(o: Ticket, spec: Spec, price: int, volume: int) {
    && !o.state.Unknown? && volume > o.filled && spec.volumeMin <= volume <= spec.volumeMax
    && spec.volumeStep > 0 && volume % spec.volumeStep == 0
    && (o.limit ==> price > 0 && spec.tickSize > 0 && price % spec.tickSize == 0)
  }

  /** A replace is accepted exactly when the first live order of that name is not unknown, the new volume exceeds what is
      filled and keeps to bounds and step, and the new price of a limit order keeps to the tick. */
  lemma ReplacedExactly(b: Broker, specs: seq<Spec>, id: nat, price: int, volume: int, queueAhead: int)
    requires Sized(b, specs)
    ensures var (b', ok) := Replace(b, specs, id, price, volume, queueAhead);
            && (ok <==> exists i: nat :: FirstLive(b.orders, i, id) && Changeable(b.orders[i], specs[b.orders[i].symbol], price, volume))
            && (forall i: nat | FirstLive(b.orders, i, id) && ok ::
                  var o := b.orders[i];
                  b' == b.(orders := b.orders[i := o.(price := price, requested := volume,
                                                      queueAhead := if o.limit then queueAhead else o.queueAhead)]))
            && (!ok ==> b' == b)
  {
    FoundIsFirst(b.orders, id);
    hide FindLive;
    if FindLive(b.orders, id) < |b.orders| { assert FirstLive(b.orders, FindLive(b.orders, id), id); }
    assert forall i: nat :: FirstLive(b.orders, i, id) ==> b.orders[i].symbol < MAX_SYMBOLS;
    hide FirstLive;
  }

  // ---- what has been filled ----

  function Volumes(fills: seq<Fill>): int {
    if fills == [] then 0 else Volumes(fills[..|fills| - 1]) + fills[|fills| - 1].volume
  }

  function FilledOf(orders: seq<Ticket>): int {
    if orders == [] then 0 else FilledOf(orders[..|orders| - 1]) + orders[|orders| - 1].filled
  }

  lemma {:induction false} FilledUpdate(orders: seq<Ticket>, i: nat, o: Ticket)
    requires i < |orders|
    ensures FilledOf(orders[i := o]) == FilledOf(orders) - orders[i].filled + o.filled
  {
    var last := |orders| - 1;
    if i == last {
      assert orders[i := o][..last] == orders[..last];
    } else {
      assert orders[i := o][..last] == orders[..last][i := o];
      FilledUpdate(orders[..last], i, o);
    }
  }

  lemma {:induction false} SameFilled(a: seq<Ticket>, b: seq<Ticket>)
    requires |a| == |b| && forall i | 0 <= i < |a| :: a[i].filled == b[i].filled
    ensures FilledOf(a) == FilledOf(b)
  {
    if a != [] {
      SameFilled(a[..|a| - 1], b[..|b| - 1]);
    }
  }

  lemma VolumesNext(fills: seq<Fill>, f: Fill)
    ensures Volumes(fills + [f]) == Volumes(fills) + f.volume
  {
    assert (fills + [f])[..|fills|] == fills;
  }

  /** What was filled beyond what the orders in the slots show: the fills of orders whose slots were used again. */
  function Departed(b: Broker): int {
    Volumes(b.trace) - FilledOf(b.orders)
  }

  lemma AttemptKeepsDeparted(b: Broker, specs: seq<Spec>, i: nat, slip: int)
    requires Sized(b, specs) && i < |b.orders| && MarketOk(b.markets[b.orders[i].symbol])
    ensures Departed(AttemptFill(b, specs, i, slip)) == Departed(b)
  {
    FillsExactlyWhen(b, specs, i, slip);
    var o, m := b.orders[i], b.markets[b.orders[i].symbol];
    var b' := AttemptFill(b, specs, i, slip);
    VolumesNext(b.trace, Fill(o.symbol, o.side, o.limit, PriceFor(o, m, slip), VolumeFor(o, m), m.bid, m.ask));
    FilledUpdate(b.orders, i, b'.orders[i]);
    hide AttemptFill, PriceFor, VolumeFor, Working, Reached;
  }

  lemma EndedKeepsDeparted(b: Broker, i: nat, state: OrderState)
    requires i < |b.orders|
    ensures Departed(Ended(b, i, state)) == Departed(b)
  {
    FilledUpdate(b.orders, i, b.orders[i].(state := state));
  }

  lemma TurnKeepsDeparted(b: Broker, specs: seq<Spec>, models: Models, now: nat, i: nat)
    requires Sized(b, specs) && i < |b.orders| && MarketOk(b.markets[b.orders[i].symbol])
    ensures Departed(ProcessOne(b, specs, models, now, i)) == Departed(b)
  {
    EndedKeepsDeparted(b, i, Expired);
    EndedKeepsDeparted(b, i, Rejected);
    EndedKeepsDeparted(b, i, Acknowledged);
    var o := b.orders[i];
    var b1 := if o.state.Sent? then Ended(b, i, Acknowledged) else b;
    AttemptKeepsDeparted(b1, specs, i, models.slip(o.id));
    hide AttemptFill, Departed;
  }

  lemma OkMarket(b: Broker, specs: seq<Spec>, initial: int, i: nat)
    requires BrokerOk(b, specs, initial) && i < |b.orders|
    ensures Sized(b, specs) && MarketOk(b.markets[b.orders[i].symbol])
  {
  }

  lemma {:induction false} PassKeepsDeparted(b: Broker, specs: seq<Spec>, initial: int, models: Models, now: nat, n: nat)
    requires BrokerOk(b, specs, initial) && n <= |b.orders|
    ensures Departed(Process(b, specs, models, now, n)) == Departed(b)
  {
    hide ProcessOne, BrokerOk, Departed;
    BrokerSized(b, specs, initial);
    if n > 0 {
      PassKeepsDeparted(b, specs, initial, models, now, n - 1);
      ProcessKeeps(b, specs, initial, models, now, n - 1);
      OkMarket(Process(b, specs, models, now, n - 1), specs, initial, n - 1);
      TurnKeepsDeparted(Process(b, specs, models, now, n - 1), specs, models, now, n - 1);
    }
  }

  lemma QuoteKeepsDeparted(b: Broker, specs: seq<Spec>, initial: int, models: Models, symbol: nat, next: Market, now: nat,
                           stopsOut: bool)
    requires BrokerOk(b, specs, initial)
    ensures Departed(Quote(b, specs, models, symbol, next, now, stopsOut)) == Departed(b)
  {
    if symbol < MAX_SYMBOLS {
      var b1 := Updated(b, specs, models, symbol, next);
      UpdatedKeeps(b, specs, initial, models, symbol, next);
      SameFilled(b.orders, b1.orders);
      hide BrokerOk, Updated, Process;
      PassKeepsDeparted(b1, specs, initial, models, now, |b1.orders|);
    }
  }

  /** What an event lets depart: the fills of an ended order whose slot an accepted one takes. */
  function Departs(b: Broker, specs: seq<Spec>, e: Event): int
    requires Sized(b, specs)
  {
    if e.SubmitEvent? && Submit(b, specs, e.request, e.early, e.late, e.effective, e.queueAhead).1 && FreeSlot(b.orders) < |b.orders|
    then b.orders[FreeSlot(b.orders)].filled
    else 0
  }

  lemma SubmitDeparts(b: Broker, specs: seq<Spec>, e: Event)
    requires Sized(b, specs) && e.SubmitEvent?
    ensures Departed(Step(b, specs, e)) == Departed(b) + Departs(b, specs, e)
  {
    hide Acceptable;
    var i, longer := FreeSlot(b.orders), b.orders + [BLANK];
    assert longer[..|b.orders|] == b.orders;
    assert FilledOf(longer) == FilledOf(b.orders);
    var orders := if i == |b.orders| then longer else b.orders;
    var orders' := Step(b, specs, e).orders;
    if orders' != orders && orders' != b.orders { FilledUpdate(orders, i, orders'[i]); }
  }

  lemma EventDeparts(b: Broker, specs: seq<Spec>, initial: int, e: Event)
    requires BrokerOk(b, specs, initial)
    ensures Sized(b, specs) && Departed(Step(b, specs, e)) == Departed(b) + Departs(b, specs, e)
  {
    BrokerSized(b, specs, initial);
    match e
    case SubmitEvent(_, _, _, _, _) => SubmitDeparts(b, specs, e);
    case CancelEvent(id) =>
      if FindLive(b.orders, id) < |b.orders| { EndedKeepsDeparted(b, FindLive(b.orders, id), Cancelled); }
    case ReplaceEvent(id, price, volume, queueAhead) =>
      SameFilled(b.orders, Replace(b, specs, id, price, volume, queueAhead).0.orders);
      hide BrokerOk;
    case QuoteEvent(models, symbol, market, now, stopsOut) =>
      QuoteKeepsDeparted(b, specs, initial, models, symbol, market, now, stopsOut);
      hide Quote, BrokerOk;
  }

  function TotalDeparted(specs: seq<Spec>, initial: int, events: seq<Event>): int
    requires |specs| == MAX_SYMBOLS
  {
    if events == [] then 0
    else
      var before := events[..|events| - 1];
      TotalDeparted(specs, initial, before) + Departs(Run(specs, initial, before), specs, events[|events| - 1])
  }

  /** Every fill is on an order: over every run the volumes filled are what the orders in the slots show, and what was filled
      of orders whose slots were taken by later ones. */
  lemma {:induction false} FillsAreOnOrders(specs: seq<Spec>, initial: int, events: seq<Event>)
    requires |specs| == MAX_SYMBOLS
    ensures var b := Run(specs, initial, events);
            Volumes(b.trace) == FilledOf(b.orders) + TotalDeparted(specs, initial, events)
  {
    if events != [] {
      var before := events[..|events| - 1];
      FillsAreOnOrders(specs, initial, before);
      RunKeeps(specs, initial, before);
      EventDeparts(Run(specs, initial, before), specs, initial, events[|events| - 1]);
      hide Step, BrokerOk, Departs;
    }
  }

  // ---- what is accepted ----

  /** The last quote for a symbol. */
  function LastQuote(events: seq<Event>, symbol: nat): Option<Market> {
    if events == [] then None
    else
      var e := events[|events| - 1];
      if e.QuoteEvent? && e.symbol == symbol then Some(e.market) else LastQuote(events[..|events| - 1], symbol)
  }

  predicate Quoted(events: seq<Event>, symbol: nat) {
    match LastQuote(events, symbol)
    case None => false
    case Some(m) => 0 < m.bid < m.ask
  }

  lemma PassKeepsMarkets(b: Broker, specs: seq<Spec>, models: Models, now: nat, n: nat)
    requires Sized(b, specs) && n <= |b.orders|
    ensures Process(b, specs, models, now, n).markets == b.markets
    decreases n
  {
    if n > 0 {
      PassKeepsMarkets(b, specs, models, now, n - 1);
      hide Process, Netted, Commission, Offer, Impossible;
    }
  }

  /** A market is what was last quoted, and valid when that had a spread. */
  lemma {:induction false} MarketIsLastQuote(specs: seq<Spec>, initial: int, events: seq<Event>, symbol: nat)
    requires |specs| == MAX_SYMBOLS && symbol < MAX_SYMBOLS
    ensures var m := Run(specs, initial, events).markets[symbol];
            && (m.valid <==> Quoted(events, symbol))
            && (LastQuote(events, symbol).Some? ==>
                  var q := LastQuote(events, symbol).value; m == q.(valid := m.valid))
  {
    if events != [] {
      var before, e := events[..|events| - 1], events[|events| - 1];
      MarketIsLastQuote(specs, initial, before, symbol);
      var b := Run(specs, initial, before);
      if e.QuoteEvent? && e.symbol < MAX_SYMBOLS {
        var b1 := Updated(b, specs, e.models, e.symbol, e.market);
        hide CreditAll, Process;
        PassKeepsMarkets(b1, specs, e.models, e.now, |b1.orders|);
      } else {
        hide Acceptable, VolumeOk, PriceAligned, FreeSlot, FindLive;
      }
    }
  }

  /** After any run an order is accepted exactly when the early and the late checks pass, its symbol is known and tradable and
      was last quoted with a spread, its volume is between the symbol's bounds and a multiple of its step, the price of a
      limit order is positive and a multiple of the tick, and a slot was never used or holds an order that has ended. */
  lemma AcceptedExactlyWhen(specs: seq<Spec>, initial: int, events: seq<Event>, r: Request, early: bool, late: bool, effective: nat,
                            queueAhead: int)
    requires |specs| == MAX_SYMBOLS
    ensures var b := Run(specs, initial, events);
            Submit(b, specs, r, early, late, effective, queueAhead).1
            <==> && early && late && r.symbol < MAX_SYMBOLS && Quoted(events, r.symbol)
                 && var spec := specs[r.symbol];
                    && spec.tradable && 0 < r.volume && spec.volumeMin <= r.volume <= spec.volumeMax
                    && spec.volumeStep > 0 && r.volume % spec.volumeStep == 0
                    && (r.limit ==> r.price > 0 && spec.tickSize > 0 && r.price % spec.tickSize == 0)
                    && (|b.orders| < MAX_ORDERS || exists i | 0 <= i < |b.orders| :: IsTerminal(b.orders[i].state))
  {
    var b := Run(specs, initial, events);
    if r.symbol < MAX_SYMBOLS { MarketIsLastQuote(specs, initial, events, r.symbol); }
    var i := FreeSlot(b.orders);
    if i < |b.orders| { assert IsTerminal(b.orders[i].state); }
    hide Run, IsTerminal, Quoted;
  }

  // ---- commission ----

  function Lot(spec: Spec): int {
    if spec.contractSize > 0 then spec.contractSize else 1
  }

  lemma Divided(n: int, d: int)
    requires n >= 0 && d > 0
    ensures 0 <= n - d * (n / d) < d && n / d >= 0 && (n < d ==> n / d == 0)
  {
    assert n == d * (n / d) + n % d;
  }

  lemma SignOfProduct(x: int, y: int)
    requires x > 0
    ensures if y > 0 then x * y > 0 else if y < 0 then x * y < 0 else x * y == 0
  {
  }

  lemma Minus(x: int, y: int)
    ensures x * -y == -(x * y)
  {
  }

  /** The commission on a volume is the exact charge to the nearest unit, half up. A rebate, a commission below zero, is
      never more than the exact one, and less than one unit and a half short of it. */
  lemma CommissionIsNearest(spec: Spec, volume: int)
    requires volume > 0 && spec.volumeStep > 0
    ensures var fee, exact, lot := Commission(spec, volume), volume * spec.commissionPerLot, Lot(spec);
            if spec.commissionPerLot >= 0 then fee >= 0 && -lot < 2 * (lot * fee - exact) <= lot
            else fee <= 0 && 0 <= 2 * (lot * fee - exact) < 3 * lot
  {
    hide Lot;
    var exact, lot := volume * spec.commissionPerLot, Lot(spec);
    LotIsPositive(spec);
    SignOfProduct(volume, spec.commissionPerLot);
    CommissionIsTruncated(spec, volume);
    var n := exact + lot / 2;
    if n >= 0 {
      Divided(n, lot);
    } else {
      Divided(-n, lot);
      Minus(lot, -n / lot);
    }
  }

  lemma LotIsPositive(spec: Spec)
    ensures Lot(spec) > 0
  {
  }

  lemma CommissionIsTruncated(spec: Spec, volume: int)
    requires volume > 0 && spec.volumeStep > 0 && Lot(spec) > 0
    ensures Commission(spec, volume)
         == if spec.commissionPerLot == 0 then 0
            else
              var n := volume * spec.commissionPerLot + Lot(spec) / 2;
              if n >= 0 then n / Lot(spec) else -(-n / Lot(spec))
  {
  }

  /** The commission on the fills of one symbol, and their volume. */
  function ChargedOn(specs: seq<Spec>, fills: seq<Fill>, symbol: nat): int {
    if fills == [] then 0
    else
      var f := fills[|fills| - 1];
      ChargedOn(specs, fills[..|fills| - 1], symbol)
      + if f.symbol == symbol < |specs| then Commission(specs[symbol], f.volume) else 0
  }

  function VolumeOn(fills: seq<Fill>, symbol: nat): int {
    if fills == [] then 0
    else VolumeOn(fills[..|fills| - 1], symbol) + if fills[|fills| - 1].symbol == symbol then fills[|fills| - 1].volume else 0
  }

  function CountOn(fills: seq<Fill>, symbol: nat): nat {
    if fills == [] then 0 else CountOn(fills[..|fills| - 1], symbol) + if fills[|fills| - 1].symbol == symbol then 1 else 0
  }

  /** Over any fills: the commission on a symbol is its rate on the whole volume, up to half a unit for each fill. */
  lemma {:induction false} CommissionFollowsVolume(specs: seq<Spec>, fills: seq<Fill>, symbol: nat)
    requires AllTradable(fills) && symbol < |specs| && specs[symbol].volumeStep > 0 && specs[symbol].commissionPerLot >= 0
    ensures var lot, exact := Lot(specs[symbol]), VolumeOn(fills, symbol) * specs[symbol].commissionPerLot;
            2 * Abs(lot * ChargedOn(specs, fills, symbol) - exact) <= lot * CountOn(fills, symbol)
  {
    if fills != [] {
      var f, front := fills[|fills| - 1], fills[..|fills| - 1];
      CommissionFollowsVolume(specs, front, symbol);
      hide Commission, Lot, Abs;
      if f.symbol == symbol {
        assert Tradable(f);
        CommissionIsNearest(specs[symbol], f.volume);
        OneMoreCharge(Lot(specs[symbol]), specs[symbol].commissionPerLot, VolumeOn(front, symbol), f.volume,
                      ChargedOn(specs, front, symbol), Commission(specs[symbol], f.volume), CountOn(front, symbol));
      }
    }
  }

  lemma OneMoreCharge(lot: int, rate: int, volume: int, more: int, fee: int, fee': int, count: nat)
    requires 2 * Abs(lot * fee - volume * rate) <= lot * count
    requires -lot < 2 * (lot * fee' - more * rate) <= lot
    ensures 2 * Abs(lot * (fee + fee') - (volume + more) * rate) <= lot * (count + 1)
  {
    assert lot * (fee + fee') == lot * fee + lot * fee' && (volume + more) * rate == volume * rate + more * rate;
    assert lot * (count + 1) == lot * count + lot;
  }

  function ChargedBelow(specs: seq<Spec>, fills: seq<Fill>, symbols: nat): int {
    if symbols == 0 then 0 else ChargedBelow(specs, fills, symbols - 1) + ChargedOn(specs, fills, symbols - 1)
  }

  lemma {:induction false} NothingCharged(specs: seq<Spec>, symbols: nat)
    ensures ChargedBelow(specs, [], symbols) == 0
  {
    if symbols > 0 {
      NothingCharged(specs, symbols - 1);
    }
  }

  lemma {:induction false} ChargedNext(specs: seq<Spec>, fills: seq<Fill>, symbols: nat)
    requires fills != [] && symbols <= |specs|
    ensures var f := fills[|fills| - 1];
            ChargedBelow(specs, fills, symbols)
            == ChargedBelow(specs, fills[..|fills| - 1], symbols) + if f.symbol < symbols then Commission(specs[f.symbol], f.volume) else 0
  {
    if symbols > 0 {
      hide Commission;
      ChargedNext(specs, fills, symbols - 1);
    }
  }

  /** The commission of a run is that of its symbols, one by one. */
  lemma {:induction false} ChargedBySymbol(specs: seq<Spec>, fills: seq<Fill>)
    ensures Charged(specs, fills) == ChargedBelow(specs, fills, |specs|)
  {
    if fills == [] {
      NothingCharged(specs, |specs|);
    } else {
      hide Commission;
      ChargedBySymbol(specs, fills[..|fills| - 1]);
      ChargedNext(specs, fills, |specs|);
    }
  }
}
