/** The paper broker in netting mode: orders live, fill against quotes and end, and their fills move positions and
    money. Outputs of the latency, slippage, rejection and queue models are inputs here. */
module BrokerSpec {
  import opened ExecTypes
  import opened AccountSpec
  import opened Money

  datatype Spec = Spec(tradable: bool, volumeMin: int, volumeMax: int, volumeStep: int, tickSize: int, tickValue: int,
                       commissionPerLot: int, contractSize: int)

  datatype Market = Market(bid: int, ask: int, bidSize: int, askSize: int, valid: bool)

  datatype Ticket = Ticket(id: nat, symbol: nat, side: Side, limit: bool, requested: int, filled: int, price: int,
                           state: OrderState, queueAhead: int, expires: nat, effective: nat)

  datatype HaltReason = InvalidPrice | ImpossibleFill | CorruptedState | InsufficientMargin

  /** `trace` is every fill there was, kept for the specification only. */
  datatype Broker = Broker(orders: seq<Ticket>, book: seq<Position>, tickets: nat, account: Account, markets: seq<Market>,
                           halted: Option<HaltReason>, fills: nat, trace: seq<Fill>)

  const MAX_ORDERS: nat := 256

  /** What the models answer for an order while a quote is processed. */
  datatype Models = Models(slip: nat -> int, rejects: nat -> bool, queueCredit: nat -> nat)

  function Remaining(o: Ticket): int { o.requested - o.filled }

  function Halt(b: Broker, reason: HaltReason): Broker {
    if b.halted.Some? then b else b.(halted := Some(reason))
  }

  /** Division that drops the fraction. */
  function Truncated(n: int, d: int): int
    requires d > 0
  {
    if n >= 0 then n / d else -(-n / d)
  }

  /** Commission on a filled volume, rounded half up. */
  function Commission(spec: Spec, volume: int): int {
    if volume <= 0 || spec.commissionPerLot == 0 || spec.volumeStep <= 0 then 0
    else
      var lot := if spec.contractSize > 0 then spec.contractSize else 1;
      Truncated(volume * spec.commissionPerLot + lot / 2, lot)
  }

  predicate Sized(b: Broker, specs: seq<Spec>) {
    && |specs| == MAX_SYMBOLS && |b.markets| == MAX_SYMBOLS
    && forall i | 0 <= i < |b.orders| :: b.orders[i].symbol < MAX_SYMBOLS
  }

  // ---- one fill ----

  function Traced(o: Ticket, m: Market, price: int, volume: int): Fill {
    Fill(o.symbol, o.side, o.limit, price, volume, m.bid, m.ask)
  }

  function ApplyFill(b: Broker, specs: seq<Spec>, i: nat, price: int, volume: int): (b': Broker)
    requires Sized(b, specs) && i < |b.orders|
    ensures Sized(b', specs) && |b'.orders| == |b.orders|
  {
    var o := b.orders[i];
    var spec := specs[o.symbol];
    var fee := Commission(spec, volume);
    var r := Netted(b.book, b.tickets, o.symbol, o.side, price, volume, spec.tickValue);
    var left := Remaining(o) - volume;
    var o' := o.(filled := o.filled + volume, state := if left <= 0 then Filled else PartiallyFilled);
    var b' := b.(orders := b.orders[i := o'], book := r.book, tickets := r.tickets, fills := b.fills + 1,
                 account := Account(b.account.balance - fee + r.realized, b.account.realized + r.realized, b.account.commission + fee),
                 trace := b.trace + [Traced(o, b.markets[o.symbol], price, volume)]);
    if r.ok then b' else Halt(b', CorruptedState)
  }

  /** The price and the volume on offer for an order; no volume when it cannot trade now. */
  function Offer(o: Ticket, m: Market, slip: int): (int, int) {
    if !o.limit then
      var price := if o.side.Buy? then m.ask + slip else m.bid - slip;
      var available := if o.side.Buy? then m.askSize else m.bidSize;
      (price, if available <= 0 then Remaining(o) else available)
    else
      var through := if o.side.Buy? then m.ask < o.price else m.bid > o.price;
      var aggressor := if o.side.Buy? then m.askSize else m.bidSize;
      if !through || o.queueAhead > 0 then (1, 0)
      else (o.price, if aggressor > 0 then aggressor else Remaining(o))
  }

  /** A market fill better than the touch, or at the middle of a wide spread, is impossible. */
  predicate Impossible(o: Ticket, m: Market, price: int) {
    !o.limit && ((if o.side.Buy? then price < m.ask else price > m.bid) || (m.ask - m.bid >= 2 && price * 2 == m.bid + m.ask))
  }

  function AttemptFill(b: Broker, specs: seq<Spec>, i: nat, slip: int): (b': Broker)
    requires Sized(b, specs) && i < |b.orders|
    ensures Sized(b', specs) && |b'.orders| == |b.orders|
  {
    var o := b.orders[i];
    var m := b.markets[o.symbol];
    if !m.valid || Remaining(o) <= 0 || !(o.state.Acknowledged? || o.state.PartiallyFilled?) then b
    else
      var (price, available) := Offer(o, m, slip);
      if price <= 0 then Halt(b, InvalidPrice)
      else
        var volume := if available < Remaining(o) then available else Remaining(o);
        if volume <= 0 then b
        else if Impossible(o, m, price) then Halt(b, ImpossibleFill)
        else ApplyFill(b, specs, i, price, volume)
  }

  // ---- a quote ----

  function Ended(b: Broker, i: nat, state: OrderState): Broker
    requires i < |b.orders|
  {
    b.(orders := b.orders[i := b.orders[i].(state := state)])
  }

  function ProcessOne(b: Broker, specs: seq<Spec>, models: Models, now: nat, i: nat): (b': Broker)
    requires Sized(b, specs) && i < |b.orders|
    ensures Sized(b', specs) && |b'.orders| == |b.orders|
  {
    var o := b.orders[i];
    if IsTerminal(o.state) then b
    else if o.expires != 0 && now >= o.expires then Ended(b, i, Expired)
    else if now < o.effective then b
    else if o.state.Sent? && models.rejects(o.id) then Ended(b, i, Rejected)
    else
      var b1 := if o.state.Sent? then Ended(b, i, Acknowledged) else b;
      AttemptFill(b1, specs, i, models.slip(o.id))
  }

  /** Every live order in submission order; a halt in the middle does not stop the pass. */
  function Process(b: Broker, specs: seq<Spec>, models: Models, now: nat, n: nat): (b': Broker)
    requires Sized(b, specs) && n <= |b.orders|
    ensures Sized(b', specs) && |b'.orders| == |b.orders|
  {
    if n == 0 then b else ProcessOne(Process(b, specs, models, now, n - 1), specs, models, now, n - 1)
  }

  /** Depth that went at our price moves the resting orders of the symbol forward. */
  function Credited(o: Ticket, symbol: nat, m: Market, next: Market, credit: nat): (o': Ticket)
    ensures o' == o.(queueAhead := o'.queueAhead)
  {
    if o.symbol != symbol || !o.limit || IsTerminal(o.state) || o.queueAhead <= 0 then o
    else
      var same := if o.side.Buy? then next.bid == m.bid && o.price == next.bid else next.ask == m.ask && o.price == next.ask;
      var before := if o.side.Buy? then m.bidSize else m.askSize;
      var after := if o.side.Buy? then next.bidSize else next.askSize;
      if !same || after >= before then o
      else o.(queueAhead := if o.queueAhead > credit then o.queueAhead - credit else 0)
  }

  function CreditAll(orders: seq<Ticket>, models: Models, symbol: nat, m: Market, next: Market): (orders': seq<Ticket>)
    ensures |orders'| == |orders|
    ensures forall i | 0 <= i < |orders| :: orders'[i] == orders[i].(queueAhead := orders'[i].queueAhead)
  {
    if orders == [] then []
    else
      var last := orders[|orders| - 1];
      CreditAll(orders[..|orders| - 1], models, symbol, m, next)
      + [Credited(last, symbol, m, next, models.queueCredit(last.id))]
  }

  /** The market after a quote, with the resting orders moved forward. */
  function Updated(b: Broker, specs: seq<Spec>, models: Models, symbol: nat, next: Market): (b': Broker)
    requires Sized(b, specs) && symbol < MAX_SYMBOLS
    ensures Sized(b', specs)
  {
    var m := b.markets[symbol];
    var valid := next.bid > 0 && next.ask > 0 && next.ask > next.bid;
    b.(orders := if m.valid then CreditAll(b.orders, models, symbol, m, next) else b.orders,
       markets := b.markets[symbol := next.(valid := valid)])
  }

  function Quote(b: Broker, specs: seq<Spec>, models: Models, symbol: nat, next: Market, now: nat, stopsOut: bool): (b': Broker)
    requires Sized(b, specs)
    ensures Sized(b', specs)
  {
    if symbol >= MAX_SYMBOLS then b
    else
      var b1 := Updated(b, specs, models, symbol, next);
      var b2 := if b1.halted.Some? then b1 else Process(b1, specs, models, now, |b1.orders|);
      if stopsOut then Halt(b2, InsufficientMargin) else b2
  }

  // ---- orders ----

  datatype Request = Request(id: nat, symbol: nat, side: Side, limit: bool, volume: int, price: int, expires: nat)

  predicate VolumeOk(spec: Spec, volume: int) {
    spec.volumeMin <= volume <= spec.volumeMax && spec.volumeStep > 0 && volume % spec.volumeStep == 0
  }

  predicate PriceAligned(spec: Spec, price: int) {
    price > 0 && spec.tickSize > 0 && price % spec.tickSize == 0
  }

  /** What is checked before a slot is taken. */
  predicate Acceptable(specs: seq<Spec>, r: Request)
    requires |specs| == MAX_SYMBOLS
  {
    && r.symbol < MAX_SYMBOLS && specs[r.symbol].tradable && r.volume > 0 && VolumeOk(specs[r.symbol], r.volume)
    && (r.limit ==> PriceAligned(specs[r.symbol], r.price))
  }

  /** An order slot before it is first used. */
  const BLANK: Ticket := Ticket(0, 0, Buy, false, 0, 0, 0, NewOrder, 0, 0, 0)

  /** The first slot whose order has ended. */
  function FreeSlot(orders: seq<Ticket>): (i: nat)
    ensures i <= |orders| && (i < |orders| ==> IsTerminal(orders[i].state)) && forall k | 0 <= k < i :: !IsTerminal(orders[k].state)
  {
    if orders == [] then 0 else if IsTerminal(orders[0].state) then 0 else 1 + FreeSlot(orders[1..])
  }

  /** `early` says that the timestamp and the duplicate check pass, `late` that the quote is recent and the margin free.
      The slot is taken between the two, and stays taken when the late checks refuse the order. */
  function Submit(b: Broker, specs: seq<Spec>, r: Request, early: bool, late: bool, effective: nat, queueAhead: int): (Broker, bool)
    requires Sized(b, specs)
  {
    var i := FreeSlot(b.orders);
    if !early || !Acceptable(specs, r) || (i == |b.orders| && i >= MAX_ORDERS) then (b, false)
    else
      var orders := if i == |b.orders| then b.orders + [BLANK] else b.orders;
      if !b.markets[r.symbol].valid || !late then (b.(orders := orders), false)
      else
        var o := Ticket(r.id, r.symbol, r.side, r.limit, r.volume, 0, r.price, Sent, if r.limit then queueAhead else 0, r.expires, effective);
        (b.(orders := orders[i := o]), true)
  }

  function FindLive(orders: seq<Ticket>, id: nat): (i: nat)
    ensures i <= |orders| && (i < |orders| ==> orders[i].id == id && !IsTerminal(orders[i].state))
    ensures forall k | 0 <= k < i :: !(orders[k].id == id && !IsTerminal(orders[k].state))
  {
    if orders == [] then 0
    else if orders[0].id == id && !IsTerminal(orders[0].state) then 0
    else 1 + FindLive(orders[1..], id)
  }

  function Cancel(b: Broker, id: nat): (Broker, bool) {
    var i := FindLive(b.orders, id);
    if i == |b.orders| || b.orders[i].state.Unknown? then (b, false) else (Ended(b, i, Cancelled), true)
  }

  /** The reference survives; the new volume must exceed what is filled. */
  function Replace(b: Broker, specs: seq<Spec>, id: nat, price: int, volume: int, queueAhead: int): (Broker, bool)
    requires Sized(b, specs)
  {
    var i := FindLive(b.orders, id);
    if i == |b.orders| || b.orders[i].state.Unknown? then (b, false)
    else
      var o := b.orders[i];
      if volume <= o.filled || !VolumeOk(specs[o.symbol], volume) || (o.limit && !PriceAligned(specs[o.symbol], price)) then (b, false)
      else
        (b.(orders := b.orders[i := o.(price := price, requested := volume, queueAhead := if o.limit then queueAhead else o.queueAhead)]),
         true)
  }

  // ---- the invariant ----

  predicate OrderOk(o: Ticket) {
    0 <= o.filled <= o.requested && o.symbol < MAX_SYMBOLS
  }

  function TicksOf(specs: seq<Spec>): Ticks {
    (symbol: nat) => if symbol < |specs| then specs[symbol].tickValue else 0
  }

  /** The commission on all fills. */
  function Charged(specs: seq<Spec>, fills: seq<Fill>): int {
    if fills == [] then 0
    else
      var f := fills[|fills| - 1];
      Charged(specs, fills[..|fills| - 1]) + if f.symbol < |specs| then Commission(specs[f.symbol], f.volume) else 0
  }

  /** A fill is never better than the touch: a market order pays at least the ask or gets at most the bid, and a limit order
      is filled at its price only when the market has gone through it. */
  predicate Fair(f: Fill) {
    && Tradable(f) && 0 < f.bid < f.ask
    && if f.limit then if f.side.Buy? then f.ask < f.price else f.bid > f.price
       else if f.side.Buy? then f.price >= f.ask else f.price <= f.bid
  }

  predicate AllFair(fills: seq<Fill>) {
    forall i | 0 <= i < |fills| :: Fair(fills[i])
  }

  predicate MarketOk(m: Market) {
    m.valid ==> 0 < m.bid < m.ask
  }

  /** Positions, money and counts are those of the fills there were. */
  predicate Booked(specs: seq<Spec>, trace: seq<Fill>, fills: nat, book: seq<Position>, tickets: nat, account: Account) {
    && AllFair(trace) && fills == |trace|
    && Settled(TicksOf(specs), trace) == FillResult(book, account.realized, tickets, true)
    && account.commission == Charged(specs, trace)
  }

  ghost predicate BrokerOk(b: Broker, specs: seq<Spec>, initial: int) {
    && Sized(b, specs) && BookOk(b.book) && Booked(specs, b.trace, b.fills, b.book, b.tickets, b.account)
    && (forall i | 0 <= i < |b.orders| :: OrderOk(b.orders[i]))
    && (forall s | 0 <= s < MAX_SYMBOLS :: MarketOk(b.markets[s]))
    && b.account.balance == initial + b.account.realized - b.account.commission
    && b.halted != Some(CorruptedState)
  }

  lemma BookedNext(b: Broker, specs: seq<Spec>, i: nat, price: int, volume: int)
    requires Sized(b, specs) && BookOk(b.book) && i < |b.orders|
    requires Booked(specs, b.trace, b.fills, b.book, b.tickets, b.account)
    requires Fair(Traced(b.orders[i], b.markets[b.orders[i].symbol], price, volume))
    ensures var b' := ApplyFill(b, specs, i, price, volume);
            Booked(specs, b'.trace, b'.fills, b'.book, b'.tickets, b'.account)
  {
    var o := b.orders[i];
    var f := Traced(o, b.markets[o.symbol], price, volume);
    var trace := b.trace + [f];
    assert trace[..|b.trace|] == b.trace;
    NettedKeepsBook(b.book, b.tickets, o.symbol, o.side, price, volume, specs[o.symbol].tickValue);
    SettledNext(TicksOf(specs), trace);
    hide Netted, Settled, Commission, BookOk, NetMoves;
  }

  lemma ApplyFillKeeps(b: Broker, specs: seq<Spec>, initial: int, i: nat, price: int, volume: int)
    requires BrokerOk(b, specs, initial) && i < |b.orders| && price > 0 && 0 < volume <= Remaining(b.orders[i])
    requires Fair(Traced(b.orders[i], b.markets[b.orders[i].symbol], price, volume))
    ensures BrokerOk(ApplyFill(b, specs, i, price, volume), specs, initial)
    ensures |ApplyFill(b, specs, i, price, volume).orders| == |b.orders|
  {
    var o := b.orders[i];
    BookedNext(b, specs, i, price, volume);
    NettedKeepsBook(b.book, b.tickets, o.symbol, o.side, price, volume, specs[o.symbol].tickValue);
    hide Netted, BookOk, Net, Commission, Booked, MarketOk;
  }

  lemma AttemptIsFair(o: Ticket, m: Market, slip: int, volume: int)
    requires m.valid && MarketOk(m) && OrderOk(o)
    requires var price := Offer(o, m, slip).0;
             price > 0 && 0 < volume <= Offer(o, m, slip).1 && !Impossible(o, m, price)
    ensures Fair(Traced(o, m, Offer(o, m, slip).0, volume))
  {
  }

  lemma AttemptFillKeeps(b: Broker, specs: seq<Spec>, initial: int, i: nat, slip: int)
    requires BrokerOk(b, specs, initial) && i < |b.orders|
    ensures BrokerOk(AttemptFill(b, specs, i, slip), specs, initial) && |AttemptFill(b, specs, i, slip).orders| == |b.orders|
  {
    var o, m := b.orders[i], b.markets[b.orders[i].symbol];
    var (price, available) := Offer(o, m, slip);
    var volume := if available < Remaining(o) then available else Remaining(o);
    if m.valid && price > 0 && volume > 0 && Remaining(o) > 0 && !Impossible(o, m, price) {
      assert MarketOk(m) && OrderOk(o);
      AttemptIsFair(o, m, slip, volume);
      ApplyFillKeeps(b, specs, initial, i, price, volume);
    }
    hide ApplyFill, Offer, BookOk, Booked, MarketOk, Fair, Impossible;
  }

  lemma EndedKeeps(b: Broker, specs: seq<Spec>, initial: int, i: nat, state: OrderState)
    requires BrokerOk(b, specs, initial) && i < |b.orders|
    ensures BrokerOk(Ended(b, i, state), specs, initial)
  {
    hide BookOk, Booked, MarketOk;
  }

  lemma ProcessOneKeeps(b: Broker, specs: seq<Spec>, initial: int, models: Models, now: nat, i: nat)
    requires BrokerOk(b, specs, initial) && i < |b.orders|
    ensures var b' := ProcessOne(b, specs, models, now, i); BrokerOk(b', specs, initial) && |b'.orders| == |b.orders|
  {
    EndedKeeps(b, specs, initial, i, Expired);
    EndedKeeps(b, specs, initial, i, Rejected);
    EndedKeeps(b, specs, initial, i, Acknowledged);
    var o := b.orders[i];
    var b1 := if o.state.Sent? then Ended(b, i, Acknowledged) else b;
    AttemptFillKeeps(b1, specs, initial, i, models.slip(o.id));
    hide AttemptFill, BrokerOk;
  }

  lemma BrokerSized(b: Broker, specs: seq<Spec>, initial: int)
    requires BrokerOk(b, specs, initial)
    ensures Sized(b, specs)
  {
  }

  lemma {:induction false} ProcessKeeps(b: Broker, specs: seq<Spec>, initial: int, models: Models, now: nat, n: nat)
    requires BrokerOk(b, specs, initial) && n <= |b.orders|
    ensures BrokerOk(Process(b, specs, models, now, n), specs, initial)
  {
    hide ProcessOne, BrokerOk;
    BrokerSized(b, specs, initial);
    if n > 0 {
      ProcessKeeps(b, specs, initial, models, now, n - 1);
      ProcessOneKeeps(Process(b, specs, models, now, n - 1), specs, initial, models, now, n - 1);
    }
  }

  lemma QuoteKeeps(b: Broker, specs: seq<Spec>, initial: int, models: Models, symbol: nat, next: Market, now: nat, stopsOut: bool)
    requires BrokerOk(b, specs, initial)
    ensures BrokerOk(Quote(b, specs, models, symbol, next, now, stopsOut), specs, initial)
  {
    if symbol < MAX_SYMBOLS {
      var b1 := Updated(b, specs, models, symbol, next);
      UpdatedKeeps(b, specs, initial, models, symbol, next);
      hide BrokerOk, Updated;
      ProcessKeeps(b1, specs, initial, models, now, |b1.orders|);
      hide Process;
      HaltKeeps(b1, specs, initial);
      HaltKeeps(Process(b1, specs, models, now, |b1.orders|), specs, initial);
    }
  }

  lemma HaltKeeps(b: Broker, specs: seq<Spec>, initial: int)
    requires BrokerOk(b, specs, initial)
    ensures BrokerOk(Halt(b, InsufficientMargin), specs, initial)
  {
    hide BookOk, Booked, MarketOk;
  }

  lemma UpdatedKeeps(b: Broker, specs: seq<Spec>, initial: int, models: Models, symbol: nat, next: Market)
    requires BrokerOk(b, specs, initial) && symbol < MAX_SYMBOLS
    ensures BrokerOk(Updated(b, specs, models, symbol, next), specs, initial)
  {
    hide BookOk, Booked, CreditAll;
  }

  lemma SizedCredit(b: Broker, specs: seq<Spec>, orders: seq<Ticket>)
    requires Sized(b, specs) && |orders| == |b.orders|
    requires forall i | 0 <= i < |orders| :: orders[i] == b.orders[i].(queueAhead := orders[i].queueAhead)
    ensures Sized(b.(orders := orders), specs)
  {
  }

  // ---- runs ----

  datatype Event =
    | SubmitEvent(request: Request, early: bool, late: bool, effective: nat, queueAhead: int)
    | CancelEvent(id: nat)
    | ReplaceEvent(id: nat, price: int, volume: int, queueAhead: int)
    | QuoteEvent(models: Models, symbol: nat, market: Market, now: nat, stopsOut: bool)

  function Step(b: Broker, specs: seq<Spec>, e: Event): (b': Broker)
    requires Sized(b, specs)
    ensures Sized(b', specs)
  {
    match e
    case SubmitEvent(r, early, late, effective, queueAhead) => Submit(b, specs, r, early, late, effective, queueAhead).0
    case CancelEvent(id) => Cancel(b, id).0
    case ReplaceEvent(id, price, volume, queueAhead) => Replace(b, specs, id, price, volume, queueAhead).0
    case QuoteEvent(models, symbol, market, now, stopsOut) => Quote(b, specs, models, symbol, market, now, stopsOut)
  }

  lemma StepKeeps(b: Broker, specs: seq<Spec>, initial: int, e: Event)
    requires BrokerOk(b, specs, initial)
    ensures BrokerOk(Step(b, specs, e), specs, initial)
  {
    hide BookOk, Booked, Quote, VolumeOk, PriceAligned, MarketOk;
    match e
    case SubmitEvent(_, _, _, _, _) =>
    case CancelEvent(_) =>
    case ReplaceEvent(_, _, _, _) =>
    case QuoteEvent(models, symbol, market, now, stopsOut) => QuoteKeeps(b, specs, initial, models, symbol, market, now, stopsOut);
  }

  function Opening(initial: int): Broker {
    Broker([], [], 0, Account(initial, 0, 0), seq(MAX_SYMBOLS, _ => Market(0, 0, 0, 0, false)), None, 0, [])
  }

  function Run(specs: seq<Spec>, initial: int, events: seq<Event>): (b: Broker)
    requires |specs| == MAX_SYMBOLS
    ensures Sized(b, specs)
  {
    if events == [] then Opening(initial) else Step(Run(specs, initial, events[..|events| - 1]), specs, events[|events| - 1])
  }

  lemma OpeningOk(specs: seq<Spec>, initial: int)
    requires |specs| == MAX_SYMBOLS
    ensures BrokerOk(Opening(initial), specs, initial)
  {
  }

  lemma {:induction false} RunKeeps(specs: seq<Spec>, initial: int, events: seq<Event>)
    requires |specs| == MAX_SYMBOLS
    ensures BrokerOk(Run(specs, initial, events), specs, initial)
  {
    if events == [] {
      OpeningOk(specs, initial);
    } else {
      RunKeeps(specs, initial, events[..|events| - 1]);
      StepKeeps(Run(specs, initial, events[..|events| - 1]), specs, initial, events[|events| - 1]);
      hide Step, BrokerOk;
    }
  }

  lemma FairIsTradable(fills: seq<Fill>)
    requires AllFair(fills)
    ensures AllTradable(fills)
  {
    forall i | 0 <= i < |fills| ensures Tradable(fills[i]) { assert Fair(fills[i]); }
  }

  lemma BookedMoney(specs: seq<Spec>, trace: seq<Fill>, fills: nat, book: seq<Position>, tickets: nat, account: Account, marks: Marks)
    requires Booked(specs, trace, fills, book, tickets, account)
    ensures AllFair(trace) && fills == |trace| && account.commission == Charged(specs, trace)
    ensures forall s: nat :: Net(book, s) == Traded(trace, s)
    ensures 2 * Abs(account.realized + Worth(book, marks, TicksOf(specs)) - FillsWorth(trace, marks, TicksOf(specs)))
            <= Rounding(TicksOf(specs), trace)
  {
    hide BookOk, Settled, Fair, Net, Worth, Abs, FillsWorth, Rounding, Traded, TicksOf, Charged, AllTradable;
    FairIsTradable(trace);
    SettledKeepsBook(TicksOf(specs), trace);
    RealizedIsWorth(TicksOf(specs), trace, marks);
  }

  /** Over every run of submissions, cancels, replaces and quotes: the balance is the initial one plus what was realised
      less the commission on every fill; at any marks, realised and the worth of the open positions make what all the fills
      are worth, up to the rounding of averages; each symbol has at most one open position, and its signed volume is the
      sum of the signed fills; no fill is better than the quote it was made against; no order is filled beyond what it asked
      for, and the book never runs out of slots. */
  lemma AccountIsConserved(specs: seq<Spec>, initial: int, events: seq<Event>, marks: Marks)
    requires |specs| == MAX_SYMBOLS
    ensures var b := Run(specs, initial, events);
            && BookOk(b.book) && b.halted != Some(CorruptedState) && AllFair(b.trace) && b.fills == |b.trace|
            && (forall i | 0 <= i < |b.orders| :: OrderOk(b.orders[i]))
            && (forall s: nat :: Net(b.book, s) == Traded(b.trace, s))
            && b.account.balance == initial + b.account.realized - Charged(specs, b.trace)
            && 2 * Abs(b.account.realized + Worth(b.book, marks, TicksOf(specs)) - FillsWorth(b.trace, marks, TicksOf(specs)))
               <= Rounding(TicksOf(specs), b.trace)
  {
    hide Run, BookOk, Booked, OrderOk, MarketOk, AllFair, Settled, Net, Worth, Abs, FillsWorth, Rounding, Traded, TicksOf, Charged;
    RunKeeps(specs, initial, events);
    var b := Run(specs, initial, events);
    BookedMoney(specs, b.trace, b.fills, b.book, b.tickets, b.account, marks);
  }
}
