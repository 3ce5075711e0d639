/** Order slots of the paper broker that are taken and never given back. A refused submission can take one, and a broker
    whose slots are all taken like that accepts no order any more; no other broker is in that position. */
module BrokerSlots {
  import opened ExecTypes
  import opened AccountSpec
  import opened BrokerSpec

  /** Every slot is taken by an order that was never entered. */
  predicate Stuck(b: Broker) {
    |b.orders| == MAX_ORDERS && forall i | 0 <= i < |b.orders| :: b.orders[i] == BLANK
  }

  /** Events about orders with a reference of their own: a blank slot has the reference 0. */
  predicate Named(e: Event) {
    match e
    case SubmitEvent(r, _, _, _, _) => r.id != 0
    case CancelEvent(id) => id != 0
    case ReplaceEvent(id, _, _, _) => id != 0
    case QuoteEvent(_, _, _, _, _) => true
  }

  predicate AllNamed(events: seq<Event>) {
    forall i | 0 <= i < |events| :: Named(events[i])
  }

  /** The run that goes on from `b`. */
  function Onward(b: Broker, specs: seq<Spec>, events: seq<Event>): (b': Broker)
    requires Sized(b, specs)
    ensures Sized(b', specs)
  {
    if events == [] then b else Step(Onward(b, specs, events[..|events| - 1]), specs, events[|events| - 1])
  }

  predicate Accepts(b: Broker, specs: seq<Spec>, e: Event)
    requires Sized(b, specs)
  {
    match e
    case SubmitEvent(r, early, late, effective, queueAhead) => Submit(b, specs, r, early, late, effective, queueAhead).1
    case _ => false
  }

  /** Whatever follows, no order is ever accepted. */
  ghost predicate NeverAccepts(b: Broker, specs: seq<Spec>)
    requires Sized(b, specs)
  {
    forall events, e | AllNamed(events) && Named(e) :: !Accepts(Onward(b, specs, events), specs, e)
  }

  // ---- which refusals take a slot ----

  /** A refused submission takes a slot exactly when it passed the early checks and no order had ended, so that it was
      given a new slot; otherwise it changes nothing. */
  lemma RefusalTakesSlot(b: Broker, specs: seq<Spec>, r: Request, early: bool, late: bool, effective: nat, queueAhead: int)
    requires Sized(b, specs) && !Submit(b, specs, r, early, late, effective, queueAhead).1
    ensures var b' := Submit(b, specs, r, early, late, effective, queueAhead).0;
            var takes := early && Acceptable(specs, r) && FreeSlot(b.orders) == |b.orders| < MAX_ORDERS;
            && (|b'.orders| == |b.orders| + 1 <==> takes)
            && b' == if takes then b.(orders := b.orders + [BLANK]) else b
  {
    hide Acceptable;
  }

  /** A quote is missing, or the quote is old or the margin short: the refused order takes a slot for good, as often as
      it is submitted. */
  lemma {:induction false} RefusedOrdersLeak(b: Broker, specs: seq<Spec>, r: Request, late: bool, n: nat)
    requires Sized(b, specs) && Acceptable(specs, r) && FreeSlot(b.orders) == |b.orders| && |b.orders| + n <= MAX_ORDERS
    requires !b.markets[r.symbol].valid || !late
    ensures Onward(b, specs, seq(n, _ => SubmitEvent(r, true, late, 0, 0)))
         == b.(orders := b.orders + seq(n, _ => BLANK))
  {
    hide Acceptable;
    var e := SubmitEvent(r, true, late, 0, 0);
    if n == 0 {
      assert b.orders + seq(0, _ => BLANK) == b.orders;
    } else {
      RefusedOrdersLeak(b, specs, r, late, n - 1);
      var events := seq(n, _ => e);
      assert events[..n - 1] == seq(n - 1, _ => e);
      BlanksAreLive(b.orders, n - 1);
      assert b.orders + seq(n - 1, _ => BLANK) + [BLANK] == b.orders + seq(n, _ => BLANK);
    }
  }

  lemma {:induction false} BlanksAreLive(orders: seq<Ticket>, n: nat)
    requires FreeSlot(orders) == |orders|
    ensures var orders' := orders + seq(n, _ => BLANK); FreeSlot(orders') == |orders'|
  {
    var orders' := orders + seq(n, _ => BLANK);
    assert forall i | 0 <= i < |orders| :: orders'[i] == orders[i] && !IsTerminal(orders[i].state);
  }

  /** A valid quote does not help: with the margin short for the order, submitting it often enough leaves the broker
      stuck. */
  lemma ShortMarginGetsStuck(specs: seq<Spec>, initial: int, r: Request, models: Models, market: Market)
    requires |specs| == MAX_SYMBOLS && Acceptable(specs, r) && 0 < market.bid < market.ask
    ensures var b := Onward(Opening(initial), specs, [QuoteEvent(models, r.symbol, market, 0, false)]);
            && b.markets[r.symbol].valid
            && Stuck(Onward(b, specs, seq(MAX_ORDERS, _ => SubmitEvent(r, true, false, 0, 0))))
  {
    hide Acceptable, Quote;
    var e := QuoteEvent(models, r.symbol, market, 0, false);
    assert [e][..0] == [] && Onward(Opening(initial), specs, []) == Opening(initial);
    var b := Onward(Opening(initial), specs, [e]);
    assert b == Quote(Opening(initial), specs, models, r.symbol, market, 0, false);
    SymbolIsKnown(specs, r);
    QuoteOpens(Opening(initial), specs, models, r.symbol, market);
    QuoteGoes(Opening(initial), specs, models, r.symbol, market, 0, false);
    RefusedOrdersLeak(b, specs, r, false, MAX_ORDERS);
  }

  // ---- a slot is blank or belongs to an order that was entered ----

  predicate Entered(o: Ticket) {
    o.id != 0 && (IsTerminal(o.state) || o.state.Sent? || o.state.Acknowledged? || o.state.PartiallyFilled?)
  }

  /** What an event may do to a slot that is not given to a new order. */
  predicate Goes(o: Ticket, o': Ticket) {
    if o == BLANK then o' == BLANK else Entered(o') && o'.id == o.id
  }

  predicate SlotsOk(b: Broker) {
    |b.orders| <= MAX_ORDERS && forall i | 0 <= i < |b.orders| :: b.orders[i] == BLANK || Entered(b.orders[i])
  }

  predicate AllGo(b: Broker, b': Broker) {
    |b'.orders| == |b.orders| && forall i | 0 <= i < |b.orders| :: Goes(b.orders[i], b'.orders[i])
  }

  lemma AttemptGoes(b: Broker, specs: seq<Spec>, i: nat, slip: int)
    requires Sized(b, specs) && SlotsOk(b) && i < |b.orders|
    ensures AllGo(b, AttemptFill(b, specs, i, slip))
  {
    hide Offer, Impossible, Netted, Commission;
  }

  lemma ProcessOneGoes(b: Broker, specs: seq<Spec>, models: Models, now: nat, i: nat)
    requires Sized(b, specs) && SlotsOk(b) && i < |b.orders|
    ensures AllGo(b, ProcessOne(b, specs, models, now, i))
  {
    var o := b.orders[i];
    var b1 := if o.state.Sent? then Ended(b, i, Acknowledged) else b;
    AttemptGoes(b1, specs, i, models.slip(o.id));
    hide AttemptFill;
  }

  lemma GoesOn(a: Broker, b: Broker, c: Broker)
    requires SlotsOk(a) && AllGo(a, b) && AllGo(b, c)
    ensures AllGo(a, c)
  {
    assert forall i | 0 <= i < |a.orders| :: Goes(a.orders[i], b.orders[i]) && Goes(b.orders[i], c.orders[i]);
  }

  lemma StaysOk(b: Broker, b': Broker)
    requires SlotsOk(b) && AllGo(b, b')
    ensures SlotsOk(b')
  {
    assert forall i | 0 <= i < |b.orders| :: Goes(b.orders[i], b'.orders[i]);
  }

  lemma {:induction false} ProcessGoes(b: Broker, specs: seq<Spec>, models: Models, now: nat, n: nat)
    requires Sized(b, specs) && SlotsOk(b) && n <= |b.orders|
    ensures AllGo(b, Process(b, specs, models, now, n))
  {
    hide ProcessOne, Entered;
    if n > 0 {
      ProcessGoes(b, specs, models, now, n - 1);
      var b1 := Process(b, specs, models, now, n - 1);
      StaysOk(b, b1);
      ProcessOneGoes(b1, specs, models, now, n - 1);
      GoesOn(b, b1, ProcessOne(b1, specs, models, now, n - 1));
    }
  }

  lemma UpdatedGoes(b: Broker, specs: seq<Spec>, models: Models, symbol: nat, next: Market)
    requires Sized(b, specs) && SlotsOk(b) && symbol < MAX_SYMBOLS
    ensures AllGo(b, Updated(b, specs, models, symbol, next))
  {
    var orders := CreditAll(b.orders, models, symbol, b.markets[symbol], next);
    forall i | 0 <= i < |b.orders| ensures Goes(b.orders[i], orders[i]) {
      CreditAt(b.orders, models, symbol, b.markets[symbol], next, i);
    }
  }

  /** Depth moves resting limit orders only, so no blank slot. */
  lemma {:induction false} CreditAt(orders: seq<Ticket>, models: Models, symbol: nat, m: Market, next: Market, i: nat)
    requires i < |orders|
    ensures CreditAll(orders, models, symbol, m, next)[i] == Credited(orders[i], symbol, m, next, models.queueCredit(orders[i].id))
  {
    if i < |orders| - 1 { CreditAt(orders[..|orders| - 1], models, symbol, m, next, i); }
  }

  lemma QuoteGoes(b: Broker, specs: seq<Spec>, models: Models, symbol: nat, next: Market, now: nat, stopsOut: bool)
    requires Sized(b, specs) && SlotsOk(b)
    ensures AllGo(b, Quote(b, specs, models, symbol, next, now, stopsOut))
  {
    if symbol < MAX_SYMBOLS {
      hide Updated, Process;
      var b1 := Updated(b, specs, models, symbol, next);
      UpdatedGoes(b, specs, models, symbol, next);
      StaysOk(b, b1);
      ProcessGoes(b1, specs, models, now, |b1.orders|);
      GoesOn(b, b1, Process(b1, specs, models, now, |b1.orders|));
    }
  }

  lemma StepKeepsSlots(b: Broker, specs: seq<Spec>, e: Event)
    requires Sized(b, specs) && SlotsOk(b) && Named(e)
    ensures SlotsOk(Step(b, specs, e))
  {
    hide Quote, Acceptable, VolumeOk, PriceAligned;
    if e.QuoteEvent? {
      QuoteGoes(b, specs, e.models, e.symbol, e.market, e.now, e.stopsOut);
      StaysOk(b, Step(b, specs, e));
    }
  }

  lemma {:induction false} SlotsStayOk(specs: seq<Spec>, initial: int, past: seq<Event>)
    requires |specs| == MAX_SYMBOLS && AllNamed(past)
    ensures SlotsOk(Run(specs, initial, past))
  {
    if past != [] {
      hide Step, Named, Entered;
      var before := past[..|past| - 1];
      SlotsStayOk(specs, initial, before);
      StepKeepsSlots(Run(specs, initial, before), specs, past[|past| - 1]);
    }
  }

  // ---- stuck, exactly when no order is ever accepted ----

  lemma StuckStays(b: Broker, specs: seq<Spec>, e: Event)
    requires Sized(b, specs) && Stuck(b) && Named(e)
    ensures Stuck(Step(b, specs, e)) && !Accepts(b, specs, e)
  {
    hide Quote, Acceptable, VolumeOk, PriceAligned;
    match e
    case SubmitEvent(_, _, _, _, _) => assert FreeSlot(b.orders) == |b.orders|;
    case CancelEvent(id) => assert FindLive(b.orders, id) == |b.orders|;
    case ReplaceEvent(id, _, _, _) => assert FindLive(b.orders, id) == |b.orders|;
    case QuoteEvent(models, symbol, market, now, stopsOut) =>
      QuoteGoes(b, specs, models, symbol, market, now, stopsOut);
  }

  /** A broker whose slots are all taken by refused orders never accepts an order again, whatever follows. */
  lemma {:induction false} StuckForever(b: Broker, specs: seq<Spec>, events: seq<Event>, e: Event)
    requires Sized(b, specs) && Stuck(b) && AllNamed(events) && Named(e)
    ensures Stuck(Onward(b, specs, events)) && !Accepts(Onward(b, specs, events), specs, e)
  {
    hide Step, Stuck, Named, Accepts;
    if events != [] {
      var last := events[|events| - 1];
      StuckForever(b, specs, events[..|events| - 1], last);
      StuckStays(Onward(b, specs, events[..|events| - 1]), specs, last);
    }
    StuckStays(Onward(b, specs, events), specs, e);
  }

  /** A submission finds no slot: no order has ended and every slot is taken. */
  predicate NoSlot(b: Broker) {
    FreeSlot(b.orders) == |b.orders| >= MAX_ORDERS
  }

  /** Whatever follows, no submission ever finds a slot. */
  ghost predicate NeverASlot(b: Broker, specs: seq<Spec>)
    requires Sized(b, specs)
  {
    forall events | AllNamed(events) :: NoSlot(Onward(b, specs, events))
  }

  /** Whatever the margin and the quotes: no submission of any continuation finds a slot exactly when the broker is
      stuck. */
  lemma NeverASlotIffStuck(specs: seq<Spec>, initial: int, past: seq<Event>)
    requires |specs| == MAX_SYMBOLS && AllNamed(past)
    ensures NeverASlot(Run(specs, initial, past), specs) <==> Stuck(Run(specs, initial, past))
  {
    hide Run, Step, Accepts;
    var b := Run(specs, initial, past);
    if Stuck(b) {
      var idle := CancelEvent(1);
      forall events | AllNamed(events) ensures NoSlot(Onward(b, specs, events)) {
        StuckForever(b, specs, events, idle);
      }
    } else {
      SlotsStayOk(specs, initial, past);
      var events := SlotComes(b, specs);
      assert !NoSlot(Onward(b, specs, events));
    }
  }

  lemma SlotComes(b: Broker, specs: seq<Spec>) returns (events: seq<Event>)
    requires Sized(b, specs) && SlotsOk(b) && !Stuck(b)
    ensures AllNamed(events) && !NoSlot(Onward(b, specs, events))
  {
    hide Cancel;
    events := [];
    if NoSlot(b) {
      var k :| 0 <= k < |b.orders| && b.orders[k] != BLANK;
      var cancel := CancelEvent(b.orders[k].id);
      events := [cancel];
      assert events[..0] == [] && Onward(b, specs, events) == Step(b, specs, cancel);
      CancelFrees(b, k);
    }
  }

  /** With a valid market and a slot to be had, an acceptable request is accepted. */
  lemma AcceptedWithSlot(b: Broker, specs: seq<Spec>, r: Request)
    requires Sized(b, specs) && Acceptable(specs, r) && b.markets[r.symbol].valid
    requires |b.orders| < MAX_ORDERS || FreeSlot(b.orders) < |b.orders| == MAX_ORDERS
    ensures Accepts(b, specs, SubmitEvent(r, true, true, 0, 0))
  {
  }

  /** With a valid market any other broker accepts again: there is a slot, or cancelling an order makes one. */
  lemma OpenAccepts(b: Broker, specs: seq<Spec>, r: Request) returns (events: seq<Event>)
    requires Sized(b, specs) && SlotsOk(b) && !Stuck(b) && Acceptable(specs, r)
    requires b.markets[r.symbol].valid
    ensures AllNamed(events) && Accepts(Onward(b, specs, events), specs, SubmitEvent(r, true, true, 0, 0))
  {
    hide Acceptable, Accepts, Cancel;
    events := [];
    if |b.orders| < MAX_ORDERS || FreeSlot(b.orders) < |b.orders| {
      AcceptedWithSlot(b, specs, r);
    } else {
      var k :| 0 <= k < |b.orders| && b.orders[k] != BLANK;
      var cancel := CancelEvent(b.orders[k].id);
      events := [cancel];
      assert events[..0] == [] && Onward(b, specs, events) == Step(b, specs, cancel);
      CancelFrees(b, k);
      AcceptedWithSlot(Step(b, specs, cancel), specs, r);
    }
  }

  lemma StillNotStuck(b: Broker, b': Broker)
    requires SlotsOk(b) && AllGo(b, b') && !Stuck(b)
    ensures !Stuck(b')
  {
    if |b.orders| == MAX_ORDERS {
      var k :| 0 <= k < |b.orders| && b.orders[k] != BLANK;
      assert Goes(b.orders[k], b'.orders[k]);
    }
  }

  lemma {:induction false} OnwardFrom(b: Broker, specs: seq<Spec>, e: Event, events: seq<Event>)
    requires Sized(b, specs)
    ensures Onward(b, specs, [e] + events) == Onward(Step(b, specs, e), specs, events)
  {
    hide Step;
    if events == [] {
      assert ([e] + events)[..0] == [] && [e] + events == [e];
    } else {
      OnwardFrom(b, specs, e, events[..|events| - 1]);
      assert ([e] + events)[..|events|] == [e] + events[..|events| - 1];
    }
  }

  /** The same from any market, after a quote. */
  lemma NotStuckAccepts(b: Broker, specs: seq<Spec>, r: Request) returns (events: seq<Event>)
    requires Sized(b, specs) && SlotsOk(b) && !Stuck(b) && Acceptable(specs, r)
    ensures AllNamed(events) && Accepts(Onward(b, specs, events), specs, SubmitEvent(r, true, true, 0, 0))
  {
    hide Acceptable, Quote, Stuck, Accepts;
    var models := Models(_ => 0, _ => false, _ => 0);
    var quote := QuoteEvent(models, r.symbol, Market(1, 2, 0, 0, false), 0, false);
    var b1 := Step(b, specs, quote);
    QuoteGoes(b, specs, models, r.symbol, quote.market, 0, false);
    StaysOk(b, b1);
    StillNotStuck(b, b1);
    SymbolIsKnown(specs, r);
    QuoteOpens(b, specs, models, r.symbol, quote.market);
    var rest := OpenAccepts(b1, specs, r);
    OnwardFrom(b, specs, quote, rest);
    events := [quote] + rest;
  }

  lemma SymbolIsKnown(specs: seq<Spec>, r: Request)
    requires |specs| == MAX_SYMBOLS && Acceptable(specs, r)
    ensures r.symbol < MAX_SYMBOLS
  {
  }

  lemma QuoteOpens(b: Broker, specs: seq<Spec>, models: Models, symbol: nat, market: Market)
    requires Sized(b, specs) && symbol < MAX_SYMBOLS && 0 < market.bid < market.ask
    ensures Quote(b, specs, models, symbol, market, 0, false).markets[symbol].valid
  {
    var b1 := Updated(b, specs, models, symbol, market);
    ProcessKeepsMarkets(b1, specs, models, 0, |b1.orders|);
    hide Process;
  }

  lemma {:induction false} ProcessKeepsMarkets(b: Broker, specs: seq<Spec>, models: Models, now: nat, n: nat)
    requires Sized(b, specs) && n <= |b.orders|
    ensures Process(b, specs, models, now, n).markets == b.markets
  {
    if n > 0 {
      ProcessKeepsMarkets(b, specs, models, now, n - 1);
      TurnKeepsMarkets(Process(b, specs, models, now, n - 1), specs, models, now, n - 1);
      hide ProcessOne;
    }
  }

  lemma TurnKeepsMarkets(b: Broker, specs: seq<Spec>, models: Models, now: nat, i: nat)
    requires Sized(b, specs) && i < |b.orders|
    ensures ProcessOne(b, specs, models, now, i).markets == b.markets
  {
    hide Offer, Impossible, Netted, Commission;
  }

  /** Cancelling an order that was entered frees a slot. */
  lemma CancelFrees(b: Broker, k: nat)
    requires SlotsOk(b) && k < |b.orders| && b.orders[k] != BLANK && FreeSlot(b.orders) == |b.orders|
    ensures var b' := Cancel(b, b.orders[k].id).0;
            FreeSlot(b'.orders) < |b'.orders| == |b.orders| && b' == b.(orders := b'.orders)
  {
    var i := FindLive(b.orders, b.orders[k].id);
    assert Entered(b.orders[k]) && Entered(b.orders[i]);
    assert IsTerminal(Cancel(b, b.orders[k].id).0.orders[i].state);
  }

  /** As long as the margin and quote checks can pass, and anything can be submitted at all, a broker never accepts an
      order again exactly when it is stuck. */
  lemma NeverAcceptsIffStuck(specs: seq<Spec>, initial: int, past: seq<Event>, r: Request)
    requires |specs| == MAX_SYMBOLS && AllNamed(past) && Acceptable(specs, r)
    ensures NeverAccepts(Run(specs, initial, past), specs) <==> Stuck(Run(specs, initial, past))
  {
    hide Acceptable, Accepts, Stuck, AllNamed, Run, SlotsOk;
    var b := Run(specs, initial, past);
    if Stuck(b) {
      forall events, e | AllNamed(events) && Named(e) ensures !Accepts(Onward(b, specs, events), specs, e) {
        StuckForever(b, specs, events, e);
      }
    } else {
      SlotsStayOk(specs, initial, past);
      var named := WithName(specs, r);
      var events := NotStuckAccepts(b, specs, named);
      assert Named(SubmitEvent(named, true, true, 0, 0));
    }
  }

  lemma WithName(specs: seq<Spec>, r: Request) returns (r': Request)
    requires |specs| == MAX_SYMBOLS && Acceptable(specs, r)
    ensures Acceptable(specs, r') && r'.id != 0
  {
    r' := r.(id := 1);
  }

  /** Only an event about the reference 0, which no order has, would free a blank slot. */
  lemma NamelessCancelFrees(b: Broker)
    requires Stuck(b)
    ensures Cancel(b, 0).1 && FreeSlot(Cancel(b, 0).0.orders) == 0
  {
  }
}
