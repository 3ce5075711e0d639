/** The risk limits by their own names: every strategy, venue and symbol is held to the limits configured for its kind, and
    a reservation is granted exactly when each of those has room. */
module NamedLimits {
  import opened ExecTypes
  import opened RiskLedgers

  /** The reservation counts in this dimension. */
  predicate CountsIn(r: Reservation, d: Dim) {
    match d
    case Strategy(id) => id != UNATTRIBUTED && r.strategy == id
    case Symbol(id) => r.symbol == id
    case Venue(id) => r.venue == id
    case Global => true
  }

  function Open(r: Reservation, d: Dim): int {
    if CountsIn(r, d) then r.requested - r.filled else 0
  }

  function Charged(r: Reservation, d: Dim): int {
    if CountsIn(r, d) then r.credit else 0
  }

  function Bought(r: Reservation, d: Dim): int {
    if !CountsIn(r, d) then 0 else if r.buy then r.filled else -r.filled
  }

  lemma CountsInDims(r: Reservation, d: Dim)
    ensures CountsIn(r, d) <==> d in DimsOf(r)
  {
    var rest := [Symbol(r.symbol), Venue(r.venue), Global];
    assert d in rest <==> d == rest[0] || d == rest[1] || d == rest[2];
  }

  lemma {:induction false} SameSum(a: (Reservation, Dim) -> int, b: (Reservation, Dim) -> int, reservations: map<Ref, Reservation>,
                                   d: Dim)
    requires forall r: Reservation :: a(r, d) == b(r, d)
    ensures Sum(a, reservations, d) == Sum(b, reservations, d)
    decreases |reservations|
  {
    if reservations != map[] {
      var ref :| ref in reservations && Sum(a, reservations, d) == a(reservations[ref], d) + Sum(a, reservations - {ref}, d);
      SumOut(b, reservations, ref, d);
      SameSum(a, b, reservations - {ref}, d);
    }
  }

  lemma SumsByName(reservations: map<Ref, Reservation>, d: Dim)
    ensures Sum(Needs, reservations, d) == Sum(Open, reservations, d)
    ensures Sum(Owes, reservations, d) == Sum(Charged, reservations, d)
  {
    forall r: Reservation ensures Needs(r, d) == Open(r, d) && Owes(r, d) == Charged(r, d) { CountsInDims(r, d); }
    SameSum(Needs, Open, reservations, d);
    SameSum(Owes, Charged, reservations, d);
  }

  // ---- every limit, by name ----

  predicate Below(exposure: int, limit: int) {
    exposure <= limit || exposure <= 0
  }

  /** Nothing reserved, and each kind with its own credit. */
  ghost predicate Begins(c: Config, b: Book) {
    && b.exposure.Keys == b.position.Keys == b.credit.Keys && b.reservations == map[] && b.halted == {}
    && (forall d <- b.exposure :: b.exposure[d] == b.position[d] == 0)
    && (forall y: nat | Symbol(y) in b.credit :: b.credit[Symbol(y)] == c.perSymbol.creditBudget >= 0)
    && (forall v: nat | Venue(v) in b.credit :: b.credit[Venue(v)] == c.perVenue.creditBudget >= 0)
    && (forall s: nat | Strategy(s) in b.credit :: b.credit[Strategy(s)] == c.perStrategy.creditBudget >= 0)
    && (Global in b.credit ==> b.credit[Global] == c.forGlobal.creditBudget >= 0)
  }

  lemma BeginsOpening(c: Config, b: Book)
    requires Begins(c, b)
    ensures Opening(c, b)
  {
    forall d | d in b.credit ensures b.credit[d] == LimitsOf(c, d).creditBudget >= 0 {
      match d
      case Strategy(s) =>
      case Symbol(y) =>
      case Venue(v) =>
      case Global =>
    }
  }

  /** What the counter of one dimension is, under the limits of its kind. */
  ghost predicate Held(b: Book, d: Dim, limits: Limits, drift: int) {
    && d in b.exposure && d in b.credit
    && Below(b.exposure[d], limits.openOrders)
    && b.exposure[d] == Sum(Open, b.reservations, d) - drift
    && b.credit[d] >= 0
    && b.credit[d] + Sum(Charged, b.reservations, d) == limits.creditBudget
  }

  /** In every run each registered symbol, venue and strategy stays within the limit of its own kind, and the whole within
      the global one; each counter is what the reservations of that symbol, venue or strategy have open, and credit left
      and credit charged make that kind's budget. */
  lemma EveryLimitHolds(c: Config, b: Book, ops: seq<Op>)
    requires Begins(c, b)
    ensures var b' := Run(c, b, ops);
            && (forall y: nat | Symbol(y) in b.exposure :: Held(b', Symbol(y), c.perSymbol, TotalDrift(c, b, ops, Symbol(y))))
            && (forall v: nat | Venue(v) in b.exposure :: Held(b', Venue(v), c.perVenue, TotalDrift(c, b, ops, Venue(v))))
            && (forall s: nat | Strategy(s) in b.exposure ::
                  Held(b', Strategy(s), c.perStrategy, TotalDrift(c, b, ops, Strategy(s))))
            && (Global in b.exposure ==> Held(b', Global, c.forGlobal, TotalDrift(c, b, ops, Global)))
  {
    hide Run, TotalDrift, Begins, Held;
    forall d | d in b.exposure ensures Held(Run(c, b, ops), d, LimitsOf(c, d), TotalDrift(c, b, ops, d)) {
      HeldAt(c, b, ops, d);
    }
  }

  lemma HeldAt(c: Config, b: Book, ops: seq<Op>, d: Dim)
    requires Begins(c, b) && d in b.exposure
    ensures Held(Run(c, b, ops), d, LimitsOf(c, d), TotalDrift(c, b, ops, d))
  {
    BeginsOpening(c, b);
    hide Run, TotalDrift, Begins, Sum, Opening, LimitsOf;
    RunConserves(c, b, ops);
    SumsByName(Run(c, b, ops).reservations, d);
  }

  lemma RunKeepsDims(c: Config, b: Book, ops: seq<Op>)
    requires Begins(c, b)
    ensures var now := Run(c, b, ops); now.exposure.Keys == now.position.Keys == now.credit.Keys == b.exposure.Keys
  {
    BeginsOpening(c, b);
    hide Run, Begins, Opening, Sum, LimitsOf, WithinLimits;
    RunConserves(c, b, ops);
  }

  // ---- what is granted ----

  /** Room for a volume in one dimension. */
  predicate HasRoom(b: Book, d: Dim, volume: int, limits: Limits) {
    && d in b.exposure && d in b.credit && d !in b.halted
    && b.exposure[d] + volume <= limits.openOrders && b.credit[d] >= volume
  }

  predicate WasHalted(ops: seq<Op>, d: Dim) {
    !d.Global? && exists i | 0 <= i < |ops| :: ops[i] == HaltOp(d)
  }

  /** A strategy, venue or symbol is halted exactly when it was told to, at any time before. */
  lemma {:induction false} HaltedForGood(c: Config, b: Book, ops: seq<Op>, d: Dim)
    requires Begins(c, b) && d in b.exposure
    ensures d in Run(c, b, ops).halted <==> WasHalted(ops, d)
  {
    if ops != [] {
      var before, op := ops[..|ops| - 1], ops[|ops| - 1];
      hide Step, WasHalted;
      RunKeepsDims(c, b, before);
      HaltedForGood(c, b, before, d);
      StepHalts(c, Run(c, b, before), op, d);
      OneMoreHalted(ops, d);
    }
  }

  lemma OneMoreHalted(ops: seq<Op>, d: Dim)
    requires ops != []
    ensures WasHalted(ops, d) <==> WasHalted(ops[..|ops| - 1], d) || (!d.Global? && ops[|ops| - 1] == HaltOp(d))
  {
    var before := ops[..|ops| - 1];
    if WasHalted(before, d) {
      var i :| 0 <= i < |before| && before[i] == HaltOp(d);
      assert ops[i] == HaltOp(d);
    }
    if WasHalted(ops, d) {
      var i :| 0 <= i < |ops| && ops[i] == HaltOp(d);
      assert i < |before| ==> before[i] == HaltOp(d);
    }
  }

  lemma StepHalts(c: Config, b: Book, op: Op, d: Dim)
    ensures d in Step(c, b, op).halted <==> d in b.halted || (op == HaltOp(d) && !d.Global? && d in b.exposure)
  {
    hide AddAll, LimitsOf, DimsOf, ExposureFits, CreditFits, Registered, Admissible;
  }

  lemma AdmissibleByName(c: Config, b: Book, ref: Ref, r: Reservation)
    requires b.exposure.Keys == b.position.Keys == b.credit.Keys && Global !in b.halted
    ensures Admissible(c, b, ref, r)
            <==> && 0 < r.requested <= c.maxOrderVolume && ref !in b.reservations && |b.reservations| < c.tableCapacity
                 && HasRoom(b, Symbol(r.symbol), r.requested, c.perSymbol)
                 && HasRoom(b, Venue(r.venue), r.requested, c.perVenue)
                 && HasRoom(b, Global, r.requested, c.forGlobal)
                 && (r.strategy != UNATTRIBUTED ==> HasRoom(b, Strategy(r.strategy), r.requested, c.perStrategy))
  {
    forall d: Dim ensures d in DimsOf(r) <==> CountsIn(r, d) { CountsInDims(r, d); }
    hide Dims, DimsOf;
    assert CountsIn(r, Symbol(r.symbol)) && CountsIn(r, Venue(r.venue)) && CountsIn(r, Global);
    assert r.strategy != UNATTRIBUTED ==> CountsIn(r, Strategy(r.strategy));
    assert forall d: Dim :: CountsIn(r, d) ==>
      d == Symbol(r.symbol) || d == Venue(r.venue) || d == Global || (r.strategy != UNATTRIBUTED && d == Strategy(r.strategy));
  }

  /** After any run a reservation is granted exactly when its volume is allowed, its reference is not in use, the table has
      room, and the symbol, the venue, the whole and, unless it has none, the strategy are registered, were never halted,
      and have room for it under the limit of their own kind and in their own credit. */
  lemma GrantedExactlyWhen(c: Config, b: Book, ops: seq<Op>, ref: Ref, strategy: nat, venue: nat, symbol: nat, buy: bool,
                           volume: int)
    requires Begins(c, b)
    ensures var now := Run(c, b, ops);
            Reserved(c, now, ref, Fresh(strategy, venue, symbol, buy, volume)).1
            <==> && 0 < volume <= c.maxOrderVolume && ref !in now.reservations && |now.reservations| < c.tableCapacity
                 && HasRoom(now, Symbol(symbol), volume, c.perSymbol)
                 && HasRoom(now, Venue(venue), volume, c.perVenue)
                 && HasRoom(now, Global, volume, c.forGlobal)
                 && (strategy != UNATTRIBUTED ==> HasRoom(now, Strategy(strategy), volume, c.perStrategy))
  {
    hide Run, Begins, Admissible, HasRoom;
    RunKeepsDims(c, b, ops);
    NeverGlobal(c, b, ops);
    AdmissibleByName(c, Run(c, b, ops), ref, Fresh(strategy, venue, symbol, buy, volume));
  }

  lemma {:induction false} NeverGlobal(c: Config, b: Book, ops: seq<Op>)
    requires Begins(c, b)
    ensures Global !in Run(c, b, ops).halted
  {
    if ops != [] {
      var before := ops[..|ops| - 1];
      hide Step;
      NeverGlobal(c, b, before);
      StepHalts(c, Run(c, b, before), ops[|ops| - 1], Global);
    }
  }

  /** Room for more of a reservation's own volume in one dimension. */
  predicate CanGrow(b: Book, d: Dim, more: int, limits: Limits) {
    d in b.exposure && b.exposure[d] + more <= limits.openOrders
  }

  /** A replaced order is let grow exactly when its new volume is allowed and each of its dimensions has room for the
      increase under the limit of its own kind; it is always let shrink. */
  lemma AdjustedExactlyWhen(c: Config, b: Book, ref: Ref, volume: int)
    requires AllRegistered(b)
    ensures Adjusted(c, b, ref, volume).1
            <==> && ref in b.reservations
                 && var r, more := b.reservations[ref], volume - b.reservations[ref].requested;
                    more > 0 ==>
                      && volume <= c.maxOrderVolume
                      && CanGrow(b, Symbol(r.symbol), more, c.perSymbol) && CanGrow(b, Venue(r.venue), more, c.perVenue)
                      && CanGrow(b, Global, more, c.forGlobal)
                      && (r.strategy != UNATTRIBUTED ==> CanGrow(b, Strategy(r.strategy), more, c.perStrategy))
  {
    if ref in b.reservations {
      var r := b.reservations[ref];
      assert Registered(b, DimsOf(r));
      forall d: Dim ensures d in DimsOf(r) <==> CountsIn(r, d) { CountsInDims(r, d); }
      hide Dims, DimsOf;
      assert CountsIn(r, Symbol(r.symbol)) && CountsIn(r, Venue(r.venue)) && CountsIn(r, Global);
      assert r.strategy != UNATTRIBUTED ==> CountsIn(r, Strategy(r.strategy));
    }
  }

  // ---- positions ----

  /** What leaves the active reservations of a dimension with a released one: its signed filled volume. */
  function Leaves(b: Book, ref: Ref, d: Dim): int {
    if ref in b.reservations then Bought(b.reservations[ref], d) else 0
  }

  function Left(b: Book, op: Op, d: Dim): int {
    match op
    case ReleaseOp(ref) => Leaves(b, ref, d)
    case ReconcileOp(ref, filled, gone) => if gone then Leaves(Observe(b, ref, filled), ref, d) else 0
    case _ => 0
  }

  function TotalLeft(c: Config, b: Book, ops: seq<Op>, d: Dim): int {
    if ops == [] then 0
    else
      var before := ops[..|ops| - 1];
      TotalLeft(c, b, before, d) + Left(Run(c, b, before), ops[|ops| - 1], d)
  }

  ghost function Unexplained(b: Book, d: Dim): int
    requires d in b.position
  {
    b.position[d] - Sum(Bought, b.reservations, d)
  }

  lemma ReleasedPosition(b: Book, ref: Ref, d: Dim)
    requires d in b.position
    ensures var b' := Released(b, ref);
            d in b'.position && Unexplained(b', d) == Unexplained(b, d) + Leaves(b, ref, d)
  {
    if ref in b.reservations { SumOut(Bought, b.reservations, ref, d); }
  }

  lemma ObservedPosition(b: Book, ref: Ref, filled: int, d: Dim)
    requires d in b.position
    ensures var b' := Observe(b, ref, filled);
            d in b'.position && Unexplained(b', d) == Unexplained(b, d)
  {
    if ref in b.reservations && filled > b.reservations[ref].filled {
      var r := b.reservations[ref];
      SumOut(Bought, b.reservations, ref, d);
      SumPut(Bought, b.reservations, ref, r.(filled := filled), d);
      CountsInDims(r, d);
      hide DimsOf;
    }
  }

  /** Changing what is requested moves no position. */
  lemma RequestedPosition(b: Book, b': Book, ref: Ref, r: Reservation, d: Dim)
    requires d in b.position && b'.position == b.position && b'.reservations == b.reservations[ref := r]
    requires Bought(r, d) == if ref in b.reservations then Bought(b.reservations[ref], d) else 0
    ensures Unexplained(b', d) == Unexplained(b, d)
  {
    SumPut(Bought, b.reservations, ref, r, d);
    if ref in b.reservations { SumOut(Bought, b.reservations, ref, d); }
    hide Sum;
  }

  lemma OtherPosition(c: Config, b: Book, op: Op, d: Dim)
    requires d in b.position && !op.ReleaseOp? && !op.ReconcileOp?
    ensures var b' := Step(c, b, op);
            d in b'.position && Unexplained(b', d) == Unexplained(b, d)
  {
    hide AddAll, LimitsOf, DimsOf, ExposureFits, CreditFits, Registered, Unexplained, Sum;
    var b' := Step(c, b, op);
    if b'.reservations == b.reservations {
      SamePosition(b, b', d);
    } else {
      RequestedPosition(b, b', op.ref, b'.reservations[op.ref], d);
    }
  }

  lemma SamePosition(b: Book, b': Book, d: Dim)
    requires d in b.position && b'.position == b.position && b'.reservations == b.reservations
    ensures Unexplained(b', d) == Unexplained(b, d)
  {
  }

  /** In every run each position is the signed volume seen filled: of the active reservations and of those released. */
  lemma {:induction false} PositionIsWhatWasSeen(c: Config, b: Book, ops: seq<Op>, d: Dim)
    requires Begins(c, b) && d in b.position
    ensures var b' := Run(c, b, ops);
            d in b'.position && b'.position[d] == Sum(Bought, b'.reservations, d) + TotalLeft(c, b, ops, d)
  {
    if ops != [] {
      var before, op := ops[..|ops| - 1], ops[|ops| - 1];
      PositionIsWhatWasSeen(c, b, before, d);
      var now := Run(c, b, before);
      hide Begins, Sum, Released, Observe, Leaves;
      match op
      case ReleaseOp(ref) => ReleasedPosition(now, ref, d);
      case ReconcileOp(ref, filled, gone) =>
        ObservedPosition(now, ref, filled, d);
        ReleasedPosition(Observe(now, ref, filled), ref, d);
      case _ => OtherPosition(c, now, op, d);
    }
  }
}
