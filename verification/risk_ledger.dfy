/** The reservation lifecycle of the risk ledger, one operation at a time: what is reserved in each dimension
    is what the active reservations still need, and credit is neither created nor lost. */
module RiskLedgers {
  import opened ExecTypes

  datatype Dim = Strategy(id: nat) | Symbol(id: nat) | Venue(id: nat) | Global

  /** The same ceiling applies to every slot of a kind. */
  datatype Limits = Limits(openOrders: int, creditBudget: int)

  datatype Config = Config(maxOrderVolume: int, forGlobal: Limits, perStrategy: Limits, perVenue: Limits, perSymbol: Limits,
                           tableCapacity: nat)

  /** Strategy 0 marks a reservation made without one. */
  const UNATTRIBUTED: nat := 0

  datatype Reservation = Reservation(strategy: nat, venue: nat, symbol: nat, buy: bool, requested: int, filled: int, credit: int)

  datatype Book = Book(exposure: map<Dim, int>, position: map<Dim, int>, credit: map<Dim, int>, halted: set<Dim>,
                       reservations: map<Ref, Reservation>)

  function LimitsOf(c: Config, d: Dim): Limits {
    match d
    case Strategy(_) => c.perStrategy
    case Symbol(_) => c.perSymbol
    case Venue(_) => c.perVenue
    case Global => c.forGlobal
  }

  function Dims(strategy: nat, symbol: nat, venue: nat): seq<Dim> {
    (if strategy == UNATTRIBUTED then [] else [Strategy(strategy)]) + [Symbol(symbol), Venue(venue), Global]
  }

  function DimsOf(r: Reservation): seq<Dim> {
    Dims(r.strategy, r.symbol, r.venue)
  }

  predicate Distinct(dims: seq<Dim>) {
    forall i, j | 0 <= i < j < |dims| :: dims[i] != dims[j]
  }

  lemma DimsDistinct(strategy: nat, symbol: nat, venue: nat)
    ensures Distinct(Dims(strategy, symbol, venue))
  {
  }

  // ---- the specification ----

  function AddAll(m: map<Dim, int>, dims: seq<Dim>, v: int): (added: map<Dim, int>)
    ensures added.Keys == m.Keys
  {
    map d | d in m :: if d in dims then m[d] + v else m[d]
  }

  predicate Registered(b: Book, dims: seq<Dim>) {
    forall d <- dims :: d in b.exposure && d in b.position && d in b.credit
  }

  predicate ExposureFits(c: Config, exposure: map<Dim, int>, dims: seq<Dim>, v: int)
    requires forall d <- dims :: d in exposure
  {
    forall d <- dims :: exposure[d] + v <= LimitsOf(c, d).openOrders
  }

  predicate CreditFits(credit: map<Dim, int>, dims: seq<Dim>, v: int)
    requires forall d <- dims :: d in credit
  {
    forall d <- dims :: credit[d] - v >= 0
  }

  /** Checked before any counter is touched. */
  predicate Askable(c: Config, b: Book, ref: Ref, r: Reservation) {
    && 0 < r.requested <= c.maxOrderVolume && ref !in b.reservations
    && Registered(b, DimsOf(r)) && (forall d <- DimsOf(r) :: d !in b.halted)
  }

  predicate Admissible(c: Config, b: Book, ref: Ref, r: Reservation) {
    && Askable(c, b, ref, r)
    && ExposureFits(c, b.exposure, DimsOf(r), r.requested) && CreditFits(b.credit, DimsOf(r), r.requested)
    && |b.reservations| < c.tableCapacity
  }

  function Fresh(strategy: nat, venue: nat, symbol: nat, buy: bool, volume: int): Reservation {
    Reservation(strategy, venue, symbol, buy, volume, 0, volume)
  }

  /** All or nothing: a refused reservation changes nothing. */
  function Reserved(c: Config, b: Book, ref: Ref, r: Reservation): (Book, bool) {
    if !Admissible(c, b, ref, r) then (b, false)
    else
      (b.(exposure := AddAll(b.exposure, DimsOf(r), r.requested), credit := AddAll(b.credit, DimsOf(r), -r.requested),
          reservations := b.reservations[ref := r]), true)
  }

  /** Gives back what is left, unless more was filled than requested, and the credit. */
  function Released(b: Book, ref: Ref): Book {
    if ref !in b.reservations then b
    else
      var r := b.reservations[ref];
      var left := r.requested - r.filled;
      b.(exposure := if left > 0 then AddAll(b.exposure, DimsOf(r), -left) else b.exposure,
         credit := AddAll(b.credit, DimsOf(r), r.credit),
         reservations := b.reservations - {ref})
  }

  function Observe(b: Book, ref: Ref, filled: int): Book {
    if ref !in b.reservations || filled <= b.reservations[ref].filled then b
    else
      var r := b.reservations[ref];
      var delta := filled - r.filled;
      b.(exposure := AddAll(b.exposure, DimsOf(r), -delta),
         position := AddAll(b.position, DimsOf(r), if r.buy then delta else -delta),
         reservations := b.reservations[ref := r.(filled := filled)])
  }

  function Reconciled(b: Book, ref: Ref, filled: int, gone: bool): Book {
    if gone then Released(Observe(b, ref, filled), ref) else Observe(b, ref, filled)
  }

  function Resize(b: Book, ref: Ref, delta: int): Book
    requires ref in b.reservations
  {
    var r := b.reservations[ref];
    b.(exposure := AddAll(b.exposure, DimsOf(r), delta), reservations := b.reservations[ref := r.(requested := r.requested + delta)])
  }

  function Adjusted(c: Config, b: Book, ref: Ref, volume: int): (Book, bool) {
    if ref !in b.reservations then (b, false)
    else
      var r := b.reservations[ref];
      var delta := volume - r.requested;
      if delta > 0 && (volume > c.maxOrderVolume || !Registered(b, DimsOf(r)) || !ExposureFits(c, b.exposure, DimsOf(r), delta))
      then (b, false)
      else if delta == 0 then (b, true)
      else (Resize(b, ref, delta), true)
  }

  function Undone(b: Book, ref: Ref, delta: int): Book {
    if ref !in b.reservations || delta <= 0 then b else Resize(b, ref, -delta)
  }

  /** A strategy, a venue or a symbol can be halted, for good; only a registered one. */
  function Halted(b: Book, d: Dim): Book {
    if d.Global? || d !in b.exposure then b else b.(halted := b.halted + {d})
  }

  // ---- conservation ----

  datatype Op =
    | ReserveOp(ref: Ref, strategy: nat, venue: nat, symbol: nat, buy: bool, volume: int)
    | ReconcileOp(ref: Ref, filled: int, gone: bool)
    | ReleaseOp(ref: Ref)
    | AdjustOp(ref: Ref, volume: int)
    | UndoOp(ref: Ref, delta: int)
    | HaltOp(dim: Dim)

  function Step(c: Config, b: Book, op: Op): Book {
    match op
    case ReserveOp(ref, strategy, venue, symbol, buy, volume) =>
      Reserved(c, b, ref, Fresh(strategy, venue, symbol, buy, volume)).0
    case ReconcileOp(ref, filled, gone) => Reconciled(b, ref, filled, gone)
    case ReleaseOp(ref) => Released(b, ref)
    case AdjustOp(ref, volume) => Adjusted(c, b, ref, volume).0
    case UndoOp(ref, delta) => Undone(b, ref, delta)
    case HaltOp(d) => Halted(b, d)
  }

  function Run(c: Config, b: Book, ops: seq<Op>): Book {
    if ops == [] then b else Step(c, Run(c, b, ops[..|ops| - 1]), ops[|ops| - 1])
  }

  /** What one reservation holds of a dimension. */
  function Needs(r: Reservation, d: Dim): int {
    if d in DimsOf(r) then r.requested - r.filled else 0
  }

  function Owes(r: Reservation, d: Dim): int {
    if d in DimsOf(r) then r.credit else 0
  }

  ghost function Sum(of: (Reservation, Dim) -> int, reservations: map<Ref, Reservation>, d: Dim): int
    decreases |reservations|
  {
    if reservations == map[] then 0
    else
      var ref :| ref in reservations;
      of(reservations[ref], d) + Sum(of, reservations - {ref}, d)
  }

  /** Any reservation can be taken out of the sum first. */
  lemma {:induction false} SumOut(of: (Reservation, Dim) -> int, reservations: map<Ref, Reservation>, ref: Ref, d: Dim)
    requires ref in reservations
    ensures Sum(of, reservations, d) == of(reservations[ref], d) + Sum(of, reservations - {ref}, d)
    decreases |reservations|
  {
    var first :| first in reservations
      && Sum(of, reservations, d) == of(reservations[first], d) + Sum(of, reservations - {first}, d);
    if first != ref {
      SumOut(of, reservations - {first}, ref, d);
      assert reservations - {first} - {ref} == reservations - {ref} - {first};
      SumOut(of, reservations - {ref}, first, d);
    }
  }

  lemma SumPut(of: (Reservation, Dim) -> int, reservations: map<Ref, Reservation>, ref: Ref, r: Reservation, d: Dim)
    ensures Sum(of, reservations[ref := r], d) == of(r, d) + Sum(of, reservations - {ref}, d)
    ensures ref !in reservations ==> reservations - {ref} == reservations
  {
    SumOut(of, reservations[ref := r], ref, d);
    assert reservations[ref := r] - {ref} == reservations - {ref};
  }

  /** What a step takes from the exposure of `d` without giving it back: the overfill of a released reservation. */
  function Drift(b: Book, op: Op, d: Dim): int {
    match op
    case ReleaseOp(ref) => Overfill(b, ref, d)
    case ReconcileOp(ref, filled, gone) => if gone then Overfill(Observe(b, ref, filled), ref, d) else 0
    case _ => 0
  }

  function Overfill(b: Book, ref: Ref, d: Dim): int {
    if ref in b.reservations && b.reservations[ref].filled > b.reservations[ref].requested && d in DimsOf(b.reservations[ref])
    then b.reservations[ref].filled - b.reservations[ref].requested
    else 0
  }

  function TotalDrift(c: Config, b: Book, ops: seq<Op>, d: Dim): int {
    if ops == [] then 0
    else
      var before := ops[..|ops| - 1];
      TotalDrift(c, b, before, d) + Drift(Run(c, b, before), ops[|ops| - 1], d)
  }

  /** The difference between the counter and what the active reservations need. */
  ghost function Unaccounted(b: Book, d: Dim): int
    requires d in b.exposure
  {
    b.exposure[d] - Sum(Needs, b.reservations, d)
  }

  ghost predicate BookOk(c: Config, b: Book) {
    && b.exposure.Keys == b.position.Keys == b.credit.Keys
    && (forall ref <- b.reservations :: Registered(b, DimsOf(b.reservations[ref])))
    && (forall d <- b.credit :: b.credit[d] + Sum(Owes, b.reservations, d) == LimitsOf(c, d).creditBudget)
  }

  lemma ReserveSums(c: Config, b: Book, ref: Ref, r: Reservation, d: Dim)
    requires BookOk(c, b) && d in b.exposure && r.filled == 0 && r.credit == r.requested
    ensures var b' := Reserved(c, b, ref, r).0;
            && b'.exposure.Keys == b.exposure.Keys && b'.credit.Keys == b.credit.Keys
            && Unaccounted(b', d) == Unaccounted(b, d)
            && b'.credit[d] + Sum(Owes, b'.reservations, d) == b.credit[d] + Sum(Owes, b.reservations, d)
  {
    SumPut(Needs, b.reservations, ref, r, d);
    SumPut(Owes, b.reservations, ref, r, d);
  }

  lemma ReleaseSums(c: Config, b: Book, ref: Ref, d: Dim)
    requires BookOk(c, b) && d in b.exposure
    ensures var b' := Released(b, ref);
            && b'.exposure.Keys == b.exposure.Keys && b'.credit.Keys == b.credit.Keys
            && Unaccounted(b', d) == Unaccounted(b, d) - Overfill(b, ref, d)
            && b'.credit[d] + Sum(Owes, b'.reservations, d) == b.credit[d] + Sum(Owes, b.reservations, d)
  {
    if ref in b.reservations {
      SumOut(Needs, b.reservations, ref, d);
      SumOut(Owes, b.reservations, ref, d);
    }
  }

  /** A change of one reservation that moves the counters by what it moves the reservation's needs. */
  lemma ChangeSums(b: Book, b': Book, ref: Ref, r: Reservation, v: int, d: Dim)
    requires ref in b.reservations && d in b.exposure && DimsOf(r) == DimsOf(b.reservations[ref])
    requires b'.reservations == b.reservations[ref := r] && r.credit == b.reservations[ref].credit
    requires r.requested - r.filled == b.reservations[ref].requested - b.reservations[ref].filled + v
    requires b'.exposure == AddAll(b.exposure, DimsOf(r), v)
    ensures Unaccounted(b', d) == Unaccounted(b, d) && Sum(Owes, b'.reservations, d) == Sum(Owes, b.reservations, d)
  {
    SumOut(Needs, b.reservations, ref, d);
    SumOut(Owes, b.reservations, ref, d);
    SumPut(Needs, b.reservations, ref, r, d);
    SumPut(Owes, b.reservations, ref, r, d);
  }

  lemma SameDims(r: Reservation, q: Reservation)
    requires q.strategy == r.strategy && q.symbol == r.symbol && q.venue == r.venue
    ensures DimsOf(q) == DimsOf(r)
  {
  }

  lemma ObserveFrame(b: Book, ref: Ref, filled: int)
    ensures var b' := Observe(b, ref, filled); b'.exposure.Keys == b.exposure.Keys && b'.credit == b.credit
  {
    hide AddAll, DimsOf;
  }

  lemma ObserveSums(b: Book, ref: Ref, filled: int, d: Dim)
    requires d in b.exposure
    ensures var b' := Observe(b, ref, filled);
            && d in b'.exposure && Unaccounted(b', d) == Unaccounted(b, d)
            && Sum(Owes, b'.reservations, d) == Sum(Owes, b.reservations, d)
  {
    hide Sum, DimsOf, Unaccounted, AddAll, Needs, Owes;
    if ref in b.reservations && filled > b.reservations[ref].filled {
      var r := b.reservations[ref];
      SameDims(r, r.(filled := filled));
      ChangeSums(b, Observe(b, ref, filled), ref, r.(filled := filled), r.filled - filled, d);
    }
  }

  lemma ResizeSums(c: Config, b: Book, ref: Ref, delta: int, d: Dim)
    requires BookOk(c, b) && d in b.exposure && ref in b.reservations
    ensures var b' := Resize(b, ref, delta);
            && b'.exposure.Keys == b.exposure.Keys && b'.credit == b.credit
            && Unaccounted(b', d) == Unaccounted(b, d) && Sum(Owes, b'.reservations, d) == Sum(Owes, b.reservations, d)
  {
    hide Sum, DimsOf, Unaccounted, AddAll, LimitsOf, Needs, Owes;
    var r := b.reservations[ref];
    SameDims(r, r.(requested := r.requested + delta));
    ChangeSums(b, Resize(b, ref, delta), ref, r.(requested := r.requested + delta), delta, d);
  }

  predicate WithinLimits(c: Config, b: Book) {
    && (forall d <- b.exposure :: b.exposure[d] <= LimitsOf(c, d).openOrders || b.exposure[d] <= 0)
    && (forall d <- b.credit :: b.credit[d] >= 0)
    && (forall ref <- b.reservations :: b.reservations[ref].credit >= 0)
    && |b.reservations| <= c.tableCapacity
  }

  lemma StepSums(c: Config, b: Book, op: Op, d: Dim)
    requires BookOk(c, b) && d in b.exposure
    ensures var b' := Step(c, b, op);
            && b'.exposure.Keys == b.exposure.Keys && b'.credit.Keys == b.credit.Keys
            && Unaccounted(b', d) == Unaccounted(b, d) - Drift(b, op, d)
            && b'.credit[d] + Sum(Owes, b'.reservations, d) == b.credit[d] + Sum(Owes, b.reservations, d)
  {
    hide Unaccounted, Sum, Admissible, AddAll, LimitsOf, DimsOf, Registered, Overfill, Needs, Owes;
    match op
    case ReserveOp(ref, strategy, venue, symbol, buy, volume) =>
      ReserveSums(c, b, ref, Fresh(strategy, venue, symbol, buy, volume), d);
    case ReconcileOp(ref, filled, gone) =>
      ObserveFrame(b, ref, filled);
      ObserveSums(b, ref, filled, d);
      ObserveKeepsBook(c, b, ref, filled);
      if gone { ReleaseSums(c, Observe(b, ref, filled), ref, d); }
    case ReleaseOp(ref) => ReleaseSums(c, b, ref, d);
    case AdjustOp(ref, volume) =>
      if ref in b.reservations { ResizeSums(c, b, ref, volume - b.reservations[ref].requested, d); }
    case UndoOp(ref, delta) =>
      if ref in b.reservations { ResizeSums(c, b, ref, -delta, d); }
    case HaltOp(_) => HaltSums(b, op, d);
  }

  lemma HaltSums(b: Book, op: Op, d: Dim)
    requires op.HaltOp? && d in b.exposure
    ensures Unaccounted(Halted(b, op.dim), d) == Unaccounted(b, d)
  {
  }

  lemma ObserveKeepsBook(c: Config, b: Book, ref: Ref, filled: int)
    requires BookOk(c, b)
    ensures BookOk(c, Observe(b, ref, filled))
  {
    var b' := Observe(b, ref, filled);
    ObserveFrame(b, ref, filled);
    ObserveKeepsRegistration(b, ref, filled);
    hide Observe, Registered;
    forall d | d in b.credit ensures b'.credit[d] + Sum(Owes, b'.reservations, d) == LimitsOf(c, d).creditBudget {
      ObserveSums(b, ref, filled, d);
    }
  }

  lemma StepKeepsBook(c: Config, b: Book, op: Op)
    requires BookOk(c, b)
    ensures BookOk(c, Step(c, b, op)) && Step(c, b, op).exposure.Keys == b.exposure.Keys
  {
    var b' := Step(c, b, op);
    StepKeepsRegistration(c, b, op);
    hide Step, Unaccounted, LimitsOf, Registered;
    forall d | d in b.credit ensures b'.credit[d] + Sum(Owes, b'.reservations, d) == LimitsOf(c, d).creditBudget {
      StepSums(c, b, op, d);
    }
  }

  ghost predicate AllRegistered(b: Book) {
    && b.exposure.Keys == b.position.Keys == b.credit.Keys
    && forall ref <- b.reservations :: Registered(b, DimsOf(b.reservations[ref]))
  }

  /** Counters move, dimensions stay; a reservation keeps its dimensions. */
  lemma SameDimensions(b: Book, b': Book, ref: Ref, r: Reservation)
    requires AllRegistered(b) && Registered(b, DimsOf(r))
    requires b'.exposure.Keys == b.exposure.Keys && b'.position.Keys == b.position.Keys && b'.credit.Keys == b.credit.Keys
    requires forall x <- b'.reservations :: (x == ref && b'.reservations[x] == r)
               || (x in b.reservations && b'.reservations[x] == b.reservations[x])
    ensures AllRegistered(b')
  {
    hide DimsOf;
    forall x | x in b'.reservations ensures Registered(b', DimsOf(b'.reservations[x])) {
      assert Registered(b, DimsOf(b'.reservations[x]));
    }
  }

  lemma ObserveKeepsRegistration(b: Book, ref: Ref, filled: int)
    requires AllRegistered(b)
    ensures AllRegistered(Observe(b, ref, filled)) && Observe(b, ref, filled).exposure.Keys == b.exposure.Keys
  {
    if ref in b.reservations {
      hide Registered, DimsOf;
      var r := b.reservations[ref];
      SameDims(r, r.(filled := filled));
      SameDimensions(b, Observe(b, ref, filled), ref, r.(filled := filled));
    }
  }

  lemma ResizeKeepsRegistration(b: Book, ref: Ref, delta: int)
    requires AllRegistered(b) && ref in b.reservations
    ensures AllRegistered(Resize(b, ref, delta)) && Resize(b, ref, delta).exposure.Keys == b.exposure.Keys
  {
    hide Registered, DimsOf;
    var r := b.reservations[ref];
    SameDims(r, r.(requested := r.requested + delta));
    SameDimensions(b, Resize(b, ref, delta), ref, r.(requested := r.requested + delta));
  }

  lemma ReleaseKeepsRegistration(b: Book, ref: Ref)
    requires AllRegistered(b)
    ensures AllRegistered(Released(b, ref)) && Released(b, ref).exposure.Keys == b.exposure.Keys
  {
    if ref in b.reservations {
      hide Registered, DimsOf;
      SameDimensions(b, Released(b, ref), ref, b.reservations[ref]);
    }
  }

  lemma ReservedKeepsRegistration(c: Config, b: Book, ref: Ref, r: Reservation)
    requires AllRegistered(b)
    ensures var b' := Reserved(c, b, ref, r).0; AllRegistered(b') && b'.exposure.Keys == b.exposure.Keys
  {
    if Admissible(c, b, ref, r) {
      hide LimitsOf, ExposureFits, CreditFits, DimsOf, Registered;
      SameDimensions(b, Reserved(c, b, ref, r).0, ref, r);
    }
  }

  lemma AskableDims(c: Config, b: Book, ref: Ref, r: Reservation)
    requires Askable(c, b, ref, r)
    ensures ref !in b.reservations && forall d <- DimsOf(r) :: d in b.exposure && d in b.credit
  {
  }

  lemma StepKeepsRegistration(c: Config, b: Book, op: Op)
    requires AllRegistered(b)
    ensures AllRegistered(Step(c, b, op)) && Step(c, b, op).exposure.Keys == b.exposure.Keys
  {
    hide LimitsOf, ExposureFits, CreditFits, DimsOf, Registered;
    match op
    case ReserveOp(ref, strategy, venue, symbol, buy, volume) =>
      ReservedKeepsRegistration(c, b, ref, Fresh(strategy, venue, symbol, buy, volume));
    case ReconcileOp(ref, filled, gone) =>
      hide Observe, Released, AllRegistered;
      ObserveKeepsRegistration(b, ref, filled);
      ReleaseKeepsRegistration(Observe(b, ref, filled), ref);
    case ReleaseOp(ref) => ReleaseKeepsRegistration(b, ref);
    case AdjustOp(ref, volume) =>
      if ref in b.reservations { ResizeKeepsRegistration(b, ref, volume - b.reservations[ref].requested); }
    case UndoOp(ref, delta) => if ref in b.reservations { ResizeKeepsRegistration(b, ref, -delta); }
    case HaltOp(d) => HaltKeepsRegistration(b, d);
  }

  lemma HaltKeepsRegistration(b: Book, d: Dim)
    requires AllRegistered(b)
    ensures AllRegistered(Halted(b, d))
  {
    hide DimsOf;
  }

  lemma StepKeepsLimits(c: Config, b: Book, op: Op)
    requires BookOk(c, b) && WithinLimits(c, b)
    ensures WithinLimits(c, Step(c, b, op))
  {
    hide Sum, LimitsOf, DimsOf;
    match op
    case ReserveOp(_, _, _, _, _, _) =>
    case ReconcileOp(ref, filled, gone) => ObserveKeepsLimits(c, b, ref, filled);
      ReleaseKeepsLimits(c, Observe(b, ref, filled), ref);
    case ReleaseOp(ref) => ReleaseKeepsLimits(c, b, ref);
    case AdjustOp(_, _) =>
    case UndoOp(_, _) =>
    case HaltOp(_) =>
  }

  lemma ObserveKeepsLimits(c: Config, b: Book, ref: Ref, filled: int)
    requires WithinLimits(c, b)
    ensures WithinLimits(c, Observe(b, ref, filled))
  {
    hide LimitsOf, DimsOf;
    var b' := Observe(b, ref, filled);
    assert b'.reservations.Keys == b.reservations.Keys;
  }

  lemma ReleaseKeepsLimits(c: Config, b: Book, ref: Ref)
    requires WithinLimits(c, b)
    ensures WithinLimits(c, Released(b, ref))
  {
    hide LimitsOf, DimsOf;
  }

  /** Nothing reserved, full credit, every dimension registered beforehand. */
  predicate Opening(c: Config, b: Book) {
    && b.exposure.Keys == b.position.Keys == b.credit.Keys && b.reservations == map[]
    && (forall d <- b.exposure :: b.exposure[d] == 0)
    && (forall d <- b.credit :: b.credit[d] == LimitsOf(c, d).creditBudget >= 0)
  }

  /** The exact balance after any run: the counter is what the active reservations still need, less what was
      overfilled and released; credit is conserved; and neither limit is ever passed. */
  lemma {:induction false} RunConserves(c: Config, b: Book, ops: seq<Op>)
    requires Opening(c, b)
    ensures var b' := Run(c, b, ops);
            && BookOk(c, b') && WithinLimits(c, b') && b'.exposure.Keys == b.exposure.Keys
            && forall d <- b.exposure ::
                 b'.exposure[d] == Sum(Needs, b'.reservations, d) - TotalDrift(c, b, ops, d)
  {
    if ops == [] {
      assert forall d: Dim :: Sum(Needs, map[], d) == 0 && Sum(Owes, map[], d) == 0;
    } else {
      var before := ops[..|ops| - 1];
      RunConserves(c, b, before);
      var now := Run(c, b, before);
      StepKeepsBook(c, now, ops[|ops| - 1]);
      StepKeepsLimits(c, now, ops[|ops| - 1]);
      hide Step, BookOk, WithinLimits, Sum, Drift;
      forall d | d in b.exposure
        ensures Run(c, b, ops).exposure[d] == Sum(Needs, Run(c, b, ops).reservations, d) - TotalDrift(c, b, ops, d)
      {
        StepSums(c, now, ops[|ops| - 1], d);
      }
    }
  }

  // ---- when nothing drifts ----

  /** The caller reports no more filled than requested, and never asks for less than it knows filled. */
  predicate Sensible(b: Book, op: Op) {
    match op
    case ReconcileOp(ref, filled, _) => ref in b.reservations ==> filled <= b.reservations[ref].requested
    case AdjustOp(ref, volume) => ref in b.reservations ==> b.reservations[ref].filled <= volume
    case UndoOp(ref, delta) => ref in b.reservations ==> b.reservations[ref].filled <= b.reservations[ref].requested - delta
    case _ => true
  }

  predicate NoOverfill(b: Book) {
    forall ref <- b.reservations :: b.reservations[ref].filled <= b.reservations[ref].requested
  }

  lemma SensibleStep(c: Config, b: Book, op: Op, d: Dim)
    requires NoOverfill(b) && Sensible(b, op)
    ensures NoOverfill(Step(c, b, op)) && Drift(b, op, d) == 0
  {
    hide AddAll, LimitsOf, DimsOf, ExposureFits, CreditFits, Registered;
  }

  predicate SensibleRun(c: Config, b: Book, ops: seq<Op>) {
    forall n | 0 <= n < |ops| :: Sensible(Run(c, b, ops[..n]), ops[n])
  }

  lemma {:induction false} SensibleNeverDrifts(c: Config, b: Book, ops: seq<Op>, d: Dim)
    requires NoOverfill(b) && SensibleRun(c, b, ops)
    ensures NoOverfill(Run(c, b, ops)) && TotalDrift(c, b, ops, d) == 0
  {
    if ops != [] {
      var last := |ops| - 1;
      hide Step, Sensible, NoOverfill, Drift;
      forall n | 0 <= n < last ensures Sensible(Run(c, b, ops[..last][..n]), ops[..last][n]) {
        assert ops[..last][..n] == ops[..n];
      }
      SensibleNeverDrifts(c, b, ops[..last], d);
      SensibleStep(c, Run(c, b, ops[..last]), ops[last], d);
    }
  }

  /** Reservation conservation: under a sensible caller each dimension's exposure is exactly the sum, over the
      active reservations that touch it, of what was requested and is not known to be filled. */
  lemma ReservationsAreConserved(c: Config, b: Book, ops: seq<Op>, d: Dim)
    requires Opening(c, b) && d in b.exposure && SensibleRun(c, b, ops)
    ensures var b' := Run(c, b, ops);
            && NoOverfill(b') && d in b'.exposure && b'.exposure[d] == Sum(Needs, b'.reservations, d)
  {
    RunConserves(c, b, ops);
    SensibleNeverDrifts(c, b, ops, d);
  }

  /** Releasing an overfilled reservation loses its overfill for good, in every dimension it touched. */
  lemma OverfillIsNeverReturned(c: Config, b: Book, ref: Ref, d: Dim)
    requires BookOk(c, b) && ref in b.reservations && d in DimsOf(b.reservations[ref])
    ensures d in b.exposure && d in Released(b, ref).exposure
    ensures Unaccounted(Released(b, ref), d) == Unaccounted(b, d)
            <==> b.reservations[ref].filled <= b.reservations[ref].requested
  {
    ReleaseSums(c, b, ref, d);
    hide Unaccounted;
  }

  /** Seeing the same fill again changes nothing, and once released a reservation never releases again. */
  lemma ObservationsAreIdempotent(b: Book, ref: Ref, filled: int, seen: int, gone: bool)
    requires seen <= filled
    ensures Observe(Observe(b, ref, filled), ref, seen) == Observe(b, ref, filled)
    ensures Reconciled(Reconciled(b, ref, filled, true), ref, seen, gone) == Reconciled(b, ref, filled, true)
  {
    hide AddAll;
  }

  // ---- the ledger ----

  /** Adding one dimension more, and the way back. */
  lemma AddOneMore(m: map<Dim, int>, dims: seq<Dim>, k: nat, v: int)
    requires k < |dims| && Distinct(dims) && forall d <- dims :: d in m
    ensures var front, all := AddAll(m, dims[..k], v), AddAll(m, dims[..k + 1], v);
            front[dims[k]] == m[dims[k]] && all == front[dims[k] := m[dims[k]] + v] && all[dims[k] := m[dims[k]]] == front
  {
    assert dims[..k + 1] == dims[..k] + [dims[k]];
    assert dims[k] !in dims[..k];
  }

  lemma AddNothing(m: map<Dim, int>, v: int)
    ensures AddAll(m, [], v) == m
  {
  }

  /** Taking back what was added, one dimension at a time from the front. */
  lemma TakeBackOne(m: map<Dim, int>, dims: seq<Dim>, v: int)
    requires dims != [] && Distinct(dims) && forall d <- dims :: d in m
    ensures AddAll(m, dims[1..], v) == AddAll(m, dims, v)[dims[0] := AddAll(m, dims, v)[dims[0]] - v]
  {
    assert dims == [dims[0]] + dims[1..];
  }

  lemma DistinctDims(r: Reservation)
    ensures Distinct(DimsOf(r))
  {
    DimsDistinct(r.strategy, r.symbol, r.venue);
  }

  lemma RegisteredDims(b: Book, ref: Ref)
    requires AllRegistered(b) && ref in b.reservations
    ensures Registered(b, DimsOf(b.reservations[ref]))
    ensures forall d <- DimsOf(b.reservations[ref]) :: d in b.exposure && d in b.credit && d in b.position
  {
  }

  /** Looking the slots up one by one is the same as asking for every dimension. */
  lemma ChecksAgree(b: Book, strategy: nat, symbol: nat, venue: nat)
    requires AllRegistered(b) && Global in b.exposure && Global !in b.halted
    ensures var dims := Dims(strategy, symbol, venue);
            && (Registered(b, dims) <==>
                  && (strategy == UNATTRIBUTED || Strategy(strategy) in b.exposure)
                  && Venue(venue) in b.exposure && Symbol(symbol) in b.exposure)
            && ((forall d <- dims :: d !in b.halted) <==>
                  && (strategy == UNATTRIBUTED || Strategy(strategy) !in b.halted)
                  && Venue(venue) !in b.halted && Symbol(symbol) !in b.halted)
  {
    var dims := Dims(strategy, symbol, venue);
    forall d ensures d in dims <==>
      ((strategy != UNATTRIBUTED && d == Strategy(strategy)) || d == Symbol(symbol) || d == Venue(venue) || d == Global)
    {
    }
    assert Symbol(symbol) in dims && Venue(venue) in dims;
    assert strategy != UNATTRIBUTED ==> Strategy(strategy) in dims;
  }

  class RiskLedger {
    const config: Config
    var exposure: map<Dim, int>
    var position: map<Dim, int>
    var credit: map<Dim, int>
    var halted: set<Dim>
    var reservations: map<Ref, Reservation>

    function Contents(): Book
      reads this
    {
      Book(exposure, position, credit, halted, reservations)
    }

    ghost predicate Valid()
      reads this
    {
      AllRegistered(Contents()) && Global in exposure && Global !in halted
    }

    /** Adds to each dimension in turn, and takes everything back at the first limit passed. */
    method ReserveExposure(dims: seq<Dim>, volume: int) returns (ok: bool)
      requires Distinct(dims) && forall d <- dims :: d in exposure
      modifies `exposure
      ensures ok == ExposureFits(config, old(exposure), dims, volume)
      ensures exposure == if ok then AddAll(old(exposure), dims, volume) else old(exposure)
    {
      ghost var before := exposure;
      AddNothing(before, volume);
      hide AddAll;
      var committed := 0;
      while committed < |dims|
        invariant committed <= |dims| && exposure == AddAll(before, dims[..committed], volume)
        invariant forall k | 0 <= k < committed :: before[dims[k]] + volume <= LimitsOf(config, dims[k]).openOrders
      {
        var d := dims[committed];
        AddOneMore(before, dims, committed, volume);
        exposure := exposure[d := exposure[d] + volume];
        if exposure[d] > LimitsOf(config, d).openOrders {
          exposure := exposure[d := exposure[d] - volume];
          assert exposure == AddAll(before, dims[..committed], volume);
          UndoExposure(before, dims[..committed], volume);
          return false;
        }
        committed := committed + 1;
      }
      assert dims[..committed] == dims;
      return true;
    }

    method UndoExposure(ghost before: map<Dim, int>, dims: seq<Dim>, volume: int)
      requires Distinct(dims) && (forall d <- dims :: d in before) && exposure == AddAll(before, dims, volume)
      modifies `exposure
      ensures exposure == before
    {
      var i := 0;
      assert dims[0..] == dims;
      while i < |dims|
        invariant i <= |dims| && exposure == AddAll(before, dims[i..], volume)
      {
        TakeBackOne(before, dims[i..], volume);
        assert dims[i..][1..] == dims[i + 1..];
        exposure := exposure[dims[i] := exposure[dims[i]] - volume];
        i := i + 1;
      }
      AddNothing(before, volume);
    }

    method ReserveCredit(dims: seq<Dim>, cost: int) returns (ok: bool)
      requires Distinct(dims) && forall d <- dims :: d in credit
      modifies `credit
      ensures ok == CreditFits(old(credit), dims, cost)
      ensures credit == if ok then AddAll(old(credit), dims, -cost) else old(credit)
    {
      ghost var before := credit;
      AddNothing(before, -cost);
      hide AddAll;
      var committed := 0;
      while committed < |dims|
        invariant committed <= |dims| && credit == AddAll(before, dims[..committed], -cost)
        invariant forall k | 0 <= k < committed :: before[dims[k]] - cost >= 0
      {
        var d := dims[committed];
        AddOneMore(before, dims, committed, -cost);
        credit := credit[d := credit[d] - cost];
        if credit[d] < 0 {
          credit := credit[d := credit[d] + cost];
          assert credit == AddAll(before, dims[..committed], -cost);
          UndoCredit(before, dims[..committed], cost);
          return false;
        }
        committed := committed + 1;
      }
      assert dims[..committed] == dims;
      return true;
    }

    method UndoCredit(ghost before: map<Dim, int>, dims: seq<Dim>, cost: int)
      requires Distinct(dims) && (forall d <- dims :: d in before) && credit == AddAll(before, dims, -cost)
      modifies `credit
      ensures credit == before
    {
      var i := 0;
      assert dims[0..] == dims;
      while i < |dims|
        invariant i <= |dims| && credit == AddAll(before, dims[i..], -cost)
      {
        TakeBackOne(before, dims[i..], -cost);
        assert dims[i..][1..] == dims[i + 1..];
        credit := credit[dims[i] := credit[dims[i]] + cost];
        i := i + 1;
      }
      AddNothing(before, -cost);
    }

    method UnwindExposure(dims: seq<Dim>, volume: int)
      requires Distinct(dims) && forall d <- dims :: d in exposure
      modifies `exposure
      ensures exposure == AddAll(old(exposure), dims, -volume)
    {
      var i := 0;
      AddNothing(exposure, -volume);
      hide AddAll;
      while i < |dims|
        invariant i <= |dims| && exposure == AddAll(old(exposure), dims[..i], -volume)
      {
        AddOneMore(old(exposure), dims, i, -volume);
        exposure := exposure[dims[i] := exposure[dims[i]] - volume];
        i := i + 1;
      }
      assert dims[..i] == dims;
    }

    method UnwindCredit(dims: seq<Dim>, cost: int)
      requires Distinct(dims) && forall d <- dims :: d in credit
      modifies `credit
      ensures credit == AddAll(old(credit), dims, cost)
    {
      var i := 0;
      AddNothing(credit, cost);
      hide AddAll;
      while i < |dims|
        invariant i <= |dims| && credit == AddAll(old(credit), dims[..i], cost)
      {
        AddOneMore(old(credit), dims, i, cost);
        credit := credit[dims[i] := credit[dims[i]] + cost];
        i := i + 1;
      }
      assert dims[..i] == dims;
    }

    method Reserve(ref: Ref, strategy: nat, venue: nat, symbol: nat, buy: bool, volume: int) returns (ok: bool)
      requires Valid()
      modifies this
      ensures Valid()
      ensures (Contents(), ok) == Reserved(config, old(Contents()), ref, Fresh(strategy, venue, symbol, buy, volume))
    {
      hide DimsOf, Dims, AddAll, Distinct, ExposureFits, CreditFits, Askable, AllRegistered, Registered, LimitsOf;
      var r := Fresh(strategy, venue, symbol, buy, volume);
      var dims := DimsOf(r);
      DistinctDims(r);
      ok := Check(ref, r);
      if !ok {
        return;
      }
      ReservedKeepsRegistration(config, Contents(), ref, r);
      AskableDims(config, Contents(), ref, r);
      var room := |reservations| < config.tableCapacity;
      ok := Take(dims, volume, room);
      if ok {
        reservations := reservations[ref := r];
      }
    }

    /** Takes exposure and credit in every dimension; `room` says the table can record it. */
    method Take(dims: seq<Dim>, volume: int, room: bool) returns (ok: bool)
      requires Distinct(dims) && forall d <- dims :: d in exposure && d in credit
      modifies `exposure, `credit
      ensures ok == (ExposureFits(config, old(exposure), dims, volume) && CreditFits(old(credit), dims, volume) && room)
      ensures exposure == if ok then AddAll(old(exposure), dims, volume) else old(exposure)
      ensures credit == if ok then AddAll(old(credit), dims, -volume) else old(credit)
    {
      hide AddAll, Distinct, ExposureFits, CreditFits;
      ghost var exposure0, credit0 := exposure, credit;
      ok := ReserveExposure(dims, volume);
      if !ok {
        return;
      }
      ok := ReserveCredit(dims, volume);
      if !ok {
        UndoExposure(exposure0, dims, volume);
        return;
      }
      if !room {
        UndoExposure(exposure0, dims, volume);
        UndoCredit(credit0, dims, volume);
        return false;
      }
    }

    method Check(ref: Ref, r: Reservation) returns (ok: bool)
      requires Valid()
      ensures ok == Askable(config, Contents(), ref, r)
    {
      if r.requested <= 0 || r.requested > config.maxOrderVolume || ref in reservations {
        return false;
      }
      ChecksAgree(Contents(), r.strategy, r.symbol, r.venue);
      hide Dims, AllRegistered, Registered;
      if (r.strategy != UNATTRIBUTED && Strategy(r.strategy) !in exposure) || Venue(r.venue) !in exposure ||
         Symbol(r.symbol) !in exposure {
        return false;
      }
      return !((r.strategy != UNATTRIBUTED && Strategy(r.strategy) in halted) || Venue(r.venue) in halted ||
               Symbol(r.symbol) in halted);
    }

    /** Takes a fresh observation of the order's filled volume into account. */
    method Reconcile(ref: Ref, filled: int, gone: bool)
      requires Valid()
      modifies this
      ensures Valid() && Contents() == Reconciled(old(Contents()), ref, filled, gone)
    {
      if ref !in reservations {
        ReleaseKeepsRegistration(Contents(), ref);
        return;
      }
      BookFill(ref, filled);
      if gone {
        Release(ref);
      }
    }

    method BookFill(ref: Ref, filled: int)
      requires Valid() && ref in reservations
      modifies this
      ensures Valid() && Contents() == Observe(old(Contents()), ref, filled)
    {
      ObserveKeepsRegistration(Contents(), ref, filled);
      hide AddAll, DimsOf, Dims, Distinct, AllRegistered, Registered, ExposureFits, LimitsOf;
      var r := reservations[ref];
      var delta := filled - r.filled;
      if delta > 0 {
        var dims := DimsOf(r);
        DistinctDims(r);
        RegisteredDims(Contents(), ref);
        UnwindExposure(dims, delta);
        AddPosition(dims, if r.buy then delta else -delta);
        reservations := reservations[ref := r.(filled := filled)];
      }
    }

    method AddPosition(dims: seq<Dim>, v: int)
      requires Distinct(dims) && forall d <- dims :: d in position
      modifies `position
      ensures position == AddAll(old(position), dims, v)
    {
      var i := 0;
      AddNothing(position, v);
      hide AddAll;
      while i < |dims|
        invariant i <= |dims| && position == AddAll(old(position), dims[..i], v)
      {
        AddOneMore(old(position), dims, i, v);
        position := position[dims[i] := position[dims[i]] + v];
        i := i + 1;
      }
      assert dims[..i] == dims;
    }

    method Release(ref: Ref)
      requires Valid()
      modifies this
      ensures Valid() && Contents() == Released(old(Contents()), ref)
    {
      ReleaseKeepsRegistration(Contents(), ref);
      hide AddAll, DimsOf, Dims, Distinct, AllRegistered, Registered, ExposureFits, LimitsOf;
      if ref !in reservations {
        return;
      }
      var r := reservations[ref];
      var left := r.requested - r.filled;
      var dims := DimsOf(r);
      DistinctDims(r);
      RegisteredDims(Contents(), ref);
      if left > 0 {
        UnwindExposure(dims, left);
      }
      UnwindCredit(dims, r.credit);
      reservations := reservations - {ref};
    }

    method AdjustReplace(ref: Ref, volume: int) returns (ok: bool)
      requires Valid()
      modifies this
      ensures Valid() && (Contents(), ok) == Adjusted(config, old(Contents()), ref, volume)
    {
      hide AddAll, DimsOf, Dims, Distinct, AllRegistered, Registered, ExposureFits, LimitsOf;
      if ref !in reservations {
        return false;
      }
      ResizeKeepsRegistration(Contents(), ref, volume - reservations[ref].requested);
      var r := reservations[ref];
      var delta := volume - r.requested;
      if delta == 0 {
        return true;
      }
      var dims := DimsOf(r);
      DistinctDims(r);
      RegisteredDims(Contents(), ref);
      if delta > 0 {
        if volume > config.maxOrderVolume {
          return false;
        }
        ok := ReserveExposure(dims, delta);
        if !ok {
          return;
        }
      } else {
        UnwindExposure(dims, -delta);
      }
      reservations := reservations[ref := r.(requested := volume)];
      return true;
    }

    method UndoReplaceIncrease(ref: Ref, delta: int)
      requires Valid()
      modifies this
      ensures Valid() && Contents() == Undone(old(Contents()), ref, delta)
    {
      hide AddAll, DimsOf, Dims, Distinct, AllRegistered, Registered, ExposureFits, LimitsOf;
      if ref !in reservations || delta <= 0 {
        return;
      }
      ResizeKeepsRegistration(Contents(), ref, -delta);
      var r := reservations[ref];
      DistinctDims(r);
      RegisteredDims(Contents(), ref);
      UnwindExposure(DimsOf(r), delta);
      reservations := reservations[ref := r.(requested := r.requested - delta)];
    }
  }
}
