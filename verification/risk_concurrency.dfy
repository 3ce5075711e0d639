/** The lock-free limit checks of the risk ledger under any interleaving: every atomic add and subtract is a
    step of its own, taken by any number of threads in any order. */
module RiskConcurrency {
  /** Where a thread is in its current operation on its dimensions 0..n. `v` is the volume added or removed. */
  datatype Phase =
    | Idle
    | Adding(i: nat, v: nat, pays: bool)  // next: add v to dimension i, then check its limit
    | Overshot(i: nat, v: nat)            // the check failed; next: take v back from dimension i
    | Retreating(j: nat, i: nat, v: nat)  // next: take v back from dimension j, for j in j..i
    | Paying(i: nat, v: nat)              // next: take v of credit from dimension i, then check it
    | Overdrawn(i: nat, v: nat)           // the check failed; next: return v of credit to dimension i
    | Refunding(j: nat, i: nat, v: nat)   // next: return v of credit to dimension j, for j in j..i
    | Unwinding(j: nat, v: nat, w: nat)   // next: take v from dimension j, for every dimension from j
    | Returning(j: nat, w: nat)           // next: return w of credit to dimension j, for every dimension from j

  /** A thread owns one reservation: `amount` of exposure and `credit` in each of its dimensions. */
  datatype Thread = Thread(dims: seq<nat>, amount: nat, credit: nat, phase: Phase)

  datatype Ledger = Ledger(exposure: seq<int>, credit: seq<int>, threads: seq<Thread>)

  datatype Action =
    | Reserve(dims: seq<nat>, v: nat)
    | Grow(v: nat)
    | Shrink(v: nat)
    | Release
    | Work(tableHasRoom: bool)  // the thread's next atomic operation; the table matters only at the end of a reserve

  // ---- what a thread holds in its k-th dimension ----

  function Added(t: Thread, k: nat): nat {
    match t.phase
    case Adding(i, v, _) => if k < i then v else 0
    case Overshot(i, v) => if k <= i then v else 0
    case Retreating(j, i, v) => if j <= k < i then v else 0
    case Paying(_, v) => v
    case Overdrawn(_, v) => v
    case Refunding(_, _, v) => v
    case Unwinding(j, v, _) => if k >= j then v else 0
    case _ => 0
  }

  /** Everything the thread has added to the counter and not yet taken back. */
  function Exposed(t: Thread, k: nat): nat { t.amount + Added(t, k) }

  /** The part of it whose limit check passed. */
  function Checked(t: Thread, k: nat): nat {
    if t.phase.Overshot? && k == t.phase.i then t.amount else Exposed(t, k)
  }

  function Owed(t: Thread, k: nat): nat {
    match t.phase
    case Paying(i, v) => if k < i then v else 0
    case Overdrawn(i, v) => if k <= i then v else 0
    case Refunding(j, i, v) => if j <= k < i then v else 0
    case Unwinding(_, _, w) => w
    case Returning(j, w) => if k >= j then w else 0
    case _ => 0
  }

  /** Everything the thread has taken from the credit counter and not yet returned. */
  function Drawn(t: Thread, k: nat): nat { t.credit + Owed(t, k) }

  function CheckedDrawn(t: Thread, k: nat): nat {
    if t.phase.Overdrawn? && k == t.phase.i then t.credit else Drawn(t, k)
  }

  /** The position of a dimension among the thread's. */
  function Position(dims: seq<nat>, d: nat): (k: nat)
    ensures k <= |dims| && (k < |dims| ==> dims[k] == d) && forall x | 0 <= x < k :: dims[x] != d
  {
    if dims == [] then 0 else if dims[0] == d then 0 else 1 + Position(dims[1..], d)
  }

  /** A measure of one thread in one dimension, 0 when it does not use it. */
  function On(measure: (Thread, nat) -> nat, t: Thread, d: nat): nat {
    var k := Position(t.dims, d);
    if k < |t.dims| then measure(t, k) else 0
  }

  function Total(measure: (Thread, nat) -> nat, threads: seq<Thread>, d: nat): nat {
    if threads == [] then 0
    else Total(measure, threads[..|threads| - 1], d) + On(measure, threads[|threads| - 1], d)
  }

  // ---- the steps ----

  /** Positions the phase names lie among the thread's dimensions. */
  predicate InRange(t: Thread) {
    match t.phase
    case Adding(i, _, _) => i < |t.dims|
    case Overshot(i, _) => i < |t.dims|
    case Retreating(j, i, _) => j < i <= |t.dims|
    case Paying(i, _) => i < |t.dims|
    case Overdrawn(i, _) => i < |t.dims|
    case Refunding(j, i, _) => j < i <= |t.dims|
    case Unwinding(j, _, _) => j < |t.dims|
    case Returning(j, _) => j < |t.dims|
    case Idle => true
  }

  predicate DimsOk(dims: seq<nat>, dimensions: nat) {
    && |dims| > 0
    && (forall k | 0 <= k < |dims| :: dims[k] < dimensions)
    && (forall a, b | 0 <= a < b < |dims| :: dims[a] != dims[b])
  }

  predicate ThreadOk(t: Thread, dimensions: nat) {
    InRange(t) && (t.dims == [] ==> t.phase.Idle?) && (t.dims != [] ==> DimsOk(t.dims, dimensions))
  }

  /** What one atomic operation adds to one counter. */
  datatype Effect = Effect(dim: nat, exposure: int, credit: int)

  function Retreat(t: Thread, j: nat, i: nat, v: nat): Phase {
    if j < i then Retreating(j, i, v) else Idle
  }

  /** The next phase once credit has been given back in positions below `j`. */
  function Refund(j: nat, i: nat, v: nat): Phase {
    if j < i then Refunding(j, i, v) else Unwinding(0, v, 0)
  }

  /** The thread after its next atomic operation, which moves one counter of its dimension at `At(t)`. */
  function After(t: Thread, exposure: int, credit: int, limit: int, room: bool): Thread
    requires !t.phase.Idle?
  {
    var n := |t.dims|;
    match t.phase
    case Adding(i, v, pays) =>
      if exposure + v > limit then t.(phase := Overshot(i, v))
      else if i + 1 < n then t.(phase := Adding(i + 1, v, pays))
      else if pays then t.(phase := Paying(0, v))
      else t.(phase := Idle, amount := t.amount + v)
    case Overshot(i, v) => t.(phase := Retreat(t, 0, i, v))
    case Retreating(j, i, v) => t.(phase := Retreat(t, j + 1, i, v))
    case Paying(i, v) =>
      if credit - v < 0 then t.(phase := Overdrawn(i, v))
      else if i + 1 < n then t.(phase := Paying(i + 1, v))
      else if room then t.(phase := Idle, amount := t.amount + v, credit := t.credit + v)
      else t.(phase := Unwinding(0, v, v))
    case Overdrawn(i, v) => t.(phase := Refund(0, i, v))
    case Refunding(j, i, v) => t.(phase := Refund(j + 1, i, v))
    case Unwinding(j, v, w) =>
      if j + 1 < n then t.(phase := Unwinding(j + 1, v, w))
      else if w > 0 then t.(phase := Returning(0, w))
      else t.(phase := Idle)
    case Returning(j, w) => if j + 1 < n then t.(phase := Returning(j + 1, w)) else t.(phase := Idle)
  }

  function At(t: Thread): nat
    requires !t.phase.Idle?
  {
    match t.phase
    case Adding(i, _, _) => i
    case Overshot(i, _) => i
    case Retreating(j, _, _) => j
    case Paying(i, _) => i
    case Overdrawn(i, _) => i
    case Refunding(j, _, _) => j
    case Unwinding(j, _, _) => j
    case Returning(j, _) => j
  }

  function ExposureMove(p: Phase): int {
    match p
    case Adding(_, v, _) => v
    case Overshot(_, v) => -(v as int)
    case Retreating(_, _, v) => -(v as int)
    case Unwinding(_, v, _) => -(v as int)
    case _ => 0
  }

  function CreditMove(p: Phase): int {
    match p
    case Paying(_, v) => -(v as int)
    case Overdrawn(_, v) => v
    case Refunding(_, _, v) => v
    case Returning(_, w) => w
    case _ => 0
  }

  /** Thread `i` takes one step; an action that does not apply changes nothing. */
  function Step(s: Ledger, limits: seq<nat>, i: nat, action: Action): Ledger
    requires i < |s.threads| && |limits| == |s.exposure| == |s.credit|
    requires ThreadOk(s.threads[i], |limits|)
  {
    var t := s.threads[i];
    match action
    case Work(room) =>
      if t.phase.Idle? then s
      else
        var d := t.dims[At(t)];
        var t' := After(t, s.exposure[d], s.credit[d], limits[d], room);
        Ledger(s.exposure[d := s.exposure[d] + ExposureMove(t.phase)], s.credit[d := s.credit[d] + CreditMove(t.phase)],
               s.threads[i := t'])
    case _ => s.(threads := s.threads[i := Begun(t, |limits|, action)])
  }

  /** Starting an operation touches no counter yet. */
  function Begun(t: Thread, dimensions: nat, action: Action): Thread {
    if !t.phase.Idle? then t
    else
      match action
      case Reserve(dims, v) =>
        if t.amount == 0 && t.credit == 0 && v > 0 && DimsOk(dims, dimensions) then t.(dims := dims, phase := Adding(0, v, true))
        else t
      case Grow(v) => if t.amount > 0 && v > 0 && t.dims != [] then t.(phase := Adding(0, v, false)) else t
      case Shrink(v) =>
        if 0 < v <= t.amount && t.dims != [] then t.(amount := t.amount - v, phase := Unwinding(0, v, 0)) else t
      case Release => if t.dims != [] then t.(amount := 0, credit := 0, phase := Unwinding(0, t.amount, t.credit)) else t
      case Work(_) => t
  }

  // ---- the invariant ----

  ghost predicate DimensionOk(s: Ledger, limits: seq<nat>, budgets: seq<nat>, d: nat)
    requires d < |s.exposure| && |limits| == |budgets| == |s.exposure| == |s.credit|
  {
    && s.exposure[d] == Total(Exposed, s.threads, d)
    && Total(Checked, s.threads, d) <= limits[d]
    && s.credit[d] == budgets[d] - Total(Drawn, s.threads, d)
    && Total(CheckedDrawn, s.threads, d) <= budgets[d]
  }

  ghost predicate Inv(s: Ledger, limits: seq<nat>, budgets: seq<nat>) {
    && |limits| == |budgets| == |s.exposure| == |s.credit|
    && (forall i | 0 <= i < |s.threads| :: ThreadOk(s.threads[i], |limits|))
    && (forall d | 0 <= d < |limits| :: DimensionOk(s, limits, budgets, d))
  }

  lemma {:induction false} TotalUpdate(measure: (Thread, nat) -> nat, threads: seq<Thread>, i: nat, t: Thread, d: nat)
    requires i < |threads|
    ensures Total(measure, threads[i := t], d) == Total(measure, threads, d) - On(measure, threads[i], d) + On(measure, t, d)
  {
    var last := |threads| - 1;
    if i == last {
      assert threads[i := t][..last] == threads[..last];
    } else {
      assert threads[i := t][..last] == threads[..last][i := t];
      TotalUpdate(measure, threads[..last], i, t, d);
    }
  }

  lemma {:induction false} TotalOrder(low: (Thread, nat) -> nat, high: (Thread, nat) -> nat, threads: seq<Thread>, d: nat)
    requires forall t, k :: low(t, k) <= high(t, k)
    ensures Total(low, threads, d) <= Total(high, threads, d)
  {
    if threads != [] { TotalOrder(low, high, threads[..|threads| - 1], d); }
  }

  /** One atomic operation moves what the thread holds at one position, by what it moves the counter. */
  lemma AfterMoves(t: Thread, exposure: int, credit: int, limit: int, room: bool, k: nat)
    requires !t.phase.Idle? && InRange(t) && k < |t.dims|
    ensures var t' := After(t, exposure, credit, limit, room);
            && t'.dims == t.dims && InRange(t')
            && Exposed(t', k) == Exposed(t, k) + (if k == At(t) then ExposureMove(t.phase) else 0)
            && Drawn(t', k) == Drawn(t, k) - (if k == At(t) then CreditMove(t.phase) else 0)
  {
  }

  /** What is checked only grows when the counter it was checked against stayed within bounds. */
  lemma AfterChecks(t: Thread, exposure: int, credit: int, limit: int, room: bool, k: nat)
    requires !t.phase.Idle? && InRange(t) && k < |t.dims|
    ensures var t' := After(t, exposure, credit, limit, room);
            && (Checked(t', k) > Checked(t, k) ==>
                  k == At(t) && exposure + ExposureMove(t.phase) <= limit && Checked(t', k) - Checked(t, k) == ExposureMove(t.phase))
            && (CheckedDrawn(t', k) > CheckedDrawn(t, k) ==>
                  k == At(t) && credit + CreditMove(t.phase) >= 0 && CheckedDrawn(t', k) - CheckedDrawn(t, k) == -CreditMove(t.phase))
  {
  }

  /** The same for what the thread holds in one dimension, whether it uses it or not. */
  lemma WorkMoves(t: Thread, dimensions: nat, exposure: int, credit: int, limit: int, room: bool, d: nat)
    requires ThreadOk(t, dimensions) && !t.phase.Idle? && At(t) < |t.dims|
    ensures var t', here := After(t, exposure, credit, limit, room), t.dims[At(t)] == d;
            && On(Exposed, t', d) == On(Exposed, t, d) + (if here then ExposureMove(t.phase) else 0)
            && On(Drawn, t', d) == On(Drawn, t, d) - (if here then CreditMove(t.phase) else 0)
            && (On(Checked, t', d) > On(Checked, t, d) ==>
                  && here && exposure + ExposureMove(t.phase) <= limit
                  && On(Checked, t', d) - On(Checked, t, d) == ExposureMove(t.phase))
            && (On(CheckedDrawn, t', d) > On(CheckedDrawn, t, d) ==>
                  && here && credit + CreditMove(t.phase) >= 0
                  && On(CheckedDrawn, t', d) - On(CheckedDrawn, t, d) == -CreditMove(t.phase))
  {
    hide After, Exposed, Checked, Drawn, CheckedDrawn, ExposureMove, CreditMove, InRange;
    var k := Position(t.dims, d);
    assert k < |t.dims| ==> (k == At(t) <==> d == t.dims[At(t)]);
    if k < |t.dims| {
      AfterMoves(t, exposure, credit, limit, room, k);
      AfterChecks(t, exposure, credit, limit, room, k);
    } else {
      AfterMoves(t, exposure, credit, limit, room, At(t));
    }
  }

  lemma WorkKeepsDimension(s: Ledger, limits: seq<nat>, budgets: seq<nat>, i: nat, room: bool, d: nat)
    requires Inv(s, limits, budgets) && i < |s.threads| && d < |limits| && !s.threads[i].phase.Idle?
    ensures DimensionOk(Step(s, limits, i, Work(room)), limits, budgets, d)
  {
    hide After, Exposed, Checked, Drawn, CheckedDrawn, ExposureMove, CreditMove, InRange, On, Position;
    var t := s.threads[i];
    assert ThreadOk(t, |limits|) && DimensionOk(s, limits, budgets, d);
    PhaseInRange(t);
    var at := t.dims[At(t)];
    var t' := After(t, s.exposure[at], s.credit[at], limits[at], room);
    WorkMoves(t, |limits|, s.exposure[at], s.credit[at], limits[at], room, d);
    TotalUpdate(Exposed, s.threads, i, t', d);
    TotalUpdate(Checked, s.threads, i, t', d);
    TotalUpdate(Drawn, s.threads, i, t', d);
    TotalUpdate(CheckedDrawn, s.threads, i, t', d);
    CheckedIsPart(s.threads, d);
  }

  lemma PhaseInRange(t: Thread)
    requires InRange(t) && !t.phase.Idle?
    ensures At(t) < |t.dims|
  {
  }

  lemma CheckedIsPart(threads: seq<Thread>, d: nat)
    ensures Total(Checked, threads, d) <= Total(Exposed, threads, d)
    ensures Total(CheckedDrawn, threads, d) <= Total(Drawn, threads, d)
  {
    TotalOrder(Checked, Exposed, threads, d);
    TotalOrder(CheckedDrawn, Drawn, threads, d);
  }

  /** Starting an operation leaves what the thread holds unchanged. */
  lemma BegunHolds(t: Thread, dimensions: nat, action: Action, d: nat)
    requires ThreadOk(t, dimensions)
    ensures var t' := Begun(t, dimensions, action);
            && ThreadOk(t', dimensions)
            && On(Exposed, t', d) == On(Exposed, t, d) && On(Drawn, t', d) == On(Drawn, t, d)
            && On(Checked, t', d) == On(Checked, t, d) && On(CheckedDrawn, t', d) == On(CheckedDrawn, t, d)
  {
  }

  lemma BeginKeepsDimension(s: Ledger, limits: seq<nat>, budgets: seq<nat>, i: nat, action: Action, d: nat)
    requires Inv(s, limits, budgets) && i < |s.threads| && d < |limits| && !action.Work?
    ensures DimensionOk(Step(s, limits, i, action), limits, budgets, d)
  {
    hide Begun, Exposed, Checked, Drawn, CheckedDrawn, On;
    var t' := Begun(s.threads[i], |limits|, action);
    assert ThreadOk(s.threads[i], |limits|) && DimensionOk(s, limits, budgets, d);
    BegunHolds(s.threads[i], |limits|, action, d);
    TotalUpdate(Exposed, s.threads, i, t', d);
    TotalUpdate(Checked, s.threads, i, t', d);
    TotalUpdate(Drawn, s.threads, i, t', d);
    TotalUpdate(CheckedDrawn, s.threads, i, t', d);
  }

  lemma StepKeepsThreads(s: Ledger, limits: seq<nat>, budgets: seq<nat>, i: nat, action: Action)
    requires Inv(s, limits, budgets) && i < |s.threads|
    ensures ThreadOk(Step(s, limits, i, action).threads[i], |limits|)
  {
    hide DimensionOk, Begun, After, InRange;
    var t := s.threads[i];
    assert ThreadOk(t, |limits|);
    BegunHolds(t, |limits|, action, 0);
    if action.Work? && !t.phase.Idle? {
      PhaseInRange(t);
      var at := t.dims[At(t)];
      AfterMoves(t, s.exposure[at], s.credit[at], limits[at], action.tableHasRoom, At(t));
    }
  }

  /** Every step of every thread keeps every counter exact and every checked sum within bounds. */
  lemma StepKeeps(s: Ledger, limits: seq<nat>, budgets: seq<nat>, i: nat, action: Action)
    requires Inv(s, limits, budgets) && i < |s.threads|
    ensures Inv(Step(s, limits, i, action), limits, budgets)
  {
    StepKeepsThreads(s, limits, budgets, i, action);
    hide DimensionOk, Begun, After, ThreadOk;
    var s' := Step(s, limits, i, action);
    forall d | 0 <= d < |limits| ensures DimensionOk(s', limits, budgets, d) {
      if !action.Work? {
        BeginKeepsDimension(s, limits, budgets, i, action, d);
      } else if !s.threads[i].phase.Idle? {
        WorkKeepsDimension(s, limits, budgets, i, action.tableHasRoom, d);
      }
    }
  }

  // ---- runs ----

  datatype Event = Event(thread: nat, action: Action)

  function Start(threads: nat, budgets: seq<nat>): Ledger {
    Ledger(seq(|budgets|, _ => 0), budgets, seq(threads, _ => Thread([], 0, 0, Idle)))
  }

  lemma {:induction false} NothingHeld(measure: (Thread, nat) -> nat, threads: seq<Thread>, d: nat)
    requires forall t <- threads :: t.dims == []
    ensures Total(measure, threads, d) == 0
  {
    if threads != [] {
      assert threads[|threads| - 1] in threads;
      NothingHeld(measure, threads[..|threads| - 1], d);
    }
  }

  lemma StartOk(threads: nat, limits: seq<nat>, budgets: seq<nat>)
    requires |limits| == |budgets|
    ensures Inv(Start(threads, budgets), limits, budgets)
  {
    var s := Start(threads, budgets);
    forall d | 0 <= d < |limits| ensures DimensionOk(s, limits, budgets, d) {
      NothingHeld(Exposed, s.threads, d);
      NothingHeld(Checked, s.threads, d);
      NothingHeld(Drawn, s.threads, d);
      NothingHeld(CheckedDrawn, s.threads, d);
    }
  }

  /** The ledger after any interleaving of the threads' steps. */
  ghost function RunFrom(s: Ledger, limits: seq<nat>, budgets: seq<nat>, events: seq<Event>): (s': Ledger)
    requires Inv(s, limits, budgets) && forall e <- events :: e.thread < |s.threads|
    ensures |s'.threads| == |s.threads| && Inv(s', limits, budgets)
  {
    if events == [] then s
    else
      var e := events[|events| - 1];
      assert e in events;
      var before := RunFrom(s, limits, budgets, events[..|events| - 1]);
      StepKeeps(before, limits, budgets, e.thread, e.action);
      Step(before, limits, e.thread, e.action)
  }

  ghost function Run(threads: nat, limits: seq<nat>, budgets: seq<nat>, events: seq<Event>): (s: Ledger)
    requires |limits| == |budgets| && forall e <- events :: e.thread < threads
    ensures |s.threads| == threads && Inv(s, limits, budgets)
  {
    StartOk(threads, limits, budgets);
    RunFrom(Start(threads, budgets), limits, budgets, events)
  }

  /** What a thread's finished operations have left it with. */
  function Settled(t: Thread, k: nat): nat { t.amount }

  function SettledCredit(t: Thread, k: nat): nat { t.credit }

  /** At every moment of every run, what has been granted fits the limit and the budget. */
  lemma NeverOversubscribed(threads: nat, limits: seq<nat>, budgets: seq<nat>, events: seq<Event>, d: nat)
    requires |limits| == |budgets| && (forall e <- events :: e.thread < threads) && d < |limits|
    ensures var s := Run(threads, limits, budgets, events);
            && Total(Settled, s.threads, d) <= limits[d] && Total(SettledCredit, s.threads, d) <= budgets[d]
            && s.exposure[d] >= Total(Settled, s.threads, d) && s.credit[d] <= budgets[d] - Total(SettledCredit, s.threads, d)
  {
    var s := Run(threads, limits, budgets, events);
    assert DimensionOk(s, limits, budgets, d);
    TotalOrder(Settled, Checked, s.threads, d);
    TotalOrder(SettledCredit, CheckedDrawn, s.threads, d);
    CheckedIsPart(s.threads, d);
  }

  /** The volume a thread has added over a limit and is about to take back. */
  function Excess(t: Thread, k: nat): nat {
    if t.phase.Overshot? && k == t.phase.i then t.phase.v else 0
  }

  lemma {:induction false} ExcessIsTheRest(threads: seq<Thread>, d: nat)
    ensures Total(Exposed, threads, d) == Total(Checked, threads, d) + Total(Excess, threads, d)
  {
    if threads != [] { ExcessIsTheRest(threads[..|threads| - 1], d); }
  }

  /** A counter passes its limit by no more than what is already being taken back. */
  lemma OvershootIsTransient(threads: nat, limits: seq<nat>, budgets: seq<nat>, events: seq<Event>, d: nat)
    requires |limits| == |budgets| && (forall e <- events :: e.thread < threads) && d < |limits|
    ensures var s := Run(threads, limits, budgets, events);
            0 <= s.exposure[d] <= limits[d] + Total(Excess, s.threads, d)
  {
    var s := Run(threads, limits, budgets, events);
    assert DimensionOk(s, limits, budgets, d);
    ExcessIsTheRest(s.threads, d);
  }

  ghost predicate Quiescent(s: Ledger) {
    forall t <- s.threads :: t.phase.Idle?
  }

  lemma {:induction false} IdleHolds(threads: seq<Thread>, d: nat)
    requires forall t <- threads :: t.phase.Idle?
    ensures Total(Exposed, threads, d) == Total(Settled, threads, d)
    ensures Total(Drawn, threads, d) == Total(SettledCredit, threads, d)
  {
    if threads != [] {
      assert threads[|threads| - 1] in threads;
      IdleHolds(threads[..|threads| - 1], d);
    }
  }

  /** Whenever no operation is in flight, every counter is exactly what has been granted, within its limit. */
  lemma ExactAtQuiescence(threads: nat, limits: seq<nat>, budgets: seq<nat>, events: seq<Event>, d: nat)
    requires |limits| == |budgets| && (forall e <- events :: e.thread < threads) && d < |limits|
    requires Quiescent(Run(threads, limits, budgets, events))
    ensures var s := Run(threads, limits, budgets, events);
            && s.exposure[d] == Total(Settled, s.threads, d) <= limits[d]
            && s.credit[d] == budgets[d] - Total(SettledCredit, s.threads, d) >= 0
  {
    var s := Run(threads, limits, budgets, events);
    assert DimensionOk(s, limits, budgets, d);
    NeverOversubscribed(threads, limits, budgets, events, d);
    IdleHolds(s.threads, d);
  }

  /** Atomic operations a thread may still need to finish what it began. */
  function StepsLeft(t: Thread): int {
    var n := |t.dims|;
    match t.phase
    case Idle => 0
    case Adding(i, _, pays) => (n - i) + (if pays then 3 * n else n)
    case Overshot(i, _) => 1 + i
    case Retreating(j, i, _) => i - j
    case Paying(i, _) => 3 * n - i
    case Overdrawn(i, _) => 1 + i + n
    case Refunding(j, i, _) => (i - j) + n
    case Unwinding(j, _, w) => (n - j) + (if w > 0 then n else 0)
    case Returning(j, _) => n - j
  }

  /** One step brings an operation nearer its end, and either leaves what the thread was granted as it was
      or, at the end of an accepted request, adds the whole volume. */
  lemma WorkProgresses(t: Thread, exposure: int, credit: int, limit: int, room: bool)
    requires InRange(t) && !t.phase.Idle?
    ensures var t' := After(t, exposure, credit, limit, room);
            && 0 <= StepsLeft(t') < StepsLeft(t) <= 4 * |t.dims|
            && (t'.amount == t.amount || (t'.phase.Idle? && t'.amount == t.amount + t.phase.v))
            && (t'.credit == t.credit || (t'.phase.Idle? && t'.credit == t.credit + t.phase.v && t'.amount == t.amount + t.phase.v))
  {
  }

  function StepsOf(i: nat, events: seq<Event>): nat {
    if events == [] then 0
    else StepsOf(i, events[..|events| - 1]) + if events[|events| - 1].thread == i then 1 else 0
  }

  lemma {:induction false} StepsRunDown(s: Ledger, limits: seq<nat>, budgets: seq<nat>, events: seq<Event>, i: nat)
    requires Inv(s, limits, budgets) && (forall e <- events :: e.thread < |s.threads|) && i < |s.threads|
    requires forall e <- events :: e.thread == i ==> e.action.Work?
    ensures var left := StepsLeft(RunFrom(s, limits, budgets, events).threads[i]);
            0 <= left && (left == 0 || left <= StepsLeft(s.threads[i]) - StepsOf(i, events))
  {
    hide After, StepsLeft, DimensionOk, InRange;
    if events == [] {
      assert ThreadOk(s.threads[i], |limits|);
      LeftIsSound(s.threads[i]);
    } else {
      var e := events[|events| - 1];
      assert e in events;
      StepsRunDown(s, limits, budgets, events[..|events| - 1], i);
      var before := RunFrom(s, limits, budgets, events[..|events| - 1]);
      assert ThreadOk(before.threads[i], |limits|);
      LeftIsSound(before.threads[i]);
      if e.thread == i && !before.threads[i].phase.Idle? {
        var t := before.threads[i];
        PhaseInRange(t);
        var d := t.dims[At(t)];
        WorkProgresses(t, before.exposure[d], before.credit[d], limits[d], e.action.tableHasRoom);
      }
    }
  }

  lemma LeftIsSound(t: Thread)
    requires InRange(t)
    ensures 0 <= StepsLeft(t) <= 4 * |t.dims| && (StepsLeft(t) == 0 <==> t.phase.Idle?)
  {
  }

  /** Wait-freedom: four atomic operations per dimension finish any operation, whatever the other threads do. */
  lemma WaitFree(s: Ledger, limits: seq<nat>, budgets: seq<nat>, events: seq<Event>, i: nat)
    requires Inv(s, limits, budgets) && (forall e <- events :: e.thread < |s.threads|) && i < |s.threads|
    requires forall e <- events :: e.thread == i ==> e.action.Work?
    requires StepsOf(i, events) >= 4 * |s.threads[i].dims|
    ensures RunFrom(s, limits, budgets, events).threads[i].phase.Idle?
  {
    hide StepsLeft, DimensionOk, InRange, RunFrom;
    StepsRunDown(s, limits, budgets, events, i);
    assert ThreadOk(s.threads[i], |limits|);
    LeftIsSound(s.threads[i]);
    var s' := RunFrom(s, limits, budgets, events);
    assert ThreadOk(s'.threads[i], |limits|);
    LeftIsSound(s'.threads[i]);
  }
}
