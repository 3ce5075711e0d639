/** A reservation that no other step comes in between of is granted exactly when it fits, and what is refused leaves every
    counter as it found it, whatever the other threads are in the middle of. */
module SoloGrants {
  import opened RiskConcurrency

  /** Counters with `v` added in the dimensions from position `from` to `to`. */
  function Moved(base: seq<int>, dims: seq<nat>, from: nat, to: nat, v: int): (r: seq<int>)
    requires from <= to <= |dims|
    ensures |r| == |base|
  {
    seq(|base|, d requires 0 <= d < |base| => base[d] + if d in dims[from..to] then v else 0)
  }

  lemma MovedNothing(base: seq<int>, dims: seq<nat>, k: nat, v: int)
    requires k <= |dims|
    ensures Moved(base, dims, k, k, v) == base
  {
  }

  lemma MovedMore(base: seq<int>, dims: seq<nat>, to: nat, v: int)
    requires to < |dims| && DimsOk(dims, |base|)
    ensures var m := Moved(base, dims, 0, to, v);
            m[dims[to]] == base[dims[to]] && m[dims[to] := m[dims[to]] + v] == Moved(base, dims, 0, to + 1, v)
  {
    assert dims[0..to + 1] == dims[0..to] + [dims[to]];
    assert dims[to] !in dims[0..to];
  }

  lemma MovedBack(base: seq<int>, dims: seq<nat>, from: nat, to: nat, v: int)
    requires from < to <= |dims| && DimsOk(dims, |base|)
    ensures var m := Moved(base, dims, from, to, v);
            m[dims[from] := m[dims[from]] - v] == Moved(base, dims, from + 1, to, v)
  {
    assert dims[from..to] == [dims[from]] + dims[from + 1..to];
    assert dims[from] !in dims[from + 1..to];
  }

  lemma MovedLast(base: seq<int>, dims: seq<nat>, to: nat, v: int)
    requires to < |dims| && DimsOk(dims, |base|)
    ensures var m := Moved(base, dims, 0, to + 1, v);
            m[dims[to] := m[dims[to]] - v] == Moved(base, dims, 0, to, v)
  {
    MovedMore(base, dims, to, v);
  }

  /** What the reservation found, and what it asks. */
  datatype Ask = Ask(exposure: seq<int>, credit: seq<int>, limits: seq<nat>, dims: seq<nat>, v: nat, room: bool)

  predicate AskOk(a: Ask) {
    |a.exposure| == |a.credit| == |a.limits| && DimsOk(a.dims, |a.limits|) && a.v > 0
  }

  predicate RoomAt(a: Ask, k: nat)
    requires AskOk(a) && k < |a.dims|
  {
    a.exposure[a.dims[k]] + a.v <= a.limits[a.dims[k]]
  }

  predicate PaidAt(a: Ask, k: nat)
    requires AskOk(a) && k < |a.dims|
  {
    a.v <= a.credit[a.dims[k]]
  }

  /** Every dimension has room under its limit and in its credit, and the table has room too. */
  predicate Fits(a: Ask)
    requires AskOk(a)
  {
    a.room && forall k | 0 <= k < |a.dims| :: RoomAt(a, k) && PaidAt(a, k)
  }

  /** How far the reservation has come, and what it has done to the counters. */
  predicate Going(a: Ask, t: Thread, exposure: seq<int>, credit: seq<int>)
    requires AskOk(a)
  {
    var n := |a.dims|;
    && t.dims == a.dims && (!t.phase.Idle? ==> t.amount == t.credit == 0)
    && match t.phase
       case Adding(i, v, pays) =>
         && pays && v == a.v && i < n && exposure == Moved(a.exposure, a.dims, 0, i, v) && credit == a.credit
         && forall k | 0 <= k < i :: RoomAt(a, k)
       case Overshot(i, v) =>
         v == a.v && i < n && exposure == Moved(a.exposure, a.dims, 0, i + 1, v) && credit == a.credit && !RoomAt(a, i)
       case Retreating(j, i, v) =>
         && v == a.v && j < i < n && exposure == Moved(a.exposure, a.dims, j, i, v) && credit == a.credit && !RoomAt(a, i)
       case Paying(i, v) =>
         && v == a.v && i < n && exposure == Moved(a.exposure, a.dims, 0, n, v)
         && credit == Moved(a.credit, a.dims, 0, i, -(v as int))
         && (forall k | 0 <= k < n :: RoomAt(a, k)) && forall k | 0 <= k < i :: PaidAt(a, k)
       case Overdrawn(i, v) =>
         && v == a.v && i < n && exposure == Moved(a.exposure, a.dims, 0, n, v)
         && credit == Moved(a.credit, a.dims, 0, i + 1, -(v as int)) && !PaidAt(a, i)
       case Refunding(j, i, v) =>
         && v == a.v && j < i < n && exposure == Moved(a.exposure, a.dims, 0, n, v)
         && credit == Moved(a.credit, a.dims, j, i, -(v as int)) && !PaidAt(a, i)
       case Unwinding(j, v, w) =>
         && v == a.v && j < n && exposure == Moved(a.exposure, a.dims, j, n, v) && !Fits(a)
         && (w == 0 || w == v) && credit == if w == 0 then a.credit else Moved(a.credit, a.dims, 0, n, -(v as int))
       case Returning(j, w) =>
         w == a.v && j < n && exposure == a.exposure && credit == Moved(a.credit, a.dims, j, n, -(w as int)) && !Fits(a)
       case Idle => Done(a, t, exposure, credit)
  }

  /** The end: all or nothing, and all exactly when it fits. */
  predicate Done(a: Ask, t: Thread, exposure: seq<int>, credit: seq<int>)
    requires AskOk(a)
  {
    if Fits(a) then
      && t.amount == t.credit == a.v && exposure == Moved(a.exposure, a.dims, 0, |a.dims|, a.v)
      && credit == Moved(a.credit, a.dims, 0, |a.dims|, -(a.v as int))
    else t.amount == t.credit == 0 && exposure == a.exposure && credit == a.credit
  }

  /** One atomic operation goes on. */
  predicate GoesOn(a: Ask, t: Thread, exposure: seq<int>, credit: seq<int>)
    requires AskOk(a) && !t.phase.Idle?
  {
    && |exposure| == |credit| == |a.limits| && At(t) < |a.dims|
    && var d := a.dims[At(t)];
       Going(a, After(t, exposure[d], credit[d], a.limits[d], a.room), exposure[d := exposure[d] + ExposureMove(t.phase)],
             credit[d := credit[d] + CreditMove(t.phase)])
  }

  lemma AddingStep(a: Ask, t: Thread, exposure: seq<int>, credit: seq<int>)
    requires AskOk(a) && Going(a, t, exposure, credit) && t.phase.Adding?
    ensures GoesOn(a, t, exposure, credit)
  {
    MovedMore(a.exposure, a.dims, t.phase.i, t.phase.v);
    MovedNothing(a.credit, a.dims, 0, -(t.phase.v as int));
    hide Moved, Done;
  }

  lemma OneMisses(a: Ask, k: nat)
    requires AskOk(a) && k < |a.dims| && (!RoomAt(a, k) || !PaidAt(a, k))
    ensures !Fits(a)
  {
  }

  lemma PaidInFull(a: Ask)
    requires AskOk(a) && forall k | 0 <= k < |a.dims| :: RoomAt(a, k) && PaidAt(a, k)
    ensures Fits(a) <==> a.room
  {
  }

  lemma DimIsOne(a: Ask, k: nat)
    requires AskOk(a) && k < |a.dims|
    ensures a.dims[k] < |a.limits|
  {
  }

  lemma OvershotStep(a: Ask, t: Thread, exposure: seq<int>, credit: seq<int>)
    requires AskOk(a) && Going(a, t, exposure, credit) && t.phase.Overshot?
    ensures GoesOn(a, t, exposure, credit)
  {
    hide Moved, Fits, RoomAt, PaidAt, DimsOk;
    var i, v := t.phase.i, t.phase.v;
    DimIsOne(a, i);
    MovedNothing(a.exposure, a.dims, i, v);
    MovedLast(a.exposure, a.dims, i, v);
    OneMisses(a, i);
  }

  lemma RetreatingStep(a: Ask, t: Thread, exposure: seq<int>, credit: seq<int>)
    requires AskOk(a) && Going(a, t, exposure, credit) && t.phase.Retreating?
    ensures GoesOn(a, t, exposure, credit)
  {
    hide Moved, Fits, RoomAt, PaidAt, DimsOk;
    var j, i, v := t.phase.j, t.phase.i, t.phase.v;
    DimIsOne(a, j);
    MovedNothing(a.exposure, a.dims, i, v);
    MovedBack(a.exposure, a.dims, j, i, v);
    OneMisses(a, i);
  }

  /** What is checked is the credit found. */
  lemma PaidIsChecked(a: Ask, k: nat)
    requires AskOk(a) && k < |a.dims|
    ensures PaidAt(a, k) <==> a.credit[a.dims[k]] - a.v >= 0
  {
  }

  lemma PayingStep(a: Ask, t: Thread, exposure: seq<int>, credit: seq<int>)
    requires AskOk(a) && Going(a, t, exposure, credit) && t.phase.Paying?
    ensures GoesOn(a, t, exposure, credit)
  {
    hide Moved, Fits, RoomAt, PaidAt, DimsOk;
    var i, v := t.phase.i, t.phase.v;
    DimIsOne(a, i);
    MovedMore(a.credit, a.dims, i, -(v as int));
    PaidIsChecked(a, i);
    if PaidAt(a, i) && i + 1 == |a.dims| { PaidInFull(a); }
  }

  lemma OverdrawnStep(a: Ask, t: Thread, exposure: seq<int>, credit: seq<int>)
    requires AskOk(a) && Going(a, t, exposure, credit) && t.phase.Overdrawn?
    ensures GoesOn(a, t, exposure, credit)
  {
    hide Moved, Fits, RoomAt, PaidAt, DimsOk;
    var i, v := t.phase.i, -(t.phase.v as int);
    DimIsOne(a, i);
    MovedNothing(a.credit, a.dims, i, v);
    MovedLast(a.credit, a.dims, i, v);
    OneMisses(a, i);
  }

  lemma RefundingStep(a: Ask, t: Thread, exposure: seq<int>, credit: seq<int>)
    requires AskOk(a) && Going(a, t, exposure, credit) && t.phase.Refunding?
    ensures GoesOn(a, t, exposure, credit)
  {
    hide Moved, Fits, RoomAt, PaidAt, DimsOk;
    var j, i, v := t.phase.j, t.phase.i, -(t.phase.v as int);
    DimIsOne(a, j);
    MovedNothing(a.credit, a.dims, i, v);
    MovedBack(a.credit, a.dims, j, i, v);
    OneMisses(a, i);
  }

  lemma UnwindingStep(a: Ask, t: Thread, exposure: seq<int>, credit: seq<int>)
    requires AskOk(a) && Going(a, t, exposure, credit) && t.phase.Unwinding?
    ensures GoesOn(a, t, exposure, credit)
  {
    hide Moved, Fits, RoomAt, PaidAt, DimsOk;
    var n, j := |a.dims|, t.phase.j;
    DimIsOne(a, j);
    MovedBack(a.exposure, a.dims, j, n, t.phase.v);
    MovedNothing(a.exposure, a.dims, n, t.phase.v);
  }

  lemma ReturningStep(a: Ask, t: Thread, exposure: seq<int>, credit: seq<int>)
    requires AskOk(a) && Going(a, t, exposure, credit) && t.phase.Returning?
    ensures GoesOn(a, t, exposure, credit)
  {
    hide Moved, Fits, RoomAt, PaidAt, DimsOk;
    var n, j := |a.dims|, t.phase.j;
    DimIsOne(a, j);
    MovedBack(a.credit, a.dims, j, n, -(t.phase.w as int));
    MovedNothing(a.credit, a.dims, n, -(t.phase.w as int));
  }

  lemma GoingStep(a: Ask, t: Thread, exposure: seq<int>, credit: seq<int>)
    requires AskOk(a) && Going(a, t, exposure, credit) && !t.phase.Idle?
    ensures GoesOn(a, t, exposure, credit)
  {
    hide Going, GoesOn;
    match t.phase
    case Adding(_, _, _) => AddingStep(a, t, exposure, credit);
    case Overshot(_, _) => OvershotStep(a, t, exposure, credit);
    case Retreating(_, _, _) => RetreatingStep(a, t, exposure, credit);
    case Paying(_, _) => PayingStep(a, t, exposure, credit);
    case Overdrawn(_, _) => OverdrawnStep(a, t, exposure, credit);
    case Refunding(_, _, _) => RefundingStep(a, t, exposure, credit);
    case Unwinding(_, _, _) => UnwindingStep(a, t, exposure, credit);
    case Returning(_, _) => ReturningStep(a, t, exposure, credit);
  }

  /** So many atomic operations of one thread, with none of another in between. */
  ghost function Alone(s: Ledger, limits: seq<nat>, budgets: seq<nat>, i: nat, room: bool, n: nat): (s': Ledger)
    requires Inv(s, limits, budgets) && i < |s.threads|
    ensures Inv(s', limits, budgets) && |s'.threads| == |s.threads|
    decreases n
  {
    if n == 0 then s
    else
      StepKeeps(s, limits, budgets, i, Work(room));
      Alone(Step(s, limits, i, Work(room)), limits, budgets, i, room, n - 1)
  }

  predicate OthersSame(s: Ledger, s': Ledger, i: nat) {
    |s.threads| == |s'.threads| && forall k | 0 <= k < |s.threads| && k != i :: s'.threads[k] == s.threads[k]
  }

  lemma {:induction false} AloneEnds(a: Ask, s: Ledger, budgets: seq<nat>, i: nat, n: nat)
    requires AskOk(a) && Inv(s, a.limits, budgets) && i < |s.threads| && Going(a, s.threads[i], s.exposure, s.credit)
    requires StepsLeft(s.threads[i]) <= n
    ensures var s' := Alone(s, a.limits, budgets, i, a.room, n);
            && s'.threads[i].phase.Idle? && Done(a, s'.threads[i], s'.exposure, s'.credit) && OthersSame(s, s', i)
    decreases n
  {
    hide Inv, Going, GoesOn, Done, After, StepsLeft;
    var t := s.threads[i];
    InvGives(s, a.limits, budgets, i);
    LeftIsSound(t);
    GoingDims(a, t, s.exposure, s.credit);
    if n > 0 {
      StepKeeps(s, a.limits, budgets, i, Work(a.room));
      if !t.phase.Idle? { GoingOn(a, s, i); }
      AloneEnds(a, Step(s, a.limits, i, Work(a.room)), budgets, i, n - 1);
    }
  }

  lemma InvGives(s: Ledger, limits: seq<nat>, budgets: seq<nat>, i: nat)
    requires Inv(s, limits, budgets) && i < |s.threads|
    ensures |limits| == |s.exposure| == |s.credit| && ThreadOk(s.threads[i], |limits|)
  {
  }

  lemma GoingOn(a: Ask, s: Ledger, i: nat)
    requires AskOk(a) && i < |s.threads| && |a.limits| == |s.exposure| == |s.credit| && ThreadOk(s.threads[i], |a.limits|)
    requires !s.threads[i].phase.Idle? && Going(a, s.threads[i], s.exposure, s.credit)
    ensures var s1 := Step(s, a.limits, i, Work(a.room));
            && Going(a, s1.threads[i], s1.exposure, s1.credit) && |s1.threads| == |s.threads| && OthersSame(s, s1, i)
            && StepsLeft(s1.threads[i]) < StepsLeft(s.threads[i])
  {
    hide Going, After, StepsLeft, DimsOk;
    var t := s.threads[i];
    GoingDims(a, t, s.exposure, s.credit);
    GoingStep(a, t, s.exposure, s.credit);
    DimIsOne(a, At(t));
    var d := t.dims[At(t)];
    WorkProgresses(t, s.exposure[d], s.credit[d], a.limits[d], a.room);
  }

  lemma GoingDims(a: Ask, t: Thread, exposure: seq<int>, credit: seq<int>)
    requires AskOk(a) && Going(a, t, exposure, credit)
    ensures t.dims == a.dims && (t.phase.Idle? ==> Done(a, t, exposure, credit))
  {
  }

  /** Whatever the other threads are in the middle of: a reservation none of them takes a step in between of is over after
      four operations per dimension. It is granted exactly when every one of its dimensions has room under its limit and
      credit for it, and the table has room; then each of its counters has moved by its volume, otherwise none has. */
  lemma AloneIsGrantedExactly(s: Ledger, limits: seq<nat>, budgets: seq<nat>, i: nat, dims: seq<nat>, v: nat, room: bool)
    requires Inv(s, limits, budgets) && i < |s.threads| && DimsOk(dims, |limits|) && v > 0
    requires s.threads[i].phase.Idle? && s.threads[i].amount == s.threads[i].credit == 0
    ensures |s.exposure| == |s.credit| == |limits| && ThreadOk(s.threads[i], |limits|)
    ensures var begun := Step(s, limits, i, Reserve(dims, v));
            && Inv(begun, limits, budgets) && |begun.threads| == |s.threads|
            && var s' := Alone(begun, limits, budgets, i, room, 4 * |dims|);
               var a := Ask(s.exposure, s.credit, limits, dims, v, room);
               s'.threads[i].phase.Idle? && Done(a, s'.threads[i], s'.exposure, s'.credit) && OthersSame(s, s', i)
  {
    var a := Ask(s.exposure, s.credit, limits, dims, v, room);
    assert ThreadOk(s.threads[i], |limits|);
    StepKeeps(s, limits, budgets, i, Reserve(dims, v));
    hide Inv;
    var begun := Step(s, limits, i, Reserve(dims, v));
    MovedNothing(s.exposure, dims, 0, v);
    hide Moved, Fits, RoomAt, PaidAt;
    assert Going(a, begun.threads[i], begun.exposure, begun.credit);
    hide Going, Done;
    AloneEnds(a, begun, budgets, i, 4 * |dims|);
  }
}
