/** What the order store does, said on a finite map from references to live orders. */
module OmsSpec {
  import opened ExecTypes

  datatype Store = Store(live: map<Ref, Order>, reserved: int, capacity: nat)

  /** Result of an operation: the store afterwards and whether it was accepted. */
  datatype Outcome = Outcome(store: Store, ok: bool)

  function Empty(capacity: nat): Store {
    Store(map[], 0, capacity)
  }

  function Create(s: Store, ref: Ref, symbol: nat, volume: int): Outcome {
    if ref in s.live || |s.live| >= s.capacity then Outcome(s, false)
    else
      var o := Order(ref, symbol, volume, 0, 0, PendingSend, 0);
      Outcome(s.(live := s.live[ref := o], reserved := s.reserved + volume), true)
  }

  function Restore(s: Store, o: Order): Outcome {
    if o.ref in s.live || |s.live| >= s.capacity || o.requested <= 0 || o.filled < 0 || o.filled > o.requested
    then Outcome(s, false)
    else
      var reserved := if ReservesExposure(o.state) then s.reserved + o.requested else s.reserved;
      Outcome(s.(live := s.live[o.ref := o], reserved := reserved), true)
  }

  function Transition(s: Store, ref: Ref, next: OrderState): Outcome {
    if ref !in s.live || !Legal(s.live[ref].state, next) then Outcome(s, false)
    else
      var o := s.live[ref];
      var releases := ReservesExposure(o.state) && !ReservesExposure(next);
      var reserved := if releases then s.reserved - o.requested else s.reserved;
      var live := if IsTerminal(next) then s.live - {ref} else s.live[ref := o.(state := next)];
      Outcome(s.(live := live, reserved := reserved), true)
  }

  predicate FillFits(s: Store, ref: Ref, volume: int) {
    ref in s.live && 0 < volume <= s.live[ref].Remaining()
  }

  /** The state a fill of `volume` drives `o` to. */
  function FillTarget(o: Order, volume: int): OrderState {
    if o.Remaining() - volume != 0 then PartiallyFilled else Filled
  }

  /** The filled volume is added first: it stays added when the transition is then refused. */
  function Fill(s: Store, ref: Ref, volume: int): Outcome {
    if !FillFits(s, ref, volume) then Outcome(s, false)
    else
      var o := s.live[ref];
      var s1 := s.(live := s.live[ref := o.(filled := o.filled + volume)]);
      Transition(s1, ref, FillTarget(o, volume))
  }

  function RecoverFill(s: Store, ref: Ref, volume: int): Outcome {
    if !FillFits(s, ref, volume) then Outcome(s, false)
    else
      var o := s.live[ref];
      Outcome(s.(live := s.live[ref := o.(filled := o.filled + volume)]), true)
  }

  function MarkUnknown(s: Store, ref: Ref): Outcome {
    if ref !in s.live || IsTerminal(s.live[ref].state) then Outcome(s, false)
    else Outcome(s.(live := s.live[ref := s.live[ref].(state := Unknown)]), true)
  }

  /** A replace goes straight to the order's fields; the reserved total is not adjusted. */
  predicate Replaceable(s: Store, ref: Ref, volume: int) {
    ref in s.live && !IsTerminal(s.live[ref].state) && !s.live[ref].state.Unknown? && volume > s.live[ref].filled
  }

  function Replace(s: Store, ref: Ref, price: int, volume: int): Outcome {
    if !Replaceable(s, ref, volume) then Outcome(s, false)
    else Outcome(s.(live := s.live[ref := s.live[ref].(limitPrice := price, requested := volume)]), true)
  }

  ghost predicate WellFormed(s: Store) {
    && |s.live| <= s.capacity
    && forall r <- s.live :: s.live[r].ref == r
  }

  // ---- the reserved-exposure identity ----

  /** Sum of the requested volumes of the orders named in `refs`. */
  ghost function Requested(refs: set<Ref>, live: map<Ref, Order>): int
    requires refs <= live.Keys
  {
    if refs == {} then 0
    else
      var r :| r in refs;
      live[r].requested + Requested(refs - {r}, live)
  }

  lemma {:induction false} RequestedPick(refs: set<Ref>, live: map<Ref, Order>, r: Ref)
    requires refs <= live.Keys && r in refs
    ensures Requested(refs, live) == live[r].requested + Requested(refs - {r}, live)
    decreases |refs|
  {
    var x :| x in refs && Requested(refs, live) == live[x].requested + Requested(refs - {x}, live);
    if x != r {
      RequestedPick(refs - {x}, live, r);
      RequestedPick(refs - {r}, live, x);
      assert refs - {x} - {r} == refs - {r} - {x};
    }
  }

  lemma {:induction false} RequestedFrame(refs: set<Ref>, a: map<Ref, Order>, b: map<Ref, Order>)
    requires refs <= a.Keys && refs <= b.Keys
    requires forall r <- refs :: a[r].requested == b[r].requested
    ensures Requested(refs, a) == Requested(refs, b)
    decreases |refs|
  {
    if refs != {} {
      var r :| r in refs;
      RequestedPick(refs, a, r);
      RequestedPick(refs, b, r);
      RequestedFrame(refs - {r}, a, b);
    }
  }

  /** Writing one order changes the sum by the change of that order's requested volume. */
  lemma RequestedUpdate(live: map<Ref, Order>, o: Order, key: Ref)
    ensures Requested(live[key := o].Keys, live[key := o])
         == Requested(live.Keys, live) + o.requested - (if key in live then live[key].requested else 0)
  {
    var live' := live[key := o];
    RequestedPick(live'.Keys, live', key);
    if key in live {
      RequestedPick(live.Keys, live, key);
      assert live'.Keys == live.Keys;
    } else {
      assert live'.Keys - {key} == live.Keys;
    }
    RequestedFrame(live.Keys - {key}, live, live');
    assert live'.Keys - {key} == live.Keys - {key};
  }

  lemma RequestedRemove(live: map<Ref, Order>, key: Ref)
    requires key in live
    ensures Requested((live - {key}).Keys, live - {key}) == Requested(live.Keys, live) - live[key].requested
  {
    RequestedPick(live.Keys, live, key);
    assert (live - {key}).Keys == live.Keys - {key};
    RequestedFrame(live.Keys - {key}, live, live - {key});
  }

  /** Everything that can happen to a store. */
  datatype Op =
    | OpCreate(ref: Ref, symbol: nat, volume: int)
    | OpRestore(order: Order)
    | OpTransition(ref: Ref, next: OrderState)
    | OpFill(ref: Ref, volume: int)
    | OpRecoverFill(ref: Ref, volume: int)
    | OpMarkUnknown(ref: Ref)
    | OpReplace(ref: Ref, price: int, volume: int)

  function Step(s: Store, op: Op): Outcome {
    match op
    case OpCreate(ref, symbol, volume) => Create(s, ref, symbol, volume)
    case OpRestore(o) => Restore(s, o)
    case OpTransition(ref, next) => Transition(s, ref, next)
    case OpFill(ref, volume) => Fill(s, ref, volume)
    case OpRecoverFill(ref, volume) => RecoverFill(s, ref, volume)
    case OpMarkUnknown(ref) => MarkUnknown(s, ref)
    case OpReplace(ref, price, volume) => Replace(s, ref, price, volume)
  }

  /** How far one operation moves the live total away from the reserved total: a replace by the change of volume, a
      restored order that holds no exposure by its volume, until it is refused by risk. */
  function Drift(s: Store, op: Op): int {
    match op
    case OpReplace(ref, _, volume) => if Replaceable(s, ref, volume) then volume - s.live[ref].requested else 0
    case OpRestore(o) => if Restore(s, o).ok && !ReservesExposure(o.state) then o.requested else 0
    case OpTransition(ref, next) =>
      if Transition(s, ref, next).ok && IsTerminal(next) && !ReservesExposure(s.live[ref].state) then -s.live[ref].requested
      else 0
    case _ => 0
  }

  function Run(s: Store, ops: seq<Op>): Store {
    if ops == [] then s else Step(Run(s, ops[..|ops| - 1]), ops[|ops| - 1]).store
  }

  function TotalDrift(s: Store, ops: seq<Op>): int {
    if ops == [] then 0
    else
      var before := ops[..|ops| - 1];
      TotalDrift(s, before) + Drift(Run(s, before), ops[|ops| - 1])
  }

  /** Writing an order under its own reference, with room if it is new. */
  lemma WriteKeepsShape(s: Store, ref: Ref, o: Order)
    requires WellFormed(s) && o.ref == ref && (ref in s.live || |s.live| < s.capacity)
    ensures WellFormed(s.(live := s.live[ref := o]))
  {
    assert s.live[ref := o].Keys == s.live.Keys + {ref};
  }

  lemma TransitionKeepsShape(s: Store, ref: Ref, next: OrderState)
    requires WellFormed(s)
    ensures WellFormed(Transition(s, ref, next).store) && Transition(s, ref, next).store.capacity == s.capacity
  {
    if Transition(s, ref, next).ok {
      WriteKeepsShape(s, ref, s.live[ref].(state := next));
      assert (s.live - {ref}).Keys == s.live.Keys - {ref};
    }
  }

  lemma StepKeepsShape(s: Store, op: Op)
    requires WellFormed(s)
    ensures WellFormed(Step(s, op).store) && Step(s, op).store.capacity == s.capacity
  {
    match op
    case OpCreate(ref, symbol, volume) =>
      if Step(s, op).ok { WriteKeepsShape(s, ref, Order(ref, symbol, volume, 0, 0, PendingSend, 0)); }
    case OpRestore(o) => if Step(s, op).ok { WriteKeepsShape(s, o.ref, o); }
    case OpTransition(ref, next) => TransitionKeepsShape(s, ref, next);
    case OpFill(ref, volume) =>
      if FillFits(s, ref, volume) {
        var o := s.live[ref];
        var s1 := s.(live := s.live[ref := o.(filled := o.filled + volume)]);
        WriteKeepsShape(s, ref, o.(filled := o.filled + volume));
        hide WellFormed, Transition;
        TransitionKeepsShape(s1, ref, FillTarget(o, volume));
      }
    case _ => if op.ref in s.live { WriteKeepsShape(s, op.ref, Step(s, op).store.live[op.ref]); }
  }

  /** Reserved exposure not explained by the live requested total. */
  ghost function Gap(s: Store): int {
    s.reserved - Requested(s.live.Keys, s.live)
  }

  lemma TransitionMovesGap(s: Store, ref: Ref, next: OrderState)
    ensures Gap(Transition(s, ref, next).store) + Drift(s, OpTransition(ref, next)) == Gap(s)
  {
    if Transition(s, ref, next).ok {
      if IsTerminal(next) {
        RequestedRemove(s.live, ref);
      } else {
        RequestedUpdate(s.live, s.live[ref].(state := next), ref);
      }
    }
  }

  /** An order without exposure cannot be filled. */
  lemma FillKeepsGap(s: Store, ref: Ref, volume: int)
    ensures Gap(Fill(s, ref, volume).store) == Gap(s)
  {
    if FillFits(s, ref, volume) {
      var o := s.live[ref].(filled := s.live[ref].filled + volume);
      RequestedUpdate(s.live, o, ref);
      TransitionMovesGap(s.(live := s.live[ref := o]), ref, FillTarget(s.live[ref], volume));
    }
  }

  lemma StepKeepsIdentity(s: Store, op: Op)
    ensures Gap(Step(s, op).store) + Drift(s, op) == Gap(s)
  {
    if op.OpTransition? {
      TransitionMovesGap(s, op.ref, op.next);
    } else if op.OpFill? {
      FillKeepsGap(s, op.ref, op.volume);
    } else if Step(s, op).ok {
      var ref := if op.OpRestore? then op.order.ref else op.ref;
      RequestedUpdate(s.live, Step(s, op).store.live[ref], ref);
    }
  }

  /** Over every run: the reserved exposure is the live requested total minus the drift. */
  lemma {:induction false} ReservedIsLiveTotalMinusDrift(capacity: nat, ops: seq<Op>)
    ensures var s := Run(Empty(capacity), ops);
            && WellFormed(s) && s.capacity == capacity
            && s.reserved == Requested(s.live.Keys, s.live) - TotalDrift(Empty(capacity), ops)
  {
    if ops != [] {
      var before := ops[..|ops| - 1];
      ReservedIsLiveTotalMinusDrift(capacity, before);
      StepKeepsShape(Run(Empty(capacity), before), ops[|ops| - 1]);
      StepKeepsIdentity(Run(Empty(capacity), before), ops[|ops| - 1]);
    }
  }

  ghost predicate AllReserve(s: Store) {
    forall r <- s.live :: ReservesExposure(s.live[r].state)
  }

  lemma StepKeepsReserving(s: Store, op: Op)
    requires AllReserve(s) && !op.OpReplace? && (op.OpRestore? ==> ReservesExposure(op.order.state))
    ensures AllReserve(Step(s, op).store) && Drift(s, op) == 0
  {
  }

  /** With no replace, and no restored order that holds no exposure, the reserved exposure is exactly the live requested
      total, fills and Unknown included. */
  lemma {:induction false} NoReplaceNoDrift(capacity: nat, ops: seq<Op>)
    requires forall i | 0 <= i < |ops| :: !ops[i].OpReplace? && (ops[i].OpRestore? ==> ReservesExposure(ops[i].order.state))
    ensures var s := Run(Empty(capacity), ops); AllReserve(s) && s.reserved == Requested(s.live.Keys, s.live)
    ensures TotalDrift(Empty(capacity), ops) == 0
  {
    ReservedIsLiveTotalMinusDrift(capacity, ops);
    if ops != [] {
      NoReplaceNoDrift(capacity, ops[..|ops| - 1]);
      StepKeepsReserving(Run(Empty(capacity), ops[..|ops| - 1]), ops[|ops| - 1]);
    }
  }

  /** A replace from 10 to 25 leaves 10 reserved for an order that now asks for 25. */
  lemma ReplaceMovesTotalAway()
    ensures var r := Ref(1, 1);
            var s := Run(Empty(4), [OpCreate(r, 0, 10), OpReplace(r, 7, 25)]);
            s.reserved == 10 && r in s.live && s.live[r].requested == 25
  {
    var r := Ref(1, 1);
    var ops := [OpCreate(r, 0, 10), OpReplace(r, 7, 25)];
    assert ops[..1] == [OpCreate(r, 0, 10)];
    assert ops[..1][..0] == [];
    assert Run(Empty(4), ops[..1]) == Step(Empty(4), ops[0]).store;
  }
}
