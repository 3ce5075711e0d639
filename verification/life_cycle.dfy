/** The life of an order, said on what happened to it: which transitions and fills the store accepts, in every run, given
    only what was accepted before. */
module LifeCycles {
  import opened ExecTypes
  import opened OmsSpec

  /** An operation on an order and whether it was accepted. */
  datatype Happening = Happening(op: Op, ok: bool)

  function Subject(op: Op): Ref {
    if op.OpRestore? then op.order.ref else op.ref
  }

  predicate Begins(op: Op) {
    op.OpCreate? || op.OpRestore?
  }

  /** What has happened to an order since it was last created or restored. */
  function Past(capacity: nat, ops: seq<Op>, ref: Ref): seq<Happening> {
    if ops == [] then []
    else
      var before, op := ops[..|ops| - 1], ops[|ops| - 1];
      var past, ok := Past(capacity, before, ref), Step(Run(Empty(capacity), before), op).ok;
      if Subject(op) != ref then past
      else if Begins(op) then if ok then [Happening(op, ok)] else past
      else if past == [] then [] else past + [Happening(op, ok)]
  }

  // ---- what the past says ----

  /** What the order asks for now: what it was created with, or the last replace. */
  function Asked(past: seq<Happening>): int {
    if past == [] then 0
    else
      var last := past[|past| - 1];
      match last.op
      case OpCreate(_, _, volume) => volume
      case OpRestore(o) => o.requested
      case OpReplace(_, _, volume) => if last.ok then volume else Asked(past[..|past| - 1])
      case _ => Asked(past[..|past| - 1])
  }

  /** What has been filled: every fill that was positive and not more than what was left, whether or not the order could
      take it. */
  function Counted(past: seq<Happening>): int {
    if past == [] then 0
    else
      var before, op := past[..|past| - 1], past[|past| - 1].op;
      match op
      case OpCreate(_, _, _) => 0
      case OpRestore(o) => o.filled
      case OpFill(_, volume) => Counted(before) + if 0 < volume <= Asked(before) - Counted(before) then volume else 0
      case OpRecoverFill(_, volume) => Counted(before) + if 0 < volume <= Asked(before) - Counted(before) then volume else 0
      case _ => Counted(before)
  }

  function Left(past: seq<Happening>): int {
    Asked(past) - Counted(past)
  }

  /** What an order restored in a state has behind it. */
  function Behind(state: OrderState): set<OrderState> {
    match state
    case NewOrder => {}
    case PendingSend => {PendingSend}
    case Sent => {PendingSend, Sent}
    case Acknowledged => {PendingSend, Sent, Acknowledged}
    case PartiallyFilled => {PendingSend, Sent, Acknowledged, PartiallyFilled}
    case CancelPending => {PendingSend, Sent, Acknowledged, CancelPending}
    case Unknown => {PendingSend, Unknown}
    case _ => {PendingSend, state}
  }

  /** The state an accepted operation asks for; a fill that leaves something asks for a partly filled order. */
  predicate Names(before: seq<Happening>, h: Happening, state: OrderState) {
    match h.op
    case OpCreate(_, _, _) => state.PendingSend?
    case OpRestore(o) => state in Behind(o.state)
    case OpTransition(_, next) => h.ok && state == next
    case OpFill(_, volume) => h.ok && if volume < Left(before) then state.PartiallyFilled? else state.Filled?
    case OpMarkUnknown(_) => h.ok && state.Unknown?
    case OpRecoverFill(_, _) => false
    case OpReplace(_, _, _) => false
  }

  /** The order has been in this state. */
  predicate Been(past: seq<Happening>, state: OrderState) {
    past != [] && (Been(past[..|past| - 1], state) || Names(past[..|past| - 1], past[|past| - 1], state))
  }

  predicate Over(past: seq<Happening>) {
    Been(past, RiskRejected) || Been(past, Rejected) || Been(past, Filled) || Been(past, Cancelled) || Been(past, Expired)
  }

  /** What the past lets happen next to an order that is not over: an unknown order can only end; every other one goes
      forward, from being sent to being acknowledged to a request to cancel. */
  predicate Lets(past: seq<Happening>, next: OrderState) {
    var sent, acknowledged := Been(past, Sent), Been(past, Acknowledged);
    var cancelling, unknown := Been(past, CancelPending), Been(past, Unknown);
    match next
    case NewOrder => false
    case PendingSend => !Been(past, PendingSend) && !unknown
    case Sent => Been(past, PendingSend) && !sent && !unknown
    case Acknowledged => sent && !acknowledged && !unknown
    case PartiallyFilled => acknowledged && !cancelling && !unknown
    case CancelPending => acknowledged && !cancelling && !unknown
    case Unknown => !unknown && ((sent && !acknowledged) || cancelling)
    case Filled => acknowledged || unknown
    case Cancelled => cancelling || unknown
    case Rejected => (sent && !acknowledged) || unknown
    case Expired => (acknowledged && !Been(past, PartiallyFilled) && !cancelling) || unknown
    case RiskRejected => !Been(past, PendingSend) || unknown
  }

  /** An accepted operation that ends the order. */
  predicate Ends(before: seq<Happening>, h: Happening) {
    h.ok && match h.op
            case OpTransition(_, next) =>
              next.RiskRejected? || next.Rejected? || next.Filled? || next.Cancelled? || next.Expired?
            case OpFill(_, volume) => volume == Left(before)
            case _ => false
  }

  predicate Ended(past: seq<Happening>) {
    past != [] && (Ended(past[..|past| - 1]) || Ends(past[..|past| - 1], past[|past| - 1]))
  }

  predicate There(past: seq<Happening>) {
    past != [] && !Ended(past)
  }

  /** Whether an operation is accepted, by the past of its order. */
  predicate Accepts(past: seq<Happening>, op: Op, room: bool) {
    match op
    case OpCreate(_, _, _) => !There(past) && room
    case OpRestore(o) => !There(past) && room && 0 < o.requested && 0 <= o.filled <= o.requested
    case OpTransition(_, next) => There(past) && !Over(past) && Lets(past, next)
    case OpFill(_, volume) =>
      && There(past) && !Over(past) && 0 < volume <= Left(past)
      && Lets(past, if volume < Left(past) then PartiallyFilled else Filled)
    case OpRecoverFill(_, volume) => There(past) && 0 < volume <= Left(past)
    case OpMarkUnknown(_) => There(past) && !Over(past)
    case OpReplace(_, _, volume) => There(past) && !Over(past) && !Been(past, Unknown) && volume > Counted(past)
  }

  // ---- the state is what the past says ----

  function StateAfter(past: seq<Happening>): OrderState {
    if Been(past, Unknown) then Unknown
    else if Been(past, CancelPending) then CancelPending
    else if Been(past, PartiallyFilled) then PartiallyFilled
    else if Been(past, Acknowledged) then Acknowledged
    else if Been(past, Sent) then Sent
    else if Been(past, PendingSend) then PendingSend
    else NewOrder
  }

  /** One thing comes after the other. */
  predicate Orderly(past: seq<Happening>) {
    && (Been(past, CancelPending) || Been(past, PartiallyFilled) ==> Been(past, Acknowledged))
    && (Been(past, Acknowledged) ==> Been(past, Sent))
    && (Been(past, Sent) ==> Been(past, PendingSend))
  }

  predicate Tells(past: seq<Happening>, o: Order) {
    && o.requested == Asked(past) && o.filled == Counted(past) && Orderly(past)
    && if Over(past) then IsTerminal(o.state) else o.state == StateAfter(past)
  }

  lemma Snoc(past: seq<Happening>, h: Happening, state: OrderState)
    ensures Been(past + [h], state) <==> Been(past, state) || Names(past, h, state)
    ensures Ended(past + [h]) <==> Ended(past) || Ends(past, h)
  {
    assert (past + [h])[..|past|] == past;
  }

  lemma SnocVolumes(past: seq<Happening>, h: Happening)
    requires !Begins(h.op)
    ensures Asked(past + [h]) == if h.op.OpReplace? && h.ok then h.op.volume else Asked(past)
    ensures Counted(past + [h])
         == Counted(past) + if (h.op.OpFill? || h.op.OpRecoverFill?) && 0 < h.op.volume <= Left(past) then h.op.volume else 0
  {
    assert (past + [h])[..|past|] == past;
  }

  /** The store's order and the past agree on what is accepted. */
  lemma AcceptsAsTold(s: Store, past: seq<Happening>, op: Op)
    requires There(past) <==> Subject(op) in s.live
    requires Subject(op) in s.live ==> Tells(past, s.live[Subject(op)])
    ensures Step(s, op).ok <==> Accepts(past, op, |s.live| < s.capacity)
  {
    hide Been, Asked, Counted, There;
  }

  ghost predicate Follows(live: map<Ref, Order>, past: seq<Happening>, ref: Ref) {
    && (There(past) <==> ref in live)
    && (ref in live ==> Tells(past, live[ref]))
  }

  lemma AllSnoc(past: seq<Happening>, h: Happening)
    ensures forall state :: Been(past + [h], state) <==> Been(past, state) || Names(past, h, state)
    ensures Ended(past + [h]) <==> Ended(past) || Ends(past, h)
  {
    forall state ensures Been(past + [h], state) <==> Been(past, state) || Names(past, h, state) { Snoc(past, h, state); }
    Snoc(past, h, NewOrder);
  }

  lemma BegunBeen(op: Op)
    requires Begins(op)
    ensures var first := [Happening(op, true)];
            && There(first) && (forall state :: Been(first, state) <==> Names([], first[0], state))
            && Asked(first) == (if op.OpCreate? then op.volume else op.order.requested)
            && Counted(first) == if op.OpCreate? then 0 else op.order.filled
  {
    var h := Happening(op, true);
    assert [h][..0] == [] && [] + [h] == [h];
    AllSnoc([], h);
    hide Been, Ended, Names;
  }

  lemma BegunTells(op: Op, o: Order)
    requires if op.OpCreate? then o == Order(op.ref, op.symbol, op.volume, 0, 0, PendingSend, 0) else op == OpRestore(o)
    ensures There([Happening(op, true)]) && Tells([Happening(op, true)], o)
  {
    hide Been, Asked, Counted, There;
    BegunBeen(op);
  }

  lemma TransitionTells(s: Store, past: seq<Happening>, ref: Ref, next: OrderState)
    requires ref in s.live && Follows(s.live, past, ref)
    ensures var out := Transition(s, ref, next);
            Follows(out.store.live, past + [Happening(OpTransition(ref, next), out.ok)], ref)
  {
    var h := Happening(OpTransition(ref, next), Transition(s, ref, next).ok);
    AllSnoc(past, h);
    SnocVolumes(past, h);
    AcceptsAsTold(s, past, h.op);
    hide Been, Asked, Counted, Ended;
  }

  lemma FillTells(s: Store, past: seq<Happening>, ref: Ref, volume: int)
    requires ref in s.live && Follows(s.live, past, ref)
    ensures var out := Fill(s, ref, volume);
            Follows(out.store.live, past + [Happening(OpFill(ref, volume), out.ok)], ref)
  {
    var h := Happening(OpFill(ref, volume), Fill(s, ref, volume).ok);
    AllSnoc(past, h);
    SnocVolumes(past, h);
    AcceptsAsTold(s, past, h.op);
    hide Been, Asked, Counted, Ended;
  }

  /** What an operation on a live order leaves is what the longer past tells. */
  lemma StepTells(s: Store, past: seq<Happening>, op: Op)
    requires !Begins(op) && Subject(op) in s.live && Follows(s.live, past, Subject(op))
    ensures Follows(Step(s, op).store.live, past + [Happening(op, Step(s, op).ok)], Subject(op))
  {
    if op.OpTransition? {
      TransitionTells(s, past, op.ref, op.next);
    } else if op.OpFill? {
      FillTells(s, past, op.ref, op.volume);
    } else {
      AllSnoc(past, Happening(op, Step(s, op).ok));
      SnocVolumes(past, Happening(op, Step(s, op).ok));
      hide Been, Asked, Counted, Ended;
    }
  }

  lemma StepElsewhere(s: Store, op: Op, ref: Ref)
    requires ref != Subject(op)
    ensures var live' := Step(s, op).store.live;
            (ref in live' <==> ref in s.live) && (ref in live' ==> live'[ref] == s.live[ref])
  {
  }

  lemma PastUnfolds(capacity: nat, ops: seq<Op>, ref: Ref)
    requires ops != []
    ensures var before, op := ops[..|ops| - 1], ops[|ops| - 1];
            var past, s := Past(capacity, before, ref), Run(Empty(capacity), before);
            && Run(Empty(capacity), ops) == Step(s, op).store
            && Past(capacity, ops, ref)
               == if Subject(op) != ref then past
                  else if Begins(op) then if Step(s, op).ok then [Happening(op, true)] else past
                  else if past == [] then [] else past + [Happening(op, Step(s, op).ok)]
  {
    hide Step;
  }

  lemma BeginTells(s: Store, past: seq<Happening>, op: Op)
    requires Begins(op) && Follows(s.live, past, Subject(op))
    ensures Follows(Step(s, op).store.live, if Step(s, op).ok then [Happening(op, true)] else past, Subject(op))
  {
    if Step(s, op).ok { BegunTells(op, Step(s, op).store.live[Subject(op)]); }
    hide There, Tells;
  }

  lemma GoneStaysGone(s: Store, past: seq<Happening>, op: Op)
    requires !Begins(op) && Subject(op) !in s.live && Follows(s.live, past, Subject(op))
    ensures Subject(op) !in Step(s, op).store.live && !Step(s, op).ok
    ensures Follows(Step(s, op).store.live, if past == [] then [] else past + [Happening(op, false)], Subject(op))
  {
    Snoc(past, Happening(op, false), NewOrder);
    hide Been, Tells, Ended;
  }

  /** In every run an order is live exactly when it was begun and not ended since, and what it asks for, what is filled of
      it and its state are what its past tells. */
  lemma {:induction false} PastIsFollowed(capacity: nat, ops: seq<Op>, ref: Ref)
    ensures Follows(Run(Empty(capacity), ops).live, Past(capacity, ops, ref), ref)
  {
    if ops != [] {
      var before, op := ops[..|ops| - 1], ops[|ops| - 1];
      PastIsFollowed(capacity, before, ref);
      PastUnfolds(capacity, ops, ref);
      var s, past := Run(Empty(capacity), before), Past(capacity, before, ref);
      hide Step, Run, Past, There, Tells;
      if Subject(op) != ref {
        StepElsewhere(s, op, ref);
      } else if Begins(op) {
        BeginTells(s, past, op);
      } else if ref in s.live {
        NotEmpty(past);
        StepTells(s, past, op);
      } else {
        GoneStaysGone(s, past, op);
      }
    }
  }

  lemma NotEmpty(past: seq<Happening>)
    ensures There(past) ==> past != []
  {
  }

  /** The life cycle: in every run, what happens next is accepted exactly when the past of its order lets it. */
  lemma AcceptedExactlyWhen(capacity: nat, ops: seq<Op>, op: Op)
    ensures var s := Run(Empty(capacity), ops);
            Step(s, op).ok <==> Accepts(Past(capacity, ops, Subject(op)), op, |s.live| < capacity)
  {
    hide Step, Run, Past, There, Tells, Accepts;
    PastIsFollowed(capacity, ops, Subject(op));
    AcceptsAsTold(Run(Empty(capacity), ops), Past(capacity, ops, Subject(op)), op);
    ReservedIsLiveTotalMinusDrift(capacity, ops);
  }

  /** A cancel request on a created order is accepted exactly when the order has been acknowledged, and has since neither
      ended, nor gone unknown, nor had a cancel request accepted, whatever was filled of it. */
  lemma CancelRequested(capacity: nat, ops: seq<Op>, ref: Ref)
    ensures var past := Past(capacity, ops, ref);
            Step(Run(Empty(capacity), ops), OpTransition(ref, CancelPending)).ok
            <==> There(past) && !Over(past) && Been(past, Acknowledged) && !Been(past, CancelPending) && !Been(past, Unknown)
  {
    hide Step, Run, Past, There;
    AcceptedExactlyWhen(capacity, ops, OpTransition(ref, CancelPending));
  }
}
