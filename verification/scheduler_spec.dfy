/** Deficit round robin over strategy slots: what one dequeue does, who waits for how long, and in what order
    each strategy's requests leave. */
module SchedulerSpec {
  datatype Request = Request(strategy: nat, venue: nat, buy: bool, payload: nat)

  datatype Slot = Slot(registered: bool, id: nat, quantum: nat, queue: seq<Request>)

  /** `visit` is what is left of the current visit's quantum, 0 between visits. */
  datatype Scheduler = Scheduler(slots: seq<Slot>, cursor: nat, visit: nat, capacity: nat)

  datatype Served = Served(slot: nat, request: Request)

  predicate Active(slot: Slot) {
    slot.registered && slot.queue != []
  }

  predicate NothingQueued(s: Scheduler) {
    forall i | 0 <= i < |s.slots| :: !Active(s.slots[i])
  }

  ghost predicate Inv(s: Scheduler) {
    && (|s.slots| > 0 ==> s.cursor < |s.slots|)
    && (forall i | 0 <= i < |s.slots| :: SlotOk(s.slots[i], s.capacity))
    && (forall i, j | 0 <= i < j < |s.slots| :: s.slots[i].registered && s.slots[j].registered ==> s.slots[i].id != s.slots[j].id)
    && (s.visit > 0 ==> s.cursor < |s.slots| && Active(s.slots[s.cursor]) && s.visit < s.slots[s.cursor].quantum)
  }

  predicate SlotOk(slot: Slot, capacity: nat) {
    && (slot.registered ==> slot.quantum > 0)
    && (!slot.registered ==> slot.queue == [])
    && |slot.queue| <= capacity
    && forall k | 0 <= k < |slot.queue| :: slot.queue[k].strategy == slot.id
  }

  /** The slot a strategy was given, or the number of slots. */
  function SlotOf(slots: seq<Slot>, id: nat): (i: nat)
    ensures i <= |slots| && (i < |slots| ==> slots[i].registered && slots[i].id == id)
    ensures forall k | 0 <= k < i :: !(slots[k].registered && slots[k].id == id)
  {
    if slots == [] then 0 else if slots[0].registered && slots[0].id == id then 0 else 1 + SlotOf(slots[1..], id)
  }

  function FirstFree(slots: seq<Slot>): (i: nat)
    ensures i <= |slots| && (i < |slots| ==> !slots[i].registered) && forall k | 0 <= k < i :: slots[k].registered
  {
    if slots == [] then 0 else if !slots[0].registered then 0 else 1 + FirstFree(slots[1..])
  }

  // ---- the operations ----

  function Register(s: Scheduler, id: nat, quantum: nat): (Scheduler, bool) {
    var i := FirstFree(s.slots);
    if quantum == 0 || SlotOf(s.slots, id) < |s.slots| || i == |s.slots| then (s, false)
    else (s.(slots := s.slots[i := Slot(true, id, quantum, [])]), true)
  }

  function Enqueue(s: Scheduler, r: Request): (Scheduler, bool) {
    var i := SlotOf(s.slots, r.strategy);
    if i == |s.slots| || |s.slots[i].queue| >= s.capacity then (s, false)
    else (s.(slots := s.slots[i := s.slots[i].(queue := s.slots[i].queue + [r])]), true)
  }

  function NextSlot(c: nat, n: nat): nat {
    if c + 1 < n then c + 1 else 0
  }

  function Advance(s: Scheduler): Scheduler
    requires |s.slots| > 0
  {
    s.(cursor := NextSlot(s.cursor, |s.slots|), visit := 0)
  }

  /** Serves the slot under the cursor; the visit ends when it is drained or its quantum is spent. */
  function ServeAt(s: Scheduler): (Scheduler, Served)
    requires s.cursor < |s.slots| && Active(s.slots[s.cursor]) && s.slots[s.cursor].quantum > 0
  {
    var slot := s.slots[s.cursor];
    var left := (if s.visit == 0 then slot.quantum else s.visit) - 1;
    var rest := slot.queue[1..];
    var s1 := s.(slots := s.slots[s.cursor := slot.(queue := rest)], visit := left);
    (if rest == [] || left == 0 then Advance(s1) else s1, Served(s.cursor, slot.queue[0]))
  }

  /** Visits at most `scans` slots, from the cursor on, until one can be served. */
  function Scan(s: Scheduler, scans: nat): (Scheduler, seq<Served>)
    requires Inv(s)
    decreases scans
  {
    if scans == 0 || s.slots == [] then (s, [])
    else if !Active(s.slots[s.cursor]) then Scan(Advance(s), scans - 1)
    else
      var (s', served) := ServeAt(s);
      (s', [served])
  }

  function Next(s: Scheduler): (Scheduler, seq<Served>)
    requires Inv(s)
  {
    if NothingQueued(s) then (s, []) else Scan(s, |s.slots|)
  }

  // ---- invariants ----

  lemma RegisterKeeps(s: Scheduler, id: nat, quantum: nat)
    requires Inv(s)
    ensures Inv(Register(s, id, quantum).0)
  {
    var i := FirstFree(s.slots);
    var s' := Register(s, id, quantum).0;
    assert s' == s || forall k | 0 <= k < |s.slots| && k != i :: s'.slots[k] == s.slots[k];
  }

  lemma EnqueueKeeps(s: Scheduler, r: Request)
    requires Inv(s)
    ensures Inv(Enqueue(s, r).0)
  {
  }

  lemma ServeKeeps(s: Scheduler)
    requires Inv(s) && s.cursor < |s.slots| && Active(s.slots[s.cursor])
    ensures Inv(ServeAt(s).0)
  {
    var slot := s.slots[s.cursor];
    assert SlotOk(slot, s.capacity);
    assert SlotOk(slot.(queue := slot.queue[1..]), s.capacity);
  }

  /** How many slots on from `c` slot `i` is. */
  function Distance(c: nat, i: nat, n: nat): nat
    requires c < n && i < n
  {
    if i >= c then i - c else i + n - c
  }

  /** None of the `k` slots from `c` on, going round, can be served. */
  predicate IdleFor(slots: seq<Slot>, c: nat, k: nat)
    requires c < |slots|
    decreases k
  {
    k == 0 || (!Active(slots[c]) && IdleFor(slots, NextSlot(c, |slots|), k - 1))
  }

  lemma {:induction false} IdleReaches(slots: seq<Slot>, c: nat, k: nat, i: nat)
    requires c < |slots| && i < |slots| && IdleFor(slots, c, k) && Distance(c, i, |slots|) < k
    ensures !Active(slots[i])
    decreases k
  {
    if c != i { IdleReaches(slots, NextSlot(c, |slots|), k - 1, i); }
  }

  /** A scan serves one slot, or none when every slot in its reach is idle. */
  lemma {:induction false} ScanServesFirst(s: Scheduler, scans: nat)
    requires Inv(s) && |s.slots| > 0
    ensures Inv(Scan(s, scans).0) && |Scan(s, scans).1| <= 1
    ensures Scan(s, scans).1 == [] <==> IdleFor(s.slots, s.cursor, scans)
    decreases scans
  {
    if scans > 0 {
      if Active(s.slots[s.cursor]) { ServeKeeps(s); } else { ScanServesFirst(Advance(s), scans - 1); }
    }
  }

  /** A dequeue fails only when no registered strategy has anything queued. */
  lemma NextFailsOnlyWhenIdle(s: Scheduler)
    requires Inv(s)
    ensures Inv(Next(s).0) && |Next(s).1| <= 1
    ensures Next(s).1 == [] <==> NothingQueued(s)
  {
    if !NothingQueued(s) {
      var n := |s.slots|;
      ScanServesFirst(s, n);
      if IdleFor(s.slots, s.cursor, n) {
        forall i | 0 <= i < n ensures !Active(s.slots[i]) { IdleReaches(s.slots, s.cursor, n, i); }
      }
    }
  }

  // ---- bounded waiting ----

  function Quantum(slot: Slot): nat {
    if slot.registered then slot.quantum else 0
  }

  /** The quanta of the `k` slots from `c` on, going round. */
  function Budget(slots: seq<Slot>, c: nat, k: nat): nat
    requires c < |slots|
    decreases k
  {
    if k == 0 then 0 else Quantum(slots[c]) + Budget(slots, NextSlot(c, |slots|), k - 1)
  }

  function Total(slots: seq<Slot>): nat {
    if slots == [] then 0 else Total(slots[..|slots| - 1]) + Quantum(slots[|slots| - 1])
  }

  /** The sum of the quanta of every strategy but the one in slot `i`. */
  function Others(slots: seq<Slot>, i: nat): int
    requires i < |slots|
  {
    Total(slots) - Quantum(slots[i])
  }

  /** How many requests can still be served before slot `i` has its turn. */
  function Wait(s: Scheduler, i: nat): nat
    requires s.cursor < |s.slots| && i < |s.slots|
  {
    var d := Distance(s.cursor, i, |s.slots|);
    if d == 0 then 0
    else (if s.visit > 0 then s.visit else Quantum(s.slots[s.cursor])) + Budget(s.slots, NextSlot(s.cursor, |s.slots|), d - 1)
  }

  lemma {:induction false} TotalGrows(slots: seq<Slot>, a: nat, b: nat)
    requires a <= b <= |slots|
    ensures Total(slots[..a]) <= Total(slots[..b])
    decreases b - a
  {
    if a < b {
      assert slots[..b][..b - 1] == slots[..b - 1];
      TotalGrows(slots, a, b - 1);
    }
  }

  lemma TotalTakes(slots: seq<Slot>, c: nat)
    requires c < |slots|
    ensures Total(slots[..c + 1]) == Total(slots[..c]) + Quantum(slots[c])
  {
    assert slots[..c + 1][..c] == slots[..c];
  }

  /** The way from `c` to `i`, as a difference of running totals. */
  lemma {:induction false} BudgetTo(slots: seq<Slot>, c: nat, i: nat)
    requires c < |slots| && i < |slots|
    ensures Budget(slots, c, Distance(c, i, |slots|))
         == Total(slots[..i]) - Total(slots[..c]) + if i >= c then 0 else Total(slots)
    decreases Distance(c, i, |slots|)
  {
    if c != i {
      BudgetTo(slots, NextSlot(c, |slots|), i);
      TotalTakes(slots, c);
      assert slots[..|slots|] == slots && slots[..0] == [];
    }
  }

  lemma WaitIsWithinBudget(s: Scheduler, i: nat)
    requires Inv(s) && i < |s.slots|
    ensures Wait(s, i) <= Budget(s.slots, s.cursor, Distance(s.cursor, i, |s.slots|))
  {
  }

  /** The wait never exceeds the sum of the other strategies' quanta. */
  lemma WaitIsBounded(s: Scheduler, i: nat)
    requires Inv(s) && i < |s.slots|
    ensures Wait(s, i) <= Others(s.slots, i)
  {
    WaitIsWithinBudget(s, i);
    hide Wait, Budget, Total, SlotOk;
    BudgetTo(s.slots, s.cursor, i);
    TotalTakes(s.slots, i);
    assert s.slots[..|s.slots|] == s.slots;
    TotalGrows(s.slots, i + 1, if i >= s.cursor then |s.slots| else s.cursor);
  }

  lemma {:induction false} BudgetSame(slots: seq<Slot>, slots': seq<Slot>, c: nat, k: nat)
    requires c < |slots| == |slots'| && forall i | 0 <= i < |slots| :: Quantum(slots'[i]) == Quantum(slots[i])
    ensures Budget(slots', c, k) == Budget(slots, c, k)
    decreases k
  {
    if k > 0 { BudgetSame(slots, slots', NextSlot(c, |slots|), k - 1); }
  }

  /** Serving another slot brings slot `i` nearer its turn and leaves its queue alone. */
  lemma ServeShortensWait(s: Scheduler, i: nat)
    requires Inv(s) && s.cursor < |s.slots| && Active(s.slots[s.cursor]) && i < |s.slots| && i != s.cursor
    ensures var s' := ServeAt(s).0;
            |s'.slots| == |s.slots| && s'.cursor < |s.slots| && s'.slots[i] == s.slots[i] && Wait(s', i) < Wait(s, i)
  {
    var s' := ServeAt(s).0;
    var n := |s.slots|;
    var d := Distance(s.cursor, i, n);
    BudgetSame(s.slots, s'.slots, NextSlot(s.cursor, n), d - 1);
  }

  /** While slot `i` has something queued, a dequeue either serves it or shortens its wait. */
  lemma {:induction false} ScanShortensWait(s: Scheduler, scans: nat, i: nat)
    requires Inv(s) && i < |s.slots| && Active(s.slots[i]) && Scan(s, scans).1 != []
    ensures var (s', served) := Scan(s, scans);
            && |s'.slots| == |s.slots| && s'.cursor < |s.slots|
            && (served[0].slot == i || (s'.slots[i] == s.slots[i] && Wait(s', i) < Wait(s, i)))
    decreases scans
  {
    if Active(s.slots[s.cursor]) {
      if s.cursor != i { ServeShortensWait(s, i); }
    } else {
      ScanShortensWait(Advance(s), scans - 1, i);
    }
  }

  // ---- runs ----

  datatype Op = EnqueueOp(request: Request) | NextOp

  function Step(s: Scheduler, op: Op): (Scheduler, seq<Served>)
    requires Inv(s)
  {
    match op
    case EnqueueOp(r) => (Enqueue(s, r).0, [])
    case NextOp => Next(s)
  }

  lemma StepKeeps(s: Scheduler, op: Op)
    requires Inv(s)
    ensures Inv(Step(s, op).0)
  {
    match op
    case EnqueueOp(r) => EnqueueKeeps(s, r);
    case NextOp => NextFailsOnlyWhenIdle(s);
  }

  ghost function Run(s: Scheduler, ops: seq<Op>): (res: (Scheduler, seq<Served>))
    requires Inv(s)
    ensures Inv(res.0)
  {
    if ops == [] then (s, [])
    else
      var (s1, served) := Run(s, ops[..|ops| - 1]);
      StepKeeps(s1, ops[|ops| - 1]);
      var (s2, more) := Step(s1, ops[|ops| - 1]);
      (s2, served + more)
  }

  /** While slot `i` has something queued and is not served, its wait shrinks with every request served. */
  lemma {:induction false} RunShortensWait(s: Scheduler, ops: seq<Op>, i: nat)
    requires Inv(s) && i < |s.slots| && Active(s.slots[i])
    requires forall x <- Run(s, ops).1 :: x.slot != i
    ensures var (s', served) := Run(s, ops);
            && |s'.slots| == |s.slots| && Active(s'.slots[i]) && Wait(s', i) + |served| <= Wait(s, i)
  {
    if ops != [] {
      var last := |ops| - 1;
      var (s1, served) := Run(s, ops[..last]);
      var (s2, more) := Step(s1, ops[last]);
      assert forall x <- served :: x in Run(s, ops).1;
      assert forall x <- more :: x in Run(s, ops).1;
      RunShortensWait(s, ops[..last], i);
      hide Run, Inv, Wait, Active;
      StepShortensWait(s1, ops[last], i);
    }
  }

  lemma StepShortensWait(s: Scheduler, op: Op, i: nat)
    requires Inv(s) && i < |s.slots| && Active(s.slots[i]) && forall x <- Step(s, op).1 :: x.slot != i
    ensures var (s', served) := Step(s, op);
            && |s'.slots| == |s.slots| && s'.cursor < |s.slots| && Active(s'.slots[i])
            && Wait(s', i) + |served| <= Wait(s, i)
  {
    match op
    case EnqueueOp(r) =>
      var s' := Enqueue(s, r).0;
      var d := Distance(s.cursor, i, |s.slots|);
      if d > 0 { BudgetSame(s.slots, s'.slots, NextSlot(s.cursor, |s.slots|), d - 1); }
    case NextOp =>
      NextFailsOnlyWhenIdle(s);
      ScanShortensWait(s, |s.slots|, i);
  }

  /** No starvation: whatever is queued meanwhile, once more requests have been served than the sum of the other
      strategies' quanta, a strategy that had something queued has been served. */
  lemma BoundedWaiting(s: Scheduler, ops: seq<Op>, i: nat)
    requires Inv(s) && i < |s.slots| && Active(s.slots[i]) && |Run(s, ops).1| > Others(s.slots, i)
    ensures exists k | 0 <= k < |Run(s, ops).1| :: Run(s, ops).1[k].slot == i
  {
    var served := Run(s, ops).1;
    if forall x <- served :: x.slot != i {
      RunShortensWait(s, ops, i);
      WaitIsBounded(s, i);
      assert false;
    }
  }

  // ---- order within a strategy ----

  function From(served: seq<Served>, i: nat): seq<Request> {
    if served == [] then []
    else From(served[..|served| - 1], i) + if served[|served| - 1].slot == i then [served[|served| - 1].request] else []
  }

  /** What a step adds to the queue of slot `i`. */
  function Admitted(s: Scheduler, op: Op, i: nat): seq<Request> {
    if op.EnqueueOp? && Enqueue(s, op.request).1 && SlotOf(s.slots, op.request.strategy) == i then [op.request] else []
  }

  /** What the accepted enqueues of a run added to slot `i`. */
  ghost function Enqueued(s: Scheduler, ops: seq<Op>, i: nat): seq<Request>
    requires Inv(s)
  {
    if ops == [] then []
    else
      var last := |ops| - 1;
      Enqueued(s, ops[..last], i) + Admitted(Run(s, ops[..last]).0, ops[last], i)
  }

  lemma {:induction false} FromAppend(a: seq<Served>, b: seq<Served>, i: nat)
    requires |b| <= 1
    ensures From(a + b, i) == From(a, i) + From(b, i)
  {
    if b == [] {
      assert a + b == a;
    } else {
      assert (a + b)[..|a|] == a && b[..0] == [];
    }
  }

  lemma {:induction false} ScanTakesHead(s: Scheduler, scans: nat, i: nat)
    requires Inv(s) && i < |s.slots|
    ensures var (s', served) := Scan(s, scans);
            |s'.slots| == |s.slots| && |served| <= 1 && s.slots[i].queue == From(served, i) + s'.slots[i].queue
    decreases scans
  {
    assert [] + s.slots[i].queue == s.slots[i].queue;
    if scans > 0 {
      if Active(s.slots[s.cursor]) {
        var served := ServeAt(s).1;
        assert [served][..0] == [];
        assert s.slots[s.cursor].queue == [served.request] + s.slots[s.cursor].queue[1..];
      } else {
        ScanTakesHead(Advance(s), scans - 1, i);
      }
    }
  }

  lemma StepMovesQueue(s: Scheduler, op: Op, i: nat)
    requires Inv(s) && i < |s.slots|
    ensures var (s', served) := Step(s, op);
            && |s'.slots| == |s.slots| && |served| <= 1
            && s.slots[i].queue + Admitted(s, op, i) == From(served, i) + s'.slots[i].queue
  {
    var queue := s.slots[i].queue;
    assert queue + [] == queue && [] + queue == queue;
    match op
    case EnqueueOp(r) => assert forall q: seq<Request> :: [] + q == q;
    case NextOp => ScanTakesHead(s, |s.slots|, i);
  }

  lemma Regroup<T>(a: seq<T>, b: seq<T>, c: seq<T>, d: seq<T>, e: seq<T>, f: seq<T>, g: seq<T>)
    requires a + b == c + d && d + e == f + g
    ensures a + (b + e) == (c + f) + g
  {
    assert a + (b + e) == (a + b) + e;
    assert (c + d) + e == c + (d + e);
    assert c + (f + g) == (c + f) + g;
  }

  /** First in, first out: what a strategy had queued, followed by what it was allowed to queue, is what was
      served of it, in that order, followed by what it still has queued. */
  lemma {:induction false} StrategyOrderIsKept(s: Scheduler, ops: seq<Op>, i: nat)
    requires Inv(s) && i < |s.slots|
    ensures var (s', served) := Run(s, ops);
            && |s'.slots| == |s.slots|
            && s.slots[i].queue + Enqueued(s, ops, i) == From(served, i) + s'.slots[i].queue
  {
    if ops == [] {
      var queue := s.slots[i].queue;
      assert queue + [] == [] + queue;
    } else {
      hide Inv, Step, Admitted, From;
      var last := |ops| - 1;
      StrategyOrderIsKept(s, ops[..last], i);
      var (s1, served) := Run(s, ops[..last]);
      var (s2, more) := Step(s1, ops[last]);
      StepMovesQueue(s1, ops[last], i);
      FromAppend(served, more, i);
      Regroup(s.slots[i].queue, Enqueued(s, ops[..last], i), From(served, i), s1.slots[i].queue,
              Admitted(s1, ops[last], i), From(more, i), s2.slots[i].queue);
    }
  }
}
