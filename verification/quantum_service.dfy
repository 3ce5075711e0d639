/** What the quantum means: a visit serves as many requests as the quantum says, or drains the slot, and over full rounds
    every backlogged strategy is served its quantum times the number of rounds. */
module QuantumService {
  import opened SchedulerSpec

  // ---- one visit ----

  /** The cursor has just arrived at slot `i`, which has something queued. */
  ghost predicate Arrived(s: Scheduler, i: nat) {
    Inv(s) && i < |s.slots| && s.cursor == i && s.visit == 0 && Active(s.slots[i])
  }

  /** Slot `i` has had something queued all along. */
  ghost predicate NeverDrained(s: Scheduler, ops: seq<Op>, i: nat)
    requires Inv(s)
  {
    forall n | 0 <= n <= |ops| :: i < |Run(s, ops[..n]).0.slots| && Active(Run(s, ops[..n]).0.slots[i])
  }

  lemma DrainedLater(s: Scheduler, ops: seq<Op>, i: nat)
    requires Inv(s) && ops != [] && NeverDrained(s, ops, i)
    ensures NeverDrained(s, ops[..|ops| - 1], i)
    ensures i < |Run(s, ops).0.slots| && Active(Run(s, ops).0.slots[i])
  {
    hide Run, Active;
    var before := ops[..|ops| - 1];
    forall n | 0 <= n <= |before| ensures i < |Run(s, before[..n]).0.slots| && Active(Run(s, before[..n]).0.slots[i]) {
      assert before[..n] == ops[..n];
    }
    assert ops[..|ops|] == ops;
  }

  /** How far a visit to slot `i` has come after `n` requests. */
  ghost predicate Visiting(s: Scheduler, i: nat, quantum: nat, n: nat) {
    && Inv(s) && i < |s.slots| && s.cursor == i && Active(s.slots[i]) && s.slots[i].quantum == quantum && n < quantum
    && s.visit == if n == 0 then 0 else quantum - n
  }

  lemma EnqueueVisiting(s: Scheduler, r: Request, i: nat, quantum: nat, n: nat)
    requires Visiting(s, i, quantum, n)
    ensures Visiting(Enqueue(s, r).0, i, quantum, n)
  {
    EnqueueKeeps(s, r);
  }

  /** The next request is the slot's own; the visit ends with the quantum or with the queue, and nothing is carried over. */
  lemma NextVisiting(s: Scheduler, i: nat, quantum: nat, n: nat)
    requires Visiting(s, i, quantum, n)
    ensures var (s', served) := Next(s);
            && served == [Served(i, s.slots[i].queue[0])] && |s'.slots| == |s.slots|
            && s'.slots[i] == s.slots[i].(queue := s.slots[i].queue[1..])
            && if n + 1 == quantum || |s.slots[i].queue| == 1 then s'.cursor == NextSlot(i, |s.slots|) && s'.visit == 0
               else s'.cursor == i && s'.visit == quantum - (n + 1)
  {
    assert !NothingQueued(s);
  }

  /** While the quantum is not spent and the slot not drained, every request served is the slot's own and the visit goes
      on, whatever is queued meanwhile. */
  lemma {:induction false} VisitGoesOn(s: Scheduler, ops: seq<Op>, i: nat)
    requires Arrived(s, i) && NeverDrained(s, ops, i) && |Run(s, ops).1| < s.slots[i].quantum
    ensures var (s', served) := Run(s, ops);
            Visiting(s', i, s.slots[i].quantum, |served|) && forall k | 0 <= k < |served| :: served[k].slot == i
  {
    if ops == [] {
      assert SlotOk(s.slots[i], s.capacity);
    } else {
      var last := |ops| - 1;
      DrainedLater(s, ops, i);
      VisitGoesOn(s, ops[..last], i);
      var (s1, served) := Run(s, ops[..last]);
      var quantum := s.slots[i].quantum;
      hide NeverDrained;
      match ops[last]
      case EnqueueOp(r) => EnqueueVisiting(s1, r, i, quantum, |served|);
      case NextOp => StepVisiting(s1, i, quantum, |served|);
    }
  }

  lemma StepVisiting(s: Scheduler, i: nat, quantum: nat, n: nat)
    requires Visiting(s, i, quantum, n) && n + 1 < quantum && i < |Next(s).0.slots| && Active(Next(s).0.slots[i])
    ensures Visiting(Next(s).0, i, quantum, n + 1) && |Next(s).1| == 1 && Next(s).1[0].slot == i
  {
    NextVisiting(s, i, quantum, n);
    NextFailsOnlyWhenIdle(s);
    hide Next, Inv;
  }

  /** From the moment the cursor arrives at a slot: while fewer have been served than its quantum and than it had queued,
      they were all its own, and so is the next one, whatever is queued meanwhile. The cursor leaves exactly with the last
      of the quantum or of the queue, and nothing of the visit is carried over. */
  lemma VisitServesQuantum(s: Scheduler, ops: seq<Op>, i: nat)
    requires Arrived(s, i)
    requires var n := |Run(s, ops).1|; n < s.slots[i].quantum && n < |s.slots[i].queue|
    ensures var (s1, served) := Run(s, ops);
            var (s2, next) := Next(s1);
            && (forall k | 0 <= k < |served| :: served[k].slot == i) && s1.cursor == i
            && |next| == 1 && next[0].slot == i && i < |s2.slots|
            && if |served| + 1 == s.slots[i].quantum || s2.slots[i].queue == [] then s2.cursor == NextSlot(i, |s2.slots|) && s2.visit == 0
               else s2.cursor == i && s2.visit == s.slots[i].quantum - (|served| + 1)
  {
    NotYetDrained(s, ops, i);
    VisitGoesOn(s, ops, i);
    var (s1, served) := Run(s, ops);
    NextVisiting(s1, i, s.slots[i].quantum, |served|);
    hide Next, Inv, Arrived, Run;
  }

  /** Fewer served than queued: never drained. */
  lemma {:induction false} NotYetDrained(s: Scheduler, ops: seq<Op>, i: nat)
    requires Arrived(s, i) && |Run(s, ops).1| < |s.slots[i].queue|
    ensures NeverDrained(s, ops, i)
  {
    forall n | 0 <= n <= |ops| ensures i < |Run(s, ops[..n]).0.slots| && Active(Run(s, ops[..n]).0.slots[i]) {
      ServedGrows(s, ops, n);
      StrategyOrderIsKept(s, ops[..n], i);
      FromIsShorter(Run(s, ops[..n]).1, i);
      StaysRegistered(s, ops[..n], i);
      hide Run, Inv;
    }
  }

  lemma {:induction false} FromIsShorter(served: seq<Served>, i: nat)
    ensures |From(served, i)| <= |served|
  {
    if served != [] {
      FromIsShorter(served[..|served| - 1], i);
    }
  }

  lemma {:induction false} ServedGrows(s: Scheduler, ops: seq<Op>, n: nat)
    requires Inv(s) && n <= |ops|
    ensures |Run(s, ops[..n]).1| <= |Run(s, ops).1|
    decreases |ops|
  {
    if n < |ops| {
      hide Step, Inv;
      ServedGrows(s, ops[..|ops| - 1], n);
      assert ops[..|ops| - 1][..n] == ops[..n];
    } else {
      assert ops[..n] == ops;
    }
  }

  /** Slots keep their strategy and its quantum. */
  lemma StepKeepsSlot(s: Scheduler, op: Op, i: nat)
    requires Inv(s) && i < |s.slots|
    ensures var s' := Step(s, op).0;
            && |s'.slots| == |s.slots| && s'.slots[i].registered == s.slots[i].registered
            && s'.slots[i].quantum == s.slots[i].quantum
  {
    if op.NextOp? { ScanKeepsSlot(s, |s.slots|, i); }
  }

  lemma {:induction false} ScanKeepsSlot(s: Scheduler, scans: nat, i: nat)
    requires Inv(s) && i < |s.slots|
    ensures var s' := Scan(s, scans).0;
            && |s'.slots| == |s.slots| && s'.slots[i].registered == s.slots[i].registered
            && s'.slots[i].quantum == s.slots[i].quantum
    decreases scans
  {
    if scans > 0 && !Active(s.slots[s.cursor]) { ScanKeepsSlot(Advance(s), scans - 1, i); }
  }

  lemma {:induction false} StaysRegistered(s: Scheduler, ops: seq<Op>, i: nat)
    requires Inv(s) && i < |s.slots|
    ensures var s' := Run(s, ops).0;
            && |s'.slots| == |s.slots| && s'.slots[i].registered == s.slots[i].registered
            && s'.slots[i].quantum == s.slots[i].quantum
  {
    if ops != [] {
      hide Step, Inv;
      StaysRegistered(s, ops[..|ops| - 1], i);
      StepKeepsSlot(Run(s, ops[..|ops| - 1]).0, ops[|ops| - 1], i);
    }
  }

  // ---- rounds ----

  /** Every strategy has something queued at every moment. */
  ghost predicate Backlogged(slots: seq<Slot>) {
    forall i | 0 <= i < |slots| && slots[i].registered :: Active(slots[i])
  }

  ghost predicate AlwaysBacklogged(s: Scheduler, ops: seq<Op>)
    requires Inv(s)
  {
    forall n | 0 <= n <= |ops| :: BackloggedAt(s, ops, n)
  }

  ghost predicate BackloggedAt(s: Scheduler, ops: seq<Op>, n: nat)
    requires Inv(s) && n <= |ops|
  {
    Backlogged(Run(s, ops[..n]).0.slots)
  }

  /** What slot `i` has had of the current round, which began at slot `start`. */
  function Part(s: Scheduler, start: nat, i: nat): int
    requires start < |s.slots| && i < |s.slots| && s.cursor < |s.slots|
  {
    if Distance(start, i, |s.slots|) < Distance(start, s.cursor, |s.slots|) then Quantum(s.slots[i])
    else if i == s.cursor && s.visit > 0 then Quantum(s.slots[i]) - s.visit
    else 0
  }

  /** After `rounds` full rounds from slot `start` on, and a part of the next one. */
  ghost predicate InRound(s: Scheduler, start: nat, served: seq<Served>, rounds: nat) {
    && Inv(s) && start < |s.slots|
    && forall i | 0 <= i < |s.slots| :: |From(served, i)| == rounds * Quantum(s.slots[i]) + Part(s, start, i)
  }

  lemma PartIsPart(s: Scheduler, start: nat, i: nat)
    requires Inv(s) && start < |s.slots| && i < |s.slots|
    ensures 0 <= Part(s, start, i) <= Quantum(s.slots[i])
  {
    assert SlotOk(s.slots[i], s.capacity);
  }

  lemma NextDistance(start: nat, c: nat, n: nat)
    requires start < n && c < n
    ensures Distance(start, NextSlot(c, n), n) == if NextSlot(c, n) == start then 0 else Distance(start, c, n) + 1
    ensures NextSlot(c, n) == start <==> Distance(start, c, n) == n - 1
  {
  }

  /** Leaving a slot that has had all its quantum, or has none. */
  lemma LeaveInRound(s: Scheduler, start: nat, served: seq<Served>, rounds: nat) returns (rounds': nat)
    requires Inv(s) && start < |s.slots|
    requires forall i | 0 <= i < |s.slots| && i != s.cursor :: |From(served, i)| == rounds * Quantum(s.slots[i]) + Part(s, start, i)
    requires |From(served, s.cursor)| == rounds * Quantum(s.slots[s.cursor]) + Quantum(s.slots[s.cursor])
    ensures InRound(Advance(s), start, served, rounds')
  {
    var s' := Advance(s);
    var wraps := s'.cursor == start;
    rounds' := if wraps then rounds + 1 else rounds;
    forall i | 0 <= i < |s.slots| ensures |From(served, i)| == rounds' * Quantum(s'.slots[i]) + Part(s', start, i) {
      assert (rounds + 1) * Quantum(s.slots[i]) == rounds * Quantum(s.slots[i]) + Quantum(s.slots[i]);
      LeavePart(s, start, i);
      hide Part, Quantum, From;
    }
    AdvanceKeeps(s);
  }

  lemma AdvanceKeeps(s: Scheduler)
    requires Inv(s) && |s.slots| > 0
    ensures Inv(Advance(s))
  {
  }

  /** The last slot of a round is left when all the others have had their quanta. */
  lemma LeavePart(s: Scheduler, start: nat, i: nat)
    requires Inv(s) && start < |s.slots| && i < |s.slots|
    ensures var part, part' := Part(s, start, i), Part(Advance(s), start, i);
            if Advance(s).cursor == start then part' == 0 && (i != s.cursor ==> part == Quantum(s.slots[i]))
            else part' == if i == s.cursor then Quantum(s.slots[i]) else part
  {
    NextDistance(start, s.cursor, |s.slots|);
    OtherDistance(start, i, s.cursor, |s.slots|);
    OtherDistance(start, i, NextSlot(s.cursor, |s.slots|), |s.slots|);
    hide Distance;
  }

  lemma OtherDistance(start: nat, i: nat, c: nat, n: nat)
    requires start < n && i < n && c < n
    ensures Distance(start, i, n) < n && (Distance(start, i, n) == Distance(start, c, n) <==> i == c)
  {
  }

  lemma OneServed(served: seq<Served>, x: Served, i: nat)
    ensures |From(served + [x], i)| == |From(served, i)| + if x.slot == i then 1 else 0
  {
    FromAppend(served, [x], i);
    assert [x][..0] == [];
  }

  /** Serving the slot under the cursor. */
  lemma ServeInRound(s: Scheduler, start: nat, served: seq<Served>, rounds: nat) returns (rounds': nat)
    requires InRound(s, start, served, rounds) && Active(s.slots[s.cursor]) && |s.slots[s.cursor].queue| > 1
    ensures InRound(ServeAt(s).0, start, served + [ServeAt(s).1], rounds')
  {
    var (s', x) := ServeAt(s);
    var slot := s.slots[s.cursor];
    ServeKeeps(s);
    forall i ensures |From(served + [x], i)| == |From(served, i)| + if x.slot == i then 1 else 0 { OneServed(served, x, i); }
    var left := (if s.visit == 0 then slot.quantum else s.visit) - 1;
    var s1 := s.(slots := s.slots[s.cursor := slot.(queue := slot.queue[1..])], visit := left);
    hide From;
    if left == 0 {
      var s0 := s1.(visit := 0);
      assert s' == Advance(s0);
      ServedSlots(s, s0);
      rounds' := LeaveInRound(s0, start, served + [x], rounds);
    } else {
      rounds' := rounds;
    }
  }

  lemma ServedSlots(s: Scheduler, s0: Scheduler)
    requires Inv(s) && s.cursor < |s.slots| && Active(s.slots[s.cursor])
    requires s0 == s.(slots := s.slots[s.cursor := s.slots[s.cursor].(queue := s.slots[s.cursor].queue[1..])], visit := 0)
    ensures Inv(s0)
  {
    assert SlotOk(s.slots[s.cursor], s.capacity);
    assert SlotOk(s0.slots[s.cursor], s.capacity);
  }

  /** A dequeue: slots that are not registered are passed over, the first other one is served. */
  lemma {:induction false} ScanInRound(s: Scheduler, scans: nat, start: nat, served: seq<Served>, rounds: nat)
    returns (rounds': nat)
    requires InRound(s, start, served, rounds) && Backlogged(s.slots)
    requires Scan(s, scans).1 != [] && Backlogged(Scan(s, scans).0.slots)
    ensures InRound(Scan(s, scans).0, start, served + Scan(s, scans).1, rounds')
    decreases scans
  {
    hide From, InRound;
    InRoundGives(s, start, served, rounds);
    if Active(s.slots[s.cursor]) {
      ServedStays(s);
      rounds' := ServeInRound(s, start, served, rounds);
    } else {
      SkipPart(s, start, served, rounds);
      var r := LeaveInRound(s, start, served, rounds);
      rounds' := ScanInRound(Advance(s), scans - 1, start, served, r);
    }
  }

  lemma InRoundGives(s: Scheduler, start: nat, served: seq<Served>, rounds: nat)
    requires InRound(s, start, served, rounds)
    ensures Inv(s) && start < |s.slots| && s.cursor < |s.slots|
    ensures forall i | 0 <= i < |s.slots| :: |From(served, i)| == rounds * Quantum(s.slots[i]) + Part(s, start, i)
  {
  }

  /** A slot still backlogged after it was served had more than one request. */
  lemma ServedStays(s: Scheduler)
    requires Inv(s) && s.cursor < |s.slots| && Active(s.slots[s.cursor]) && Backlogged(ServeAt(s).0.slots)
    ensures |s.slots[s.cursor].queue| > 1
  {
    var slot := ServeAt(s).0.slots[s.cursor];
    assert slot.registered && Active(slot);
  }

  /** A slot passed over in a backlogged scheduler is not registered, and has no quantum. */
  lemma SkipPart(s: Scheduler, start: nat, served: seq<Served>, rounds: nat)
    requires InRound(s, start, served, rounds) && Backlogged(s.slots) && s.cursor < |s.slots| && !Active(s.slots[s.cursor])
    ensures |From(served, s.cursor)| == rounds * Quantum(s.slots[s.cursor]) + Quantum(s.slots[s.cursor])
  {
    PartIsPart(s, start, s.cursor);
    hide From;
  }

  lemma StepInRound(s: Scheduler, op: Op, start: nat, served: seq<Served>, rounds: nat) returns (rounds': nat)
    requires InRound(s, start, served, rounds) && Backlogged(s.slots) && Backlogged(Step(s, op).0.slots)
    ensures InRound(Step(s, op).0, start, served + Step(s, op).1, rounds')
  {
    match op
    case EnqueueOp(r) =>
      EnqueueKeeps(s, r);
      assert served + [] == served;
      rounds' := rounds;
    case NextOp =>
      if NothingQueued(s) {
        assert served + [] == served;
        rounds' := rounds;
      } else {
        NextFailsOnlyWhenIdle(s);
        rounds' := ScanInRound(s, |s.slots|, start, served, rounds);
      }
  }

  lemma BackloggedBefore(s: Scheduler, ops: seq<Op>)
    requires Inv(s) && ops != [] && AlwaysBacklogged(s, ops)
    ensures AlwaysBacklogged(s, ops[..|ops| - 1]) && Backlogged(Run(s, ops).0.slots)
    ensures Backlogged(Run(s, ops[..|ops| - 1]).0.slots)
  {
    hide Run, Backlogged, Inv;
    var before := ops[..|ops| - 1];
    forall n | 0 <= n <= |before| ensures BackloggedAt(s, before, n) {
      assert before[..n] == ops[..n] && BackloggedAt(s, ops, n);
    }
    assert ops[..|ops|] == ops && BackloggedAt(s, ops, |ops|) && BackloggedAt(s, ops, |before|);
  }

  lemma {:induction false} RunInRound(s: Scheduler, ops: seq<Op>) returns (rounds: nat)
    requires Inv(s) && |s.slots| > 0 && s.visit == 0 && AlwaysBacklogged(s, ops)
    ensures InRound(Run(s, ops).0, s.cursor, Run(s, ops).1, rounds)
  {
    if ops == [] {
      rounds := 0;
      assert forall i | 0 <= i < |s.slots| :: Part(s, s.cursor, i) == 0;
    } else {
      var before := ops[..|ops| - 1];
      BackloggedBefore(s, ops);
      var r := RunInRound(s, before);
      hide Step, InRound, Backlogged, AlwaysBacklogged;
      rounds := StepInRound(Run(s, before).0, ops[|ops| - 1], s.cursor, Run(s, before).1, r);
    }
  }

  /** Weighted fairness at every moment: while every strategy has something queued, each has been served so many times its
      quantum, and of the round under way at most its quantum more. */
  lemma SharesFollowQuanta(s: Scheduler, ops: seq<Op>) returns (rounds: nat)
    requires Inv(s) && |s.slots| > 0 && s.visit == 0 && AlwaysBacklogged(s, ops)
    ensures forall i | 0 <= i < |s.slots| ::
              rounds * Quantum(s.slots[i]) <= |From(Run(s, ops).1, i)| <= (rounds + 1) * Quantum(s.slots[i])
  {
    rounds := RunInRound(s, ops);
    var s' := Run(s, ops).0;
    hide From, Run;
    forall i | 0 <= i < |s.slots|
      ensures rounds * Quantum(s.slots[i]) <= |From(Run(s, ops).1, i)| <= (rounds + 1) * Quantum(s.slots[i])
    {
      StaysRegistered(s, ops, i);
      PartIsPart(s', s.cursor, i);
      assert (rounds + 1) * Quantum(s.slots[i]) == rounds * Quantum(s.slots[i]) + Quantum(s.slots[i]);
    }
  }

  // ---- full rounds ----

  function ServedBefore(served: seq<Served>, n: nat): nat {
    if n == 0 then 0 else ServedBefore(served, n - 1) + |From(served, n - 1)|
  }

  lemma {:induction false} NobodyServed(n: nat)
    ensures ServedBefore([], n) == 0
  {
    if n > 0 {
      NobodyServed(n - 1);
    }
  }

  lemma {:induction false} ServedBySlots(served: seq<Served>, x: Served, n: nat)
    ensures ServedBefore(served + [x], n) == ServedBefore(served, n) + if x.slot < n then 1 else 0
  {
    if n > 0 {
      ServedBySlots(served, x, n - 1);
      OneServed(served, x, n - 1);
    }
  }

  /** Every request served is served from a slot. */
  lemma {:induction false} AllServed(s: Scheduler, ops: seq<Op>)
    requires Inv(s)
    ensures |Run(s, ops).0.slots| == |s.slots| && ServedBefore(Run(s, ops).1, |s.slots|) == |Run(s, ops).1|
  {
    if ops == [] {
      NobodyServed(|s.slots|);
    } else {
      var before, op := ops[..|ops| - 1], ops[|ops| - 1];
      AllServed(s, before);
      var (s1, served) := Run(s, before);
      hide Inv, From;
      OpServesSlot(s1, op);
      var more := Step(s1, op).1;
      if more == [] {
        assert served + more == served;
      } else {
        assert more == [more[0]];
        ServedBySlots(served, more[0], |s.slots|);
      }
    }
  }

  lemma OpServesSlot(s: Scheduler, op: Op)
    requires Inv(s)
    ensures var (s', more) := Step(s, op);
            |s'.slots| == |s.slots| && |more| <= 1 && (more != [] ==> more[0].slot < |s.slots|)
  {
    if op.NextOp? { ScanServesSlot(s, |s.slots|); }
  }

  lemma {:induction false} ScanServesSlot(s: Scheduler, scans: nat)
    requires Inv(s)
    ensures var (s', more) := Scan(s, scans);
            |s'.slots| == |s.slots| && |more| <= 1 && (more != [] ==> more[0].slot < |s.slots|)
    decreases scans
  {
    if scans > 0 && s.slots != [] && !Active(s.slots[s.cursor]) { ScanServesSlot(Advance(s), scans - 1); }
  }

  /** So many times the quanta of the first `n` slots. */
  function Shares(slots: seq<Slot>, rounds: nat, n: nat): nat
    requires n <= |slots|
  {
    if n == 0 then 0 else Shares(slots, rounds, n - 1) + rounds * Quantum(slots[n - 1])
  }

  lemma {:induction false} SharesMakeTotal(slots: seq<Slot>, rounds: nat, n: nat)
    requires n <= |slots|
    ensures Shares(slots, rounds, n) == rounds * Total(slots[..n])
  {
    if n > 0 {
      SharesMakeTotal(slots, rounds, n - 1);
      TotalTakes(slots, n - 1);
      Distributes(rounds, Total(slots[..n - 1]), Quantum(slots[n - 1]));
      hide Quantum, Total;
    }
  }

  lemma Distributes(a: int, x: int, y: int)
    ensures a * (x + y) == a * x + a * y
  {
  }

  /** Shares that are all at least, or all at most, so many times the quanta, and add up to that, are exactly that. */
  lemma {:induction false} NoSlack(served: seq<Served>, slots: seq<Slot>, rounds: nat, n: nat, below: bool)
    requires n <= |slots|
    requires forall i | 0 <= i < n :: if below then |From(served, i)| <= rounds * Quantum(slots[i])
                                      else |From(served, i)| >= rounds * Quantum(slots[i])
    ensures if below then ServedBefore(served, n) <= Shares(slots, rounds, n)
            else ServedBefore(served, n) >= Shares(slots, rounds, n)
    ensures ServedBefore(served, n) == Shares(slots, rounds, n) ==>
              forall i | 0 <= i < n :: |From(served, i)| == rounds * Quantum(slots[i])
  {
    if n > 0 {
      NoSlack(served, slots, rounds, n - 1, below);
      hide From, Quantum;
    }
  }

  /** Over full rounds: when as many requests have been served as so many times all the quanta, while every strategy stayed
      backlogged, each strategy has been served exactly so many times its quantum. */
  lemma RoundsServeQuanta(s: Scheduler, ops: seq<Op>, rounds: nat)
    requires Inv(s) && |s.slots| > 0 && s.visit == 0 && AlwaysBacklogged(s, ops) && Total(s.slots) > 0
    requires |Run(s, ops).1| == rounds * Total(s.slots)
    ensures forall i | 0 <= i < |s.slots| :: |From(Run(s, ops).1, i)| == rounds * Quantum(s.slots[i])
  {
    var n, served := |s.slots|, Run(s, ops).1;
    var r := SharesFollowQuanta(s, ops);
    AllServed(s, ops);
    assert s.slots[..n] == s.slots;
    hide Run, From, Quantum;
    NoSlack(served, s.slots, r, n, false);
    NoSlack(served, s.slots, r + 1, n, true);
    SharesMakeTotal(s.slots, r, n);
    SharesMakeTotal(s.slots, r + 1, n);
    RoundsFit(r, rounds, Total(s.slots));
  }

  lemma Grows(a: int, b: int, t: nat)
    requires a <= b
    ensures a * t <= b * t
  {
  }

  lemma RoundsFit(r: nat, rounds: nat, total: nat)
    requires total > 0 && r * total <= rounds * total <= (r + 1) * total
    ensures rounds == r || rounds == r + 1
  {
    assert (rounds + 1) * total == rounds * total + total && (r + 2) * total == (r + 1) * total + total;
    if rounds < r { Grows(rounds + 1, r, total); }
    if rounds > r + 1 { Grows(r + 2, rounds, total); }
  }

  // ---- registration ----

  /** A strategy is registered exactly when its quantum is positive, its name is new and a slot is free; then it has a slot
      with that very quantum and nothing queued, and every other slot is as it was. */
  lemma RegisteredExactly(s: Scheduler, id: nat, quantum: nat)
    requires Inv(s)
    ensures var (s', ok) := Register(s, id, quantum);
            && (ok <==> && quantum > 0
                        && (forall i | 0 <= i < |s.slots| :: s.slots[i].registered ==> s.slots[i].id != id)
                        && exists i | 0 <= i < |s.slots| :: !s.slots[i].registered)
            && (ok ==> exists i | 0 <= i < |s.slots| ::
                  !s.slots[i].registered && s' == s.(slots := s.slots[i := Slot(true, id, quantum, [])]))
            && (!ok ==> s' == s)
  {
    var i, k := FirstFree(s.slots), SlotOf(s.slots, id);
    if i < |s.slots| { assert !s.slots[i].registered; }
    if k < |s.slots| { assert s.slots[k].registered && s.slots[k].id == id; }
  }

  // ---- admission ----

  lemma {:induction false} SlotKeepsName(s: Scheduler, ops: seq<Op>, i: nat)
    requires Inv(s) && i < |s.slots|
    ensures var s' := Run(s, ops).0;
            |s'.slots| == |s.slots| && s'.slots[i].id == s.slots[i].id && s'.capacity == s.capacity
  {
    if ops != [] {
      hide Inv;
      SlotKeepsName(s, ops[..|ops| - 1], i);
      var s1, op := Run(s, ops[..|ops| - 1]).0, ops[|ops| - 1];
      if op.NextOp? && !NothingQueued(s1) { ScanKeepsName(s1, |s1.slots|, i); }
    }
  }

  lemma {:induction false} ScanKeepsName(s: Scheduler, scans: nat, i: nat)
    requires Inv(s) && i < |s.slots|
    ensures var s' := Scan(s, scans).0;
            |s'.slots| == |s.slots| && s'.slots[i].id == s.slots[i].id && s'.capacity == s.capacity
    decreases scans
  {
    if scans > 0 && !Active(s.slots[s.cursor]) { ScanKeepsName(Advance(s), scans - 1, i); }
  }

  lemma OnlySlot(s: Scheduler, i: nat)
    requires Inv(s) && i < |s.slots| && s.slots[i].registered
    ensures SlotOf(s.slots, s.slots[i].id) == i
  {
    var k := SlotOf(s.slots, s.slots[i].id);
    assert k <= i;
  }

  /** After any run a strategy's request is taken exactly when what was queued and not yet served of it leaves room in its
      ring; that of a strategy without a slot never is. */
  lemma TakenExactlyWhenRoom(s: Scheduler, ops: seq<Op>, r: Request)
    requires Inv(s)
    ensures forall i | 0 <= i < |s.slots| && s.slots[i].registered && s.slots[i].id == r.strategy ::
              Enqueue(Run(s, ops).0, r).1
              <==> |s.slots[i].queue| + |Enqueued(s, ops, i)| - |From(Run(s, ops).1, i)| < s.capacity
    ensures (forall i | 0 <= i < |s.slots| :: !(s.slots[i].registered && s.slots[i].id == r.strategy))
            ==> !Enqueue(Run(s, ops).0, r).1
  {
    hide Run, Inv, From, Enqueued;
    var s' := Run(s, ops).0;
    forall i | 0 <= i < |s.slots|
      ensures |s'.slots| == |s.slots| && s'.slots[i].registered == s.slots[i].registered && s'.slots[i].id == s.slots[i].id
      ensures |s'.slots[i].queue| == |s.slots[i].queue| + |Enqueued(s, ops, i)| - |From(Run(s, ops).1, i)|
      ensures s'.slots[i].registered ==> SlotOf(s'.slots, s'.slots[i].id) == i
      ensures s'.capacity == s.capacity
    {
      StaysRegistered(s, ops, i);
      SlotKeepsName(s, ops, i);
      StrategyOrderIsKept(s, ops, i);
      if s'.slots[i].registered { OnlySlot(s', i); }
    }
    if |s.slots| == 0 { NoSlots(s, ops); }
  }

  lemma NoSlots(s: Scheduler, ops: seq<Op>)
    requires Inv(s) && s.slots == []
    ensures Run(s, ops).0.slots == []
  {
    AllServed(s, ops);
  }
}
