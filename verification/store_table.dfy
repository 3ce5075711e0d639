/** The store's two tables as values: the cells of the index and the dense array, and what every operation does to
    them. The class in `OmsStore` is proved to do exactly this. On them it is decided how many empty cells a run leaves. */
module StoreTable {
  import opened ExecTypes
  import opened IndexTable
  import opened Words
  import S = OmsSpec

  datatype Table = Table(cells: seq<nat>, orders: seq<Order>)

  /** The size of the index: the power of two that reaches twice the capacity. */
  function IndexSize(capacity: nat): (n: nat)
    ensures n >= 2 && n >= 2 * capacity && IsPowerOfTwo(n)
  {
    PowerFrom(1, (if capacity > 0 then capacity else 1) * 2)
  }

  function Blank(n: nat): (cells: seq<nat>)
    ensures |cells| == n && forall p | 0 <= p < n :: cells[p] == EMPTY
  {
    seq(n, _ => EMPTY)
  }

  function Start(capacity: nat): Table {
    Table(Blank(IndexSize(capacity)), [])
  }

  /** The slot of a reference, or the number of orders when there is none. */
  function SlotFor(orders: seq<Order>, ref: Ref): (k: nat)
    ensures k <= |orders| && (k < |orders| ==> orders[k].ref == ref)
    ensures forall i | 0 <= i < k :: orders[i].ref != ref
  {
    if orders == [] then 0 else if orders[0].ref == ref then 0 else 1 + SlotFor(orders[1..], ref)
  }

  /** The first free cell on the path of `ref` takes the slot. */
  function Entry(hash: Ref -> nat, cells: seq<nat>, ref: Ref, slot: nat): (r: seq<nat>)
    ensures |r| == |cells|
  {
    if cells == [] then cells
    else
      var p := FreeFrom(cells, Home(hash, ref, |cells|), 0);
      if p < |cells| then cells[p := slot + BIAS] else cells
  }

  function Inserted(hash: Ref -> nat, t: Table, o: Order): Table {
    Table(Entry(hash, t.cells, o.ref, |t.orders|), t.orders + [o])
  }

  /** The index built afresh. */
  function Rebuilt(hash: Ref -> nat, n: nat, orders: seq<Order>): (r: seq<nat>)
    ensures |r| == n
  {
    if orders == [] then Blank(n)
    else
      var last := |orders| - 1;
      Entry(hash, Rebuilt(hash, n, orders[..last]), orders[last].ref, last)
  }

  lemma RebuiltNothing(hash: Ref -> nat, n: nat)
    ensures Rebuilt(hash, n, []) == Blank(n)
  {
  }

  lemma RebuiltMore(hash: Ref -> nat, n: nat, orders: seq<Order>, k: nat)
    requires k < |orders|
    ensures Rebuilt(hash, n, orders[..k + 1]) == Entry(hash, Rebuilt(hash, n, orders[..k]), orders[k].ref, k)
  {
    assert orders[..k + 1][..k] == orders[..k];
  }

  /** The cell of `slot` becomes a tombstone and the cell of `last` names `slot`. */
  function Renamed(cells: seq<nat>, slot: nat, last: nat): (r: seq<nat>)
    ensures |r| == |cells|
  {
    seq(|cells|, p requires 0 <= p < |cells| =>
      if cells[p] == slot + BIAS then TOMBSTONE else if cells[p] == last + BIAS then slot + BIAS else cells[p])
  }

  /** The order at `slot` leaves; too many tombstones have the index rebuilt. */
  ghost function Reclaimed(hash: Ref -> nat, capacity: nat, t: Table, slot: nat): Table
    requires slot < |t.orders|
  {
    var cells := Renamed(t.cells, slot, |t.orders| - 1);
    var orders := WithoutSlot(t.orders, slot);
    Table(if Tombstones(cells) > capacity then Rebuilt(hash, |cells|, orders) else cells, orders)
  }

  function Written(t: Table, slot: nat, o: Order): Table
    requires slot < |t.orders|
  {
    t.(orders := t.orders[slot := o])
  }

  ghost function Moved(hash: Ref -> nat, capacity: nat, t: Table, ref: Ref, next: OrderState): Table {
    var k := SlotFor(t.orders, ref);
    if k == |t.orders| || !Legal(t.orders[k].state, next) then t
    else
      var t' := Written(t, k, t.orders[k].(state := next));
      if IsTerminal(next) then Reclaimed(hash, capacity, t', k) else t'
  }

  predicate Fits(orders: seq<Order>, ref: Ref, volume: int) {
    var k := SlotFor(orders, ref);
    k < |orders| && 0 < volume <= orders[k].Remaining()
  }

  ghost function Step(hash: Ref -> nat, capacity: nat, t: Table, op: S.Op): Table {
    match op
    case OpCreate(ref, symbol, volume) =>
      if SlotFor(t.orders, ref) < |t.orders| || |t.orders| >= capacity then t
      else Inserted(hash, t, Order(ref, symbol, volume, 0, 0, PendingSend, 0))
    case OpRestore(o) =>
      if SlotFor(t.orders, o.ref) < |t.orders| || |t.orders| >= capacity
         || o.requested <= 0 || o.filled < 0 || o.filled > o.requested then t
      else Inserted(hash, t, o)
    case OpTransition(ref, next) => Moved(hash, capacity, t, ref, next)
    case OpFill(ref, volume) =>
      if !Fits(t.orders, ref, volume) then t
      else
        var k := SlotFor(t.orders, ref);
        var o := t.orders[k];
        Moved(hash, capacity, Written(t, k, o.(filled := o.filled + volume)), ref, S.FillTarget(o, volume))
    case OpRecoverFill(ref, volume) =>
      if !Fits(t.orders, ref, volume) then t
      else
        var k := SlotFor(t.orders, ref);
        Written(t, k, t.orders[k].(filled := t.orders[k].filled + volume))
    case OpMarkUnknown(ref) =>
      var k := SlotFor(t.orders, ref);
      if k == |t.orders| || IsTerminal(t.orders[k].state) then t else Written(t, k, t.orders[k].(state := Unknown))
    case OpReplace(ref, price, volume) =>
      var k := SlotFor(t.orders, ref);
      if k == |t.orders| || IsTerminal(t.orders[k].state) || t.orders[k].state.Unknown? || volume <= t.orders[k].filled
      then t
      else Written(t, k, t.orders[k].(limitPrice := price, requested := volume))
  }

  ghost function Run(hash: Ref -> nat, capacity: nat, ops: seq<S.Op>): Table {
    if ops == [] then Start(capacity)
    else Step(hash, capacity, Run(hash, capacity, ops[..|ops| - 1]), ops[|ops| - 1])
  }

  ghost predicate NoneTwice(cells: seq<nat>) {
    forall p, q | 0 <= p < |cells| && 0 <= q < |cells| && cells[p] == cells[q] :: cells[p] < BIAS || p == q
  }

  lemma SlotsNamedOnce(hash: Ref -> nat, cells: seq<nat>, orders: seq<Order>, places: Places)
    requires Indexed(hash, cells, orders, places)
    ensures NoneTwice(cells)
  {
    hide CellOf, CellsName, PathsFull;
    forall p, q | 0 <= p < |cells| && 0 <= q < |cells| && cells[p] == cells[q] && cells[p] >= BIAS ensures p == q {
      assert CellOf(hash, places, orders[cells[p] - BIAS].ref, |cells|) == p;
      assert CellOf(hash, places, orders[cells[q] - BIAS].ref, |cells|) == q;
    }
  }

  lemma RenamedByWrites(cells: seq<nat>, slot: nat, last: nat, pos: nat, moved: nat)
    requires NoneTwice(cells) && pos < |cells| && cells[pos] == slot + BIAS
    ensures slot == last ==> Renamed(cells, slot, last) == cells[pos := TOMBSTONE]
    ensures slot != last && moved < |cells| && cells[moved] == last + BIAS ==>
      Renamed(cells, slot, last) == cells[pos := TOMBSTONE][moved := slot + BIAS]
  {
  }

  /** Under the index invariant a slot is named by one cell, so writing the two cells the probes find does it. */
  lemma RenamedByProbes(hash: Ref -> nat, cells: seq<nat>, orders: seq<Order>, places: Places, live: map<Ref, Order>,
                        slot: nat, pos: nat, moved: nat)
    requires Holds(hash, cells, orders, places, live) && slot < |orders|
    requires pos < |cells| && cells[pos] == slot + BIAS
    ensures slot == |orders| - 1 ==> Renamed(cells, slot, |orders| - 1) == cells[pos := TOMBSTONE]
    ensures slot != |orders| - 1 && moved < |cells| && cells[moved] == |orders| - 1 + BIAS ==>
      Renamed(cells, slot, |orders| - 1) == cells[pos := TOMBSTONE][moved := slot + BIAS]
  {
    hide Indexed, NoneTwice, Renamed;
    SlotsNamedOnce(hash, cells, orders, places);
    RenamedByWrites(cells, slot, |orders| - 1, pos, moved);
  }

  // ---- counting cells ----

  /** Every slot in use is named by one cell, and no other slot by any. */
  ghost predicate NamedOnce(cells: seq<nat>, slots: nat) {
    forall v: nat | v >= BIAS :: Count(cells, v) == if v - BIAS < slots then 1 else 0
  }

  ghost predicate Counted(cells: seq<nat>, slots: nat) {
    Count(cells, EMPTY) + Count(cells, TOMBSTONE) + slots == |cells| && NamedOnce(cells, slots)
  }

  ghost predicate Balanced(t: Table, capacity: nat) {
    && |t.cells| == IndexSize(capacity)
    && |t.orders| <= capacity && Count(t.cells, TOMBSTONE) <= capacity
    && Counted(t.cells, |t.orders|)
  }

  lemma {:induction false} CountBlank(n: nat, v: nat)
    ensures Count(Blank(n), v) == if v == EMPTY then n else 0
  {
    if n > 0 {
      CountBlank(n - 1, v);
      assert Blank(n)[..n - 1] == Blank(n - 1);
    }
  }

  /** With fewer slots in use than cells there is a free cell on every path. */
  lemma FreeCell(hash: Ref -> nat, cells: seq<nat>, ref: Ref, slots: nat)
    requires Counted(cells, slots) && slots < |cells|
    ensures var p := FreeFrom(cells, Home(hash, ref, |cells|), 0); p < |cells| && cells[p] < BIAS
  {
    CountIn(cells, EMPTY);
    CountIn(cells, TOMBSTONE);
    var free :| 0 <= free < |cells| && cells[free] < BIAS;
    var home := Home(hash, ref, |cells|);
    FreeFound(cells, home, 0, StepTo(home, free, |cells|));
  }

  lemma TakenCounts(cells: seq<nat>, p: nat, slot: nat)
    requires Counted(cells, slot) && p < |cells| && cells[p] < BIAS
    ensures Counted(cells[p := slot + BIAS], slot + 1)
    ensures Count(cells[p := slot + BIAS], TOMBSTONE) <= Count(cells, TOMBSTONE)
  {
    hide Count;
    CountUpdate(cells, p, slot + BIAS, EMPTY);
    CountUpdate(cells, p, slot + BIAS, TOMBSTONE);
    var cells' := cells[p := slot + BIAS];
    forall v: nat | v >= BIAS ensures Count(cells', v) == if v - BIAS < slot + 1 then 1 else 0 {
      CountUpdate(cells, p, slot + BIAS, v);
    }
  }

  /** An entry takes one of them. */
  lemma EntryCounts(hash: Ref -> nat, cells: seq<nat>, ref: Ref, slot: nat)
    requires Counted(cells, slot) && slot < |cells|
    ensures Counted(Entry(hash, cells, ref, slot), slot + 1)
    ensures Count(Entry(hash, cells, ref, slot), TOMBSTONE) <= Count(cells, TOMBSTONE)
  {
    hide Counted, Count, FreeFrom;
    FreeCell(hash, cells, ref, slot);
    TakenCounts(cells, FreeFrom(cells, Home(hash, ref, |cells|), 0), slot);
  }

  lemma BlankCounts(n: nat)
    ensures Counted(Blank(n), 0) && Count(Blank(n), TOMBSTONE) == 0
  {
    CountBlank(n, EMPTY);
    CountBlank(n, TOMBSTONE);
    forall v: nat | v >= BIAS ensures Count(Blank(n), v) == 0 { CountBlank(n, v); }
  }

  lemma {:induction false} RebuiltCounts(hash: Ref -> nat, n: nat, orders: seq<Order>)
    requires |orders| <= n
    ensures Counted(Rebuilt(hash, n, orders), |orders|) && Count(Rebuilt(hash, n, orders), TOMBSTONE) == 0
  {
    hide Counted, Count;
    if orders == [] {
      BlankCounts(n);
    } else {
      var last := |orders| - 1;
      RebuiltCounts(hash, n, orders[..last]);
      EntryCounts(hash, Rebuilt(hash, n, orders[..last]), orders[last].ref, last);
    }
  }

  lemma {:induction false} CountRenamed(cells: seq<nat>, slot: nat, last: nat, v: nat)
    requires slot <= last
    ensures Count(Renamed(cells, slot, last), v)
         == if v == TOMBSTONE then Count(cells, TOMBSTONE) + Count(cells, slot + BIAS)
            else if v == slot + BIAS then (if slot == last then 0 else Count(cells, last + BIAS))
            else if v == last + BIAS then 0
            else Count(cells, v)
  {
    if cells != [] {
      var front := cells[..|cells| - 1];
      CountRenamed(front, slot, last, v);
      assert Renamed(cells, slot, last)[..|cells| - 1] == Renamed(front, slot, last);
    }
  }

  lemma RenamedCounts(cells: seq<nat>, slot: nat, last: nat)
    requires Counted(cells, last + 1) && slot <= last
    ensures Counted(Renamed(cells, slot, last), last)
    ensures Count(Renamed(cells, slot, last), TOMBSTONE) == Count(cells, TOMBSTONE) + 1
  {
    hide Count, Renamed;
    CountRenamed(cells, slot, last, EMPTY);
    CountRenamed(cells, slot, last, TOMBSTONE);
    forall v: nat | v >= BIAS ensures Count(Renamed(cells, slot, last), v) == if v - BIAS < last then 1 else 0 {
      CountRenamed(cells, slot, last, v);
    }
  }

  lemma ReclaimedKeepsBalance(hash: Ref -> nat, capacity: nat, t: Table, slot: nat)
    requires Balanced(t, capacity) && slot < |t.orders|
    ensures Balanced(Reclaimed(hash, capacity, t, slot), capacity)
  {
    hide Counted, Rebuilt, Renamed, Count, IndexSize, Tombstones;
    var cells := Renamed(t.cells, slot, |t.orders| - 1);
    RenamedCounts(t.cells, slot, |t.orders| - 1);
    RebuiltCounts(hash, |cells|, WithoutSlot(t.orders, slot));
    TombstonesAreCounted(cells);
  }

  lemma TombstonesAreCounted(cells: seq<nat>)
    ensures Tombstones(cells) == Count(cells, TOMBSTONE)
  {
  }

  lemma MovedKeepsBalance(hash: Ref -> nat, capacity: nat, t: Table, ref: Ref, next: OrderState)
    requires Balanced(t, capacity)
    ensures Balanced(Moved(hash, capacity, t, ref, next), capacity)
  {
    hide Counted, Reclaimed;
    var k := SlotFor(t.orders, ref);
    if k < |t.orders| { ReclaimedKeepsBalance(hash, capacity, Written(t, k, t.orders[k].(state := next)), k); }
  }

  lemma StepKeepsBalance(hash: Ref -> nat, capacity: nat, t: Table, op: S.Op)
    requires Balanced(t, capacity)
    ensures Balanced(Step(hash, capacity, t, op), capacity)
  {
    hide Counted, Entry, Moved;
    match op
    case OpCreate(ref, _, _) => if |t.orders| < capacity { EntryCounts(hash, t.cells, ref, |t.orders|); }
    case OpRestore(o) => if |t.orders| < capacity { EntryCounts(hash, t.cells, o.ref, |t.orders|); }
    case OpTransition(ref, next) => MovedKeepsBalance(hash, capacity, t, ref, next);
    case OpFill(ref, volume) =>
      if Fits(t.orders, ref, volume) {
        var k := SlotFor(t.orders, ref);
        var o := t.orders[k];
        MovedKeepsBalance(hash, capacity, Written(t, k, o.(filled := o.filled + volume)), ref, S.FillTarget(o, volume));
      }
    case _ =>
  }

  /** Over every run, for any hash: live orders and tombstones are what the empty cells leave, and neither exceeds the
      capacity. */
  lemma {:induction false} CellsAreAccounted(hash: Ref -> nat, capacity: nat, ops: seq<S.Op>)
    ensures Balanced(Run(hash, capacity, ops), capacity)
  {
    if ops == [] {
      BlankCounts(IndexSize(capacity));
    } else {
      CellsAreAccounted(hash, capacity, ops[..|ops| - 1]);
      StepKeepsBalance(hash, capacity, Run(hash, capacity, ops[..|ops| - 1]), ops[|ops| - 1]);
    }
  }

  // ---- filling the table ----

  /** `refs[p]` starts its probes at cell `p`, for every cell. */
  ghost predicate ReachEveryCell(hash: Ref -> nat, refs: seq<Ref>) {
    forall p | 0 <= p < |refs| :: Home(hash, refs[p], |refs|) == p
  }

  lemma HomesAreDistinct(hash: Ref -> nat, refs: seq<Ref>, i: nat, j: nat)
    requires ReachEveryCell(hash, refs) && i < |refs| && j < |refs|
    ensures refs[i] == refs[j] ==> i == j
  {
    assert Home(hash, refs[i], |refs|) == i && Home(hash, refs[j], |refs|) == j;
  }

  /** The table while it is being filled: `live` orders from `first` on, created in turn, and what the cells then are.
      Cells before `first` that are no longer live are tombstones. */
  ghost predicate Filling(t: Table, refs: seq<Ref>, first: nat, live: nat, dead: nat) {
    && first + live <= |refs| == |t.cells| && |t.orders| == live
    && (forall k | 0 <= k < live :: t.orders[k].ref == refs[first + k] && t.orders[k].state == PendingSend)
    && (forall p | 0 <= p < |refs| ::
          t.cells[p] == if first <= p < first + live then p - first + BIAS else if p < dead then TOMBSTONE else EMPTY)
  }

  /** One more creation takes the home cell of its reference. */
  lemma FillByOne(hash: Ref -> nat, capacity: nat, t: Table, refs: seq<Ref>, first: nat, live: nat, dead: nat)
    requires Filling(t, refs, first, live, dead) && ReachEveryCell(hash, refs)
    requires live < capacity && first + live < |refs| && dead <= first + live
    ensures Filling(Step(hash, capacity, t, S.OpCreate(refs[first + live], 0, 1)), refs, first, live + 1, dead)
  {
    var ref := refs[first + live];
    var k := SlotFor(t.orders, ref);
    HomesAreDistinct(hash, refs, first + k, first + live);
    assert Home(hash, ref, |refs|) == first + live;
    assert Cell(first + live, 0, |refs|) == first + live;
    assert FreeFrom(t.cells, first + live, 0) == first + live;
  }

  /** Sending the last order changes no cell. */
  lemma SentLast(hash: Ref -> nat, capacity: nat, t: Table, refs: seq<Ref>, live: nat, next: OrderState)
    requires |t.orders| == live + 1 <= |refs| && ReachEveryCell(hash, refs)
    requires (forall k | 0 <= k < live + 1 :: t.orders[k].ref == refs[k]) && Legal(t.orders[live].state, next)
    ensures var t' := Written(t, live, t.orders[live].(state := next));
            Step(hash, capacity, t, S.OpTransition(refs[live], next))
            == if IsTerminal(next) then Reclaimed(hash, capacity, t', live) else t'
  {
    HomesAreDistinct(hash, refs, SlotFor(t.orders, refs[live]), live);
    hide Reclaimed;
  }

  /** Reclaiming the last order leaves a tombstone in its cell, which is the cell of the same number. */
  lemma ReclaimedLast(hash: Ref -> nat, capacity: nat, t: Table, refs: seq<Ref>, live: nat, dead: nat, o: Order)
    requires Filling(t, refs, 0, live + 1, dead) && Balanced(t, capacity) && Count(t.cells, TOMBSTONE) < capacity
    ensures Reclaimed(hash, capacity, Written(t, live, o), live) == Table(t.cells[live := TOMBSTONE], t.orders[..live])
  {
    RenamedCounts(t.cells, live, live);
    hide Count, Counted, IndexSize;
    assert WithoutSlot(t.orders[live := o], live) == t.orders[..live];
    assert Renamed(t.cells, live, live) == t.cells[live := TOMBSTONE];
  }

  /** The last order is sent and rejected; its cell becomes a tombstone. */
  lemma FinishLast(hash: Ref -> nat, capacity: nat, t: Table, refs: seq<Ref>, live: nat, dead: nat)
    requires Filling(t, refs, 0, live + 1, dead) && ReachEveryCell(hash, refs) && Balanced(t, capacity)
    requires live < dead && Count(t.cells, TOMBSTONE) < capacity
    ensures var sent := Step(hash, capacity, t, S.OpTransition(refs[live], Sent));
            Filling(Step(hash, capacity, sent, S.OpTransition(refs[live], Rejected)), refs, 0, live, dead)
  {
    hide Balanced, Count, Step, Reclaimed, ReachEveryCell;
    SentLast(hash, capacity, t, refs, live, Sent);
    var o := t.orders[live];
    var sent := Written(t, live, o.(state := Sent));
    SentLast(hash, capacity, sent, refs, live, Rejected);
    var rejected := o.(state := Sent).(state := Rejected);
    assert Written(sent, live, rejected) == Written(t, live, rejected);
    ReclaimedLast(hash, capacity, t, refs, live, dead, rejected);
  }

  ghost predicate HasEmptyCell(t: Table) {
    exists p | 0 <= p < |t.cells| :: t.cells[p] == EMPTY
  }

  function RefOf(op: S.Op): Ref {
    if op.OpRestore? then op.order.ref else op.ref
  }

  /** The run concerns these orders only. */
  predicate AboutRefs(ops: seq<S.Op>, refs: seq<Ref>) {
    forall op <- ops :: RefOf(op) in refs
  }

  lemma CreateAll(hash: Ref -> nat, capacity: nat, refs: seq<Ref>, before: seq<S.Op>, first: nat, dead: nat)
    returns (ops: seq<S.Op>)
    requires Filling(Run(hash, capacity, before), refs, first, 0, dead) && ReachEveryCell(hash, refs)
    requires first + capacity <= |refs| && dead <= first && AboutRefs(before, refs)
    ensures Filling(Run(hash, capacity, ops), refs, first, capacity, dead) && AboutRefs(ops, refs)
  {
    hide Step, ReachEveryCell, Filling, Run;
    ops := before;
    var live := 0;
    while live < capacity
      invariant live <= capacity && Filling(Run(hash, capacity, ops), refs, first, live, dead) && AboutRefs(ops, refs)
    {
      var op := S.OpCreate(refs[first + live], 0, 1);
      FillByOne(hash, capacity, Run(hash, capacity, ops), refs, first, live, dead);
      RunMore(hash, capacity, ops, op);
      ops := ops + [op];
      live := live + 1;
    }
  }

  lemma FinishAll(hash: Ref -> nat, capacity: nat, refs: seq<Ref>, before: seq<S.Op>) returns (ops: seq<S.Op>)
    requires Filling(Run(hash, capacity, before), refs, 0, capacity, capacity) && ReachEveryCell(hash, refs)
    requires |refs| == 2 * capacity && AboutRefs(before, refs)
    ensures Filling(Run(hash, capacity, ops), refs, 0, 0, capacity) && AboutRefs(ops, refs)
  {
    hide Step, ReachEveryCell, Filling, Run, Balanced;
    ops := before;
    var live := capacity;
    while live > 0
      invariant 0 <= live <= capacity && Filling(Run(hash, capacity, ops), refs, 0, live, capacity) && AboutRefs(ops, refs)
    {
      live := live - 1;
      var t := Run(hash, capacity, ops);
      CellsAreAccounted(hash, capacity, ops);
      FewerTombstones(t, refs, live + 1, capacity);
      FinishLast(hash, capacity, t, refs, live, capacity);
      var first, second := S.OpTransition(refs[live], Sent), S.OpTransition(refs[live], Rejected);
      RunMore(hash, capacity, ops, first);
      RunMore(hash, capacity, ops + [first], second);
      ops := ops + [first] + [second];
    }
  }

  /** Dead cells and live ones are the same before anything is created, and when all of the first orders are. */
  lemma FillingStarts(hash: Ref -> nat, capacity: nat, refs: seq<Ref>)
    requires |refs| == IndexSize(capacity)
    ensures Filling(Run(hash, capacity, []), refs, 0, 0, 0)
  {
  }

  lemma FillingTurns(t: Table, refs: seq<Ref>, capacity: nat)
    requires |refs| == 2 * capacity
    ensures Filling(t, refs, 0, capacity, 0) ==> Filling(t, refs, 0, capacity, capacity)
    ensures Filling(t, refs, 0, 0, capacity) ==> Filling(t, refs, capacity, 0, capacity)
  {
  }

  /** Create as many orders as there is room for, finish them all, and create as many again: when every cell is some
      reference's home, that run leaves no cell empty. */
  lemma RunFillsTable(hash: Ref -> nat, capacity: nat, refs: seq<Ref>) returns (ops: seq<S.Op>)
    requires IsPowerOfTwo(capacity) && |refs| == IndexSize(capacity) && ReachEveryCell(hash, refs)
    ensures !HasEmptyCell(Run(hash, capacity, ops)) && AboutRefs(ops, refs)
  {
    hide IsPowerOfTwo, IndexSize, Step, ReachEveryCell, HasEmptyCell, Filling, Run;
    SizeOfPower(capacity);
    FillingStarts(hash, capacity, refs);
    ops := CreateAll(hash, capacity, refs, [], 0, 0);
    FillingTurns(Run(hash, capacity, ops), refs, capacity);
    ops := FinishAll(hash, capacity, refs, ops);
    FillingTurns(Run(hash, capacity, ops), refs, capacity);
    ops := CreateAll(hash, capacity, refs, ops, capacity, capacity);
    NoneEmpty(Run(hash, capacity, ops), refs, capacity);
  }

  lemma SizeOfPower(capacity: nat)
    requires IsPowerOfTwo(capacity)
    ensures IndexSize(capacity) == 2 * capacity
  {
    PowerOfDouble(capacity);
  }

  lemma RunMore(hash: Ref -> nat, capacity: nat, ops: seq<S.Op>, op: S.Op)
    ensures Run(hash, capacity, ops + [op]) == Step(hash, capacity, Run(hash, capacity, ops), op)
  {
    assert (ops + [op])[..|ops|] == ops;
  }

  lemma NoneEmpty(t: Table, refs: seq<Ref>, capacity: nat)
    requires |refs| == 2 * capacity && Filling(t, refs, capacity, capacity, capacity)
    ensures !HasEmptyCell(t)
  {
  }

  /** While the first orders are being finished there are as many tombstones as have been. */
  lemma FewerTombstones(t: Table, refs: seq<Ref>, live: nat, capacity: nat)
    requires Filling(t, refs, 0, live, capacity) && 0 < live <= capacity && |refs| == 2 * capacity
    requires Balanced(t, capacity)
    ensures Count(t.cells, TOMBSTONE) < capacity
  {
    EmptyTail(t.cells, capacity);
  }

  lemma {:induction false} EmptyTail(cells: seq<nat>, k: nat)
    requires k <= |cells| && forall p | k <= p < |cells| :: cells[p] == EMPTY
    ensures Count(cells, EMPTY) >= |cells| - k
    decreases |cells|
  {
    if k < |cells| { EmptyTail(cells[..|cells| - 1], k); }
  }

  /** Every run of every hash leaves an empty cell exactly when the capacity is not a power of two. */
  lemma EmptyCellIffNotPowerOfTwo(capacity: nat)
    ensures (forall hash, ops :: HasEmptyCell(Run(hash, capacity, ops))) <==> !IsPowerOfTwo(capacity)
  {
    hide Run, HasEmptyCell, IsPowerOfTwo;
    if IsPowerOfTwo(capacity) {
      var hash, ops := SomeRunFillsTable(capacity);
      assert !HasEmptyCell(Run(hash, capacity, ops));
    } else {
      forall hash, ops ensures HasEmptyCell(Run(hash, capacity, ops)) { EmptyCellLeft(hash, capacity, ops); }
    }
  }

  lemma SomeRunFillsTable(capacity: nat) returns (hash: Ref -> nat, ops: seq<S.Op>)
    requires IsPowerOfTwo(capacity)
    ensures !HasEmptyCell(Run(hash, capacity, ops))
  {
    hide Run, HasEmptyCell, IsPowerOfTwo, IndexSize;
    hash := (ref: Ref) => ref.logicalId;
    var refs := ByNumber(IndexSize(capacity), hash);
    ops := RunFillsTable(hash, capacity, refs);
  }

  lemma ByNumber(n: nat, hash: Ref -> nat) returns (refs: seq<Ref>)
    requires forall ref :: hash(ref) == ref.logicalId
    ensures |refs| == n && ReachEveryCell(hash, refs)
  {
    refs := seq(n, p requires 0 <= p < n => Ref(0, p));
  }

  lemma EmptyCellLeft(hash: Ref -> nat, capacity: nat, ops: seq<S.Op>)
    requires !IsPowerOfTwo(capacity)
    ensures HasEmptyCell(Run(hash, capacity, ops))
  {
    var t := Run(hash, capacity, ops);
    CellsAreAccounted(hash, capacity, ops);
    if capacity > 0 { PowerOfDouble(capacity); }
    CountIn(t.cells, EMPTY);
  }
}
