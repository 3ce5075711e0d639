/** The open-addressed index of the order store, as pure facts about its cells.

    `cells[p]` is 0 for an empty cell, 1 for a tombstone and `slot + 2` for a cell that names the
    order at `orders[slot]`. Nothing here assumes that an empty cell is left: live cells and
    tombstones together can fill the table, and every search is a single bounded pass. */
module IndexTable {
  import opened ExecTypes

  const EMPTY: nat := 0
  const TOMBSTONE: nat := 1
  const BIAS: nat := 2

  /** The cell a probe visits at `step`, wrapping once around a table of `n` cells; masking with a
      power of two minus one is the same wrap. */
  function Cell(home: nat, step: nat, n: nat): (p: nat)
    requires home < n && step < n
    ensures p < n
  {
    if home + step < n then home + step else home + step - n
  }

  /** One pass reaches every cell, at exactly one step. */
  function StepTo(home: nat, p: nat, n: nat): (step: nat)
    requires home < n && p < n
    ensures step < n && Cell(home, step, n) == p
    ensures forall k | 0 <= k < n :: Cell(home, k, n) == p ==> k == step
  {
    if p >= home then p - home else p + n - home
  }

  predicate InRange(cells: seq<nat>, orders: seq<Order>) {
    forall p | 0 <= p < |cells| :: cells[p] >= BIAS ==> cells[p] - BIAS < |orders|
  }

  predicate Names(cells: seq<nat>, orders: seq<Order>, p: nat, ref: Ref)
    requires p < |cells| && InRange(cells, orders)
  {
    cells[p] >= BIAS && orders[cells[p] - BIAS].ref == ref
  }

  /** Cell found by a probe for `ref` from `step` on, or the table size when there is none. */
  function ProbeFrom(cells: seq<nat>, orders: seq<Order>, ref: Ref, home: nat, step: nat): nat
    requires home < |cells| && step <= |cells| && InRange(cells, orders)
    decreases |cells| - step
  {
    if step == |cells| then |cells|
    else
      var p := Cell(home, step, |cells|);
      if cells[p] == EMPTY then |cells|
      else if Names(cells, orders, p, ref) then p
      else ProbeFrom(cells, orders, ref, home, step + 1)
  }

  /** First cell on the probe path that can take a new entry, or the table size. */
  function FreeFrom(cells: seq<nat>, home: nat, step: nat): nat
    requires home < |cells| && step <= |cells|
    decreases |cells| - step
  {
    if step == |cells| then |cells|
    else
      var p := Cell(home, step, |cells|);
      if cells[p] < BIAS then p else FreeFrom(cells, home, step + 1)
  }

  lemma {:induction false} ProbeHits(cells: seq<nat>, orders: seq<Order>, ref: Ref, home: nat, at: nat, step: nat)
    requires home < |cells| && step <= at < |cells| && InRange(cells, orders)
    requires Names(cells, orders, Cell(home, at, |cells|), ref)
    requires forall k | step <= k < at ::
      var p := Cell(home, k, |cells|); cells[p] != EMPTY && !Names(cells, orders, p, ref)
    ensures ProbeFrom(cells, orders, ref, home, step) == Cell(home, at, |cells|)
    decreases at - step
  {
    if step < at {
      var p := Cell(home, step, |cells|);
      assert cells[p] != EMPTY && !Names(cells, orders, p, ref);
      ProbeHits(cells, orders, ref, home, at, step + 1);
    }
  }

  lemma {:induction false} ProbeMisses(cells: seq<nat>, orders: seq<Order>, ref: Ref, home: nat, step: nat)
    requires home < |cells| && step <= |cells| && InRange(cells, orders)
    requires forall p | 0 <= p < |cells| :: !Names(cells, orders, p, ref)
    ensures ProbeFrom(cells, orders, ref, home, step) == |cells|
    decreases |cells| - step
  {
    if step < |cells| {
      ProbeMisses(cells, orders, ref, home, step + 1);
    }
  }

  /** A free cell exists: the search finds one, and every cell it passed was occupied. */
  lemma {:induction false} FreeFound(cells: seq<nat>, home: nat, step: nat, free: nat)
    requires home < |cells| && step <= free < |cells|
    requires cells[Cell(home, free, |cells|)] < BIAS
    ensures var p := FreeFrom(cells, home, step);
            && p < |cells| && cells[p] < BIAS && step <= StepTo(home, p, |cells|)
            && forall k | step <= k < StepTo(home, p, |cells|) :: cells[Cell(home, k, |cells|)] >= BIAS
    decreases free - step
  {
    var p := Cell(home, step, |cells|);
    assert StepTo(home, p, |cells|) == step;
    if cells[p] >= BIAS {
      FreeFound(cells, home, step + 1, free);
    }
  }

  // ---- counting ----

  /** How many cells hold `v`. */
  ghost function Count(cells: seq<nat>, v: nat): nat {
    if cells == [] then 0
    else Count(cells[..|cells| - 1], v) + (if cells[|cells| - 1] == v then 1 else 0)
  }

  ghost function Tombstones(cells: seq<nat>): nat {
    Count(cells, TOMBSTONE)
  }

  lemma {:induction false} CountUpdate(cells: seq<nat>, p: nat, x: nat, v: nat)
    requires p < |cells|
    ensures Count(cells[p := x], v) == Count(cells, v) + (if x == v then 1 else 0) - (if cells[p] == v then 1 else 0)
  {
    var last := |cells| - 1;
    if p == last {
      assert cells[p := x][..last] == cells[..last];
    } else {
      assert cells[p := x][..last] == cells[..last][p := x];
      CountUpdate(cells[..last], p, x, v);
    }
  }

  lemma TombstonesUpdate(cells: seq<nat>, p: nat, v: nat)
    requires p < |cells|
    ensures Tombstones(cells[p := v])
         == Tombstones(cells) + (if v == TOMBSTONE then 1 else 0) - (if cells[p] == TOMBSTONE then 1 else 0)
  {
    CountUpdate(cells, p, v, TOMBSTONE);
  }

  lemma {:induction false} CountIn(cells: seq<nat>, v: nat)
    ensures Count(cells, v) > 0 <==> v in cells
  {
    if cells != [] {
      CountIn(cells[..|cells| - 1], v);
      assert cells == cells[..|cells| - 1] + [cells[|cells| - 1]];
    }
  }

  lemma NoTombstones(cells: seq<nat>)
    requires forall p | 0 <= p < |cells| :: cells[p] != TOMBSTONE
    ensures Tombstones(cells) == 0
  {
    CountIn(cells, TOMBSTONE);
  }

  lemma {:induction false} Pigeonhole(values: seq<nat>, bound: nat)
    requires forall i | 0 <= i < |values| :: values[i] < bound
    requires forall i, j | 0 <= i < j < |values| :: values[i] != values[j]
    ensures |values| <= bound
    decreases bound
  {
    if values != [] {
      assert values[0] < bound;
      var rest := values[..|values| - 1];
      var dropped := values[|values| - 1];
      // the value bound - 1, if it is used, is renamed to the one dropped
      var renamed := seq(|rest|, i requires 0 <= i < |rest| => if rest[i] == bound - 1 then dropped else rest[i]);
      Pigeonhole(renamed, bound - 1);
    }
  }

  // ---- the index invariant ----

  /** Where each live order sits: its slot in the dense array and its step on its probe path. */
  datatype Places = Places(slot: map<Ref, nat>, step: map<Ref, nat>)

  function Home(hash: Ref -> nat, ref: Ref, n: nat): (h: nat)
    requires n > 0
    ensures h < n
  {
    hash(ref) % n
  }

  /** `[0, |orders|)` holds each live order once. */
  ghost predicate Dense(orders: seq<Order>, slot: map<Ref, nat>) {
    && (forall i | 0 <= i < |orders| :: orders[i].ref in slot && slot[orders[i].ref] == i)
    && (forall r <- slot :: slot[r] < |orders| && orders[slot[r]].ref == r)
  }

  /** The cell that names `r`. */
  ghost function CellOf(hash: Ref -> nat, places: Places, r: Ref, n: nat): (p: nat)
    requires n > 0 && r in places.step && places.step[r] < n
    ensures p < n
  {
    Cell(Home(hash, r, n), places.step[r], n)
  }

  /** The places fit the table and agree on the live references. */
  ghost predicate Placed(cells: seq<nat>, orders: seq<Order>, places: Places) {
    && |cells| > 0 && InRange(cells, orders)
    && places.step.Keys == places.slot.Keys
    && (forall r <- places.step :: places.step[r] < |cells|)
    && (forall r <- places.slot :: places.slot[r] < |orders|)
  }

  /** Every live order's cell names its slot ... */
  ghost predicate CellsName(hash: Ref -> nat, cells: seq<nat>, orders: seq<Order>, places: Places)
    requires Placed(cells, orders, places)
  {
    forall r <- places.step :: cells[CellOf(hash, places, r, |cells|)] == places.slot[r] + BIAS
  }

  /** ... every occupied cell is some live order's cell ... */
  ghost predicate CellsOwned(hash: Ref -> nat, cells: seq<nat>, orders: seq<Order>, places: Places)
    requires Placed(cells, orders, places)
  {
    forall p | 0 <= p < |cells| && cells[p] >= BIAS ::
      var r := orders[cells[p] - BIAS].ref;
      r in places.step && CellOf(hash, places, r, |cells|) == p
  }

  /** ... and no probe path to a live order crosses an empty cell. */
  ghost predicate PathsFull(hash: Ref -> nat, cells: seq<nat>, orders: seq<Order>, places: Places)
    requires Placed(cells, orders, places)
  {
    forall r <- places.step, k | 0 <= k < places.step[r] ::
      cells[Cell(Home(hash, r, |cells|), k, |cells|)] != EMPTY
  }

  ghost predicate Indexed(hash: Ref -> nat, cells: seq<nat>, orders: seq<Order>, places: Places) {
    && Placed(cells, orders, places)
    && CellsName(hash, cells, orders, places)
    && CellsOwned(hash, cells, orders, places)
    && PathsFull(hash, cells, orders, places)
  }

  ghost predicate Consistent(hash: Ref -> nat, cells: seq<nat>, orders: seq<Order>, places: Places) {
    Indexed(hash, cells, orders, places) && Dense(orders, places.slot)
  }

  /** A probe succeeds exactly for the live references, whatever the hash function. */
  lemma ProbeFindsLive(hash: Ref -> nat, cells: seq<nat>, orders: seq<Order>, places: Places, ref: Ref)
    requires Consistent(hash, cells, orders, places)
    ensures InRange(cells, orders)
    ensures var n := |cells|;
            var found := ProbeFrom(cells, orders, ref, Home(hash, ref, n), 0);
            && (found == n <==> ref !in places.slot)
            && (found != n ==> found < n && cells[found] == places.slot[ref] + BIAS
                               && found == CellOf(hash, places, ref, n))
  {
    var n := |cells|;
    var home := Home(hash, ref, n);
    if ref in places.slot {
      var at := places.step[ref];
      forall k | 0 <= k < at ensures !Names(cells, orders, Cell(home, k, n), ref) {
        assert StepTo(home, Cell(home, at, n), n) == at;
      }
      ProbeHits(cells, orders, ref, home, at, 0);
    } else {
      ProbeMisses(cells, orders, ref, home, 0);
    }
  }

  /** Occupied cells name distinct slots, so a table with no free cell has no more cells than live orders. */
  lemma OccupiedBound(hash: Ref -> nat, cells: seq<nat>, orders: seq<Order>, places: Places)
    requires Consistent(hash, cells, orders, places)
    requires forall p | 0 <= p < |cells| :: cells[p] >= BIAS
    ensures |cells| <= |orders|
  {
    hide CellsName, PathsFull, Dense;
    var slots := seq(|cells|, p requires 0 <= p < |cells| => cells[p] - BIAS);
    forall p, q | 0 <= p < q < |cells| ensures slots[p] != slots[q] {
      assert CellOf(hash, places, orders[cells[p] - BIAS].ref, |cells|) == p;
      assert CellOf(hash, places, orders[cells[q] - BIAS].ref, |cells|) == q;
    }
    Pigeonhole(slots, |orders|);
  }

  /** Fewer live orders than cells leaves a cell for the next one, empty or not. */
  lemma RoomForInsert(hash: Ref -> nat, cells: seq<nat>, orders: seq<Order>, places: Places, ref: Ref)
    requires Consistent(hash, cells, orders, places) && |orders| < |cells|
    ensures var p := FreeFrom(cells, Home(hash, ref, |cells|), 0);
            p < |cells| && cells[p] < BIAS && PathTo(hash, cells, ref, p)
  {
    hide Consistent;
    var home := Home(hash, ref, |cells|);
    if forall p | 0 <= p < |cells| :: cells[p] >= BIAS {
      OccupiedBound(hash, cells, orders, places);
    }
    var p :| 0 <= p < |cells| && cells[p] < BIAS;
    FreeFound(cells, home, 0, StepTo(home, p, |cells|));
  }

  ghost function PlaceNew(hash: Ref -> nat, places: Places, ref: Ref, slot: nat, p: nat, n: nat): Places
    requires p < n
  {
    Places(places.slot[ref := slot], places.step[ref := StepTo(Home(hash, ref, n), p, n)])
  }

  lemma InsertKeeps(hash: Ref -> nat, cells: seq<nat>, orders: seq<Order>, places: Places, o: Order, p: nat)
    requires Consistent(hash, cells, orders, places) && o.ref !in places.slot
    requires p < |cells| && cells[p] < BIAS
    requires PathTo(hash, cells, o.ref, p)
    ensures Consistent(hash, cells[p := |orders| + BIAS], orders + [o],
                       PlaceNew(hash, places, o.ref, |orders|, p, |cells|))
  {
    DenseWith(orders, places.slot, o);
    OwnersAfterInsert(hash, cells, orders, places, o, p);
    NamesAfterInsert(hash, cells, orders, places, o, p);
    PathsAfterInsert(hash, cells, orders, places, o, p);
  }

  /** Every cell a probe for `ref` passes before `p` is occupied. */
  ghost predicate PathTo(hash: Ref -> nat, cells: seq<nat>, ref: Ref, p: nat)
    requires p < |cells|
  {
    var home := Home(hash, ref, |cells|);
    forall k | 0 <= k < StepTo(home, p, |cells|) :: cells[Cell(home, k, |cells|)] >= BIAS
  }

  lemma OwnersAfterInsert(hash: Ref -> nat, cells: seq<nat>, orders: seq<Order>, places: Places, o: Order, p: nat)
    requires Consistent(hash, cells, orders, places) && o.ref !in places.slot && p < |cells|
    ensures var cells' := cells[p := |orders| + BIAS];
            var places' := PlaceNew(hash, places, o.ref, |orders|, p, |cells|);
            Placed(cells', orders + [o], places') && CellsOwned(hash, cells', orders + [o], places')
  {
    hide CellsName, PathsFull, Dense;
    var n := |cells|;
    var cells' := cells[p := |orders| + BIAS];
    var orders' := orders + [o];
    var places' := PlaceNew(hash, places, o.ref, |orders|, p, n);
    forall q | 0 <= q < n && cells'[q] >= BIAS
      ensures cells'[q] - BIAS < |orders'|
      ensures var r := orders'[cells'[q] - BIAS].ref; r in places'.step && CellOf(hash, places', r, n) == q
    {
      OwnerAfterInsert(hash, cells, orders, places, o, p, q);
    }
  }

  lemma NamesAfterInsert(hash: Ref -> nat, cells: seq<nat>, orders: seq<Order>, places: Places, o: Order, p: nat)
    requires Consistent(hash, cells, orders, places) && o.ref !in places.slot && p < |cells| && cells[p] < BIAS
    ensures var cells' := cells[p := |orders| + BIAS];
            var places' := PlaceNew(hash, places, o.ref, |orders|, p, |cells|);
            Placed(cells', orders + [o], places') && CellsName(hash, cells', orders + [o], places')
  {
    OwnersAfterInsert(hash, cells, orders, places, o, p);
    var cells' := cells[p := |orders| + BIAS];
    var places' := PlaceNew(hash, places, o.ref, |orders|, p, |cells|);
    forall r <- places'.step ensures cells'[CellOf(hash, places', r, |cells|)] == places'.slot[r] + BIAS {
      if r != o.ref {
        assert r in places.step && cells[CellOf(hash, places, r, |cells|)] == places.slot[r] + BIAS;
      }
    }
  }

  lemma PathsAfterInsert(hash: Ref -> nat, cells: seq<nat>, orders: seq<Order>, places: Places, o: Order, p: nat)
    requires Consistent(hash, cells, orders, places) && o.ref !in places.slot && p < |cells|
    requires PathTo(hash, cells, o.ref, p)
    ensures var cells' := cells[p := |orders| + BIAS];
            var places' := PlaceNew(hash, places, o.ref, |orders|, p, |cells|);
            Placed(cells', orders + [o], places') && PathsFull(hash, cells', orders + [o], places')
  {
    OwnersAfterInsert(hash, cells, orders, places, o, p);
    var n := |cells|;
    var cells' := cells[p := |orders| + BIAS];
    var places' := PlaceNew(hash, places, o.ref, |orders|, p, n);
    forall r <- places'.step, k | 0 <= k < places'.step[r] ensures cells'[Cell(Home(hash, r, n), k, n)] != EMPTY {
      var q := Cell(Home(hash, r, n), k, n);
      assert cells[q] != EMPTY by {
        if r == o.ref { assert cells[q] >= BIAS; }
      }
    }
  }

  lemma DenseWith(orders: seq<Order>, slot: map<Ref, nat>, o: Order)
    requires Dense(orders, slot) && o.ref !in slot
    ensures Dense(orders + [o], slot[o.ref := |orders|])
  {
  }

  lemma OwnerAfterInsert(hash: Ref -> nat, cells: seq<nat>, orders: seq<Order>, places: Places, o: Order, p: nat, q: nat)
    requires Consistent(hash, cells, orders, places) && o.ref !in places.slot
    requires p < |cells| && q < |cells| && cells[p := |orders| + BIAS][q] >= BIAS
    ensures var v := cells[p := |orders| + BIAS][q] - BIAS;
            var places' := PlaceNew(hash, places, o.ref, |orders|, p, |cells|);
            && v < |orders| + 1
            && var r := (orders + [o])[v].ref;
               r in places'.step && places'.step[r] < |cells| && CellOf(hash, places', r, |cells|) == q
  {
    if q != p {
      var r := orders[cells[q] - BIAS].ref;
      assert r in places.step && CellOf(hash, places, r, |cells|) == q;
    }
  }

  /** The order at `slot` leaves: its cell becomes a tombstone, and the last order moves into the hole. */
  ghost function PlaceWithout(places: Places, gone: Ref, moved: Ref, slot: nat): Places {
    var kept := places.slot - {gone};
    Places(if moved in kept then kept[moved := slot] else kept, places.step - {gone})
  }

  function WithoutSlot(orders: seq<Order>, slot: nat): seq<Order>
    requires slot < |orders|
  {
    orders[slot := orders[|orders| - 1]][..|orders| - 1]
  }

  /** The cells after the order at `slot` is reclaimed. */
  ghost function CellsWithout(hash: Ref -> nat, cells: seq<nat>, orders: seq<Order>, places: Places, slot: nat): seq<nat>
    requires Consistent(hash, cells, orders, places) && slot < |orders|
  {
    var n := |cells|;
    var gone := cells[CellOf(hash, places, orders[slot].ref, n) := TOMBSTONE];
    if slot == |orders| - 1 then gone
    else gone[CellOf(hash, places, orders[|orders| - 1].ref, n) := slot + BIAS]
  }

  /** Cell by cell: the reclaimed order's cell is a tombstone, the moved order's cell names the hole. */
  lemma CellsAfterReclaim(hash: Ref -> nat, cells: seq<nat>, orders: seq<Order>, places: Places, slot: nat, q: nat)
    requires Consistent(hash, cells, orders, places) && slot < |orders| && q < |cells|
    ensures var n := |cells|;
            var end := |orders| - 1;
            var dead := CellOf(hash, places, orders[slot].ref, n);
            var cells' := CellsWithout(hash, cells, orders, places, slot);
            && |cells'| == n
            && (q == dead ==> cells'[q] == TOMBSTONE)
            && (q != dead && q == CellOf(hash, places, orders[end].ref, n) ==> cells'[q] == slot + BIAS && slot < end)
            && (q != dead && q != CellOf(hash, places, orders[end].ref, n) ==>
                  cells'[q] == cells[q] && (cells[q] >= BIAS ==> cells[q] - BIAS < end && cells[q] - BIAS != slot))
  {
    var n := |cells|;
    var end := |orders| - 1;
    assert cells[CellOf(hash, places, orders[slot].ref, n)] == slot + BIAS;
    assert cells[CellOf(hash, places, orders[end].ref, n)] == end + BIAS;
    if cells[q] >= BIAS {
      assert CellOf(hash, places, orders[cells[q] - BIAS].ref, n) == q;
    }
  }

  lemma ReclaimKeeps(hash: Ref -> nat, cells: seq<nat>, orders: seq<Order>, places: Places, slot: nat)
    requires Consistent(hash, cells, orders, places) && slot < |orders|
    ensures Consistent(hash, CellsWithout(hash, cells, orders, places, slot), WithoutSlot(orders, slot),
                       PlaceWithout(places, orders[slot].ref, orders[|orders| - 1].ref, slot))
  {
    DenseWithout(orders, places, slot);
    OwnedAfterReclaim(hash, cells, orders, places, slot);
    NamesAfterReclaim(hash, cells, orders, places, slot);
    PathsAfterReclaim(hash, cells, orders, places, slot);
    hide CellsOwned, CellsName, PathsFull, Dense;
  }

  lemma PlacedAfterReclaim(hash: Ref -> nat, cells: seq<nat>, orders: seq<Order>, places: Places, slot: nat)
    requires Consistent(hash, cells, orders, places) && slot < |orders|
    ensures Placed(CellsWithout(hash, cells, orders, places, slot), WithoutSlot(orders, slot),
                   PlaceWithout(places, orders[slot].ref, orders[|orders| - 1].ref, slot))
    ensures |CellsWithout(hash, cells, orders, places, slot)| == |cells|
  {
    var cells' := CellsWithout(hash, cells, orders, places, slot);
    var orders' := WithoutSlot(orders, slot);
    DenseWithout(orders, places, slot);
    CellsAfterReclaim(hash, cells, orders, places, slot, 0);
    forall q | 0 <= q < |cells| && cells'[q] >= BIAS ensures cells'[q] - BIAS < |orders'| {
      OwnerAfterReclaim(hash, cells, orders, places, slot, q);
    }
    hide CellsWithout, CellOf, CellsName, CellsOwned, PathsFull;
  }

  lemma OwnedAfterReclaim(hash: Ref -> nat, cells: seq<nat>, orders: seq<Order>, places: Places, slot: nat)
    requires Consistent(hash, cells, orders, places) && slot < |orders|
    ensures var cells', orders' := CellsWithout(hash, cells, orders, places, slot), WithoutSlot(orders, slot);
            var places' := PlaceWithout(places, orders[slot].ref, orders[|orders| - 1].ref, slot);
            Placed(cells', orders', places') && CellsOwned(hash, cells', orders', places')
  {
    hide CellsWithout, WithoutSlot, Consistent;
    PlacedAfterReclaim(hash, cells, orders, places, slot);
    var cells' := CellsWithout(hash, cells, orders, places, slot);
    forall q | 0 <= q < |cells| && cells'[q] >= BIAS
      ensures var r := WithoutSlot(orders, slot)[cells'[q] - BIAS].ref;
              var places' := PlaceWithout(places, orders[slot].ref, orders[|orders| - 1].ref, slot);
              r in places'.step && CellOf(hash, places', r, |cells|) == q
    {
      OwnerAfterReclaim(hash, cells, orders, places, slot, q);
    }
  }

  lemma NamesAfterReclaim(hash: Ref -> nat, cells: seq<nat>, orders: seq<Order>, places: Places, slot: nat)
    requires Consistent(hash, cells, orders, places) && slot < |orders|
    ensures var cells', orders' := CellsWithout(hash, cells, orders, places, slot), WithoutSlot(orders, slot);
            var places' := PlaceWithout(places, orders[slot].ref, orders[|orders| - 1].ref, slot);
            Placed(cells', orders', places') && CellsName(hash, cells', orders', places')
  {
    PlacedAfterReclaim(hash, cells, orders, places, slot);
    var n := |cells|;
    var cells' := CellsWithout(hash, cells, orders, places, slot);
    var places' := PlaceWithout(places, orders[slot].ref, orders[|orders| - 1].ref, slot);
    forall r <- places'.step ensures cells'[CellOf(hash, places', r, n)] == places'.slot[r] + BIAS {
      NameAfterReclaim(hash, cells, orders, places, slot, r);
    }
    hide CellsWithout, CellsOwned, PathsFull, WithoutSlot, Dense;
  }

  lemma PathsAfterReclaim(hash: Ref -> nat, cells: seq<nat>, orders: seq<Order>, places: Places, slot: nat)
    requires Consistent(hash, cells, orders, places) && slot < |orders|
    ensures var cells', orders' := CellsWithout(hash, cells, orders, places, slot), WithoutSlot(orders, slot);
            var places' := PlaceWithout(places, orders[slot].ref, orders[|orders| - 1].ref, slot);
            Placed(cells', orders', places') && PathsFull(hash, cells', orders', places')
  {
    PlacedAfterReclaim(hash, cells, orders, places, slot);
    var n := |cells|;
    var cells' := CellsWithout(hash, cells, orders, places, slot);
    var places' := PlaceWithout(places, orders[slot].ref, orders[|orders| - 1].ref, slot);
    forall r <- places'.step, k | 0 <= k < places'.step[r]
      ensures cells'[Cell(Home(hash, r, n), k, n)] != EMPTY
    {
      PathAfterReclaim(hash, cells, orders, places, slot, r, k);
    }
    hide CellsWithout, CellsOwned, CellsName, WithoutSlot, Dense, Cell;
  }

  lemma NameAfterReclaim(hash: Ref -> nat, cells: seq<nat>, orders: seq<Order>, places: Places, slot: nat, r: Ref)
    requires Consistent(hash, cells, orders, places) && slot < |orders|
    requires r in places.step && r != orders[slot].ref
    ensures var places' := PlaceWithout(places, orders[slot].ref, orders[|orders| - 1].ref, slot);
            r in places'.slot &&
            CellsWithout(hash, cells, orders, places, slot)[CellOf(hash, places, r, |cells|)] == places'.slot[r] + BIAS
  {
    CellsAfterReclaim(hash, cells, orders, places, slot, CellOf(hash, places, r, |cells|));
    assert cells[CellOf(hash, places, r, |cells|)] == places.slot[r] + BIAS;
    assert cells[CellOf(hash, places, orders[slot].ref, |cells|)] == slot + BIAS;
  }

  lemma PathAfterReclaim(hash: Ref -> nat, cells: seq<nat>, orders: seq<Order>, places: Places, slot: nat,
                         r: Ref, k: nat)
    requires Consistent(hash, cells, orders, places) && slot < |orders|
    requires r in places.step && k < places.step[r]
    ensures CellsWithout(hash, cells, orders, places, slot)[Cell(Home(hash, r, |cells|), k, |cells|)] != EMPTY
  {
    assert cells[Cell(Home(hash, r, |cells|), k, |cells|)] != EMPTY;
    CellsAfterReclaim(hash, cells, orders, places, slot, Cell(Home(hash, r, |cells|), k, |cells|));
  }

  lemma OwnerAfterReclaim(hash: Ref -> nat, cells: seq<nat>, orders: seq<Order>, places: Places, slot: nat, q: nat)
    requires Consistent(hash, cells, orders, places) && slot < |orders| && q < |cells|
    requires CellsWithout(hash, cells, orders, places, slot)[q] >= BIAS
    ensures var v := CellsWithout(hash, cells, orders, places, slot)[q] - BIAS;
            && v < |orders| - 1
            && var r := WithoutSlot(orders, slot)[v].ref;
               r in places.step && r != orders[slot].ref && CellOf(hash, places, r, |cells|) == q
  {
    CellsAfterReclaim(hash, cells, orders, places, slot, q);
    if cells[q] >= BIAS {
      var r := orders[cells[q] - BIAS].ref;
      assert r in places.step && CellOf(hash, places, r, |cells|) == q;
    }
  }

  lemma DenseWithout(orders: seq<Order>, places: Places, slot: nat)
    requires Dense(orders, places.slot) && slot < |orders|
    ensures var places' := PlaceWithout(places, orders[slot].ref, orders[|orders| - 1].ref, slot);
            Dense(WithoutSlot(orders, slot), places'.slot) && places'.slot.Keys == places.slot.Keys - {orders[slot].ref}
  {
    var end := |orders| - 1;
    var orders' := WithoutSlot(orders, slot);
    var places' := PlaceWithout(places, orders[slot].ref, orders[end].ref, slot);
    assert forall i | 0 <= i < end :: orders'[i] == (if i == slot then orders[end] else orders[i]);
    forall i | 0 <= i < end ensures orders'[i].ref in places'.slot && places'.slot[orders'[i].ref] == i {
      assert orders[i].ref in places.slot && places.slot[orders[i].ref] == i;
    }
  }

  /** Between the tombstone and the re-pointing, a probe for the moved order still finds its old cell. */
  lemma MovedProbe(hash: Ref -> nat, cells: seq<nat>, orders: seq<Order>, places: Places, slot: nat)
    requires Consistent(hash, cells, orders, places) && slot < |orders| - 1
    ensures var n := |cells|;
            var moved := orders[|orders| - 1].ref;
            var gone := cells[CellOf(hash, places, orders[slot].ref, n) := TOMBSTONE];
            var shifted := orders[slot := orders[|orders| - 1]];
            && InRange(gone, shifted)
            && ProbeFrom(gone, shifted, moved, Home(hash, moved, n), 0) == CellOf(hash, places, moved, n)
  {
    var n := |cells|;
    var end := |orders| - 1;
    var moved := orders[end].ref;
    var home := Home(hash, moved, n);
    var at := places.step[moved];
    var dead := CellOf(hash, places, orders[slot].ref, n);
    var target := CellOf(hash, places, moved, n);
    var gone := cells[dead := TOMBSTONE];
    var shifted := orders[slot := orders[end]];
    assert cells[dead] == slot + BIAS && cells[target] == end + BIAS;
    assert StepTo(home, target, n) == at;
    forall k | 0 <= k < at
      ensures var p := Cell(home, k, n); gone[p] != EMPTY && !Names(gone, shifted, p, moved)
    {
      var p := Cell(home, k, n);
      assert cells[p] != EMPTY && p != target;
      if p != dead && cells[p] >= BIAS {
        var r := orders[cells[p] - BIAS].ref;
        assert CellOf(hash, places, r, n) == p;
      }
    }
    ProbeHits(gone, shifted, moved, home, at, 0);
  }

  /** Rewriting an order in place, its reference kept, leaves the index as it was. */
  lemma RewriteKeeps(hash: Ref -> nat, cells: seq<nat>, orders: seq<Order>, places: Places, slot: nat, o: Order)
    requires Consistent(hash, cells, orders, places) && slot < |orders| && o.ref == orders[slot].ref
    ensures Consistent(hash, cells, orders[slot := o], places)
  {
    var orders' := orders[slot := o];
    assert forall i | 0 <= i < |orders| :: orders'[i].ref == orders[i].ref;
  }

  // ---- the table as a map ----

  ghost predicate Mirrors(orders: seq<Order>, slot: map<Ref, nat>, live: map<Ref, Order>) {
    && live.Keys == slot.Keys
    && forall r <- live :: slot[r] < |orders| && live[r] == orders[slot[r]]
  }

  /** The table stores exactly the orders of `live`. */
  ghost predicate Holds(hash: Ref -> nat, cells: seq<nat>, orders: seq<Order>, places: Places, live: map<Ref, Order>) {
    Consistent(hash, cells, orders, places) && Mirrors(orders, places.slot, live)
  }

  lemma {:induction false} DenseSize(orders: seq<Order>, slot: map<Ref, nat>)
    requires Dense(orders, slot)
    ensures |slot| == |orders|
    decreases |orders|
  {
    if orders == [] {
      assert slot.Keys == {};
    } else {
      var last := |orders| - 1;
      var rest := slot - {orders[last].ref};
      DenseSize(orders[..last], rest);
      assert rest.Keys == slot.Keys - {orders[last].ref};
    }
  }

  /** A probe finds precisely the live references, and leads to the order itself. */
  lemma FindIsLookup(hash: Ref -> nat, cells: seq<nat>, orders: seq<Order>, places: Places, live: map<Ref, Order>,
                     ref: Ref)
    requires Holds(hash, cells, orders, places, live)
    ensures InRange(cells, orders) && |cells| > 0
    ensures var n := |cells|;
            var found := ProbeFrom(cells, orders, ref, Home(hash, ref, n), 0);
            && (found == n <==> ref !in live)
            && (found != n ==> found < n && BIAS <= cells[found] < BIAS + |orders|
                               && orders[cells[found] - BIAS] == live[ref] && live[ref].ref == ref)
  {
    ProbeFindsLive(hash, cells, orders, places, ref);
  }

  /** The dense array lists every live order, each exactly once. */
  lemma DenseIsEnumeration(hash: Ref -> nat, cells: seq<nat>, orders: seq<Order>, places: Places,
                           live: map<Ref, Order>)
    requires Holds(hash, cells, orders, places, live)
    ensures |live| == |orders|
    ensures forall i | 0 <= i < |orders| :: orders[i].ref in live && live[orders[i].ref] == orders[i]
    ensures forall i, j | 0 <= i < j < |orders| :: orders[i].ref != orders[j].ref
    ensures forall r <- live :: live[r].ref == r && live[r] in orders
  {
    DenseSize(orders, places.slot);
    assert live.Keys == places.slot.Keys;
    forall i, j | 0 <= i < j < |orders| ensures orders[i].ref != orders[j].ref {
      assert places.slot[orders[i].ref] == i && places.slot[orders[j].ref] == j;
    }
  }

  lemma SlotsOfLive(hash: Ref -> nat, cells: seq<nat>, orders: seq<Order>, places: Places, live: map<Ref, Order>)
    requires Holds(hash, cells, orders, places, live)
    ensures forall r <- live :: r in places.slot && places.slot[r] < |orders| && orders[places.slot[r]].ref == r
  {
  }

  lemma HoldsAfterInsert(hash: Ref -> nat, cells: seq<nat>, orders: seq<Order>, places: Places,
                         live: map<Ref, Order>, o: Order)
    requires Holds(hash, cells, orders, places, live) && o.ref !in live && |orders| < |cells|
    ensures var n := |cells|;
            var p := FreeFrom(cells, Home(hash, o.ref, n), 0);
            && p < n
            && Holds(hash, cells[p := |orders| + BIAS], orders + [o],
                     PlaceNew(hash, places, o.ref, |orders|, p, n), live[o.ref := o])
  {
    MirrorsInsert(orders, places.slot, live, o);
    assert o.ref !in places.slot;
    hide Indexed, Dense, Mirrors;
    var home := Home(hash, o.ref, |cells|);
    RoomForInsert(hash, cells, orders, places, o.ref);
    InsertKeeps(hash, cells, orders, places, o, FreeFrom(cells, home, 0));
  }

  lemma MirrorsInsert(orders: seq<Order>, slot: map<Ref, nat>, live: map<Ref, Order>, o: Order)
    requires Mirrors(orders, slot, live) && o.ref !in live
    ensures Mirrors(orders + [o], slot[o.ref := |orders|], live[o.ref := o])
  {
  }

  lemma HoldsAfterRewrite(hash: Ref -> nat, cells: seq<nat>, orders: seq<Order>, places: Places,
                          live: map<Ref, Order>, slot: nat, o: Order)
    requires Holds(hash, cells, orders, places, live) && slot < |orders| && o.ref == orders[slot].ref
    ensures Holds(hash, cells, orders[slot := o], places, live[o.ref := o])
  {
    RewriteKeeps(hash, cells, orders, places, slot, o);
    assert places.slot[o.ref] == slot;
    hide Indexed;
    forall r <- live[o.ref := o] ensures live[o.ref := o][r] == orders[slot := o][places.slot[r]] {
      if r != o.ref { assert orders[places.slot[r]].ref == r; }
    }
  }

  lemma HoldsAfterReclaim(hash: Ref -> nat, cells: seq<nat>, orders: seq<Order>, places: Places,
                          live: map<Ref, Order>, slot: nat)
    requires Holds(hash, cells, orders, places, live) && slot < |orders|
    ensures Holds(hash, CellsWithout(hash, cells, orders, places, slot), WithoutSlot(orders, slot),
                  PlaceWithout(places, orders[slot].ref, orders[|orders| - 1].ref, slot), live - {orders[slot].ref})
  {
    ReclaimKeeps(hash, cells, orders, places, slot);
    MirrorsReclaim(orders, places, live, slot);
  }

  lemma WithoutSlotAt(orders: seq<Order>, slot: nat)
    requires slot < |orders|
    ensures |WithoutSlot(orders, slot)| == |orders| - 1
    ensures forall i | 0 <= i < |orders| - 1 :: WithoutSlot(orders, slot)[i] == if i == slot then orders[|orders| - 1] else orders[i]
  {
  }

  lemma MirrorsReclaim(orders: seq<Order>, places: Places, live: map<Ref, Order>, slot: nat)
    requires Dense(orders, places.slot) && Mirrors(orders, places.slot, live) && slot < |orders|
    ensures var places' := PlaceWithout(places, orders[slot].ref, orders[|orders| - 1].ref, slot);
            Mirrors(WithoutSlot(orders, slot), places'.slot, live - {orders[slot].ref})
  {
    DenseWithout(orders, places, slot);
    WithoutSlotAt(orders, slot);
    hide WithoutSlot;
    var end := |orders| - 1;
    var orders' := WithoutSlot(orders, slot);
    var slots' := PlaceWithout(places, orders[slot].ref, orders[end].ref, slot).slot;
    var live' := live - {orders[slot].ref};
    assert live'.Keys == slots'.Keys;
    forall r <- live' ensures slots'[r] < end && live'[r] == orders'[slots'[r]] {
      assert orders[places.slot[r]].ref == r && live[r] == orders[places.slot[r]];
      assert orders'[slots'[r]].ref == r;
    }
  }

  lemma EmptyHolds(hash: Ref -> nat, cells: seq<nat>)
    requires |cells| > 0 && forall p | 0 <= p < |cells| :: cells[p] == EMPTY
    ensures Holds(hash, cells, [], Places(map[], map[]), map[])
  {
  }

  /** What a reclaim of `slot` probes for, and that its two cell writes leave the table holding the rest. */
  lemma ReclaimFacts(hash: Ref -> nat, cells: seq<nat>, orders: seq<Order>, places: Places, live: map<Ref, Order>,
                     slot: nat)
    returns (pos: nat, moved: nat)
    requires Holds(hash, cells, orders, places, live) && slot < |orders|
    ensures InRange(cells, orders) && |cells| > 0 && pos < |cells|
    ensures pos == ProbeFrom(cells, orders, orders[slot].ref, Home(hash, orders[slot].ref, |cells|), 0)
    ensures cells[pos] == slot + BIAS
    ensures slot == |orders| - 1 ==>
      Holds(hash, cells[pos := TOMBSTONE], WithoutSlot(orders, slot),
            PlaceWithout(places, orders[slot].ref, orders[|orders| - 1].ref, slot), live - {orders[slot].ref})
    ensures slot != |orders| - 1 ==>
      var marked: seq<nat> := cells[pos := TOMBSTONE];
      var shifted := orders[slot := orders[|orders| - 1]];
      && InRange(marked, shifted) && moved < |cells|
      && moved == ProbeFrom(marked, shifted, shifted[slot].ref, Home(hash, shifted[slot].ref, |cells|), 0)
      && marked[moved] == cells[moved] == |orders| - 1 + BIAS
      && Holds(hash, marked[moved := slot + BIAS], WithoutSlot(orders, slot),
               PlaceWithout(places, orders[slot].ref, orders[|orders| - 1].ref, slot), live - {orders[slot].ref})
  {
    ProbeFindsLive(hash, cells, orders, places, orders[slot].ref);
    pos := CellOf(hash, places, orders[slot].ref, |cells|);
    moved := 0;
    HoldsAfterReclaim(hash, cells, orders, places, live, slot);
    if slot != |orders| - 1 {
      MovedProbe(hash, cells, orders, places, slot);
      ProbeFindsLive(hash, cells, orders, places, orders[|orders| - 1].ref);
      moved := CellOf(hash, places, orders[|orders| - 1].ref, |cells|);
    }
  }
}
