/** The order store: a dense array of live orders, an open-addressed index over it, swap-with-last
    reclaim and an in-place rehash. Every operation is proved to do to `View()` what the map-level
    operation of the same name in `OmsSpec` does. */
module OmsStore {
  import opened ExecTypes
  import S = OmsSpec
  import opened IndexTable
  import opened Words
  import T = StoreTable

  class Oms {
    const capacity: nat
    const hash: Ref -> nat
    const orders: array<Order>
    const index: array<nat>
    var count: nat
    var tombstones: nat
    var reserved: int
    ghost var places: Places
    ghost var live: map<Ref, Order>

    ghost predicate Valid()
      reads this, orders, index
    {
      && Storage()
      && count <= capacity
      && Holds(hash, index[..], orders[..count], places, live)
      && tombstones == Tombstones(index[..]) <= capacity
    }

    ghost predicate Storage()
      reads this
    {
      && orders.Length == capacity
      && index.Length == T.IndexSize(capacity)
    }

    /** The index and the dense array as values. */
    ghost function Table(): T.Table
      requires count <= orders.Length
      reads this, orders, index
    {
      T.Table(index[..], orders[..count])
    }

    /** The store as a map from references to live orders. */
    ghost function View(): S.Store
      reads this
    {
      S.Store(live, reserved, capacity)
    }

    constructor (capacity: nat, hash: Ref -> nat)
      ensures Valid() && fresh(orders) && fresh(index)
      ensures View() == S.Empty(capacity) && Table() == T.Start(capacity)
      ensures this.hash == hash
    {
      var n := NextPowerOfTwo((if capacity > 0 then capacity else 1) * 2);
      this.capacity := capacity;
      this.hash := hash;
      orders := new Order[capacity](i => Order(Ref(0, 0), 0, 0, 0, 0, NewOrder, 0));
      index := new nat[n](i => EMPTY);
      count, tombstones, reserved := 0, 0, 0;
      places := Places(map[], map[]);
      live := map[];
      new;
      NoTombstones(index[..]);
      assert index[..] == T.Blank(n);
    }

    // ---- the index ----

    method ProbeFind(ref: Ref) returns (pos: nat)
      requires Storage() && count <= capacity && InRange(index[..], orders[..count])
      ensures pos == ProbeFrom(index[..], orders[..count], ref, Home(hash, ref, index.Length), 0)
    {
      var home := Home(hash, ref, index.Length);
      ghost var cells, live := index[..], orders[..count];
      var step := 0;
      while step < index.Length
        invariant step <= index.Length
        invariant ProbeFrom(cells, live, ref, home, 0) == ProbeFrom(cells, live, ref, home, step)
      {
        pos := Cell(home, step, index.Length);
        var v := index[pos];
        assert v == cells[pos];
        if v == EMPTY {
          return index.Length;
        }
        if v != TOMBSTONE && orders[v - BIAS].ref == ref {
          return;
        }
        step := step + 1;
      }
      return index.Length;
    }

    /** Takes the first cell on the probe path that is empty or a tombstone. */
    method IndexInsert(ref: Ref, slot: nat)
      requires Storage() && tombstones == Tombstones(index[..])
      requires FreeFrom(index[..], Home(hash, ref, index.Length), 0) < index.Length
      modifies index, this`tombstones
      ensures index[..] == old(index[..])[FreeFrom(old(index[..]), Home(hash, ref, index.Length), 0) := slot + BIAS]
      ensures tombstones == Tombstones(index[..]) && tombstones <= old(tombstones)
    {
      var home := Home(hash, ref, index.Length);
      ghost var cells := index[..];
      var step := 0;
      while step < index.Length
        invariant step <= index.Length
        invariant index[..] == cells && tombstones == Tombstones(cells) == old(tombstones)
        invariant FreeFrom(cells, home, 0) == FreeFrom(cells, home, step)
      {
        var pos := Cell(home, step, index.Length);
        var v := index[pos];
        assert v == cells[pos];
        if v == EMPTY || v == TOMBSTONE {
          TombstonesUpdate(cells, pos, slot + BIAS);
          if v == TOMBSTONE {
            tombstones := tombstones - 1;
          }
          index[pos] := slot + BIAS;
          return;
        }
        step := step + 1;
      }
    }

    /** The slot of a live order. */
    method SlotOf(ref: Ref) returns (found: bool, slot: nat)
      requires Valid()
      ensures found <==> ref in live
      ensures found ==> slot < count && orders[slot].ref == ref && orders[slot] == live[ref]
      ensures count <= orders.Length && T.SlotFor(orders[..count], ref) == if found then slot else count
    {
      hide Holds, T.SlotFor;
      FindIsLookup(hash, index[..], orders[..count], places, live, ref);
      DenseIsEnumeration(hash, index[..], orders[..count], places, live);
      SlotIsFirst(orders[..count], live, ref);
      var pos := ProbeFind(ref);
      if pos == index.Length {
        return false, 0;
      }
      return true, index[pos] - BIAS;
    }

    method Find(ref: Ref) returns (o: Option<Order>)
      requires Valid()
      ensures o == if ref in live then Some(live[ref]) else None
      ensures count <= orders.Length && (o.Some? <==> T.SlotFor(orders[..count], ref) < count)
    {
      hide Holds;
      var found, slot := SlotOf(ref);
      return if found then Some(orders[slot]) else None;
    }

    /** The i-th live order of the dense array; together they are all of them. */
    method At(i: nat) returns (o: Order)
      requires Valid() && i < count
      ensures o == orders[i] && o.ref in live && live[o.ref] == o
    {
      hide Holds;
      DenseIsEnumeration(hash, index[..], orders[..count], places, live);
      assert orders[..count][i] == orders[i];
      return orders[i];
    }

    /** Puts `o` in the next free slot; the caller has checked it is absent and there is room. */
    method Append(o: Order)
      requires Valid() && o.ref !in live && count < capacity
      modifies this`count, this`tombstones, this`places, this`live, orders, index
      ensures Valid() && live == old(live)[o.ref := o] && Table() == T.Inserted(hash, old(Table()), o)
    {
      hide Holds;
      ghost var cells, dense := index[..], orders[..count];
      HoldsAfterInsert(hash, cells, dense, places, live, o);
      orders[count] := o;
      IndexInsert(o.ref, count);
      ghost var p := FreeFrom(cells, Home(hash, o.ref, index.Length), 0);
      places := PlaceNew(hash, places, o.ref, count, p, index.Length);
      live := live[o.ref := o];
      count := count + 1;
      assert orders[..count] == dense + [o];
    }

    method Create(ref: Ref, symbol: nat, volume: int) returns (ok: bool)
      requires Valid()
      modifies this, orders, index
      ensures Valid() && S.Outcome(View(), ok) == S.Create(old(View()), ref, symbol, volume)
      ensures Table() == T.Step(hash, capacity, old(Table()), S.OpCreate(ref, symbol, volume))
    {
      hide Holds, T.IndexSize, Tombstones;
      DenseIsEnumeration(hash, index[..], orders[..count], places, live);
      var present := Find(ref);
      if present.Some? || count >= capacity {
        return false;
      }
      Append(Order(ref, symbol, volume, 0, 0, PendingSend, 0));
      reserved := reserved + volume;
      return true;
    }

    method Restore(o: Order) returns (ok: bool)
      requires Valid()
      modifies this, orders, index
      ensures Valid() && S.Outcome(View(), ok) == S.Restore(old(View()), o)
      ensures Table() == T.Step(hash, capacity, old(Table()), S.OpRestore(o))
    {
      hide Holds;
      DenseIsEnumeration(hash, index[..], orders[..count], places, live);
      var present := Find(o.ref);
      if present.Some? || count >= capacity || o.requested <= 0 || o.filled < 0 || o.filled > o.requested {
        return false;
      }
      Append(o);
      if ReservesExposure(o.state) {
        reserved := reserved + o.requested;
      }
      return true;
    }

    /** Writes the order found at `slot` back, its reference unchanged. */
    method Write(slot: nat, o: Order)
      requires Valid() && slot < count && orders[slot].ref == o.ref
      modifies orders, this`live
      ensures Valid() && live == old(live)[o.ref := o]
      ensures Table() == T.Written(old(Table()), slot, o)
      ensures orders[slot] == o && forall i | 0 <= i < count && i != slot :: orders[i] == old(orders[i])
    {
      hide Holds;
      ghost var dense := orders[..count];
      HoldsAfterRewrite(hash, index[..], dense, places, live, slot, o);
      orders[slot] := o;
      live := live[o.ref := o];
      assert orders[..count] == dense[slot := o];
    }

    /** A legal transition of the order at `slot`. */
    method Enter(slot: nat, next: OrderState)
      requires Valid() && slot < count && Legal(orders[slot].state, next)
      requires orders[slot].ref in live && live[orders[slot].ref] == orders[slot]
      modifies this, orders, index
      ensures Valid() && S.Outcome(View(), true) == S.Transition(old(View()), old(orders[slot].ref), next)
      ensures var t := T.Written(old(Table()), slot, old(orders[slot]).(state := next));
              Table() == if IsTerminal(next) then T.Reclaimed(hash, capacity, t, slot) else t
    {
      hide Holds, T.IndexSize, Tombstones, Legal, IsTerminal, ReservesExposure, T.Reclaimed;
      var o := orders[slot];
      Write(slot, o.(state := next));
      if ReservesExposure(o.state) && !ReservesExposure(next) {
        reserved := reserved - o.requested;
      }
      ghost var written := live;
      if IsTerminal(next) {
        Reclaim(slot);
        assert written - {o.ref} == old(live) - {o.ref};
      }
    }

    method Transition(ref: Ref, next: OrderState) returns (ok: bool)
      requires Valid()
      modifies this, orders, index
      ensures Valid() && S.Outcome(View(), ok) == S.Transition(old(View()), ref, next)
      ensures Table() == T.Moved(hash, capacity, old(Table()), ref, next)
    {
      hide Oms.Valid, Legal, IsTerminal, ReservesExposure, T.Reclaimed, T.SlotFor;
      var found, slot := SlotOf(ref);
      if !found || !Legal(orders[slot].state, next) {
        return false;
      }
      Enter(slot, next);
      return true;
    }

    method Fill(ref: Ref, volume: int) returns (ok: bool)
      requires Valid()
      modifies this, orders, index
      ensures Valid() && S.Outcome(View(), ok) == S.Fill(old(View()), ref, volume)
      ensures Table() == T.Step(hash, capacity, old(Table()), S.OpFill(ref, volume))
    {
      hide Holds, T.IndexSize, Tombstones, T.Moved, T.SlotFor;
      var found, slot := SlotOf(ref);
      if !found || volume <= 0 || volume > orders[slot].Remaining() {
        return false;
      }
      var o := orders[slot];
      var o' := o.(filled := o.filled + volume);
      Write(slot, o');
      ok := Transition(ref, if o'.Remaining() != 0 then PartiallyFilled else Filled);
    }

    method RecoverFill(ref: Ref, volume: int) returns (ok: bool)
      requires Valid()
      modifies this, orders, index
      ensures Valid() && S.Outcome(View(), ok) == S.RecoverFill(old(View()), ref, volume)
      ensures Table() == T.Step(hash, capacity, old(Table()), S.OpRecoverFill(ref, volume))
    {
      hide Holds;
      var found, slot := SlotOf(ref);
      if !found || volume <= 0 || volume > orders[slot].Remaining() {
        return false;
      }
      Write(slot, orders[slot].(filled := orders[slot].filled + volume));
      return true;
    }

    method MarkUnknownOnRestart(ref: Ref) returns (ok: bool)
      requires Valid()
      modifies orders, this`live
      ensures Valid() && S.Outcome(View(), ok) == S.MarkUnknown(old(View()), ref)
      ensures Table() == T.Step(hash, capacity, old(Table()), S.OpMarkUnknown(ref))
      ensures forall i | 0 <= i < count :: orders[i].ref == old(orders[i].ref)
    {
      hide Holds;
      var found, slot := SlotOf(ref);
      if !found || IsTerminal(orders[slot].state) {
        return false;
      }
      Write(slot, orders[slot].(state := Unknown));
      return true;
    }

    /** A replace writes price and requested volume through the order found. */
    method Replace(ref: Ref, price: int, volume: int) returns (ok: bool)
      requires Valid()
      modifies this, orders, index
      ensures Valid() && S.Outcome(View(), ok) == S.Replace(old(View()), ref, price, volume)
      ensures Table() == T.Step(hash, capacity, old(Table()), S.OpReplace(ref, price, volume))
    {
      hide Holds;
      var found, slot := SlotOf(ref);
      if !found || IsTerminal(orders[slot].state) || orders[slot].state.Unknown? || volume <= orders[slot].filled {
        return false;
      }
      Write(slot, orders[slot].(limitPrice := price, requested := volume));
      return true;
    }

    /** Records the last execution report applied to a live order. */
    method StampSeq(ref: Ref, seq_: nat)
      requires Valid() && ref in live
      modifies orders, this`live
      ensures Valid() && live == old(live)[ref := old(live)[ref].(lastSeq := seq_)]
    {
      hide Holds;
      var found, slot := SlotOf(ref);
      Write(slot, orders[slot].(lastSeq := seq_));
    }

    // ---- reclaim and rehash ----

    /** The order at `slot` leaves: its cell becomes a tombstone and the last order moves into the hole. */
    method Vacate(slot: nat)
      requires Valid() && slot < count
      modifies this, orders, index
      ensures Storage() && count == old(count) - 1
      ensures Holds(hash, index[..], orders[..count], places, live) && tombstones == Tombstones(index[..])
      ensures live == old(live) - {old(orders[slot].ref)} && reserved == old(reserved)
      ensures index[..] == T.Renamed(old(index[..]), slot, count)
      ensures orders[..count] == WithoutSlot(old(orders[..count]), slot)
    {
      hide Holds, ProbeFrom, InRange, PlaceWithout, T.IndexSize, Tombstones, Home, T.Renamed;
      ghost var cells, dense := index[..], orders[..count];
      ghost var leaving, moving := ReclaimFacts(hash, cells, dense, places, live, slot);
      T.RenamedByProbes(hash, cells, dense, places, live, slot, leaving, moving);

      var gone := orders[slot].ref;
      var pos := ProbeFind(gone);
      TombstonesUpdate(cells, pos, TOMBSTONE);
      index[pos] := TOMBSTONE;
      tombstones := tombstones + 1;
      ghost var marked: seq<nat> := cells[pos := TOMBSTONE];
      assert index[..] == marked;
      var last := count - 1;
      if slot != last {
        orders[slot] := orders[last];
        assert orders[..count] == dense[slot := dense[last]];
        var movedPos := ProbeFind(orders[slot].ref);
        TombstonesUpdate(marked, movedPos, slot + BIAS);
        index[movedPos] := slot + BIAS;
        assert index[..] == marked[movedPos := slot + BIAS];
      }
      count := count - 1;
      places := PlaceWithout(places, gone, dense[last].ref, slot);
      live := live - {gone};
      assert orders[..count] == WithoutSlot(dense, slot);
    }

    method Reclaim(slot: nat)
      requires Valid() && slot < count
      modifies this, orders, index
      ensures Valid() && live == old(live) - {old(orders[slot].ref)} && reserved == old(reserved)
      ensures Table() == T.Reclaimed(hash, capacity, old(Table()), slot)
    {
      hide Holds, T.IndexSize, Tombstones, T.Renamed, T.Rebuilt, WithoutSlot;
      Vacate(slot);
      if tombstones > capacity {
        Rehash();
      }
    }

    method ClearIndex()
      modifies index
      ensures forall q | 0 <= q < index.Length :: index[q] == EMPTY
    {
      var p := 0;
      while p < index.Length
        invariant p <= index.Length
        invariant forall q | 0 <= q < p :: index[q] == EMPTY
      {
        index[p] := EMPTY;
        p := p + 1;
      }
    }

    method Reenter(slot: nat, ghost entered: map<Ref, Order>) returns (ghost entered': map<Ref, Order>)
      requires Storage() && slot < count <= capacity && forall i | 0 <= i < slot :: orders[i].ref != orders[slot].ref
      requires Holds(hash, index[..], orders[..slot], places, entered)
      requires tombstones == Tombstones(index[..]) && index[..] == T.Rebuilt(hash, index.Length, orders[..slot])
      modifies index, this`tombstones, this`places
      ensures Holds(hash, index[..], orders[..slot + 1], places, entered')
      ensures tombstones == Tombstones(index[..]) <= old(tombstones)
      ensures index[..] == T.Rebuilt(hash, index.Length, orders[..slot + 1])
    {
      hide Holds, T.IndexSize, PlaceNew, FreeFrom, Home, T.Rebuilt;
      ghost var cells, dense := index[..], orders[..slot];
      var o := orders[slot];
      NotYetEntered(hash, cells, dense, places, entered, o.ref);
      HoldsAfterInsert(hash, cells, dense, places, entered, o);
      IndexInsert(o.ref, slot);
      places := PlaceNew(hash, places, o.ref, slot, FreeFrom(cells, Home(hash, o.ref, index.Length), 0), index.Length);
      entered' := entered[o.ref := o];
      assert orders[..slot + 1] == dense + [o];
      T.RebuiltMore(hash, index.Length, dense + [o], slot);
      assert (dense + [o])[..slot + 1] == dense + [o] && (dense + [o])[..slot] == dense;
    }

    /** Clears every tombstone and re-enters the live orders. */
    method Rehash()
      requires Storage() && count <= capacity && Holds(hash, index[..], orders[..count], places, live)
      modifies index, this`tombstones, this`places
      ensures Valid() && tombstones == 0
      ensures index[..] == T.Rebuilt(hash, index.Length, orders[..count])
    {
      hide Holds, Tombstones, T.IndexSize, T.Rebuilt;
      T.RebuiltNothing(hash, index.Length);
      DenseIsEnumeration(hash, index[..], orders[..count], places, live);
      ghost var all := orders[..count];
      ClearIndex();
      tombstones := 0;
      places := Places(map[], map[]);
      NoTombstones(index[..]);
      EmptyHolds(hash, index[..]);
      ghost var entered: map<Ref, Order> := map[];
      var slot := 0;
      assert orders[..slot] == [] && index[..] == T.Blank(index.Length);
      while slot < count
        invariant slot <= count
        invariant Holds(hash, index[..], orders[..slot], places, entered)
        invariant index[..] == T.Rebuilt(hash, index.Length, orders[..slot])
        invariant tombstones == Tombstones(index[..]) == 0
      {
        assert forall i | 0 <= i <= slot :: orders[i] == all[i];
        entered := Reenter(slot, entered);
        slot := slot + 1;
      }
      DenseIsEnumeration(hash, index[..], orders[..count], places, entered);
      SameMap(all, live, entered);
    }
  }

  lemma NotYetEntered(hash: Ref -> nat, cells: seq<nat>, orders: seq<Order>, places: Places, live: map<Ref, Order>,
                      ref: Ref)
    requires Holds(hash, cells, orders, places, live) && forall i | 0 <= i < |orders| :: orders[i].ref != ref
    ensures ref !in live
  {
    DenseIsEnumeration(hash, cells, orders, places, live);
  }

  lemma SlotIsFirst(orders: seq<Order>, live: map<Ref, Order>, ref: Ref)
    requires forall i | 0 <= i < |orders| :: orders[i].ref in live
    requires forall i, j | 0 <= i < j < |orders| :: orders[i].ref != orders[j].ref
    ensures forall k | 0 <= k < |orders| && orders[k].ref == ref :: T.SlotFor(orders, ref) == k
    ensures ref !in live ==> T.SlotFor(orders, ref) == |orders|
  {
  }

  /** Two maps that list the same orders are the same. */
  lemma SameMap(all: seq<Order>, live: map<Ref, Order>, entered: map<Ref, Order>)
    requires forall r <- live :: live[r].ref == r && live[r] in all
    requires forall r <- entered :: entered[r].ref == r && entered[r] in all
    requires forall i | 0 <= i < |all| :: all[i].ref in entered && entered[all[i].ref] == all[i]
    requires forall i | 0 <= i < |all| :: all[i].ref in live && live[all[i].ref] == all[i]
    ensures entered == live
  {
    forall r ensures r in live <==> r in entered {
    }
  }
}
