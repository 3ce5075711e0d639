/** The execution-report sequencer over its preallocated arrays, working on an order store it does not own. */
module ReportSequencer {
  import opened ExecTypes
  import S = OmsSpec
  import opened OmsStore
  import T = StoreTable
  import opened ReportSpec

  /** A bounded pool of reports that arrived ahead of a gap. */
  class GapPool {
    const slots: array<Option<ExecReport>>
    var heldCount: nat

    ghost predicate Valid()
      reads this, slots
    {
      heldCount == Held(slots[..])
    }

    constructor (capacity: nat)
      ensures Valid() && fresh(slots)
      ensures slots.Length == capacity && Held(slots[..]) == 0
    {
      slots := new Option<ExecReport>[capacity](i => None);
      heldCount := 0;
      new;
      HeldAll(slots[..]);
    }

    method Hold(r: ExecReport) returns (ok: bool)
      requires Valid()
      modifies this, slots
      ensures Valid() && ok == (FirstFree(old(slots[..]), 0) < slots.Length)
      ensures slots[..] == if ok then old(slots[..])[FirstFree(old(slots[..]), 0) := Some(r)] else old(slots[..])
    {
      ghost var s := slots[..];
      var i := 0;
      while i < slots.Length
        invariant i <= slots.Length && slots[..] == s && Valid()
        invariant FirstFree(s, 0) == FirstFree(s, i)
      {
        if slots[i].None? {
          HeldUpdate(s, i, Some(r));
          slots[i] := Some(r);
          heldCount := heldCount + 1;
          return true;
        }
        i := i + 1;
      }
      return false;
    }

    method Take(ref: Ref, seq_: nat) returns (r: Option<ExecReport>)
      requires Valid()
      modifies this, slots
      ensures Valid()
      ensures var s := old(slots[..]);
              var i := FirstMatch(s, ref, seq_, 0);
              if i == |s| then r.None? && slots[..] == s else r == s[i] && slots[..] == s[i := None]
      ensures heldCount == old(heldCount) - (if r.Some? then 1 else 0)
    {
      ghost var s := slots[..];
      var i := 0;
      while i < slots.Length
        invariant i <= slots.Length && slots[..] == s && Valid() && heldCount == old(heldCount)
        invariant FirstMatch(s, ref, seq_, 0) == FirstMatch(s, ref, seq_, i)
      {
        if Matches(slots[i], ref, seq_) {
          HeldUpdate(s, i, None);
          r := slots[i];
          slots[i] := None;
          heldCount := heldCount - 1;
          return;
        }
        i := i + 1;
      }
      return None;
    }

    method DiscardAllFor(ref: Ref)
      requires Valid()
      modifies this, slots
      ensures Valid() && slots[..] == Discard(old(slots[..]), ref)
    {
      ghost var s := slots[..];
      var i := 0;
      while i < slots.Length
        invariant i <= slots.Length && Valid()
        invariant forall k | 0 <= k < i :: slots[k] == if IsFor(s[k], ref) then None else s[k]
        invariant forall k | i <= k < slots.Length :: slots[k] == s[k]
      {
        if IsFor(slots[i], ref) {
          ghost var now := slots[..];
          HeldUpdate(now, i, None);
          slots[i] := None;
          heldCount := heldCount - 1;
          assert slots[..] == now[i := None];
        }
        i := i + 1;
      }
    }
  }

  /** A ring of recently finished references that overwrites its oldest entry. */
  class TerminalCache {
    const ring: array<Ref>
    var write: nat
    var count: nat

    ghost function View(): Cache
      reads this, ring
    {
      Cache(ring[..], write, count)
    }

    ghost predicate Valid()
      reads this, ring
    {
      CacheOk(View())
    }

    constructor (capacity: nat)
      ensures Valid() && fresh(ring)
      ensures count == 0 && ring.Length == if capacity == 0 then 1 else capacity
    {
      ring := new Ref[if capacity == 0 then 1 else capacity](i => Ref(0, 0));
      write, count := 0, 0;
    }

    method RecordRef(ref: Ref)
      requires Valid()
      modifies this, ring
      ensures Valid() && View() == Record(old(View()), ref)
    {
      ring[write % ring.Length] := ref;
      write := write + 1;
      if count < ring.Length {
        count := count + 1;
      }
    }

    method Contains(ref: Ref) returns (found: bool)
      requires Valid()
      ensures found == Remembers(View(), ref)
    {
      for i := 0 to count
        invariant ref !in ring[..i]
      {
        if ring[i] == ref {
          assert ring[..count][i] == ref;
          return true;
        }
        assert ring[..i + 1] == ring[..i] + [ring[i]];
      }
      return false;
    }
  }

  class Sequencer {
    const pool: GapPool
    const cache: TerminalCache

    ghost predicate Valid()
      reads this, pool, pool.slots, cache, cache.ring
    {
      pool.Valid() && cache.Valid()
    }

    ghost function View(store: S.Store): State
      reads this, pool, pool.slots, cache, cache.ring
    {
      State(store, pool.slots[..], cache.View())
    }

    constructor (poolCapacity: nat, cacheCapacity: nat)
      ensures Valid() && fresh(pool) && fresh(pool.slots) && fresh(cache) && fresh(cache.ring)
    {
      pool := new GapPool(poolCapacity);
      cache := new TerminalCache(cacheCapacity);
    }

    method Process(o: Oms, r: ExecReport) returns (outcome: ReportOutcome)
      requires Valid() && o.Valid()
      modifies pool, pool.slots, cache, cache.ring, o, o.orders, o.index
      ensures Valid() && o.Valid()
      ensures (View(o.View()), outcome) == ReportSpec.Process(old(View(o.View())), r)
    {
      hide IndexTable.Holds;
      var order := o.Find(r.ref);
      if order.None? {
        var known := cache.Contains(r.ref);
        return if known then TerminalLate else UnknownOrder;
      }
      if r.seq_ <= order.value.lastSeq {
        return Duplicate;
      }
      if r.seq_ > order.value.lastSeq + 1 {
        var held := pool.Hold(r);
        return if held then HeldForGap else GapPoolExhausted;
      }
      var ok := Apply(o, r);
      if !ok {
        return Illegal;
      }
      DrainFor(o, r.ref);
      return Applied;
    }

    method Apply(o: Oms, r: ExecReport) returns (ok: bool)
      requires Valid() && o.Valid()
      modifies cache, cache.ring, o, o.orders, o.index
      ensures Valid() && o.Valid()
      ensures (View(o.View()), ok) == ApplyOne(old(View(o.View())), r)
    {
      hide Oms.Valid, S.Transition, S.Fill, S.Replace, T.Step, T.Moved, T.SlotFor;
      match r.kind {
        case AckReport => ok := o.Transition(r.ref, Acknowledged);
        case FillReport => ok := o.Fill(r.ref, r.volume);
        case CancelPendingReport => ok := o.Transition(r.ref, CancelPending);
        case CancelledReport => ok := o.Transition(r.ref, Cancelled);
        case RejectReport => ok := o.Transition(r.ref, Rejected);
        case ReplaceAck => ok := o.Replace(r.ref, r.price, r.volume);
      }
      if !ok {
        return;
      }
      var after := o.Find(r.ref);
      if after.None? {
        cache.RecordRef(r.ref);
      } else {
        o.StampSeq(r.ref, r.seq_);
      }
    }

    /** One turn of the cascade: takes the held report that is next for the order and applies it, if there is one. */
    method DrainOne(o: Oms, ref: Ref) returns (more: bool)
      requires Valid() && o.Valid()
      modifies pool, pool.slots, cache, cache.ring, o, o.orders, o.index
      ensures Valid() && o.Valid() && (more ==> pool.heldCount < old(pool.heldCount))
      ensures Drain(old(View(o.View())), ref) == if more then Drain(View(o.View()), ref) else View(o.View())
    {
      hide Oms.Valid, ApplyOne, T.SlotFor;
      var order := o.Find(ref);
      if order.None? {
        pool.DiscardAllFor(ref);
        return false;
      }
      var next := pool.Take(ref, order.value.lastSeq + 1);
      if next.None? {
        return false;
      }
      more := Apply(o, next.value);
    }

    /** Nothing to do when the pool is empty; otherwise cascades through the held reports that now fit. */
    method DrainFor(o: Oms, ref: Ref)
      requires Valid() && o.Valid()
      modifies pool, pool.slots, cache, cache.ring, o, o.orders, o.index
      ensures Valid() && o.Valid()
      ensures View(o.View()) == Drain(old(View(o.View())), ref)
    {
      hide Oms.Valid, ApplyOne;
      if pool.heldCount == 0 {
        HeldAll(pool.slots[..]);
        assert Discard(pool.slots[..], ref) == pool.slots[..];
        return;
      }
      ghost var start := View(o.View());
      var more := true;
      while more
        invariant Valid() && o.Valid()
        invariant Drain(start, ref) == if more then Drain(View(o.View()), ref) else View(o.View())
        decreases if more then pool.heldCount + 1 else 0
      {
        more := DrainOne(o, ref);
      }
    }
  }
}
