/** A restart: the recovered orders go back into fresh shards, and nothing is written of it. */
module Restarts {
  import opened ExecTypes
  import S = OmsSpec
  import opened ReportSpec
  import W = ShardedOms
  import opened JournalRoundTrip
  import opened JournalRuns

  /** The fresh shards hold the recovered orders, and nothing else. */
  ghost predicate Restarted(sys: System, live: map<Ref, Order>) {
    Wf(sys) && LiveCount(sys.shards) == |live| && forall ref :: Live(sys, ref) == W.Lookup(live, ref)
  }

  function Restore(sys: System, o: Order): System
    requires |sys.shards| > 0
  {
    var s := ShardOf(o.ref, |sys.shards|);
    System(sys.shards[s := sys.shards[s].(store := S.Restore(sys.shards[s].store, o).store)])
  }

  function RestoreAll(sys: System, orders: seq<Order>): (sys': System)
    requires |sys.shards| > 0
    ensures |sys'.shards| == |sys.shards|
  {
    if orders == [] then sys else Restore(RestoreAll(sys, orders[..|orders| - 1]), orders[|orders| - 1])
  }

  /** The orders of a list, by reference. */
  function ByRef(orders: seq<Order>): map<Ref, Order> {
    if orders == [] then map[]
    else
      var o := orders[|orders| - 1];
      ByRef(orders[..|orders| - 1])[o.ref := o]
  }

  predicate Restorable(o: Order) {
    0 < o.requested && 0 <= o.filled <= o.requested
  }

  lemma {:induction false} NotListed(orders: seq<Order>, ref: Ref)
    requires forall i | 0 <= i < |orders| :: orders[i].ref != ref
    ensures ref !in ByRef(orders)
  {
    if orders != [] {
      NotListed(orders[..|orders| - 1], ref);
    }
  }

  lemma {:induction false} ByRefSize(orders: seq<Order>)
    ensures |ByRef(orders)| <= |orders|
  {
    if orders != [] {
      var front, o := orders[..|orders| - 1], orders[|orders| - 1];
      ByRefSize(front);
      assert ByRef(orders).Keys == ByRef(front).Keys + {o.ref};
    }
  }

  lemma {:induction false} ShardIsCounted(shards: seq<State>, s: nat)
    requires s < |shards|
    ensures |shards[s].store.live| <= LiveCount(shards)
  {
    if s < |shards| - 1 {
      ShardIsCounted(shards[..|shards| - 1], s);
    }
  }

  /** The shard of the order takes it. */
  lemma TakesOrder(sys: System, live: map<Ref, Order>, o: Order)
    requires Restarted(sys, live) && o.ref !in live && Restorable(o)
    requires |live| < ShardFor(sys, o.ref).store.capacity
    ensures var s, st := ShardOf(o.ref, |sys.shards|), ShardFor(sys, o.ref);
            var st' := st.(store := S.Restore(st.store, o).store);
            && Restore(sys, o) == System(sys.shards[s := st'])
            && st'.store.live == st.store.live[o.ref := o] && |st'.store.live| == |st.store.live| + 1
            && st'.store.capacity == st.store.capacity
  {
    var st := ShardFor(sys, o.ref);
    ShardIsCounted(sys.shards, ShardOf(o.ref, |sys.shards|));
    assert Live(sys, o.ref) == W.Lookup(live, o.ref);
    assert st.store.live[o.ref := o].Keys == st.store.live.Keys + {o.ref};
  }

  lemma TakenIsWf(sys: System, s: nat, o: Order, st: State)
    requires Wf(sys) && s == ShardOf(o.ref, |sys.shards|) && CacheOk(st.cache)
    requires st.store.live == sys.shards[s].store.live[o.ref := o]
    ensures Wf(System(sys.shards[s := st]))
  {
    var n := |sys.shards|;
    var shards := sys.shards[s := st];
    forall t | 0 <= t < n ensures Routed(shards[t].store.live, t, n) {
      assert Routed(sys.shards[t].store.live, t, n);
    }
  }

  lemma TakenAt(sys: System, live: map<Ref, Order>, o: Order, st: State, ref: Ref)
    requires |sys.shards| > 0 && Live(sys, ref) == W.Lookup(live, ref)
    requires st.store.live == ShardFor(sys, o.ref).store.live[o.ref := o]
    requires st.store.capacity == ShardFor(sys, o.ref).store.capacity
    ensures var sys' := System(sys.shards[ShardOf(o.ref, |sys.shards|) := st]);
            && Live(sys', ref) == W.Lookup(live[o.ref := o], ref)
            && ShardFor(sys', ref).store.capacity == ShardFor(sys, ref).store.capacity
  {
  }

  /** One order more. */
  lemma RestoreOne(sys: System, live: map<Ref, Order>, o: Order)
    requires Restarted(sys, live) && o.ref !in live && Restorable(o)
    requires |live| < ShardFor(sys, o.ref).store.capacity
    ensures Restarted(Restore(sys, o), live[o.ref := o])
    ensures forall ref :: ShardFor(Restore(sys, o), ref).store.capacity == ShardFor(sys, ref).store.capacity
  {
    hide Restore, S.Restore, Wf, LiveCount, Live, Restorable;
    WfGives(sys, o.ref);
    var s := ShardOf(o.ref, |sys.shards|);
    var st := ShardFor(sys, o.ref);
    var st' := st.(store := S.Restore(st.store, o).store);
    TakesOrder(sys, live, o);
    TakenIsWf(sys, s, o, st');
    LiveCountUpdate(sys.shards, s, st');
    assert live[o.ref := o].Keys == live.Keys + {o.ref};
    var sys' := Restore(sys, o);
    forall ref ensures Live(sys', ref) == W.Lookup(live[o.ref := o], ref)
                       && ShardFor(sys', ref).store.capacity == ShardFor(sys, ref).store.capacity {
      assert Live(sys, ref) == W.Lookup(live, ref);
      TakenAt(sys, live, o, st', ref);
    }
  }

  /** Restoring the recovered orders into fresh shards with room enough puts exactly them there. */
  lemma {:induction false} RestoreRestarts(sys: System, orders: seq<Order>)
    requires Init(sys) && forall i, j | 0 <= i < j < |orders| :: orders[i].ref != orders[j].ref
    requires forall i | 0 <= i < |orders| :: Restorable(orders[i])
    requires forall s | 0 <= s < |sys.shards| :: |orders| <= sys.shards[s].store.capacity
    ensures Restarted(RestoreAll(sys, orders), ByRef(orders))
    ensures forall ref :: ShardFor(RestoreAll(sys, orders), ref).store.capacity == ShardFor(sys, ref).store.capacity
  {
    if orders == [] {
      EmptyCount(sys.shards);
    } else {
      var front, o := orders[..|orders| - 1], orders[|orders| - 1];
      RestoreRestarts(sys, front);
      ByRefSize(front);
      NotListed(front, o.ref);
      hide Restarted, Restore, Init, Restorable;
      assert Restorable(o);
      RestoreOne(RestoreAll(sys, front), ByRef(front), o);
    }
  }
}
