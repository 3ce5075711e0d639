/** Two logs sorted into each other: one of a run that begins with nothing, and one of a run that begins with what the first
    left, every order marked unknown. When the reader accepts the mixture, and what it makes of it. */
module TwoLogs {
  import opened ExecTypes
  import opened Journal
  import W = ShardedOms
  import opened RecoveryStreaming
  import opened JournalRoundTrip
  import opened WalMerge
  import opened TornCrash
  import opened ByOrder

  // ---- what one order makes of both runs ----

  /** All at once: the step of an ambiguous order to its end, after the volume of the fill that brought it there. */
  predicate Resolves(rs: seq<Record>, ts: nat) {
    && 1 <= |rs| <= 2 && (forall i | 0 <= i < |rs| :: rs[i].ts == ts) && (|rs| == 2 ==> rs[0].kind == FILL)
    && rs[|rs| - 1].kind == ORDER_STATE && rs[|rs| - 1].a == StateCode(Unknown)
  }

  lemma AtOnce(rs: seq<Record>, ts: nat)
    requires Resolves(rs, ts)
    ensures rs != [] && forall i | 0 <= i < |rs| :: rs[i].ts == ts
  {
  }

  /** Only an order that is unknown by then takes such records, and they end it. */
  lemma ResolvesUnknown(o: Option<Order>, rs: seq<Record>, ts: nat)
    requires Resolves(rs, ts) && Fold(o, rs).Some?
    ensures o.Some? && o.value.state.Unknown? && Fold(o, rs) == Some(None)
  {
    var front, r := rs[..|rs| - 1], rs[|rs| - 1];
    assert Fold(o, front[..0]) == Some(o);
    CodesRoundTrip(Unknown);
    if front != [] { assert front[..|front| - 1] == front[..0]; }
  }

  /** Whatever an unknown order takes, an order that is gone does not. */
  lemma GoneTakesLess(o: Order, r: Record)
    requires o.state.Unknown? && OrderKind(r.kind) && r.logicalId != 0 && OrderStep(Some(o), r).Some?
    ensures OrderStep(None, r).None?
  {
  }

  lemma FoldFirst(o: Option<Order>, rs: seq<Record>)
    requires rs != []
    ensures Fold(o, rs) == match OrderStep(o, rs[0]) case None => None case Some(o') => Fold(o', rs[1..])
  {
    hide OrderStep;
    assert [rs[0]][..0] == [] && rs == [rs[0]] + rs[1..];
    FoldAppend(o, [rs[0]], rs[1..]);
  }

  /** After its end in the second run nothing of the first run about it fits. */
  lemma NothingLater(w: Option<Order>, rs: seq<Record>, ts: nat, late: seq<Record>)
    requires Resolves(rs, ts) && Fold(w, late).Some? && late != [] && OrderKind(late[0].kind) && late[0].logicalId != 0
    ensures Fold(w, rs + late).None?
  {
    hide Fold, OrderStep, Resolves;
    FoldAppend(w, rs, late);
    if Fold(w, rs).Some? {
      ResolvesUnknown(w, rs, ts);
      FoldFirst(w, late);
      FoldFirst(None, late);
      GoneTakesLess(w.value, late[0]);
    }
  }

  lemma ResolvedBetween(early: seq<Record>, late: seq<Record>, o: Order, rs: seq<Record>, ts: nat)
    requires Fold(None, early + late) == Some(Some(o))
    requires late != [] ==> OrderKind(late[0].kind) && late[0].logicalId != 0
    requires Resolves(rs, ts) && Fold(Some(o.(state := Unknown)), rs).Some?
    ensures var all := Fold(None, early + rs + late);
            && (all.Some? <==> o.state.Unknown? && late == [])
            && (all.Some? ==> all == Some(None))
  {
    hide Fold, OrderStep, Resolves;
    FoldAppend(None, early, late);
    if late == [] {
      assert early + rs + late == early + rs && early + late == early;
      FoldAppend(None, early, rs);
      if o.state.Unknown? { assert o.(state := Unknown) == o; }
      if Fold(Some(o), rs).Some? { ResolvesUnknown(Some(o), rs, ts); }
    } else {
      assert early + rs + late == early + (rs + late);
      NothingLater(Fold(None, early).value, rs, ts, late);
      FoldAppend(None, early, rs + late);
    }
  }

  /** The records of an order left live by the first run, and those that end it in the second, sorted into each other. */
  lemma MergedResolution(own: seq<Record>, o: Order, rs: seq<Record>, ts: nat)
    requires Sorted(own) && Fold(None, own) == Some(Some(o))
    requires forall i | 0 <= i < |own| :: OrderKind(own[i].kind) && own[i].logicalId != 0
    requires Resolves(rs, ts) && Fold(Some(o.(state := Unknown)), rs).Some?
    ensures var all := Fold(None, StableSort(own + rs));
            && (all.Some? <==> o.state.Unknown? && forall i | 0 <= i < |own| :: own[i].ts <= ts)
            && (all.Some? ==> all == Some(None))
  {
    hide Fold, StableSort, OrderStep, Resolves, Sorted;
    AtOnce(rs, ts);
    var k := SplitAt(own, ts);
    MergeAtOneTime(own, k, rs, ts);
    var early, late := own[..k], own[k..];
    assert own == early + late;
    if k < |own| { assert late[0] == own[k] && own[k].ts > ts; }
    ResolvedBetween(early, late, o, rs, ts);
  }

  lemma FoldNothing(o: Option<Order>)
    ensures Fold(o, []) == Some(o)
  {
  }

  // ---- both logs, order by order ----

  function MarkedOne(o: Option<Order>): Option<Order> {
    if o.Some? then Some(Marked(o.value)) else None
  }

  ghost predicate Mentions(log: seq<Record>, ref: Ref) {
    exists r <- log :: RefOf(r) == ref
  }

  ghost predicate NumberedOn(first: seq<Record>, second: seq<Record>, ref: Ref) {
    forall r <- first, q <- second | RefOf(r) == ref && RefOf(q) == ref :: r.ts <= q.ts
  }

  /** No obstacle for the next recovery: the second run wrote nothing about the order, or the first left it unknown and
      numbered no record of it higher. */
  ghost predicate Fits(first: seq<Record>, left: map<Ref, Order>, second: seq<Record>, ref: Ref) {
    ref in left && Mentions(second, ref) ==> left[ref].state.Unknown? && NumberedOn(first, second, ref)
  }

  ghost predicate OwnFits(own: seq<Record>, rs: seq<Record>, o: Order) {
    o.state.Unknown? && forall i, j | 0 <= i < |own| && 0 <= j < |rs| :: own[i].ts <= rs[j].ts
  }

  lemma OwnMembers(log: seq<Record>, ref: Ref)
    ensures forall r :: r in Own(log, ref) <==> r in log && RefOf(r) == ref
    ensures Own(log, ref) != [] <==> Mentions(log, ref)
  {
    forall r ensures r in Own(log, ref) <==> r in log && RefOf(r) == ref {
      InFilter(About(ref), log, r);
    }
    if Own(log, ref) != [] { assert Own(log, ref)[0] in Own(log, ref); }
    hide Own;
  }

  /** The same, read off the order's own records. */
  lemma FitsByOwn(first: seq<Record>, left: map<Ref, Order>, second: seq<Record>, ref: Ref)
    ensures Fits(first, left, second, ref)
            <==> (ref in left && Own(second, ref) != [] ==> OwnFits(Own(first, ref), Own(second, ref), left[ref]))
  {
    OwnMembers(first, ref);
    OwnMembers(second, ref);
    hide Own, Mentions;
    var own, rs := Own(first, ref), Own(second, ref);
    if NumberedOn(first, second, ref) {
      forall i, j | 0 <= i < |own| && 0 <= j < |rs| ensures own[i].ts <= rs[j].ts {
        assert own[i] in own && rs[j] in rs;
      }
    }
    if forall i, j | 0 <= i < |own| && 0 <= j < |rs| :: own[i].ts <= rs[j].ts {
      forall r, q | r in first && q in second && RefOf(r) == ref && RefOf(q) == ref ensures r.ts <= q.ts {
        assert r in own && q in rs;
      }
    }
  }

  /** What the second log says of an order: about one left live, nothing or its end; the others are in one log only. */
  ghost predicate Divided(first: seq<Record>, left: map<Ref, Order>, second: seq<Record>, ref: Ref) {
    var rs := Own(second, ref);
    if ref in left then
      ref.logicalId != 0 && !IsTerminal(left[ref].state) && (rs == [] || Resolves(rs, rs[0].ts))
    else Own(first, ref) == [] || rs == []
  }

  lemma OwnIsOwn(log: seq<Record>, ref: Ref)
    requires Sorted(log) && forall i | 0 <= i < |log| :: OrderKind(log[i].kind)
    ensures var own := Own(log, ref);
            Sorted(own) && forall i | 0 <= i < |own| :: OrderKind(own[i].kind) && RefOf(own[i]) == ref
  {
    var own := Own(log, ref);
    FilterSort(About(ref), log);
    SortedStays(log);
    StableSortMeaning(own, 0);
    forall i | 0 <= i < |own| ensures OrderKind(own[i].kind) && RefOf(own[i]) == ref {
      assert own[i] in own;
      InFilter(About(ref), log, own[i]);
    }
  }

  /** An order in both logs. */
  lemma MergedInBoth(own: seq<Record>, o: Order, rs: seq<Record>, end: Option<Order>)
    requires Sorted(own) && Fold(None, own) == Some(Some(o)) && rs != [] && Resolves(rs, rs[0].ts)
    requires forall i | 0 <= i < |own| :: OrderKind(own[i].kind) && own[i].logicalId != 0
    requires !IsTerminal(o.state) && Fold(Some(Marked(o)), rs) == Some(end)
    ensures var all := Fold(None, StableSort(own + rs));
            && (all.Some? <==> OwnFits(own, rs, o))
            && (all.Some? ==> all.value == end)
  {
    hide Fold, Sorted, StableSort, Resolves;
    var ts := rs[0].ts;
    AtOnce(rs, ts);
    MergedResolution(own, o, rs, ts);
    ResolvesUnknown(Some(Marked(o)), rs, ts);
    if all: nat :| all < |own| && own[all].ts > ts { assert own[all].ts > rs[0].ts; }
  }

  lemma MergedOrder(first: seq<Record>, left: map<Ref, Order>, second: seq<Record>, ref: Ref, end: Option<Order>)
    requires Sorted(first) && Sorted(second) && forall i | 0 <= i < |first| :: OrderKind(first[i].kind)
    requires forall i | 0 <= i < |second| :: OrderKind(second[i].kind)
    requires Divided(first, left, second, ref)
    requires Fold(None, Own(first, ref)) == Some(W.Lookup(left, ref))
    requires Fold(MarkedOne(W.Lookup(left, ref)), Own(second, ref)) == Some(end)
    ensures var all := Fold(None, Own(StableSort(first + second), ref));
            && (all.Some? <==> Fits(first, left, second, ref))
            && (all.Some? ==> MarkedOne(all.value) == MarkedOne(end))
  {
    var own, rs := Own(first, ref), Own(second, ref);
    OwnSort(first, second, ref);
    OwnIsOwn(first, ref);
    OwnIsOwn(second, ref);
    FitsByOwn(first, left, second, ref);
    hide Own, Sorted, StableSort, Resolves, Fold, Fits, OwnFits;
    if rs == [] {
      assert own + rs == own;
      SortedStays(own);
      FoldNothing(MarkedOne(W.Lookup(left, ref)));
    } else if ref in left {
      MergedInBoth(own, left[ref], rs, end);
    } else {
      assert own + rs == rs;
      SortedStays(rs);
    }
  }

  // ---- reading both logs sorted into each other ----

  ghost predicate Ordering(log: seq<Record>) {
    Sorted(log) && forall i | 0 <= i < |log| :: WellHeaded(log[i])
  }

  lemma MergedIsInTime(p: Replay, first: seq<Record>, second: seq<Record>)
    requires p.ledger.lastTs == 0 && Ordering(first) && Ordering(second)
    ensures InTime(p, StableSort(first + second))
  {
    var log := StableSort(first + second);
    StableSortMeaning(first + second, 0);
    forall i | 0 <= i < |log| ensures WellHeaded(log[i]) {
      SortKeepsMembers(first + second, log[i]);
      assert log[i] in log && (log[i] in first || log[i] in second);
    }
  }

  /** A run read from an empty store, then one read from what it left with every order marked. */
  ghost predicate TwoRuns(p: Replay, first: seq<Record>, p1: Replay, q: Replay, second: seq<Record>, q1: Replay) {
    && p.store.live == map[] && p.ledger.lastTs == 0 && InTime(p, first) && ReadPlain(p, first) == Some(p1)
    && q.store.live == MarkAll(p1.store.live) && InTime(q, second) && ReadPlain(q, second) == Some(q1)
    && Commands(first) + Commands(second) <= p.store.capacity
    && forall ref :: Divided(first, p1.store.live, second, ref)
  }

  lemma TwoRunsAt(p: Replay, first: seq<Record>, p1: Replay, q: Replay, second: seq<Record>, q1: Replay, ref: Ref)
    requires TwoRuns(p, first, p1, q, second, q1)
    ensures var all := Fold(None, Own(StableSort(first + second), ref));
            && (all.Some? <==> Fits(first, p1.store.live, second, ref))
            && (all.Some? ==> MarkedOne(all.value) == MarkedOne(At(q1, ref)))
  {
    hide ReadPlain, Own, Fold, Fits, StableSort, Sorted;
    AcceptedFolds(p, first);
    AcceptedFolds(q, second);
    assert FoldsAt(p, first, p1, ref) && FoldsAt(q, second, q1, ref) && Divided(first, p1.store.live, second, ref);
    hide Divided;
    assert At(q, ref) == MarkedOne(At(p1, ref));
    MergedOrder(first, p1.store.live, second, ref, At(q1, ref));
  }

  /** The two logs are accepted, sorted into each other, exactly when every order fits; and then every order stands as the
      second run left it, up to the mark. */
  lemma TwoRunsRead(p: Replay, first: seq<Record>, p1: Replay, q: Replay, second: seq<Record>, q1: Replay)
    requires TwoRuns(p, first, p1, q, second, q1)
    ensures var m := ReadPlain(p, StableSort(first + second));
            && (m.Some? <==> forall ref :: Fits(first, p1.store.live, second, ref))
            && (m.Some? ==> SameFlags(p, m.value) && forall ref :: MarkedOne(At(m.value, ref)) == MarkedOne(At(q1, ref)))
  {
    hide ReadPlain, Own, Fold, Fits, StableSort, Sorted, Divided;
    var log := StableSort(first + second);
    MergedIsInTime(p, first, second);
    CommandsSort(first + second);
    CommandsAppend(first, second);
    if ReadPlain(p, log).Some? {
      AcceptedFolds(p, log);
      var m := ReadPlain(p, log).value;
      forall ref ensures Fits(first, p1.store.live, second, ref) && MarkedOne(At(m, ref)) == MarkedOne(At(q1, ref)) {
        assert FoldsAt(p, log, m, ref);
        TwoRunsAt(p, first, p1, q, second, q1, ref);
      }
    }
    if forall ref :: Fits(first, p1.store.live, second, ref) {
      forall ref ensures Fold(At(p, ref), Own(log, ref)).Some? {
        TwoRunsAt(p, first, p1, q, second, q1, ref);
      }
      FoldsAreAccepted(p, log);
    }
  }
}
