/** The reader minds one order at a time, so a log is accepted exactly when, order by order, its own records are; and the
    stable sort, which keeps the records of each order together with their times. */
module ByOrder {
  import opened ExecTypes
  import opened Journal
  import opened RecoveryStreaming
  import opened JournalRoundTrip
  import opened WalMerge
  import opened TornCrash

  function About(ref: Ref): Record -> bool {
    (r: Record) => RefOf(r) == ref
  }

  /** The records of one order. */
  function Own(log: seq<Record>, ref: Ref): seq<Record> {
    Filter(About(ref), log)
  }

  /** One order under a sequence of records about it; None when one of them does not fit. */
  function Fold(o: Option<Order>, records: seq<Record>): Option<Option<Order>> {
    if records == [] then Some(o)
    else
      match Fold(o, records[..|records| - 1])
      case None => None
      case Some(o') => OrderStep(o', records[|records| - 1])
  }

  lemma {:induction false} FoldAppend(o: Option<Order>, a: seq<Record>, b: seq<Record>)
    ensures Fold(o, a + b) == match Fold(o, a) case None => None case Some(o') => Fold(o', b)
    decreases |b|
  {
    if b == [] {
      assert a + b == a;
    } else {
      assert (a + b)[..|a + b| - 1] == a + b[..|b| - 1];
      FoldAppend(o, a, b[..|b| - 1]);
      hide OrderStep;
    }
  }

  // ---- reading a log is folding each order ----

  /** What the header check asks besides the time. */
  predicate WellHeaded(r: Record) {
    OrderKind(r.kind) && r.reserved == 0 && r.symbol < MAX_SYMBOLS
  }

  ghost predicate InTime(p: Replay, log: seq<Record>) {
    Sorted(log) && (log != [] ==> p.ledger.lastTs <= log[0].ts) && forall i | 0 <= i < |log| :: WellHeaded(log[i])
  }

  predicate FoldsAt(p: Replay, log: seq<Record>, q: Replay, ref: Ref) {
    Fold(At(p, ref), Own(log, ref)) == Some(At(q, ref))
  }

  /** `q` is `p` after `log`. */
  ghost predicate ReadBy(p: Replay, log: seq<Record>, q: Replay) {
    && q.ledger.lastTs == (if log == [] then p.ledger.lastTs else log[|log| - 1].ts)
    && SameFlags(p, q) && q.store.capacity == p.store.capacity && |q.store.live| <= |p.store.live| + Commands(log)
    && forall ref :: FoldsAt(p, log, q, ref)
  }

  lemma OwnNext(log: seq<Record>, ref: Ref)
    requires log != []
    ensures var r := log[|log| - 1];
            Own(log, ref) == if RefOf(r) == ref then Own(log[..|log| - 1], ref) + [r] else Own(log[..|log| - 1], ref)
  {
    assert Own(log[..|log| - 1], ref) + [] == Own(log[..|log| - 1], ref);
  }

  lemma FoldNext(o: Option<Order>, log: seq<Record>, ref: Ref)
    requires log != []
    ensures var r := log[|log| - 1];
            var before := Fold(o, Own(log[..|log| - 1], ref));
            Fold(o, Own(log, ref)) == if RefOf(r) != ref || before.None? then before else OrderStep(before.value, r)
  {
    hide OrderStep;
    OwnNext(log, ref);
  }

  /** One record more is accepted when it comes no earlier, its own order takes it, and there is room. */
  lemma ReadOneMore(p: Replay, log: seq<Record>, q: Replay)
    requires log != [] && InTime(p, log) && ReadBy(p, log[..|log| - 1], q)
    ensures var r := log[|log| - 1];
            && (ReadStep(q, r).Some? ==> ReadBy(p, log, ReadStep(q, r).value))
            && (ReadStep(q, r).Some? ==> Fold(At(p, RefOf(r)), Own(log, RefOf(r))).Some?)
            && (Fold(At(p, RefOf(r)), Own(log, RefOf(r))).Some? && (r.kind == COMMAND ==> |q.store.live| < q.store.capacity)
                ==> ReadStep(q, r).Some?)
  {
    hide ReadStep, OrderStep, Written, At, Fold, Own;
    var front, r := log[..|log| - 1], log[|log| - 1];
    assert WellHeaded(r) && q.ledger.lastTs <= r.ts;
    assert FoldsAt(p, front, q, RefOf(r));
    FoldNext(At(p, RefOf(r)), log, RefOf(r));
    ReadIsLocal(q, r);
    if ReadStep(q, r).Some? {
      ReadTouchesOne(q, r);
      var q' := ReadStep(q, r).value;
      AtWritten(q, q', r);
      forall ref ensures FoldsAt(p, log, q', ref) {
        assert FoldsAt(p, front, q, ref);
        FoldNext(At(p, ref), log, ref);
      }
    }
  }

  lemma AtWritten(q: Replay, q': Replay, r: Record)
    requires OrderKind(r.kind) && ReadStep(q, r) == Some(q')
    ensures Some(At(q', RefOf(r))) == OrderStep(At(q, RefOf(r)), r)
  {
    hide ReadStep, OrderStep, Written;
    ReadIsLocal(q, r);
    WrittenSize(q.store.live, RefOf(r), OrderStep(At(q, RefOf(r)), r).value);
  }

  lemma InTimeFront(p: Replay, log: seq<Record>)
    requires log != [] && InTime(p, log)
    ensures InTime(p, log[..|log| - 1])
  {
    var front := log[..|log| - 1];
    assert front != [] ==> front[0] == log[0];
  }

  lemma ReadLast(p: Replay, log: seq<Record>)
    requires log != []
    ensures ReadPlain(p, log) == match ReadPlain(p, log[..|log| - 1])
                                 case None => None case Some(q) => ReadStep(q, log[|log| - 1])
  {
    ReadNext(p, log, |log| - 1);
    assert log[..|log|] == log;
  }

  lemma InTimeSnoc(p: Replay, log: seq<Record>)
    requires log != [] && InTime(p, log[..|log| - 1]) && WellHeaded(log[|log| - 1])
    requires (if |log| == 1 then p.ledger.lastTs else log[|log| - 2].ts) <= log[|log| - 1].ts
    ensures InTime(p, log)
  {
    hide WellHeaded;
    var front, last := log[..|log| - 1], |log| - 1;
    forall i, j | 0 <= i < j < |log| ensures log[i].ts <= log[j].ts {
      if j == last && i < last - 1 { assert front[i].ts <= front[last - 1].ts; }
      if j < last { assert front[i].ts <= front[j].ts; }
    }
    forall i | 0 <= i < |log| ensures WellHeaded(log[i]) {
      if i < last { assert WellHeaded(front[i]); }
    }
    if |log| > 1 { assert front[0] == log[0] && front[0].ts <= front[last - 1].ts; }
  }

  /** What is accepted was in time. */
  lemma {:induction false} AcceptedInTime(p: Replay, log: seq<Record>)
    requires ReadPlain(p, log).Some? && forall i | 0 <= i < |log| :: OrderKind(log[i].kind)
    ensures InTime(p, log)
    ensures ReadPlain(p, log).value.ledger.lastTs == if log == [] then p.ledger.lastTs else log[|log| - 1].ts
  {
    if log != [] {
      var front, r := log[..|log| - 1], log[|log| - 1];
      hide ReadPlain, ReadStep, OrderKind, OrderStep, Written, InTime;
      ReadLast(p, log);
      AcceptedInTime(p, front);
      ReadIsLocal(ReadPlain(p, front).value, r);
      InTimeSnoc(p, log);
    }
  }

  /** An accepted log does to each order what the order's own records do. */
  lemma {:induction false} AcceptedFolds(p: Replay, log: seq<Record>)
    requires InTime(p, log) && ReadPlain(p, log).Some?
    ensures ReadBy(p, log, ReadPlain(p, log).value)
  {
    if log == [] {
      assert forall ref :: FoldsAt(p, log, p, ref);
    } else {
      hide ReadPlain, ReadStep, ReadBy, InTime;
      ReadLast(p, log);
      InTimeFront(p, log);
      AcceptedFolds(p, log[..|log| - 1]);
      ReadOneMore(p, log, ReadPlain(p, log[..|log| - 1]).value);
    }
  }

  /** A log each order of which takes its own records is accepted, given room. */
  lemma {:induction false} FoldsAreAccepted(p: Replay, log: seq<Record>)
    requires InTime(p, log) && |p.store.live| + Commands(log) <= p.store.capacity
    requires forall ref :: Fold(At(p, ref), Own(log, ref)).Some?
    ensures ReadPlain(p, log).Some?
  {
    if log != [] {
      var front, r := log[..|log| - 1], log[|log| - 1];
      hide ReadPlain, ReadStep, InTime, Fold, Own, At, OrderStep;
      InTimeFront(p, log);
      forall ref ensures Fold(At(p, ref), Own(front, ref)).Some? {
        FoldNext(At(p, ref), log, ref);
      }
      FoldsAreAccepted(p, front);
      AcceptedFolds(p, front);
      var q := ReadPlain(p, front).value;
      ReadOneMore(p, log, q);
      ReadLast(p, log);
    }
  }

  // ---- sorting, order by order ----

  lemma {:induction false} SortedStays(log: seq<Record>)
    requires Sorted(log)
    ensures StableSort(log) == log
  {
    if log != [] {
      SortedStays(log[..|log| - 1]);
    }
  }

  lemma FilterSnoc(keep: Record -> bool, log: seq<Record>, r: Record)
    ensures Filter(keep, log + [r]) == if keep(r) then Filter(keep, log) + [r] else Filter(keep, log)
  {
    assert (log + [r])[..|log|] == log;
    assert Filter(keep, log) + [] == Filter(keep, log);
  }

  lemma InsertSnoc(sorted: seq<Record>, r: Record, last: Record)
    ensures Insert(sorted + [last], r) == if last.ts <= r.ts then sorted + [last, r] else Insert(sorted, r) + [last]
  {
    assert (sorted + [last])[..|sorted|] == sorted;
    assert sorted + [last] + [r] == sorted + [last, r];
  }

  /** After every record that is not later: at the end. */
  lemma InsertAtEnd(keep: Record -> bool, sorted: seq<Record>, r: Record)
    requires Sorted(sorted) && (sorted == [] || sorted[|sorted| - 1].ts <= r.ts)
    ensures Insert(Filter(keep, sorted), r) == Filter(keep, sorted) + [r]
  {
    var kept := Filter(keep, sorted);
    if kept != [] { InFilter(keep, sorted, kept[|kept| - 1]); }
  }

  lemma {:induction false} FilterInsert(keep: Record -> bool, sorted: seq<Record>, r: Record)
    requires Sorted(sorted)
    ensures Filter(keep, Insert(sorted, r)) == if keep(r) then Insert(Filter(keep, sorted), r) else Filter(keep, sorted)
  {
    if sorted == [] || sorted[|sorted| - 1].ts <= r.ts {
      InsertAtEnd(keep, sorted, r);
      FilterSnoc(keep, sorted, r);
    } else {
      var front, last := sorted[..|sorted| - 1], sorted[|sorted| - 1];
      assert front + [last] == sorted;
      FilterInsert(keep, front, r);
      hide Filter, Insert;
      InsertSnoc(front, r, last);
      FilterSnoc(keep, front, last);
      FilterSnoc(keep, Insert(front, r), last);
      InsertSnoc(Filter(keep, front), r, last);
    }
  }

  /** Sorting and picking out commute. */
  lemma {:induction false} FilterSort(keep: Record -> bool, log: seq<Record>)
    ensures Filter(keep, StableSort(log)) == StableSort(Filter(keep, log))
  {
    if log != [] {
      var front, last := log[..|log| - 1], log[|log| - 1];
      FilterSort(keep, front);
      StableSortMeaning(front, 0);
      FilterInsert(keep, StableSort(front), last);
      var kept := Filter(keep, front);
      if keep(last) {
        assert (kept + [last])[..|kept|] == kept;
      } else {
        assert kept + [] == kept;
      }
    }
  }

  /** Sorting each half first changes nothing. */
  lemma SortAgain(a: seq<Record>, b: seq<Record>)
    ensures StableSort(a + b) == StableSort(StableSort(a) + StableSort(b))
  {
    var x, y := StableSort(a + b), StableSort(StableSort(a) + StableSort(b));
    forall ts: nat ensures Filter(AtTime(ts), x) == Filter(AtTime(ts), y) {
      StableSortMeaning(a + b, ts);
      StableSortMeaning(StableSort(a) + StableSort(b), ts);
      StableSortMeaning(a, ts);
      StableSortMeaning(b, ts);
      FilterAppend(AtTime(ts), a, b);
      FilterAppend(AtTime(ts), StableSort(a), StableSort(b));
    }
    StableSortMeaning(a + b, 0);
    StableSortMeaning(StableSort(a) + StableSort(b), 0);
    SortedIsUnique(x, y);
  }

  lemma {:induction false} InsertBefore(a: seq<Record>, later: seq<Record>, r: Record)
    requires (a == [] || a[|a| - 1].ts <= r.ts) && forall i | 0 <= i < |later| :: r.ts < later[i].ts
    ensures Insert(a + later, r) == a + [r] + later
    decreases |later|
  {
    var all := a + later;
    if later == [] {
      assert all == a && a + [r] + later == a + [r];
    } else {
      var front := later[..|later| - 1];
      InsertBefore(a, front, r);
      assert all[..|all| - 1] == a + front && front + [later[|later| - 1]] == later;
    }
  }

  lemma SortSnoc(log: seq<Record>, r: Record)
    ensures StableSort(log + [r]) == Insert(StableSort(log), r)
  {
    assert (log + [r])[..|log|] == log;
  }

  /** Records of one time, appended to a sorted log, go in after the ones that are not later. */
  lemma {:induction false} MergeAtOneTime(a: seq<Record>, k: nat, rs: seq<Record>, ts: nat)
    requires Sorted(a) && k <= |a| && (forall i | 0 <= i < k :: a[i].ts <= ts) && (forall i | k <= i < |a| :: ts < a[i].ts)
    requires forall i | 0 <= i < |rs| :: rs[i].ts == ts
    ensures StableSort(a + rs) == a[..k] + rs + a[k..]
    decreases |rs|
  {
    if rs == [] {
      assert a + rs == a && a[..k] + rs + a[k..] == a;
      SortedStays(a);
    } else {
      var front, r := rs[..|rs| - 1], rs[|rs| - 1];
      assert r.ts == ts && rs == front + [r];
      MergeAtOneTime(a, k, front, ts);
      SortSnoc(a + front, r);
      hide StableSort, Sorted, Insert;
      assert a + rs == a + front + [r];
      var early, late := a[..k] + front, a[k..];
      assert early != [] ==> early[|early| - 1].ts <= ts;
      InsertBefore(early, late, r);
      assert early + [r] == a[..k] + rs;
    }
  }

  /** Up to where the log is not later than `ts`. */
  lemma {:induction false} SplitAt(a: seq<Record>, ts: nat) returns (k: nat)
    requires Sorted(a)
    ensures k <= |a| && (forall i | 0 <= i < k :: a[i].ts <= ts) && (forall i | k <= i < |a| :: ts < a[i].ts)
  {
    if a == [] || a[|a| - 1].ts <= ts {
      k := |a|;
    } else {
      k := SplitAt(a[..|a| - 1], ts);
    }
  }

  /** Sorting keeps the number of creations. */
  lemma CommandsSort(log: seq<Record>)
    ensures Commands(StableSort(log)) == Commands(log)
  {
    CommandsAreFiltered(log);
    CommandsAreFiltered(StableSort(log));
    FilterSort(IsCommand, log);
    SortSize(Filter(IsCommand, log));
  }

  predicate IsCommand(r: Record) {
    r.kind == COMMAND
  }

  lemma {:induction false} CommandsAreFiltered(log: seq<Record>)
    ensures Commands(log) == |Filter(IsCommand, log)|
  {
    if log != [] {
      CommandsAreFiltered(log[..|log| - 1]);
    }
  }

  lemma {:induction false} SortSize(log: seq<Record>)
    ensures |StableSort(log)| == |log|
  {
    if log != [] {
      SortSize(log[..|log| - 1]);
      InsertSize(StableSort(log[..|log| - 1]), log[|log| - 1]);
    }
  }

  lemma {:induction false} InsertSize(sorted: seq<Record>, r: Record)
    ensures |Insert(sorted, r)| == |sorted| + 1
  {
    if !(sorted == [] || sorted[|sorted| - 1].ts <= r.ts) {
      InsertSize(sorted[..|sorted| - 1], r);
    }
  }

  lemma CommandsAppend(a: seq<Record>, b: seq<Record>)
    ensures Commands(a + b) == Commands(a) + Commands(b)
  {
    CommandsAreFiltered(a);
    CommandsAreFiltered(b);
    CommandsAreFiltered(a + b);
    FilterAppend(IsCommand, a, b);
  }

  lemma OwnSort(a: seq<Record>, b: seq<Record>, ref: Ref)
    ensures Own(StableSort(a + b), ref) == StableSort(Own(a, ref) + Own(b, ref))
  {
    FilterSort(About(ref), a + b);
    FilterAppend(About(ref), a, b);
  }

  lemma {:induction false} SortKeepsMembers(log: seq<Record>, r: Record)
    ensures r in StableSort(log) <==> r in log
  {
    StableSortMeaning(log, r.ts);
    InFilter(AtTime(r.ts), log, r);
    InFilter(AtTime(r.ts), StableSort(log), r);
  }
}
