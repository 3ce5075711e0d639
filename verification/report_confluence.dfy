/** Independence of arrival order: what a store looks like after any arrivals depends only on which
    reports arrived, and each order is the in-order fold of its longest received prefix. */
module ReportConfluence {
  import opened ExecTypes
  import S = OmsSpec
  import opened ReportSpec

  /** The venue's reports for each order, the k-th (from 0) numbered one past the order's last number plus k. */
  type Script = map<Ref, seq<ExecReport>>

  ghost predicate ScriptFor(script: Script, live: map<Ref, Order>) {
    forall ref <- script ::
      ref in live &&
      forall k | 0 <= k < |script[ref]| ::
        script[ref][k].ref == ref && script[ref][k].seq_ == live[ref].lastSeq + 1 + k
  }

  /** Every arrival is one of the venue's reports; repeats are allowed. */
  ghost predicate FromScript(script: Script, arrivals: seq<ExecReport>) {
    forall a <- arrivals :: a.ref in script && a in script[a.ref]
  }

  // ---- the in-order fold of one order ----

  /** Stuck: the report at position `at` was refused, so no later number is ever next. */
  datatype Track = Running(order: Order) | Ended | Stuck(order: Order, at: nat)

  function Fold(o: Order, reports: seq<ExecReport>, n: nat): Track
    requires n <= |reports|
  {
    if n == 0 then Running(o)
    else
      match Fold(o, reports, n - 1)
      case Ended => Ended
      case Stuck(p, at) => Stuck(p, at)
      case Running(p) =>
        match ApplyToOrder(p, reports[n - 1])
        case Lives(q) => Running(q)
        case Ends => Ended
        case Refused(q) => Stuck(q, n - 1)
  }

  /** How many of the reports have arrived without a gap, counting from `from`. */
  ghost function PrefixFrom(reports: seq<ExecReport>, arrivals: seq<ExecReport>, from: nat): (n: nat)
    requires from <= |reports|
    ensures from <= n <= |reports|
    ensures forall k | from <= k < n :: reports[k] in arrivals
    ensures n < |reports| ==> reports[n] !in arrivals
    decreases |reports| - from
  {
    if from < |reports| && reports[from] in arrivals then PrefixFrom(reports, arrivals, from + 1) else from
  }

  /** Where an order stands when exactly `arrivals` have been received. */
  ghost function Expected(o: Order, reports: seq<ExecReport>, arrivals: seq<ExecReport>): Track {
    Fold(o, reports, PrefixFrom(reports, arrivals, 0))
  }

  /** A fill that fits twice reaches an order whose state has no partial fill: it is refused, and yet counted. */
  predicate CountsWhenRefused(o: Order, r: ExecReport) {
    r.kind.FillReport? && r.volume > 0 && 2 * r.volume <= o.Remaining() && !Legal(o.state, PartiallyFilled)
  }

  /** No such fill is ever next in the in-order fold. */
  ghost predicate Settles(o: Order, reports: seq<ExecReport>) {
    forall n | 0 <= n < |reports| && Fold(o, reports, n).Running? :: !CountsWhenRefused(Fold(o, reports, n).order, reports[n])
  }

  /** Exactly such a fill makes a second delivery of a refused report change the order again. */
  lemma RefusedAgain(o: Order, r: ExecReport)
    requires ApplyToOrder(o, r).Refused?
    ensures var q := ApplyToOrder(o, r).order;
            && (ApplyToOrder(q, r) == Refused(q) <==> !CountsWhenRefused(o, r))
            && (CountsWhenRefused(o, r) ==>
                  ApplyToOrder(q, r) == Ends || ApplyToOrder(q, r) == Refused(q.(filled := q.filled + r.volume)))
            && q.lastSeq == o.lastSeq
  {
  }

  lemma {:induction false} StuckSettled(o: Order, reports: seq<ExecReport>, n: nat)
    requires n <= |reports| && Settles(o, reports) && Fold(o, reports, n).Stuck?
    ensures var t := Fold(o, reports, n); t.at < n && ApplyToOrder(t.order, reports[t.at]) == Refused(t.order)
  {
    if Fold(o, reports, n - 1).Stuck? {
      StuckSettled(o, reports, n - 1);
    } else {
      RefusedAgain(Fold(o, reports, n - 1).order, reports[n - 1]);
    }
  }

  ghost predicate AllSettle(script: Script, live: map<Ref, Order>)
    requires ScriptFor(script, live)
  {
    forall ref <- script :: Settles(live[ref], script[ref])
  }

  ghost predicate Numbered(o: Order, reports: seq<ExecReport>) {
    forall k | 0 <= k < |reports| :: reports[k].ref == o.ref && reports[k].seq_ == o.lastSeq + 1 + k
  }

  /** A running fold has applied every report so far; a stuck one stopped at the refused report. */
  lemma {:induction false} FoldStamps(o: Order, reports: seq<ExecReport>, n: nat)
    requires n <= |reports| && forall k | 0 <= k < |reports| :: reports[k].seq_ == o.lastSeq + 1 + k
    ensures var t := Fold(o, reports, n);
            && (t.Running? ==> t.order.lastSeq == o.lastSeq + n)
            && (t.Stuck? ==> t.at < n && t.order.lastSeq == o.lastSeq + t.at)
  {
    if n > 0 {
      FoldStamps(o, reports, n - 1);
    }
  }

  /** Once ended or stuck, a fold stays as it is. */
  lemma {:induction false} FoldFreezes(o: Order, reports: seq<ExecReport>, m: nat, n: nat)
    requires m <= n <= |reports| && !Fold(o, reports, m).Running?
    ensures Fold(o, reports, n) == Fold(o, reports, m)
  {
    if m < n {
      FoldFreezes(o, reports, m, n - 1);
    }
  }

  lemma {:induction false} FoldRanBefore(o: Order, reports: seq<ExecReport>, m: nat, n: nat)
    requires m <= n <= |reports| && Fold(o, reports, n).Running?
    ensures Fold(o, reports, m).Running?
  {
    if !Fold(o, reports, m).Running? {
      FoldFreezes(o, reports, m, n);
    }
  }

  lemma {:induction false} PrefixIsLongest(reports: seq<ExecReport>, arrivals: seq<ExecReport>, from: nat, n: nat)
    requires from <= n <= |reports|
    requires forall k | from <= k < n :: reports[k] in arrivals
    requires n < |reports| ==> reports[n] !in arrivals
    ensures PrefixFrom(reports, arrivals, from) == n
    decreases n - from
  {
    if from < n {
      PrefixIsLongest(reports, arrivals, from + 1, n);
    }
  }

  lemma {:induction false} PrefixGrows(reports: seq<ExecReport>, a: seq<ExecReport>, b: seq<ExecReport>, from: nat)
    requires from <= |reports| && forall r <- a :: r in b
    ensures PrefixFrom(reports, a, from) <= PrefixFrom(reports, b, from)
    decreases |reports| - from
  {
    if from < |reports| && reports[from] in a {
      PrefixGrows(reports, a, b, from + 1);
    }
  }

  // ---- the invariant ----

  ghost predicate InPool(slots: Slots, r: ExecReport) {
    Some(r) in slots
  }

  /** The report at position `k` has its turn in the in-order fold, and is not refused without a trace. */
  ghost predicate Matters(o: Order, reports: seq<ExecReport>, k: nat) {
    && k < |reports| && Fold(o, reports, k).Running?
    && ApplyToOrder(Fold(o, reports, k).order, reports[k]) != Refused(Fold(o, reports, k).order)
  }

  /** Order `ref` stands at `track`; while it runs, reports `from` and later that arrived and matter wait in the pool. */
  ghost predicate StandsAt(st: State, o: Order, ref: Ref, reports: seq<ExecReport>, arrivals: seq<ExecReport>,
                           track: Track, from: nat) {
    match track
    case Running(p) =>
      && ref in st.store.live && st.store.live[ref] == p
      && forall k | from <= k < |reports| && reports[k] in arrivals && Matters(o, reports, k) :: InPool(st.slots, reports[k])
    case Ended => ref !in st.store.live
    case Stuck(p, _) => ref in st.store.live && st.store.live[ref] == p
  }

  ghost predicate Inv(st: State, script: Script, live0: map<Ref, Order>, arrivals: seq<ExecReport>)
    requires ScriptFor(script, live0)
  {
    && CacheOk(st.cache)
    && AllArrived(st.slots, arrivals)
    && Untouched(st.store.live, script, live0)
    && forall ref <- script ::
         StandsAt(st, live0[ref], ref, script[ref], arrivals, Expected(live0[ref], script[ref], arrivals),
                  PrefixFrom(script[ref], arrivals, 0))
  }

  ghost predicate AllArrived(slots: Slots, arrivals: seq<ExecReport>) {
    forall s <- slots :: s.Some? ==> s.value in arrivals
  }

  /** Everything that arrived for `o` is one of its numbered reports. */
  ghost predicate Ours(o: Order, reports: seq<ExecReport>, arrivals: seq<ExecReport>) {
    Numbered(o, reports) && forall a <- arrivals :: a.ref == o.ref ==> a in reports
  }

  /** Orders the venue says nothing about keep their value. */
  ghost predicate Untouched(live: map<Ref, Order>, script: Script, live0: map<Ref, Order>) {
    forall ref | ref !in script :: (ref in live <==> ref in live0) && (ref in live ==> live[ref] == live0[ref])
  }

  /** Another order's standing survives whatever leaves its entry and its held reports alone. */
  lemma StandsFrame(a: State, b: State, o: Order, ref: Ref, reports: seq<ExecReport>, arrA: seq<ExecReport>,
                    arrB: seq<ExecReport>, track: Track, from: nat)
    requires StandsAt(a, o, ref, reports, arrA, track, from)
    requires ref in b.store.live <==> ref in a.store.live
    requires ref in a.store.live ==> b.store.live[ref] == a.store.live[ref]
    requires forall k | from <= k < |reports| && reports[k] in arrB && Matters(o, reports, k) ::
      reports[k] in arrA || InPool(b.slots, reports[k])
    requires forall k | from <= k < |reports| && InPool(a.slots, reports[k]) :: InPool(b.slots, reports[k])
    ensures StandsAt(b, o, ref, reports, arrB, track, from)
  {
  }

  // ---- the cascade ----

  /** Work on `ref` adds nothing to the pool and leaves the other orders and their held reports alone. */
  ghost predicate Narrowed(st: State, st': State, ref: Ref) {
    && Held(st'.slots) <= Held(st.slots)
    && (forall s <- st'.slots :: s.Some? ==> s in st.slots)
    && (forall s <- st.slots :: s.Some? && s.value.ref != ref ==> s in st'.slots)
    && (forall x | x != ref :: (x in st'.store.live <==> x in st.store.live)
                             && (x in st.store.live ==> st'.store.live[x] == st.store.live[x]))
  }

  /** From position `m` of an order the drain goes on to the end of the received prefix. */
  lemma {:induction false} DrainReaches(st: State, ref: Ref, o: Order, reports: seq<ExecReport>,
                                        arrivals: seq<ExecReport>, m: nat)
    requires CacheOk(st.cache) && Ours(o, reports, arrivals) && o.ref == ref && m <= |reports|
    requires forall k | 0 <= k < m :: reports[k] in arrivals
    requires StandsAt(st, o, ref, reports, arrivals, Fold(o, reports, m), m)
    requires !Fold(o, reports, m).Stuck?
    requires AllArrived(st.slots, arrivals)
    ensures var n := PrefixFrom(reports, arrivals, 0);
            StandsAt(Drain(st, ref), o, ref, reports, arrivals, Fold(o, reports, n), n)
    ensures Narrowed(st, Drain(st, ref), ref)
    decreases Held(st.slots), 1
  {
    var n := PrefixFrom(reports, arrivals, 0);
    assert m <= n;
    DropOrStayNarrows(st, ref);
    StandsFacts(st, o, ref, reports, arrivals, Fold(o, reports, m), m, n);
    OursStamps(o, reports, arrivals, m);
    DrainUnfolds(st, ref);
    hide Drain, Fold, Narrowed, StandsAt, ApplyToOrder, ApplyKind, ApplyOne, AllArrived, Ours;
    if Fold(o, reports, m).Ended? {
      FoldFreezes(o, reports, m, n);
    } else {
      if m < |reports| && reports[m] in arrivals && Matters(o, reports, m) {
        StandsHolds(st, o, ref, reports, arrivals, Fold(o, reports, m), m);
        HeldIsFound(st.slots, reports[m]);
      }
      var i := FirstMatch(st.slots, ref, st.store.live[ref].lastSeq + 1, 0);
      if i == |st.slots| {
        if m < |reports| && reports[m] in arrivals {
          RefusedStands(st, o, ref, reports, arrivals, m, n);
        } else {
          PrefixIsLongest(reports, arrivals, 0, m);
        }
      } else {
        DrainTurn(st, ref, o, reports, arrivals, m, i);
      }
    }
  }

  lemma {:induction false} DrainTurn(st: State, ref: Ref, o: Order, reports: seq<ExecReport>,
                                     arrivals: seq<ExecReport>, m: nat, i: nat)
    requires CacheOk(st.cache) && Ours(o, reports, arrivals) && o.ref == ref && m <= |reports|
    requires forall k | 0 <= k < m :: reports[k] in arrivals
    requires StandsAt(st, o, ref, reports, arrivals, Fold(o, reports, m), m) && Fold(o, reports, m).Running?
    requires AllArrived(st.slots, arrivals)
    requires ref in st.store.live && st.store.live[ref] == Fold(o, reports, m).order
    requires st.store.live[ref].lastSeq == o.lastSeq + m
    requires i == FirstMatch(st.slots, ref, st.store.live[ref].lastSeq + 1, 0) < |st.slots|
    ensures var n := PrefixFrom(reports, arrivals, 0);
            StandsAt(Drain(st, ref), o, ref, reports, arrivals, Fold(o, reports, n), n)
    ensures Narrowed(st, Drain(st, ref), ref)
    decreases Held(st.slots), 0
  {
    hide Drain, Fold, Narrowed, StandsAt, ApplyToOrder, ApplyKind, ApplyOne, AllArrived, Ours;
    var n := PrefixFrom(reports, arrivals, 0);
    DrainUnfolds(st, ref);
    var st1 := TakenNext(st, ref, o, reports, arrivals, m, i);
    assert forall k | 0 <= k < m + 1 :: reports[k] in arrivals;
    assert m + 1 <= n;
    NarrowedGivesArrived(st, st1, ref, arrivals);
    if Fold(o, reports, m + 1).Stuck? {
      FoldFreezes(o, reports, m + 1, n);
      StandsFacts(st1, o, ref, reports, arrivals, Fold(o, reports, m + 1), m + 1, n);
    } else {
      DrainReaches(st1, ref, o, reports, arrivals, m + 1);
      NarrowedTwice(st, st1, Drain(st1, ref), ref);
    }
  }

  lemma OursStamps(o: Order, reports: seq<ExecReport>, arrivals: seq<ExecReport>, m: nat)
    requires Ours(o, reports, arrivals) && m <= |reports|
    ensures Fold(o, reports, m).Running? ==> Fold(o, reports, m).order.lastSeq == o.lastSeq + m
    ensures m < |reports| ==> reports[m].ref == o.ref && reports[m].seq_ == o.lastSeq + 1 + m
  {
    FoldStamps(o, reports, m);
  }

  lemma StandsFacts(st: State, o: Order, ref: Ref, reports: seq<ExecReport>, arrivals: seq<ExecReport>, track: Track, m: nat, n: nat)
    requires StandsAt(st, o, ref, reports, arrivals, track, m)
    ensures ref in st.store.live <==> !track.Ended?
    ensures !track.Ended? ==> st.store.live[ref] == track.order
    ensures !track.Running? ==> StandsAt(st, o, ref, reports, arrivals, track, n)
    ensures track.Ended? ==>
      StandsAt(st.(slots := Discard(st.slots, ref)), o, ref, reports, arrivals, track, n)
  {
  }

  /** A report that would be refused without a trace need not be held. */
  lemma RefusedStands(st: State, o: Order, ref: Ref, reports: seq<ExecReport>, arrivals: seq<ExecReport>, m: nat, n: nat)
    requires m < n <= |reports| && StandsAt(st, o, ref, reports, arrivals, Fold(o, reports, m), m)
    requires Fold(o, reports, m).Running? && !Matters(o, reports, m)
    ensures StandsAt(st, o, ref, reports, arrivals, Fold(o, reports, n), n)
  {
    FoldFreezes(o, reports, m + 1, n);
  }

  lemma StandsHolds(st: State, o: Order, ref: Ref, reports: seq<ExecReport>, arrivals: seq<ExecReport>, track: Track, m: nat)
    requires StandsAt(st, o, ref, reports, arrivals, track, m) && track.Running?
    requires m < |reports| && reports[m] in arrivals && Matters(o, reports, m)
    ensures InPool(st.slots, reports[m])
  {
  }

  lemma DropOrStayNarrows(st: State, ref: Ref)
    ensures Narrowed(st, st.(slots := Discard(st.slots, ref)), ref) && Narrowed(st, st, ref)
  {
    HeldDiscard(st.slots, ref);
    DiscardKeeps(st.slots, ref);
  }

  lemma NarrowedTwice(a: State, b: State, c: State, ref: Ref)
    requires Narrowed(a, b, ref) && Narrowed(b, c, ref)
    ensures Narrowed(a, c, ref)
  {
  }

  lemma NarrowedGivesArrived(a: State, b: State, ref: Ref, arrivals: seq<ExecReport>)
    requires Narrowed(a, b, ref) && AllArrived(a.slots, arrivals)
    ensures AllArrived(b.slots, arrivals)
  {
  }

  /** One turn of the drain: the held report taken is the next one, and applying it advances the fold. */
  lemma TakenNext(st: State, ref: Ref, o: Order, reports: seq<ExecReport>, arrivals: seq<ExecReport>, m: nat, i: nat)
    returns (st1: State)
    requires CacheOk(st.cache) && Ours(o, reports, arrivals) && o.ref == ref && m <= |reports|
    requires Fold(o, reports, m).Running? && StandsAt(st, o, ref, reports, arrivals, Fold(o, reports, m), m)
    requires ref in st.store.live && st.store.live[ref] == Fold(o, reports, m).order
    requires st.store.live[ref].lastSeq == o.lastSeq + m
    requires AllArrived(st.slots, arrivals)
    requires i < |st.slots| && Matches(st.slots[i], ref, st.store.live[ref].lastSeq + 1)
    requires i == FirstMatch(st.slots, ref, st.store.live[ref].lastSeq + 1, 0)
    ensures m < |reports| && reports[m] in arrivals && CacheOk(st1.cache)
    ensures Held(st1.slots) < Held(st.slots)
    ensures StandsAt(st1, o, ref, reports, arrivals, Fold(o, reports, m + 1), m + 1)
    ensures st1 == ApplyOne(st.(slots := st.slots[i := None]), st.slots[i].value).0
    ensures ApplyOne(st.(slots := st.slots[i := None]), st.slots[i].value).1 == !Fold(o, reports, m + 1).Stuck?
    ensures Narrowed(st, st1, ref)
  {
    TakenNarrows(st, ref, i);
    var r := st.slots[i].value;
    assert st.slots[i] in st.slots && r in arrivals && r in reports;
    var k :| 0 <= k < |reports| && reports[k] == r;
    assert k == m;
    hide Drain, StandsAt, ApplyToOrder, ApplyKind, ApplyOne, Narrowed, AllArrived;
    HeldUpdate(st.slots, i, None);
    var taken := st.(slots := st.slots[i := None]);
    st1 := ApplyOne(taken, r).0;
    ApplyOneIsLocal(taken, r);
    StandsAfterTake(st, taken, st1, ref, o, reports, arrivals, m, i);
  }

  lemma TakenNarrows(st: State, ref: Ref, i: nat)
    requires CacheOk(st.cache) && i < |st.slots| && IsFor(st.slots[i], ref) && ref in st.store.live
    ensures Narrowed(st, ApplyOne(st.(slots := st.slots[i := None]), st.slots[i].value).0, ref)
  {
    HeldUpdate(st.slots, i, None);
    ApplyOneIsLocal(st.(slots := st.slots[i := None]), st.slots[i].value);
    TakenKeeps(st.slots, i);
  }

  lemma HeldIsFound(slots: Slots, r: ExecReport)
    requires InPool(slots, r)
    ensures FirstMatch(slots, r.ref, r.seq_, 0) < |slots|
  {
    var j :| 0 <= j < |slots| && slots[j] == Some(r);
    assert Matches(slots[j], r.ref, r.seq_);
  }

  lemma DiscardKeeps(slots: Slots, ref: Ref)
    ensures forall s <- Discard(slots, ref) :: s.Some? ==> s in slots
    ensures forall s <- slots :: s.Some? && s.value.ref != ref ==> s in Discard(slots, ref)
  {
    var d := Discard(slots, ref);
    forall s <- slots | s.Some? && s.value.ref != ref ensures s in d {
      var i :| 0 <= i < |slots| && slots[i] == s;
      assert d[i] == s;
    }
  }

  lemma TakenKeeps(slots: Slots, i: nat)
    requires i < |slots|
    ensures forall s <- slots[i := None] :: s.Some? ==> s in slots
    ensures forall s <- slots :: s.Some? && s != slots[i] ==> s in slots[i := None]
  {
    var t: Slots := slots[i := None];
    forall s <- slots | s.Some? && s != slots[i] ensures s in t {
      var j :| 0 <= j < |slots| && slots[j] == s;
      assert t[j] == s;
    }
  }

  lemma StandsAfterTake(st: State, taken: State, st1: State, ref: Ref, o: Order, reports: seq<ExecReport>,
                        arrivals: seq<ExecReport>, m: nat, i: nat)
    requires CacheOk(st.cache) && Numbered(o, reports) && o.ref == ref && m < |reports|
    requires StandsAt(st, o, ref, reports, arrivals, Fold(o, reports, m), m) && Fold(o, reports, m).Running?
    requires i < |st.slots| && st.slots[i] == Some(reports[m])
    requires taken == st.(slots := st.slots[i := None])
    requires st1.slots == taken.slots
    requires st1.store.live == WithResult(st.store.live, ref, ApplyToOrder(st.store.live[ref], reports[m]))
    ensures StandsAt(st1, o, ref, reports, arrivals, Fold(o, reports, m + 1), m + 1)
  {
    TakenKeeps(st.slots, i);
    forall k | m + 1 <= k < |reports| && reports[k] in arrivals && Matters(o, reports, k)
      ensures InPool(st1.slots, reports[k])
    {
      assert InPool(st.slots, reports[k]);
      assert Some(reports[k]) != st.slots[i];
    }
  }

  // ---- one arrival ----

  lemma PrefixUnchanged(reports: seq<ExecReport>, arrivals: seq<ExecReport>, r: ExecReport)
    requires r in arrivals || r !in reports || exists k :: PrefixFrom(reports, arrivals, 0) < k < |reports| && reports[k] == r
    requires forall i, j | 0 <= i < j < |reports| :: reports[i] != reports[j]
    ensures PrefixFrom(reports, arrivals + [r], 0) == PrefixFrom(reports, arrivals, 0)
  {
    var n := PrefixFrom(reports, arrivals, 0);
    assert n < |reports| ==> reports[n] != r || r in arrivals;
    PrefixIsLongest(reports, arrivals + [r], 0, n);
  }

  /** An arrival leaves the standing of every other order as it was. */
  lemma OtherOrder(st: State, st': State, x: Ref, o: Order, reports: seq<ExecReport>, arrivals: seq<ExecReport>,
                   r: ExecReport)
    requires Numbered(o, reports) && o.ref == x && r.ref != x
    requires StandsAt(st, o, x, reports, arrivals, Expected(o, reports, arrivals), PrefixFrom(reports, arrivals, 0))
    requires x in st'.store.live <==> x in st.store.live
    requires x in st.store.live ==> st'.store.live[x] == st.store.live[x]
    requires forall s <- st.slots :: s.Some? && s.value.ref != r.ref ==> s in st'.slots
    ensures StandsAt(st', o, x, reports, arrivals + [r], Expected(o, reports, arrivals + [r]),
                     PrefixFrom(reports, arrivals + [r], 0))
  {
    PrefixUnchanged(reports, arrivals, r);
    var n := PrefixFrom(reports, arrivals, 0);
    forall k | n <= k < |reports| && InPool(st.slots, reports[k]) ensures InPool(st'.slots, reports[k]) {
      assert Some(reports[k]) in st.slots;
    }
    StandsFrame(st, st', o, x, reports, arrivals, arrivals + [r], Fold(o, reports, n), n);
  }

  /** What one arrival does, and does not do, to the other orders and to the pool. */
  ghost predicate Contained(st: State, st': State, r: ExecReport) {
    && (forall s <- st'.slots :: s.Some? ==> s in st.slots || s.value == r)
    && (forall s <- st.slots :: s.Some? && s.value.ref != r.ref ==> s in st'.slots)
    && (forall x | x != r.ref :: (x in st'.store.live <==> x in st.store.live)
                               && (x in st.store.live ==> st'.store.live[x] == st.store.live[x]))
  }

  /** The pool is full, and drops a report that matters and of which it holds no copy. */
  ghost predicate Lost(st: State, o: Order, reports: seq<ExecReport>, r: ExecReport)
    requires CacheOk(st.cache)
  {
    && Process(st, r).1.GapPoolExhausted? && !InPool(st.slots, r)
    && r.seq_ > o.lastSeq && Matters(o, reports, r.seq_ - o.lastSeq - 1)
  }

  /** A caller can tell from the order's last number and the number of held reports whether a report will be dropped. */
  lemma DroppedExactlyWhenFull(st: State, r: ExecReport)
    requires CacheOk(st.cache)
    ensures Process(st, r).1.GapPoolExhausted?
            <==> r.ref in st.store.live && r.seq_ > st.store.live[r.ref].lastSeq + 1 && Held(st.slots) == |st.slots|
    ensures Process(st, r).1.GapPoolExhausted? ==> Process(st, r).0 == st
  {
    HeldAll(st.slots);
    hide Drain, ApplyOne;
  }

  lemma ArrivalHeld(st: State, r: ExecReport)
    requires CacheOk(st.cache) && r.ref in st.store.live && r.seq_ > st.store.live[r.ref].lastSeq + 1
    requires Held(st.slots) < |st.slots|
    ensures var st' := Process(st, r).0;
            && st'.store == st.store && InPool(st'.slots, r)
            && (forall s <- st'.slots :: s.Some? ==> s in st.slots || s.value == r)
            && (forall s <- st.slots :: s.Some? ==> s in st'.slots)
  {
    HeldAll(st.slots);
    var i := FirstFree(st.slots, 0);
    var slots': Slots := st.slots[i := Some(r)];
    assert slots'[i] == Some(r);
    forall s <- st.slots | s.Some? ensures s in slots' {
      var j :| 0 <= j < |st.slots| && st.slots[j] == s;
      assert slots'[j] == s;
    }
  }

  lemma ArrivalGap(st: State, r: ExecReport, o: Order, reports: seq<ExecReport>, arrivals: seq<ExecReport>, k: nat)
    requires CacheOk(st.cache) && Numbered(o, reports) && o.ref == r.ref
    requires k < |reports| && reports[k] == r
    requires var n := PrefixFrom(reports, arrivals, 0);
             && StandsAt(st, o, r.ref, reports, arrivals, Expected(o, reports, arrivals), n)
             && (r.ref in st.store.live ==> r.seq_ > st.store.live[r.ref].lastSeq + 1)
             && !Expected(o, reports, arrivals).Ended?
             && (Expected(o, reports, arrivals).Running? ==> n < k)
    requires !Lost(st, o, reports, r)
    ensures var st' := Process(st, r).0;
            var n := PrefixFrom(reports, arrivals, 0);
            && Contained(st, st', r)
            && StandsAt(st', o, r.ref, reports, arrivals + [r], Expected(o, reports, arrivals), n)
  {
    DroppedExactlyWhenFull(st, r);
    HeldAll(st.slots);
    hide Process;
    if Held(st.slots) < |st.slots| {
      ArrivalHeld(st, r);
    } else {
      assert Process(st, r).0 == st;
    }
  }

  lemma NextStands(st: State, st1: State, r: ExecReport, o: Order, reports: seq<ExecReport>, arrivals: seq<ExecReport>, n: nat)
    requires Numbered(o, reports) && o.ref == r.ref && n < |reports| && reports[n] == r
    requires Fold(o, reports, n).Running? && StandsAt(st, o, r.ref, reports, arrivals, Fold(o, reports, n), n)
    requires st1.slots == st.slots
    requires st1.store.live == WithResult(st.store.live, r.ref, ApplyToOrder(st.store.live[r.ref], r))
    ensures StandsAt(st1, o, r.ref, reports, arrivals + [r], Fold(o, reports, n + 1), n + 1)
  {
    hide ApplyToOrder;
  }

  lemma ArrivalNext(st: State, r: ExecReport, o: Order, reports: seq<ExecReport>, arrivals: seq<ExecReport>, n: nat)
    requires CacheOk(st.cache) && Numbered(o, reports) && o.ref == r.ref
    requires n < |reports| && reports[n] == r && n == PrefixFrom(reports, arrivals, 0)
    requires Fold(o, reports, n).Running? && StandsAt(st, o, r.ref, reports, arrivals, Fold(o, reports, n), n)
    requires AllArrived(st.slots, arrivals) && Ours(o, reports, arrivals)
    ensures var st' := Process(st, r).0;
            var n' := PrefixFrom(reports, arrivals + [r], 0);
            && Contained(st, st', r)
            && StandsAt(st', o, r.ref, reports, arrivals + [r], Fold(o, reports, n'), n')
  {
    hide ApplyOne, ApplyToOrder, Drain;
    FoldStamps(o, reports, n);
    ApplyOneIsLocal(st, r);
    var (st1, ok) := ApplyOne(st, r);
    var now := arrivals + [r];
    NextStands(st, st1, r, o, reports, arrivals, n);
    var n' := PrefixFrom(reports, now, 0);
    assert now[|arrivals|] == r;
    PrefixGrows(reports, arrivals, now, 0);
    if ok {
      hide StandsAt, Fold;
      DrainReaches(st1, r.ref, o, reports, now, n + 1);
    } else {
      FoldFreezes(o, reports, n + 1, n');
    }
  }

  /** An arrival for an order that has ended or is stuck changes nothing that is live. */
  lemma ArrivalAfterStop(st: State, r: ExecReport, o: Order, reports: seq<ExecReport>, arrivals: seq<ExecReport>, k: nat)
    requires CacheOk(st.cache) && Numbered(o, reports) && o.ref == r.ref && k < |reports| && reports[k] == r
    requires StandsAt(st, o, r.ref, reports, arrivals, Expected(o, reports, arrivals), PrefixFrom(reports, arrivals, 0))
    requires Settles(o, reports) && !Expected(o, reports, arrivals).Running? && !Lost(st, o, reports, r)
    ensures Contained(st, Process(st, r).0, r)
    ensures StandsAt(Process(st, r).0, o, r.ref, reports, arrivals + [r], Expected(o, reports, arrivals),
                     PrefixFrom(reports, arrivals, 0))
  {
    var n := PrefixFrom(reports, arrivals, 0);
    FoldStamps(o, reports, n);
    hide Settles;
    if Fold(o, reports, n).Stuck? {
      var q, at := Fold(o, reports, n).order, Fold(o, reports, n).at;
      StuckSettled(o, reports, n);
      hide Fold;
      if k == at {
        ApplyOneIsLocal(st, r);
        assert st.store.live[r.ref := q] == st.store.live;
      } else if k > at {
        ArrivalGap(st, r, o, reports, arrivals, k);
      }
    }
  }

  lemma ArrivalStands(st: State, r: ExecReport, o: Order, reports: seq<ExecReport>, arrivals: seq<ExecReport>)
    requires CacheOk(st.cache) && Numbered(o, reports) && o.ref == r.ref && r in reports
    requires StandsAt(st, o, r.ref, reports, arrivals, Expected(o, reports, arrivals), PrefixFrom(reports, arrivals, 0))
    requires Settles(o, reports)
    requires !Lost(st, o, reports, r) && AllArrived(st.slots, arrivals) && Ours(o, reports, arrivals)
    ensures Contained(st, Process(st, r).0, r)
    ensures StandsAt(Process(st, r).0, o, r.ref, reports, arrivals + [r], Expected(o, reports, arrivals + [r]),
                     PrefixFrom(reports, arrivals + [r], 0))
  {
    var n, n' := PrefixFrom(reports, arrivals, 0), PrefixFrom(reports, arrivals + [r], 0);
    var k :| 0 <= k < |reports| && reports[k] == r;
    FoldStamps(o, reports, n);
    PrefixGrows(reports, arrivals, arrivals + [r], 0);
    hide Settles, Lost, Matters;
    if !Fold(o, reports, n).Running? {
      FoldFreezes(o, reports, n, n');
      hide Process, Fold;
      ArrivalAfterStop(st, r, o, reports, arrivals, k);
      StandsFacts(Process(st, r).0, o, r.ref, reports, arrivals + [r], Fold(o, reports, n), n, n');
    } else if k < n {
      PrefixUnchanged(reports, arrivals, r);
    } else if k == n {
      hide Process, Fold;
      ArrivalNext(st, r, o, reports, arrivals, n);
    } else {
      PrefixUnchanged(reports, arrivals, r);
      ArrivalGap(st, r, o, reports, arrivals, k);
    }
  }

  lemma ArrivalKeeps(st: State, script: Script, live0: map<Ref, Order>, arrivals: seq<ExecReport>, r: ExecReport)
    requires ScriptFor(script, live0) && AllSettle(script, live0) && (forall x <- live0 :: live0[x].ref == x)
    requires FromScript(script, arrivals + [r]) && Inv(st, script, live0, arrivals)
    requires !Lost(st, live0[r.ref], script[r.ref], r)
    ensures Inv(Process(st, r).0, script, live0, arrivals + [r])
  {
    var st' := Process(st, r).0;
    assert (arrivals + [r])[|arrivals|] == r && r in arrivals + [r];
    assert forall a <- arrivals :: a in arrivals + [r];
    ArrivalStands(st, r, live0[r.ref], script[r.ref], arrivals);
    forall x <- script
      ensures StandsAt(st', live0[x], x, script[x], arrivals + [r], Expected(live0[x], script[x], arrivals + [r]),
                       PrefixFrom(script[x], arrivals + [r], 0))
    {
      if x != r.ref {
        OtherOrder(st, st', x, live0[x], script[x], arrivals, r);
      }
    }
  }

  // ---- runs ----

  /** The starting point: nothing received, nothing held. */
  ghost predicate Start(st: State, script: Script) {
    && CacheOk(st.cache) && Held(st.slots) == 0
    && (forall x <- st.store.live :: st.store.live[x].ref == x)
    && ScriptFor(script, st.store.live)
  }

  /** Nothing that matters is lost on the way. */
  ghost predicate NoneLost(st: State, script: Script, live0: map<Ref, Order>, arrivals: seq<ExecReport>)
    requires CacheOk(st.cache)
  {
    arrivals != [] ==>
      var before, r := arrivals[..|arrivals| - 1], arrivals[|arrivals| - 1];
      && NoneLost(st, script, live0, before)
      && (r.ref in script && r.ref in live0 ==> !Lost(ProcessAll(st, before), live0[r.ref], script[r.ref], r))
  }

  /** No arrival at all is answered with an exhausted pool. */
  ghost predicate NoneDropped(st: State, arrivals: seq<ExecReport>)
    requires CacheOk(st.cache)
  {
    forall n | 0 <= n < |arrivals| :: !Process(ProcessAll(st, arrivals[..n]), arrivals[n]).1.GapPoolExhausted?
  }

  lemma NoneDroppedFewer(st: State, a: seq<ExecReport>, r: ExecReport)
    requires CacheOk(st.cache) && NoneDropped(st, a + [r])
    ensures NoneDropped(st, a) && !Process(ProcessAll(st, a), r).1.GapPoolExhausted?
  {
    hide Process, ProcessAll;
    assert (a + [r])[..|a|] == a;
    forall n | 0 <= n < |a| ensures !Process(ProcessAll(st, a[..n]), a[n]).1.GapPoolExhausted? {
      assert (a + [r])[..n] == a[..n] && (a + [r])[n] == a[n];
    }
  }

  lemma {:induction false} NoneDroppedNoneLost(st: State, script: Script, live0: map<Ref, Order>, arrivals: seq<ExecReport>)
    requires CacheOk(st.cache) && NoneDropped(st, arrivals)
    ensures NoneLost(st, script, live0, arrivals)
  {
    if arrivals != [] {
      var before, r := arrivals[..|arrivals| - 1], arrivals[|arrivals| - 1];
      assert arrivals == before + [r];
      NoneDroppedFewer(st, before, r);
      hide Process, Matters, ProcessAll, NoneDropped;
      NoneDroppedNoneLost(st, script, live0, before);
      NoneLostMore(st, script, live0, before, r);
    }
  }

  lemma FromScriptFewer(script: Script, a: seq<ExecReport>, r: ExecReport)
    requires FromScript(script, a + [r])
    ensures FromScript(script, a)
  {
    forall x <- a ensures x in a + [r] {}
  }

  lemma FromScriptKnown(script: Script, live0: map<Ref, Order>, a: seq<ExecReport>, r: ExecReport)
    requires FromScript(script, a + [r]) && ScriptFor(script, live0)
    ensures r.ref in script && r.ref in live0
  {
    assert (a + [r])[|a|] == r;
  }

  lemma {:induction false} RunOn(st: State, script: Script, live0: map<Ref, Order>, earlier: seq<ExecReport>,
                                 arrivals: seq<ExecReport>)
    requires ScriptFor(script, live0) && AllSettle(script, live0) && (forall x <- live0 :: live0[x].ref == x)
    requires CacheOk(st.cache) && Inv(st, script, live0, earlier) && FromScript(script, earlier + arrivals)
    requires NoneLost(st, script, live0, arrivals)
    ensures Inv(ProcessAll(st, arrivals), script, live0, earlier + arrivals)
    decreases |arrivals|
  {
    hide Inv, Process, AllSettle, FromScript, Lost, ScriptFor;
    if arrivals == [] {
      assert earlier + arrivals == earlier;
    } else {
      var before, r := arrivals[..|arrivals| - 1], arrivals[|arrivals| - 1];
      assert earlier + arrivals == earlier + before + [r];
      FromScriptFewer(script, earlier + before, r);
      FromScriptKnown(script, live0, earlier + before, r);
      RunOn(st, script, live0, earlier, before);
      ArrivalKeeps(ProcessAll(st, before), script, live0, earlier + before, r);
    }
  }

  lemma StartInv(st: State, script: Script)
    requires Start(st, script)
    ensures Inv(st, script, st.store.live, [])
  {
    HeldAll(st.slots);
    forall x <- script ensures PrefixFrom(script[x], [], 0) == 0 {}
  }

  lemma RunKeeps(st: State, script: Script, arrivals: seq<ExecReport>)
    requires Start(st, script) && AllSettle(script, st.store.live)
    requires FromScript(script, arrivals) && NoneLost(st, script, st.store.live, arrivals)
    ensures Inv(ProcessAll(st, arrivals), script, st.store.live, arrivals)
  {
    StartInv(st, script);
    assert [] + arrivals == arrivals;
    RunOn(st, script, st.store.live, [], arrivals);
  }

  /** Order `ref` is the in-order fold of its longest received prefix. */
  ghost predicate IsPrefixFold(live: map<Ref, Order>, ref: Ref, o: Order, reports: seq<ExecReport>, arrivals: seq<ExecReport>) {
    var n := PrefixFrom(reports, arrivals, 0);
    match Fold(o, reports, n)
    case Running(p) => ref in live && live[ref] == p && p.lastSeq == o.lastSeq + n
    case Ended => ref !in live
    case Stuck(p, _) => ref in live && live[ref] == p
  }

  lemma InvIsPrefixFold(st: State, script: Script, live0: map<Ref, Order>, arrivals: seq<ExecReport>, ref: Ref)
    requires ScriptFor(script, live0) && Inv(st, script, live0, arrivals) && ref in script
    ensures IsPrefixFold(st.store.live, ref, live0[ref], script[ref], arrivals)
  {
    FoldStamps(live0[ref], script[ref], PrefixFrom(script[ref], arrivals, 0));
  }

  lemma InvUntouched(st: State, script: Script, live0: map<Ref, Order>, arrivals: seq<ExecReport>)
    requires ScriptFor(script, live0) && Inv(st, script, live0, arrivals)
    ensures Untouched(st.store.live, script, live0)
  {
  }

  /** Each order is the in-order fold of its longest received prefix, at every moment of every run on which no report
      that matters is lost to a full pool. */
  lemma EveryOrderIsItsPrefixFold(st: State, script: Script, arrivals: seq<ExecReport>, ref: Ref)
    requires Start(st, script) && AllSettle(script, st.store.live)
    requires FromScript(script, arrivals) && NoneLost(st, script, st.store.live, arrivals) && ref in script
    ensures IsPrefixFold(ProcessAll(st, arrivals).store.live, ref, st.store.live[ref], script[ref], arrivals)
  {
    RunKeeps(st, script, arrivals);
    InvIsPrefixFold(ProcessAll(st, arrivals), script, st.store.live, arrivals, ref);
  }

  lemma {:induction false} PrefixOfSet(reports: seq<ExecReport>, a: seq<ExecReport>, b: seq<ExecReport>, from: nat)
    requires from <= |reports| && forall r :: r in a <==> r in b
    ensures PrefixFrom(reports, a, from) == PrefixFrom(reports, b, from)
    decreases |reports| - from
  {
    if from < |reports| && reports[from] in a {
      PrefixOfSet(reports, a, b, from + 1);
    }
  }

  /** Any two arrival orders of the same reports, repeats included, end in the same live orders. */
  lemma Confluence(st: State, script: Script, a: seq<ExecReport>, b: seq<ExecReport>)
    requires Start(st, script) && AllSettle(script, st.store.live)
    requires FromScript(script, a) && FromScript(script, b)
    requires NoneLost(st, script, st.store.live, a) && NoneLost(st, script, st.store.live, b)
    requires forall r :: r in a <==> r in b
    ensures ProcessAll(st, a).store.live == ProcessAll(st, b).store.live
  {
    hide Inv, ProcessAll, Fold, AllSettle, NoneLost;
    RunKeeps(st, script, a);
    RunKeeps(st, script, b);
    var la, lb := ProcessAll(st, a).store.live, ProcessAll(st, b).store.live;
    InvUntouched(ProcessAll(st, a), script, st.store.live, a);
    InvUntouched(ProcessAll(st, b), script, st.store.live, b);
    forall ref ensures (ref in la <==> ref in lb) && (ref in la ==> la[ref] == lb[ref]) {
      if ref in script {
        PrefixOfSet(script[ref], a, b, 0);
        InvIsPrefixFold(ProcessAll(st, a), script, st.store.live, a, ref);
        InvIsPrefixFold(ProcessAll(st, b), script, st.store.live, b, ref);
      }
    }
  }

  // ---- and only then ----

  ghost predicate SameReports(a: seq<ExecReport>, b: seq<ExecReport>) {
    forall r :: r in a <==> r in b
  }

  /** Reports of the script in any order and number, none of them answered with an exhausted pool. */
  ghost predicate Arrivals(st: State, script: Script, a: seq<ExecReport>)
    requires CacheOk(st.cache)
  {
    FromScript(script, a) && NoneDropped(st, a)
  }

  lemma NoneDroppedMore(st: State, a: seq<ExecReport>, r: ExecReport)
    requires CacheOk(st.cache) && NoneDropped(st, a) && !Process(ProcessAll(st, a), r).1.GapPoolExhausted?
    ensures NoneDropped(st, a + [r]) && ProcessAll(st, a + [r]) == Process(ProcessAll(st, a), r).0
  {
    hide Process;
    assert (a + [r])[..|a|] == a;
    forall n | 0 <= n < |a| + 1 ensures !Process(ProcessAll(st, (a + [r])[..n]), (a + [r])[n]).1.GapPoolExhausted? {
      if n < |a| { assert (a + [r])[..n] == a[..n]; }
    }
  }

  lemma InOrderNoneDropped(st: State, ref: Ref, o: Order, reports: seq<ExecReport>, n: nat)
    requires CacheOk(st.cache) && Held(st.slots) == 0 && ref in st.store.live && st.store.live[ref] == o && o.ref == ref
    requires Numbered(o, reports) && n <= |reports| && Fold(o, reports, n).Running?
    ensures NoneDropped(st, reports[..n])
  {
    hide ApplyOne, ApplyKind, ApplyToOrder, Process;
    forall k | 0 <= k < n ensures !Process(ProcessAll(st, reports[..n][..k]), reports[..n][k]).1.GapPoolExhausted? {
      FoldRanBefore(o, reports, k, n);
      var p := RunsInOrder(st, ref, o, reports, k);
      assert reports[..n][..k] == reports[..k];
      DroppedExactlyWhenFull(ProcessAll(st, reports[..k]), reports[k]);
    }
  }

  lemma TwiceFromScript(script: Script, live: map<Ref, Order>, ref: Ref, at: nat)
    requires ScriptFor(script, live) && ref in script && at < |script[ref]|
    ensures var once := script[ref][..at] + [script[ref][at]];
            var twice := once + [script[ref][at]];
            FromScript(script, once) && FromScript(script, twice) && SameReports(once, twice)
  {
    var once := script[ref][..at] + [script[ref][at]];
    assert once[at] == script[ref][at];
  }

  /** A fill that counts while refused, delivered once and delivered twice. */
  lemma TwiceDiffers(st: State, r: ExecReport)
    requires CacheOk(st.cache) && r.ref in st.store.live && r.seq_ == st.store.live[r.ref].lastSeq + 1
    requires CountsWhenRefused(st.store.live[r.ref], r)
    ensures var (once, first) := Process(st, r);
            var (twice, second) := Process(once, r);
            !first.GapPoolExhausted? && !second.GapPoolExhausted? && once.store.live != twice.store.live
  {
    hide ApplyKind, Drain;
    var p := st.store.live[r.ref];
    assert ApplyToOrder(p, r).Refused?;
    var q := ApplyToOrder(p, r).order;
    RefusedAgain(p, r);
    ApplyOneIsLocal(st, r);
    var st1 := Process(st, r).0;
    assert r.ref in st1.store.live && st1.store.live[r.ref] == q;
    ApplyOneIsLocal(st1, r);
    DrainUnfolds(ApplyOne(st1, r).0, r.ref);
    if ApplyToOrder(q, r).Ends? {
      assert r.ref !in Process(st1, r).0.store.live;
    } else {
      assert Process(st1, r).0.store.live[r.ref].filled == q.filled + r.volume;
    }
  }

  /** In-order delivery of the reports before position `at`, then that report once, then once more. */
  lemma DeliveredTwice(st: State, script: Script, ref: Ref, at: nat)
    returns (once: seq<ExecReport>, twice: seq<ExecReport>)
    requires Start(st, script) && ref in script && at < |script[ref]|
    requires var o := st.store.live[ref];
             && Fold(o, script[ref], at).Running?
             && CountsWhenRefused(Fold(o, script[ref], at).order, script[ref][at])
    ensures Arrivals(st, script, once) && Arrivals(st, script, twice) && SameReports(once, twice)
    ensures ProcessAll(st, once).store.live != ProcessAll(st, twice).store.live
  {
    hide Process, ApplyOne, ApplyToOrder, FromScript, SameReports, NoneDropped, CountsWhenRefused;
    var o, reports := st.store.live[ref], script[ref];
    var before, r := reports[..at], reports[at];
    once := before + [r];
    twice := once + [r];
    TwiceFromScript(script, st.store.live, ref, at);
    var p := RunsInOrder(st, ref, o, reports, at);
    InOrderNoneDropped(st, ref, o, reports, at);
    var st0 := ProcessAll(st, before);
    TwiceDiffers(st0, r);
    NoneDroppedMore(st, before, r);
    NoneDroppedMore(st, once, r);
  }

  lemma {:induction false} RunsInOrder(st: State, ref: Ref, o: Order, reports: seq<ExecReport>, n: nat) returns (p: Order)
    requires CacheOk(st.cache) && Held(st.slots) == 0 && ref in st.store.live && st.store.live[ref] == o && o.ref == ref
    requires Numbered(o, reports) && n <= |reports| && Fold(o, reports, n).Running?
    ensures p == Fold(o, reports, n).order && p.lastSeq == o.lastSeq + n
    ensures var st' := ProcessAll(st, reports[..n]);
            && ref in st'.store.live && st'.store.live[ref] == p && st'.slots == st.slots
  {
    hide ApplyOne, ApplyKind, ApplyToOrder;
    p := Fold(o, reports, n).order;
    FoldStamps(o, reports, n);
    if n > 0 {
      var r := reports[n - 1];
      FoldRanBefore(o, reports, n - 1, n);
      var p0 := RunsInOrder(st, ref, o, reports, n - 1);
      assert reports[..n][..n - 1] == reports[..n - 1];
      var st0 := ProcessAll(st, reports[..n - 1]);
      ApplyOneIsLocal(st0, r);
      var st1 := ApplyOne(st0, r).0;
      HeldAll(st.slots);
      assert Drain(st1, ref) == st1;
    }
  }

  /** Arrival order is irrelevant, for every arrival of every script, exactly when no fill counts while refused. */
  lemma ConfluentExactlyWhenSettled(st: State, script: Script)
    requires Start(st, script)
    ensures (forall a, b | Arrivals(st, script, a) && Arrivals(st, script, b) && SameReports(a, b) ::
               ProcessAll(st, a).store.live == ProcessAll(st, b).store.live)
            <==> AllSettle(script, st.store.live)
  {
    if AllSettle(script, st.store.live) {
      forall a, b | Arrivals(st, script, a) && Arrivals(st, script, b) && SameReports(a, b)
        ensures ProcessAll(st, a).store.live == ProcessAll(st, b).store.live
      {
        NoneDroppedNoneLost(st, script, st.store.live, a);
        NoneDroppedNoneLost(st, script, st.store.live, b);
        Confluence(st, script, a, b);
      }
    } else {
      var ref :| ref in script && !Settles(st.store.live[ref], script[ref]);
      var reports := script[ref];
      var n :| 0 <= n < |reports| && Fold(st.store.live[ref], reports, n).Running?
               && CountsWhenRefused(Fold(st.store.live[ref], reports, n).order, reports[n]);
      var once, twice := DeliveredTwice(st, script, ref, n);
    }
  }

  /** A partial fill racing a cancel is refused, and its retransmission is counted a second time. */
  lemma RetransmittedFillCountsTwice()
    ensures var ref := Ref(1, 1);
            var o := Order(ref, 0, 10, 0, 0, CancelPending, 2);
            var st := State(S.Store(map[ref := o], 10, 4), [], Cache([ref], 0, 0));
            var fill := ExecReport(ref, 3, FillReport, 3, 0);
            var (once, first) := Process(st, fill);
            var (twice, second) := Process(once, fill);
            && first == second == Illegal
            && ref in twice.store.live && twice.store.live[ref].filled == 6 && twice.store.live[ref].lastSeq == 2
  {
    var ref := Ref(1, 1);
    var o := Order(ref, 0, 10, 0, 0, CancelPending, 2);
    var st := State(S.Store(map[ref := o], 10, 4), [], Cache([ref], 0, 0));
    var fill := ExecReport(ref, 3, FillReport, 3, 0);
    hide Process;
    ProcessRefused(st, fill, o.(filled := 3));
    ProcessRefused(Process(st, fill).0, fill, o.(filled := 6));
  }

  /** A refused report, with whatever it leaves behind. */
  lemma ProcessRefused(st: State, r: ExecReport, q: Order)
    requires CacheOk(st.cache) && r.ref in st.store.live && r.seq_ == st.store.live[r.ref].lastSeq + 1
    requires ApplyToOrder(st.store.live[r.ref], r) == Refused(q)
    ensures var (st', outcome) := Process(st, r);
            outcome == Illegal && st'.cache == st.cache && r.ref in st'.store.live && st'.store.live[r.ref] == q
  {
    ApplyOneIsLocal(st, r);
    hide Drain, ApplyToOrder, ApplyKind;
  }

  // ---- a full pool ----

  /** The reports an order still misses before position `k`. */
  function Missing(reports: seq<ExecReport>, n: nat, k: nat): seq<ExecReport>
    requires n <= k <= |reports|
  {
    reports[n..k]
  }

  /** Live as it was after the report before `k`, an order is not the fold of any longer prefix. */
  lemma BehindIsNotPrefixFold(live: map<Ref, Order>, ref: Ref, o: Order, reports: seq<ExecReport>,
                              arrivals: seq<ExecReport>, k: nat)
    requires Numbered(o, reports) && Matters(o, reports, k) && k < PrefixFrom(reports, arrivals, 0)
    requires ref in live && live[ref] == Fold(o, reports, k).order
    ensures !IsPrefixFold(live, ref, o, reports, arrivals)
  {
    var n := PrefixFrom(reports, arrivals, 0);
    FoldStamps(o, reports, k);
    FoldStamps(o, reports, n);
    if !Fold(o, reports, k + 1).Running? {
      FoldFreezes(o, reports, k + 1, n);
    } else if k + 1 < n && Fold(o, reports, n).Stuck? {
      LastRunning(o, reports, k + 1, n);
    }
  }

  /** While an order is still to reach position `k`, the reports before it are taken or held, never dropped. */
  lemma NextIsNotDropped(st: State, script: Script, live0: map<Ref, Order>, arrivals: seq<ExecReport>, ref: Ref, j: nat, k: nat)
    requires ScriptFor(script, live0) && Inv(st, script, live0, arrivals) && ref in script && live0[ref].ref == ref
    requires j < k < |script[ref]| && Fold(live0[ref], script[ref], k).Running? && script[ref][k] !in arrivals
    requires forall i | 0 <= i < j :: script[ref][i] in arrivals
    ensures !Process(st, script[ref][j]).1.GapPoolExhausted?
  {
    var o, reports := live0[ref], script[ref];
    var n := PrefixFrom(reports, arrivals, 0);
    assert n <= k;
    FoldRanBefore(o, reports, n, k);
    FoldStamps(o, reports, n);
    DroppedExactlyWhenFull(st, reports[j]);
  }

  lemma ProcessMore(st: State, a: seq<ExecReport>, r: ExecReport)
    requires CacheOk(st.cache)
    ensures ProcessAll(st, a + [r]) == Process(ProcessAll(st, a), r).0
  {
    assert (a + [r])[..|a|] == a;
    hide Process;
  }

  lemma FromScriptMore(script: Script, a: seq<ExecReport>, ref: Ref, j: nat)
    requires FromScript(script, a) && ref in script && j < |script[ref]| && script[ref][j].ref == ref
    ensures FromScript(script, a + [script[ref][j]])
  {
  }

  lemma NumberedScript(script: Script, live: map<Ref, Order>, ref: Ref)
    requires ScriptFor(script, live) && ref in script && live[ref].ref == ref
    ensures Numbered(live[ref], script[ref])
  {
  }

  lemma NoneLostMore(st: State, script: Script, live0: map<Ref, Order>, a: seq<ExecReport>, r: ExecReport)
    requires CacheOk(st.cache) && NoneLost(st, script, live0, a)
    requires r.ref in script && r.ref in live0 ==> !Lost(ProcessAll(st, a), live0[r.ref], script[r.ref], r)
    ensures NoneLost(st, script, live0, a + [r])
  {
    assert (a + [r])[..|a|] == a;
    hide Lost, ProcessAll;
  }

  lemma InvCache(st: State, script: Script, live0: map<Ref, Order>, arrivals: seq<ExecReport>)
    requires ScriptFor(script, live0) && Inv(st, script, live0, arrivals)
    ensures CacheOk(st.cache)
  {
  }

  /** `more` can follow `arrivals` with nothing lost, and leaves every order its prefix fold. */
  ghost predicate Continues(st: State, script: Script, live0: map<Ref, Order>, arrivals: seq<ExecReport>, more: seq<ExecReport>)
    requires CacheOk(st.cache) && ScriptFor(script, live0)
  {
    && FromScript(script, more) && FromScript(script, arrivals + more)
    && NoneLost(st, script, live0, more) && Inv(ProcessAll(st, more), script, live0, arrivals + more)
  }

  /** Delivering what an order misses before position `k`, in order, drops nothing. */
  lemma {:induction false} MissingArrive(st: State, script: Script, live0: map<Ref, Order>, arrivals: seq<ExecReport>,
                                         ref: Ref, n: nat, j: nat, k: nat)
    requires ScriptFor(script, live0) && AllSettle(script, live0) && (forall x <- live0 :: live0[x].ref == x)
    requires FromScript(script, arrivals) && Inv(st, script, live0, arrivals) && ref in script
    requires n <= j <= k < |script[ref]| && Fold(live0[ref], script[ref], k).Running? && script[ref][k] !in arrivals
    requires forall i | 0 <= i < n :: script[ref][i] in arrivals
    ensures CacheOk(st.cache) && Continues(st, script, live0, arrivals, Missing(script[ref], n, j))
    decreases j - n
  {
    hide Continues, Inv, AllSettle, Fold;
    InvCache(st, script, live0, arrivals);
    if j == n {
      assert Missing(script[ref], n, j) == [];
      ContinuesNothing(st, script, live0, arrivals);
    } else {
      hide Missing;
      NumberedScript(script, live0, ref);
      MissingArrive(st, script, live0, arrivals, ref, n, j - 1, k);
      MissingOne(st, script, live0, arrivals, ref, n, j, k);
    }
  }

  lemma MissingOne(st: State, script: Script, live0: map<Ref, Order>, arrivals: seq<ExecReport>, ref: Ref, n: nat, j: nat, k: nat)
    requires ScriptFor(script, live0) && AllSettle(script, live0) && (forall x <- live0 :: live0[x].ref == x)
    requires CacheOk(st.cache) && ref in script && Numbered(live0[ref], script[ref])
    requires n < j <= k < |script[ref]| && Fold(live0[ref], script[ref], k).Running? && script[ref][k] !in arrivals
    requires forall i | 0 <= i < n :: script[ref][i] in arrivals
    requires Continues(st, script, live0, arrivals, Missing(script[ref], n, j - 1))
    ensures Continues(st, script, live0, arrivals, Missing(script[ref], n, j))
  {
    hide Inv, Process, ProcessAll, Fold, AllSettle, NoneLost, FromScript, Matters;
    var before, r := Missing(script[ref], n, j - 1), script[ref][j - 1];
    assert Missing(script[ref], n, j) == before + [r];
    assert arrivals + (before + [r]) == arrivals + before + [r];
    MissingIn(live0[ref], script[ref], arrivals, n, j - 1, k);
    NextIsNotDropped(ProcessAll(st, before), script, live0, arrivals + before, ref, j - 1, k);
    ContinuesMore(st, script, live0, arrivals, before, ref, j - 1);
  }

  lemma ContinuesNothing(st: State, script: Script, live0: map<Ref, Order>, arrivals: seq<ExecReport>)
    requires ScriptFor(script, live0) && FromScript(script, arrivals) && Inv(st, script, live0, arrivals) && CacheOk(st.cache)
    ensures Continues(st, script, live0, arrivals, [])
  {
    assert arrivals + [] == arrivals;
  }

  lemma ContinuesMore(st: State, script: Script, live0: map<Ref, Order>, arrivals: seq<ExecReport>, more: seq<ExecReport>,
                      ref: Ref, j: nat)
    requires ScriptFor(script, live0) && AllSettle(script, live0) && (forall x <- live0 :: live0[x].ref == x)
    requires CacheOk(st.cache) && ref in script && j < |script[ref]| && Continues(st, script, live0, arrivals, more)
    requires !Process(ProcessAll(st, more), script[ref][j]).1.GapPoolExhausted?
    ensures Continues(st, script, live0, arrivals, more + [script[ref][j]])
  {
    hide Inv, Process, ProcessAll, AllSettle, NoneLost, FromScript, Matters;
    var r := script[ref][j];
    assert arrivals + (more + [r]) == arrivals + more + [r];
    FromScriptMore(script, more, ref, j);
    FromScriptMore(script, arrivals + more, ref, j);
    ProcessMore(st, more, r);
    NoneLostMore(st, script, live0, more, r);
    ArrivalKeeps(ProcessAll(st, more), script, live0, arrivals + more, r);
  }

  lemma MissingIn(o: Order, reports: seq<ExecReport>, arrivals: seq<ExecReport>, n: nat, j: nat, k: nat)
    requires Numbered(o, reports) && n <= j <= k < |reports| && reports[k] !in arrivals
    requires forall i | 0 <= i < n :: reports[i] in arrivals
    ensures var now := arrivals + Missing(reports, n, j);
            reports[k] !in now && forall i | 0 <= i < j :: reports[i] in now
  {
    var now := arrivals + Missing(reports, n, j);
    forall i | 0 <= i < j ensures reports[i] in now {
      if i >= n { assert Missing(reports, n, j)[i - n] == reports[i]; }
    }
  }

  /** A full pool drops a report for good exactly when the report matters and no copy of it is held: only then can the
      reports that follow, with none of them lost, leave an order that is not its prefix fold. */
  lemma DroppedForGoodExactlyWhenLost(st: State, script: Script, arrivals: seq<ExecReport>, r: ExecReport)
    requires Start(st, script) && AllSettle(script, st.store.live)
    requires FromScript(script, arrivals + [r]) && NoneLost(st, script, st.store.live, arrivals)
    requires r.ref in script && Process(ProcessAll(st, arrivals), r).1.GapPoolExhausted?
    ensures var now, live0 := ProcessAll(st, arrivals), st.store.live;
            (forall more, ref | Follows(now, script, live0, more) && ref in script ::
               IsPrefixFold(ProcessAll(now, more).store.live, ref, live0[ref], script[ref], arrivals + [r] + more))
            <==> !Lost(now, live0[r.ref], script[r.ref], r)
  {
    hide Process, Lost, AllSettle, IsPrefixFold, Follows, Inv;
    FromScriptFewer(script, arrivals, r);
    RunKeeps(st, script, arrivals);
    LostMatters(ProcessAll(st, arrivals), script, st.store.live, arrivals, r);
  }

  lemma LostMatters(st: State, script: Script, live0: map<Ref, Order>, arrivals: seq<ExecReport>, r: ExecReport)
    requires ScriptFor(script, live0) && AllSettle(script, live0) && (forall x <- live0 :: live0[x].ref == x)
    requires FromScript(script, arrivals + [r]) && Inv(st, script, live0, arrivals) && CacheOk(st.cache)
    requires r.ref in script && Process(st, r).1.GapPoolExhausted?
    ensures (forall more, ref | Follows(st, script, live0, more) && ref in script ::
               IsPrefixFold(ProcessAll(st, more).store.live, ref, live0[ref], script[ref], arrivals + [r] + more))
            <==> !Lost(st, live0[r.ref], script[r.ref], r)
  {
    DroppedExactlyWhenFull(st, r);
    if Lost(st, live0[r.ref], script[r.ref], r) {
      var more := LostBreaks(st, script, live0, arrivals, r);
      assert Follows(st, script, live0, more);
      assert !IsPrefixFold(ProcessAll(st, more).store.live, r.ref, live0[r.ref], script[r.ref], arrivals + [r] + more);
    } else {
      hide Process, Lost, Fold, IsPrefixFold, AllSettle;
      ArrivalKeeps(st, script, live0, arrivals, r);
      forall more, ref | Follows(st, script, live0, more) && ref in script
        ensures IsPrefixFold(ProcessAll(st, more).store.live, ref, live0[ref], script[ref], arrivals + [r] + more)
      {
        RunOn(st, script, live0, arrivals + [r], more);
        InvIsPrefixFold(ProcessAll(st, more), script, live0, arrivals + [r] + more, ref);
      }
    }
  }

  /** Reports of the script that follow, with none of them lost. */
  ghost predicate Follows(st: State, script: Script, live0: map<Ref, Order>, more: seq<ExecReport>)
    requires CacheOk(st.cache)
  {
    FromScript(script, more) && NoneLost(st, script, live0, more)
  }

  lemma LostBreaks(st: State, script: Script, live0: map<Ref, Order>, arrivals: seq<ExecReport>, r: ExecReport)
    returns (more: seq<ExecReport>)
    requires ScriptFor(script, live0) && AllSettle(script, live0) && (forall x <- live0 :: live0[x].ref == x)
    requires FromScript(script, arrivals + [r]) && Inv(st, script, live0, arrivals) && CacheOk(st.cache)
    requires r.ref in script && Lost(st, live0[r.ref], script[r.ref], r)
    ensures Follows(st, script, live0, more)
    ensures !IsPrefixFold(ProcessAll(st, more).store.live, r.ref, live0[r.ref], script[r.ref], arrivals + [r] + more)
  {
    var ref, k := r.ref, r.seq_ - live0[r.ref].lastSeq - 1;
    var o, reports := live0[ref], script[ref];
    hide Process, Lost, AllSettle, Inv, NoneLost, IsPrefixFold, StandsAt;
    NumberedScript(script, live0, ref);
    InvStands(st, script, live0, arrivals, ref);
    assert (arrivals + [r])[|arrivals|] == r;
    var n := LostIsNew(st, o, reports, arrivals, r, k);
    MissingArrive(st, script, live0, arrivals, ref, n, k, k);
    more := Missing(reports, n, k);
    MissingIn(o, reports, arrivals, n, k, k);
    PrefixIsLongest(reports, arrivals + more, 0, k);
    InvIsPrefixFold(ProcessAll(st, more), script, live0, arrivals + more, ref);
    StandsRunning(ProcessAll(st, more).store.live, ref, o, reports, arrivals + more, k);
    PrefixPasses(reports, arrivals + more, arrivals + [r] + more, k);
    BehindIsNotPrefixFold(ProcessAll(st, more).store.live, ref, o, reports, arrivals + [r] + more, k);
  }

  lemma StandsRunning(live: map<Ref, Order>, ref: Ref, o: Order, reports: seq<ExecReport>, arrivals: seq<ExecReport>, k: nat)
    requires PrefixFrom(reports, arrivals, 0) == k && IsPrefixFold(live, ref, o, reports, arrivals) && Fold(o, reports, k).Running?
    ensures ref in live && live[ref] == Fold(o, reports, k).order
  {
  }

  lemma PrefixPasses(reports: seq<ExecReport>, a: seq<ExecReport>, b: seq<ExecReport>, k: nat)
    requires k < |reports| && (forall i | 0 <= i < k :: reports[i] in a) && (forall x <- a :: x in b) && reports[k] in b
    ensures PrefixFrom(reports, b, 0) > k
  {
  }

  /** A report beyond the next one, at a position the fold runs to, is beyond the received prefix. */
  lemma BeyondPrefix(st: State, o: Order, reports: seq<ExecReport>, arrivals: seq<ExecReport>, k: nat)
    requires Numbered(o, reports) && k < |reports| && Fold(o, reports, k).Running? && o.ref in st.store.live
    requires st.store.live[o.ref].lastSeq < o.lastSeq + k
    requires StandsAt(st, o, o.ref, reports, arrivals, Expected(o, reports, arrivals), PrefixFrom(reports, arrivals, 0))
    ensures PrefixFrom(reports, arrivals, 0) <= k && Expected(o, reports, arrivals).Running?
  {
    var n := PrefixFrom(reports, arrivals, 0);
    FoldStamps(o, reports, n);
    if n <= k { FoldRanBefore(o, reports, n, k); }
    if n > k && Fold(o, reports, n).Stuck? { LastRunning(o, reports, k, n); }
  }

  lemma InvStands(st: State, script: Script, live0: map<Ref, Order>, arrivals: seq<ExecReport>, ref: Ref)
    requires ScriptFor(script, live0) && Inv(st, script, live0, arrivals) && ref in script
    ensures StandsAt(st, live0[ref], ref, script[ref], arrivals, Expected(live0[ref], script[ref], arrivals),
                     PrefixFrom(script[ref], arrivals, 0))
  {
  }

  /** A report that is lost had not arrived before, and the order has not come to it. */
  lemma LostIsNew(st: State, o: Order, reports: seq<ExecReport>, arrivals: seq<ExecReport>, r: ExecReport, k: nat)
    returns (n: nat)
    requires CacheOk(st.cache) && Numbered(o, reports) && o.ref == r.ref && r in reports
    requires StandsAt(st, o, o.ref, reports, arrivals, Expected(o, reports, arrivals), PrefixFrom(reports, arrivals, 0))
    requires Lost(st, o, reports, r) && k == r.seq_ - o.lastSeq - 1
    ensures n == PrefixFrom(reports, arrivals, 0) <= k < |reports|
    ensures reports[k] == r && r !in arrivals && Matters(o, reports, k)
  {
    DroppedExactlyWhenFull(st, r);
    hide Process;
    var i :| 0 <= i < |reports| && reports[i] == r;
    n := PrefixFrom(reports, arrivals, 0);
    BeyondPrefix(st, o, reports, arrivals, k);
    hide Fold;
  }

  /** A fold that stops stops behind every position it ran to. */
  lemma {:induction false} LastRunning(o: Order, reports: seq<ExecReport>, k: nat, n: nat)
    requires k < n <= |reports| && Fold(o, reports, k).Running? && Fold(o, reports, n).Stuck?
    ensures Fold(o, reports, n).at >= k
    decreases n - k
  {
    if Fold(o, reports, n - 1).Stuck? { if k < n - 1 { LastRunning(o, reports, k, n - 1); } }
  }

  lemma ProcessThree(st: State, a: ExecReport, b: ExecReport, c: ExecReport)
    requires CacheOk(st.cache)
    ensures ProcessAll(st, [a, b, c]) == Process(Process(Process(st, a).0, b).0, c).0
  {
    hide Process;
    assert [a, b, c][..2] == [a, b] && [a, b][..1] == [a] && [a][..0] == [];
    assert ProcessAll(st, [a]) == Process(ProcessAll(st, []), a).0;
    assert ProcessAll(st, [a, b]) == Process(ProcessAll(st, [a]), b).0;
  }

  /** The next report of an order, when nothing held follows it. */
  lemma ProcessNext(st: State, r: ExecReport, q: Order)
    requires CacheOk(st.cache) && r.ref in st.store.live && r.seq_ == st.store.live[r.ref].lastSeq + 1
    requires ApplyToOrder(st.store.live[r.ref], r) == Lives(q) && q.lastSeq == r.seq_
    requires forall i | 0 <= i < |st.slots| :: !Matches(st.slots[i], r.ref, r.seq_ + 1)
    ensures var st' := Process(st, r).0;
            st'.slots == st.slots && r.ref in st'.store.live && st'.store.live[r.ref] == q
  {
    ApplyOneIsLocal(st, r);
    DrainUnfolds(ApplyOne(st, r).0, r.ref);
    hide ApplyOne, Drain, ApplyToOrder;
  }

  lemma ProcessLast(st: State, r: ExecReport)
    requires CacheOk(st.cache) && r.ref in st.store.live && r.seq_ == st.store.live[r.ref].lastSeq + 1
    requires ApplyToOrder(st.store.live[r.ref], r) == Ends
    ensures r.ref !in Process(st, r).0.store.live
  {
    ApplyOneIsLocal(st, r);
    DrainUnfolds(ApplyOne(st, r).0, r.ref);
    hide ApplyOne, Drain, ApplyToOrder;
  }

  function Ack(ref: Ref): ExecReport { ExecReport(ref, 1, AckReport, 0, 0) }

  function Pending(ref: Ref): ExecReport { ExecReport(ref, 2, CancelPendingReport, 0, 0) }

  function Cancel(ref: Ref): ExecReport { ExecReport(ref, 3, CancelledReport, 0, 0) }

  /** One order, sent, and a pool with room for one report. */
  function OneSlot(ref: Ref, cache: Cache): State {
    State(S.Store(map[ref := Order(ref, 0, 10, 0, 0, Sent, 0)], 10, 4), [None], cache)
  }

  lemma BackwardsIsDropped(ref: Ref, cache: Cache)
    requires CacheOk(cache)
    ensures var st := OneSlot(ref, cache);
            && Process(Process(st, Cancel(ref)).0, Pending(ref)).1 == GapPoolExhausted
            && ref in ProcessAll(st, [Cancel(ref), Pending(ref), Ack(ref)]).store.live
  {
    var st := OneSlot(ref, cache);
    ProcessThree(st, Cancel(ref), Pending(ref), Ack(ref));
    var held := st.(slots := [Some(Cancel(ref))]);
    assert [None][0 := Some(Cancel(ref))] == [Some(Cancel(ref))];
    assert Process(st, Cancel(ref)).0 == held;
    HeldAll(held.slots);
    DroppedExactlyWhenFull(held, Pending(ref));
    hide Process, ProcessAll;
    ProcessNext(held, Ack(ref), Order(ref, 0, 10, 0, 0, Acknowledged, 1));
  }

  lemma ForwardsEnds(ref: Ref, cache: Cache)
    requires CacheOk(cache)
    ensures ref !in ProcessAll(OneSlot(ref, cache), [Ack(ref), Pending(ref), Cancel(ref)]).store.live
  {
    hide Process, ProcessAll;
    var st := OneSlot(ref, cache);
    ProcessThree(st, Ack(ref), Pending(ref), Cancel(ref));
    ProcessNext(st, Ack(ref), Order(ref, 0, 10, 0, 0, Acknowledged, 1));
    var st1 := Process(st, Ack(ref)).0;
    ProcessNext(st1, Pending(ref), Order(ref, 0, 10, 0, 0, CancelPending, 2));
    ProcessLast(Process(st1, Pending(ref)).0, Cancel(ref));
  }

  /** With room for one report, a settled script ends differently in another order of arrival: the second report is
      dropped, and the order lives on. */
  lemma ExhaustedPoolMatters(ref: Ref, cache: Cache)
    requires CacheOk(cache)
    ensures var st := OneSlot(ref, cache);
            && Settles(st.store.live[ref], [Ack(ref), Pending(ref), Cancel(ref)])
            && Process(Process(st, Cancel(ref)).0, Pending(ref)).1 == GapPoolExhausted
            && ref in ProcessAll(st, [Cancel(ref), Pending(ref), Ack(ref)]).store.live
            && ref !in ProcessAll(st, [Ack(ref), Pending(ref), Cancel(ref)]).store.live
  {
    BackwardsIsDropped(ref, cache);
    ForwardsEnds(ref, cache);
    hide Process, ProcessAll, Fold;
  }
}
