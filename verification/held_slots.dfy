/** Whose reports the gap pool holds: over every run of reports only those of live orders, and of these some that can never
    be applied any more, which keep their slots until the order ends. */
module HeldSlots {
  import opened ExecTypes
  import S = OmsSpec
  import opened ReportSpec
  import opened JournalRoundTrip

  /** Every held report is for a live order. */
  predicate OnlyLive(st: State) {
    forall i | 0 <= i < |st.slots| && st.slots[i].Some? :: st.slots[i].value.ref in st.store.live
  }

  /** The same but for one order. */
  predicate OnlyLiveBut(st: State, ref: Ref) {
    forall i | 0 <= i < |st.slots| && st.slots[i].Some? && st.slots[i].value.ref != ref :: st.slots[i].value.ref in st.store.live
  }

  lemma ApplyElsewhere(st: State, r: ExecReport)
    requires CacheOk(st.cache) && r.ref in st.store.live
    ensures var (st', ok) := ApplyOne(st, r);
            && st'.slots == st.slots && (!ok ==> r.ref in st'.store.live)
            && forall x | x != r.ref :: x in st'.store.live <==> x in st.store.live
  {
    ApplyOneIsLocal(st, r);
    hide ApplyOne, ApplyToOrder;
  }

  /** The cascade ends with the order's reports discarded, or with the order live. */
  lemma {:induction false} DrainOnlyLive(st: State, ref: Ref)
    requires CacheOk(st.cache) && OnlyLiveBut(st, ref)
    ensures OnlyLive(Drain(st, ref))
    decreases Held(st.slots)
  {
    hide ApplyOne, Drain;
    DrainUnfolds(st, ref);
    if ref in st.store.live {
      var i := FirstMatch(st.slots, ref, st.store.live[ref].lastSeq + 1, 0);
      if i < |st.slots| {
        HeldUpdate(st.slots, i, None);
        var taken := st.(slots := st.slots[i := None]);
        var (st', ok) := ApplyOne(taken, st.slots[i].value);
        ApplyElsewhere(taken, st.slots[i].value);
        if ok { DrainOnlyLive(st', ref); }
      }
    }
  }

  lemma ProcessOnlyLive(st: State, r: ExecReport)
    requires CacheOk(st.cache) && OnlyLive(st)
    ensures OnlyLive(Process(st, r).0)
  {
    if r.ref in st.store.live && r.seq_ == st.store.live[r.ref].lastSeq + 1 {
      ApplyElsewhere(st, r);
      if ApplyOne(st, r).1 { DrainOnlyLive(ApplyOne(st, r).0, r.ref); }
    }
    hide ApplyOne, Drain;
  }

  /** Over every run of reports the pool holds reports of live orders only: those of an order that ends are given up. */
  lemma {:induction false} HeldIsLive(st: State, reports: seq<ExecReport>)
    requires CacheOk(st.cache) && OnlyLive(st)
    ensures OnlyLive(ProcessAll(st, reports))
  {
    if reports != [] {
      hide Process, OnlyLive;
      HeldIsLive(st, reports[..|reports| - 1]);
      ProcessOnlyLive(ProcessAll(st, reports[..|reports| - 1]), reports[|reports| - 1]);
    }
  }

  // ---- reports whose turn has passed ----

  /** Slot `i` holds a report whose number its order already has. */
  predicate Passed(st: State, i: nat, r: ExecReport) {
    i < |st.slots| && st.slots[i] == Some(r) && r.ref in st.store.live && r.seq_ <= st.store.live[r.ref].lastSeq
  }

  lemma ApplyKeepsPassed(st: State, q: ExecReport, i: nat, r: ExecReport)
    requires CacheOk(st.cache) && q.ref in st.store.live && q.seq_ == st.store.live[q.ref].lastSeq + 1 && Passed(st, i, r)
    ensures var (st', ok) := ApplyOne(st, q);
            r.ref in st'.store.live ==> Passed(st', i, r)
  {
    ApplyOneIsLocal(st, q);
    hide ApplyOne;
  }

  lemma {:induction false} DrainKeepsPassed(st: State, ref: Ref, i: nat, r: ExecReport)
    requires CacheOk(st.cache) && (r.ref in st.store.live ==> Passed(st, i, r))
    ensures r.ref in Drain(st, ref).store.live ==> Passed(Drain(st, ref), i, r)
    decreases Held(st.slots)
  {
    hide ApplyOne, Drain;
    DrainUnfolds(st, ref);
    if ref in st.store.live {
      var k := FirstMatch(st.slots, ref, st.store.live[ref].lastSeq + 1, 0);
      if k < |st.slots| {
        HeldUpdate(st.slots, k, None);
        var taken := st.(slots := st.slots[k := None]);
        var (st', ok) := ApplyOne(taken, st.slots[k].value);
        ApplyElsewhere(taken, st.slots[k].value);
        if r.ref in st.store.live { ApplyKeepsPassed(taken, st.slots[k].value, i, r); }
        if ok { DrainKeepsPassed(st', ref, i, r); }
      }
    }
  }

  lemma {:induction false} DrainBringsNone(st: State, ref: Ref, x: Ref)
    requires CacheOk(st.cache) && x !in st.store.live
    ensures x !in Drain(st, ref).store.live
  {
    DrainIsLocal(st, ref);
    if x == ref { DrainUnfolds(st, ref); }
    hide Drain;
  }

  lemma ProcessKeepsPassed(st: State, q: ExecReport, i: nat, r: ExecReport)
    requires CacheOk(st.cache) && Passed(st, i, r)
    ensures r.ref in Process(st, q).0.store.live ==> Passed(Process(st, q).0, i, r)
  {
    if q.ref in st.store.live && q.seq_ == st.store.live[q.ref].lastSeq + 1 {
      ApplyKeepsPassed(st, q, i, r);
      if ApplyOne(st, q).1 { DrainKeepsPassed(ApplyOne(st, q).0, q.ref, i, r); }
    }
    hide ApplyOne, Drain;
  }

  lemma ProcessBringsNone(st: State, q: ExecReport, x: Ref)
    requires CacheOk(st.cache) && x !in st.store.live
    ensures x !in Process(st, q).0.store.live
  {
    if q.ref in st.store.live && q.seq_ == st.store.live[q.ref].lastSeq + 1 {
      ApplyElsewhere(st, q);
      if ApplyOne(st, q).1 { DrainBringsNone(ApplyOne(st, q).0, q.ref, x); }
    }
    hide ApplyOne, Drain;
  }

  /** A held report whose turn has passed, a second copy of one applied out of the pool, is never taken: whatever reports
      come, it keeps its slot for as long as its order lives, and only the end of the order gives the slot back. */
  lemma {:induction false} PassedKeepsSlot(st: State, reports: seq<ExecReport>, i: nat, r: ExecReport)
    requires CacheOk(st.cache) && OnlyLive(st) && Passed(st, i, r)
    ensures var now := ProcessAll(st, reports);
            if r.ref in now.store.live then now.slots[i] == Some(r) else forall k | 0 <= k < |now.slots| :: !IsFor(now.slots[k], r.ref)
  {
    PassedWhileLive(st, reports, i, r);
    HeldIsLive(st, reports);
    hide ProcessAll;
  }

  lemma {:induction false} PassedWhileLive(st: State, reports: seq<ExecReport>, i: nat, r: ExecReport)
    requires CacheOk(st.cache) && Passed(st, i, r)
    ensures r.ref in ProcessAll(st, reports).store.live ==> Passed(ProcessAll(st, reports), i, r)
  {
    if reports != [] {
      var before, q := reports[..|reports| - 1], reports[|reports| - 1];
      hide Process, Passed;
      PassedWhileLive(st, before, i, r);
      if r.ref in ProcessAll(st, before).store.live {
        ProcessKeepsPassed(ProcessAll(st, before), q, i, r);
      } else {
        ProcessBringsNone(ProcessAll(st, before), q, r.ref);
      }
    }
  }

  function Ack(ref: Ref): ExecReport { ExecReport(ref, 1, AckReport, 0, 0) }

  function Pending(ref: Ref): ExecReport { ExecReport(ref, 2, CancelPendingReport, 0, 0) }

  /** An order sent, and a pool of two slots. */
  function TwoSlots(ref: Ref, cache: Cache): State {
    State(S.Store(map[ref := Order(ref, 0, 10, 0, 0, Sent, 0)], 10, 4), [None, None], cache)
  }

  lemma TwiceHeld(ref: Ref, cache: Cache)
    requires CacheOk(cache)
    ensures ProcessAll(TwoSlots(ref, cache), [Pending(ref), Pending(ref)])
         == TwoSlots(ref, cache).(slots := [Some(Pending(ref)), Some(Pending(ref))])
  {
    var st, r := TwoSlots(ref, cache), Pending(ref);
    assert [r, r][..1] == [r] && [r][..0] == [];
    assert FirstFree(st.slots, 0) == 0 && st.slots[0 := Some(r)] == [Some(r), None];
    var st1 := st.(slots := [Some(r), None]);
    assert Process(st, r) == (st1, HeldForGap);
    assert FirstFree(st1.slots, 1) == 1 && FirstFree(st1.slots, 0) == 1 && st1.slots[1 := Some(r)] == [Some(r), Some(r)];
    assert ProcessAll(st, [r]) == Process(ProcessAll(st, []), r).0 == st1;
  }

  lemma OneTaken(ref: Ref, cache: Cache)
    requires CacheOk(cache)
    ensures var r := Pending(ref);
            var st := TwoSlots(ref, cache).(slots := [Some(r), Some(r)]);
            Process(st, Ack(ref)).0.store.live == map[ref := Order(ref, 0, 10, 0, 0, CancelPending, 2)]
            && Process(st, Ack(ref)).0.slots == [None, Some(r)]
  {
    var r := Pending(ref);
    var st := TwoSlots(ref, cache).(slots := [Some(r), Some(r)]);
    var st1 := ApplyOne(st, Ack(ref)).0;
    ApplyOneIsLocal(st, Ack(ref));
    assert st1.store.live == map[ref := Order(ref, 0, 10, 0, 0, Acknowledged, 1)] && st1.slots == st.slots;
    var taken := st1.(slots := [None, Some(r)]);
    assert FirstMatch(st1.slots, ref, 2, 0) == 0 && st1.slots[0 := None] == [None, Some(r)];
    ApplyOneIsLocal(taken, r);
    var st2 := ApplyOne(taken, r).0;
    assert st2.store.live == map[ref := Order(ref, 0, 10, 0, 0, CancelPending, 2)] && st2.slots == taken.slots;
    hide ApplyOne, Drain;
    DrainUnfolds(st1, ref);
    DrainUnfolds(st2, ref);
    assert FirstMatch(st2.slots, ref, 3, 2) == 2 && FirstMatch(st2.slots, ref, 3, 1) == 2 && FirstMatch(st2.slots, ref, 3, 0) == 2;
  }

  /** A report delivered twice before its turn is held twice: when its turn comes one copy is taken, and the other keeps a
      slot for a number that has passed. */
  lemma HeldTwiceStays(ref: Ref, cache: Cache)
    requires CacheOk(cache)
    ensures Passed(ProcessAll(TwoSlots(ref, cache), [Pending(ref), Pending(ref), Ack(ref)]), 1, Pending(ref))
  {
    var reports := [Pending(ref), Pending(ref), Ack(ref)];
    assert reports[..2] == [Pending(ref), Pending(ref)];
    TwiceHeld(ref, cache);
    OneTaken(ref, cache);
    hide Process, ApplyOne, Drain;
  }
}
