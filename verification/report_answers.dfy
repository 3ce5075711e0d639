/** When the sequencer gives which answer, said on the order, the pool and the cache alone; and which missed reports a
    recovery can explain. */
module ReportAnswers {
  import opened ExecTypes
  import S = OmsSpec
  import opened ReportSpec

  /** The states from which an order takes a report, and for a fill or a replace the volumes. */
  predicate Takes(o: Order, r: ExecReport) {
    match r.kind
    case AckReport => o.state.Sent?
    case RejectReport => o.state.Sent? || o.state.Unknown?
    case CancelPendingReport => o.state.Acknowledged? || o.state.PartiallyFilled?
    case CancelledReport => o.state.CancelPending? || o.state.Unknown?
    case FillReport =>
      && 0 < r.volume <= o.requested - o.filled
      && (o.state.Acknowledged? || o.state.PartiallyFilled?
          || (r.volume == o.requested - o.filled && (o.state.CancelPending? || o.state.Unknown?)))
    case ReplaceAck =>
      && r.volume > o.filled
      && (o.state.NewOrder? || o.state.PendingSend? || o.state.Sent? || o.state.Acknowledged? || o.state.PartiallyFilled?
          || o.state.CancelPending?)
  }

  lemma TakesApplies(o: Order, r: ExecReport)
    ensures Takes(o, r) <==> !ApplyToOrder(o, r).Refused?
  {
  }

  predicate HasFreeSlot(slots: Slots) {
    exists i | 0 <= i < |slots| :: slots[i].None?
  }

  /** The answer to a report, by where it stands. */
  lemma AnsweredExactly(st: State, r: ExecReport)
    requires CacheOk(st.cache)
    ensures var (st', answer), live := Process(st, r), st.store.live;
            && (answer.TerminalLate? <==> r.ref !in live && Remembers(st.cache, r.ref))
            && (answer.UnknownOrder? <==> r.ref !in live && !Remembers(st.cache, r.ref))
            && (answer.Duplicate? <==> r.ref in live && r.seq_ <= live[r.ref].lastSeq)
            && (answer.HeldForGap? <==> r.ref in live && r.seq_ > live[r.ref].lastSeq + 1 && HasFreeSlot(st.slots))
            && (answer.GapPoolExhausted? <==> r.ref in live && r.seq_ > live[r.ref].lastSeq + 1 && !HasFreeSlot(st.slots))
            && (answer.Applied? <==> r.ref in live && r.seq_ == live[r.ref].lastSeq + 1 && Takes(live[r.ref], r))
            && (answer.Illegal? <==> r.ref in live && r.seq_ == live[r.ref].lastSeq + 1 && !Takes(live[r.ref], r))
            && (!answer.Applied? && !answer.Illegal? ==> st'.store == st.store && st'.cache == st.cache)
            && (!answer.Applied? && !answer.Illegal? && !answer.HeldForGap? ==> st' == st)
  {
    if r.ref in st.store.live {
      ApplyOneIsLocal(st, r);
      TakesApplies(st.store.live[r.ref], r);
      var i := FirstFree(st.slots, 0);
      if i < |st.slots| { assert st.slots[i].None?; }
    }
    hide ApplyOne, Drain, Takes, ApplyToOrder, Remembers;
  }

  // ---- missed reports ----

  /** A missed report is one of four: late for a finished order still remembered, of a number its order already has, ahead
      of its turn with a slot to hold it, or next in turn and one its order takes. */
  predicate Explained(st: State, r: ExecReport)
    requires CacheOk(st.cache)
  {
    if r.ref !in st.store.live then Remembers(st.cache, r.ref)
    else
      var o := st.store.live[r.ref];
      r.seq_ <= o.lastSeq || (r.seq_ > o.lastSeq + 1 && HasFreeSlot(st.slots)) || (r.seq_ == o.lastSeq + 1 && Takes(o, r))
  }

  /** Each report at its turn. */
  predicate AllExplained(st: State, reports: seq<ExecReport>)
    requires CacheOk(st.cache)
  {
    forall i | 0 <= i < |reports| :: ExplainedAt(st, reports, i)
  }

  predicate ExplainedAt(st: State, reports: seq<ExecReport>, i: nat)
    requires CacheOk(st.cache) && i < |reports|
  {
    Explained(ProcessAll(st, reports[..i]), reports[i])
  }

  lemma ExplainedAnswers(st: State, r: ExecReport)
    requires CacheOk(st.cache)
    ensures var answer := Process(st, r).1;
            Explained(st, r) <==> !answer.Illegal? && !answer.UnknownOrder? && !answer.GapPoolExhausted?
  {
    AnsweredExactly(st, r);
    hide Process, Takes, HasFreeSlot, Remembers;
  }

  lemma ExplainedInPrefix(st: State, reports: seq<ExecReport>, n: nat, i: nat)
    requires CacheOk(st.cache) && i < n <= |reports|
    ensures ExplainedAt(st, reports[..n], i) <==> ExplainedAt(st, reports, i)
  {
    assert reports[..n][..i] == reports[..i];
  }

  lemma OneMoreExplained(st: State, reports: seq<ExecReport>, n: nat)
    requires CacheOk(st.cache) && n < |reports|
    ensures AllExplained(st, reports[..n + 1]) <==> AllExplained(st, reports[..n]) && ExplainedAt(st, reports, n)
  {
    hide ExplainedAt;
    var shorter, longer := reports[..n], reports[..n + 1];
    forall i: nat | i <= n
      ensures ExplainedAt(st, longer, i) <==> ExplainedAt(st, reports, i)
      ensures i < n ==> (ExplainedAt(st, shorter, i) <==> ExplainedAt(st, reports, i))
    {
      ExplainedInPrefix(st, reports, n + 1, i);
      if i < n { ExplainedInPrefix(st, reports, n, i); }
    }
    if AllExplained(st, longer) {
      assert ExplainedAt(st, longer, n);
      forall i: nat | i < n ensures ExplainedAt(st, shorter, i) { assert ExplainedAt(st, longer, i); }
    }
    if AllExplained(st, shorter) && ExplainedAt(st, reports, n) {
      forall i: nat | i <= n ensures ExplainedAt(st, longer, i) {
        if i < n { assert ExplainedAt(st, shorter, i); }
      }
    }
  }
}
