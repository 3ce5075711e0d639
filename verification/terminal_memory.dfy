/** What the sequencer remembers of finished orders: exactly the last ones, as many as its ring has places. So whether a
    late report is called late or unknown depends on how many orders have finished since. */
module TerminalMemory {
  import opened ExecTypes
  import S = OmsSpec
  import opened ReportSpec
  import opened Words

  function RecordAll(c: Cache, refs: seq<Ref>): (c': Cache)
    requires |c.ring| > 0
    ensures |c'.ring| == |c.ring|
  {
    if refs == [] then c else Record(RecordAll(c, refs[..|refs| - 1]), refs[|refs| - 1])
  }

  predicate Fresh(c: Cache) {
    |c.ring| > 0 && c.write == 0 && c.count == 0
  }

  /** The last `n` of them, or all. */
  function LastOf(refs: seq<Ref>, n: nat): seq<Ref> {
    if |refs| <= n then refs else refs[|refs| - n..]
  }

  /** The i-th reference stands in its place until the ring comes round to it again. */
  ghost predicate RingHolds(c: Cache, refs: seq<Ref>) {
    && |c.ring| > 0 && c.write == |refs| && c.count == Min(|refs|, |c.ring|)
    && forall i | 0 <= i < |refs| && i + |c.ring| >= |refs| :: c.ring[i % |c.ring|] == refs[i]
  }

  lemma RecordKeepsRing(c: Cache, refs: seq<Ref>, ref: Ref)
    requires RingHolds(c, refs)
    ensures RingHolds(Record(c, ref), refs + [ref])
  {
    var n := |c.ring|;
    var c', all := Record(c, ref), refs + [ref];
    forall i | 0 <= i < |all| && i + n >= |all| ensures c'.ring[i % n] == all[i] {
      if i < |refs| { DistinctSlots(i, |refs|, n); }
    }
  }

  lemma {:induction false} RecordedRing(c: Cache, refs: seq<Ref>)
    requires Fresh(c)
    ensures RingHolds(RecordAll(c, refs), refs)
  {
    if refs != [] {
      var front := refs[..|refs| - 1];
      RecordedRing(c, front);
      RecordKeepsRing(RecordAll(c, front), front, refs[|refs| - 1]);
      assert front + [refs[|refs| - 1]] == refs;
      hide Record;
    }
  }

  /** Every place in use is the place of one of the last references. */
  lemma PlaceHasIndex(p: nat, written: nat, n: nat) returns (i: nat)
    requires 0 < n && p < Min(written, n)
    ensures i < written && i + n >= written && i % n == p
  {
    if written <= n {
      RemainderIsUnique(n, 0, p, p);
      i := p;
    } else {
      var q, r := (written - 1) / n, (written - 1) % n;
      assert written - 1 == n * q + r;
      if p <= r {
        i := n * q + p;
        RemainderIsUnique(n, q, p, i);
      } else {
        assert q == 0 ==> n * q == 0;
        i := n * (q - 1) + p;
        assert n * (q - 1) == n * q - n;
        RemainderIsUnique(n, q - 1, p, i);
      }
    }
  }

  lemma InUse(i: nat, written: nat, n: nat)
    requires 0 < n && i < written
    ensures i % n < Min(written, n)
  {
    if written <= n { RemainderIsUnique(n, 0, i, i); }
  }

  /** The places in use, and the last references. */
  lemma UsedAreLast(c: Cache, refs: seq<Ref>, p: nat)
    requires RingHolds(c, refs) && p < c.count
    ensures c.ring[p] in LastOf(refs, |c.ring|)
  {
    var n, last := |c.ring|, LastOf(refs, |c.ring|);
    var i := PlaceHasIndex(p, |refs|, n);
    assert last[i - (|refs| - |last|)] == refs[i] == c.ring[i % n];
  }

  lemma LastAreUsed(c: Cache, refs: seq<Ref>, k: nat)
    requires RingHolds(c, refs) && k < |LastOf(refs, |c.ring|)|
    ensures LastOf(refs, |c.ring|)[k] in c.ring[..c.count]
  {
    var n, last := |c.ring|, LastOf(refs, |c.ring|);
    var i := |refs| - |last| + k;
    InUse(i, |refs|, n);
    assert c.ring[..c.count][i % n] == refs[i] == last[k];
  }

  /** The cache remembers exactly the last references recorded. */
  lemma RemembersTheLast(c: Cache, refs: seq<Ref>, ref: Ref)
    requires Fresh(c)
    ensures CacheOk(RecordAll(c, refs))
    ensures Remembers(RecordAll(c, refs), ref) <==> ref in LastOf(refs, |c.ring|)
  {
    RecordedRing(c, refs);
    var c', last := RecordAll(c, refs), LastOf(refs, |c.ring|);
    assert CacheOk(c');
    hide RecordAll, RingHolds, LastOf;
    if ref in c'.ring[..c'.count] {
      var p :| 0 <= p < c'.count && c'.ring[..c'.count][p] == ref;
      UsedAreLast(c', refs, p);
    }
    if ref in last {
      var k :| 0 <= k < |last| && last[k] == ref;
      LastAreUsed(c', refs, k);
    }
  }

  // ---- over runs ----

  /** A run of the sequencer: reports, and between them whatever the shard's requests make of its store. */
  datatype Step = Report(report: ExecReport) | Requests(store: S.Store)

  function Run(st: State, steps: seq<Step>): (st': State)
    requires CacheOk(st.cache)
    ensures CacheOk(st'.cache)
  {
    if steps == [] then st
    else
      var before := Run(st, steps[..|steps| - 1]);
      match steps[|steps| - 1]
      case Report(r) => Process(before, r).0
      case Requests(store) => before.(store := store)
  }

  /** The order a report finishes, if it does. */
  function Finishes(st: State, r: ExecReport): seq<Ref>
    requires CacheOk(st.cache)
  {
    if r.ref in st.store.live && r.ref !in Process(st, r).0.store.live then [r.ref] else []
  }

  /** The orders that reports finished over a run, in turn. */
  function Finished(st: State, steps: seq<Step>): seq<Ref>
    requires CacheOk(st.cache)
  {
    if steps == [] then []
    else
      var before, last := steps[..|steps| - 1], steps[|steps| - 1];
      Finished(st, before) + (if last.Report? then Finishes(Run(st, before), last.report) else [])
  }

  lemma ApplyOneRecords(st: State, r: ExecReport)
    requires CacheOk(st.cache) && r.ref in st.store.live
    ensures var (st', ok) := ApplyOne(st, r);
            && (!ok ==> r.ref in st'.store.live)
            && st'.cache == if r.ref in st'.store.live then st.cache else Record(st.cache, r.ref)
  {
    hide Record, ApplyToOrder, ApplyKind;
    ApplyOneIsLocal(st, r);
    var out := ApplyKind(st.store, r);
    if !out.ok {
      assert ApplyOne(st, r) == (st.(store := out.store), false);
    } else if r.ref in out.store.live {
      assert r.ref in ApplyOne(st, r).0.store.live;
    } else {
      assert r.ref !in ApplyOne(st, r).0.store.live;
    }
  }

  lemma {:induction false} DrainRecords(st: State, ref: Ref)
    requires CacheOk(st.cache)
    ensures var st' := Drain(st, ref);
            && (ref !in st.store.live ==> ref !in st'.store.live)
            && st'.cache == if ref in st.store.live && ref !in st'.store.live then Record(st.cache, ref) else st.cache
    decreases Held(st.slots)
  {
    hide ApplyOne, Drain, Record;
    DrainUnfolds(st, ref);
    if ref in st.store.live {
      var i := FirstMatch(st.slots, ref, st.store.live[ref].lastSeq + 1, 0);
      if i < |st.slots| {
        HeldUpdate(st.slots, i, None);
        var taken := st.(slots := st.slots[i := None]);
        var (st', ok) := ApplyOne(taken, st.slots[i].value);
        ApplyOneRecords(taken, st.slots[i].value);
        if ok { DrainRecords(st', ref); }
      }
    }
  }

  lemma ProcessRecords(st: State, r: ExecReport)
    requires CacheOk(st.cache)
    ensures Process(st, r).0.cache == RecordAll(st.cache, Finishes(st, r))
  {
    assert [r.ref][..0] == [] && RecordAll(st.cache, [r.ref]) == Record(st.cache, r.ref);
    if r.ref in st.store.live && r.seq_ == st.store.live[r.ref].lastSeq + 1 {
      ApplyOneRecords(st, r);
      DrainRecords(ApplyOne(st, r).0, r.ref);
    }
    hide ApplyOne, Drain, Record;
  }

  lemma {:induction false} RecordAllAppend(c: Cache, a: seq<Ref>, b: seq<Ref>)
    requires |c.ring| > 0
    ensures RecordAll(c, a + b) == RecordAll(RecordAll(c, a), b)
    decreases |b|
  {
    if b == [] {
      assert a + b == a;
    } else {
      assert (a + b)[..|a + b| - 1] == a + b[..|b| - 1];
      RecordAllAppend(c, a, b[..|b| - 1]);
    }
  }

  lemma {:induction false} RunRecords(st: State, steps: seq<Step>)
    requires CacheOk(st.cache)
    ensures Run(st, steps).cache == RecordAll(st.cache, Finished(st, steps))
  {
    if steps != [] {
      hide Process, Finishes, RecordAll;
      var before, last := steps[..|steps| - 1], steps[|steps| - 1];
      RunRecords(st, before);
      if last.Report? {
        ProcessRecords(Run(st, before), last.report);
        RecordAllAppend(st.cache, Finished(st, before), Finishes(Run(st, before), last.report));
      } else {
        assert Finished(st, before) + [] == Finished(st, before);
      }
    } else {
      assert RecordAll(st.cache, []) == st.cache;
    }
  }

  /** A report for an order that is not live is late when the order is among the last ones that reports finished, as many
      as the cache has places, and otherwise unknown, whatever requests came in between. */
  lemma LateExactlyWhenRemembered(st: State, steps: seq<Step>, r: ExecReport)
    requires Fresh(st.cache) && r.ref !in Run(st, steps).store.live
    ensures Process(Run(st, steps), r)
         == (Run(st, steps), if r.ref in LastOf(Finished(st, steps), |st.cache.ring|) then TerminalLate else UnknownOrder)
  {
    RunRecords(st, steps);
    RemembersTheLast(st.cache, Finished(st, steps), r.ref);
    hide Drain, ApplyOne, Remembers, RecordAll, Finished;
  }
}
