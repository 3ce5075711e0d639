/** The recorder drains the shards' rings into one file in whatever order it finds them; recovery sorts the
    file by timestamp, keeping the order of equal ones. Every such file sorts to the same log. */
module WalMerge {
  import opened ExecTypes
  import opened Journal
  import opened JournalRoundTrip

  function Filter(keep: Record -> bool, records: seq<Record>): seq<Record> {
    if records == [] then []
    else
      var last := records[|records| - 1];
      Filter(keep, records[..|records| - 1]) + if keep(last) then [last] else []
  }

  function InShard(s: nat, shards: nat): Record -> bool
    requires shards > 0
  {
    (r: Record) => ShardOf(RefOf(r), shards) == s
  }

  function AtTime(ts: nat): Record -> bool {
    (r: Record) => r.ts == ts
  }

  /** The records of one shard, in file order. */
  function Stream(records: seq<Record>, s: nat, shards: nat): seq<Record>
    requires shards > 0
  {
    Filter(InShard(s, shards), records)
  }

  lemma {:induction false} FilterAppend(keep: Record -> bool, a: seq<Record>, b: seq<Record>)
    ensures Filter(keep, a + b) == Filter(keep, a) + Filter(keep, b)
    decreases |b|
  {
    if b == [] {
      assert a + b == a;
    } else {
      var last := |b| - 1;
      assert (a + b)[..|a + b| - 1] == a + b[..last] && (a + b)[|a + b| - 1] == b[last];
      FilterAppend(keep, a, b[..last]);
    }
  }

  lemma {:induction false} InFilter(keep: Record -> bool, records: seq<Record>, r: Record)
    ensures r in Filter(keep, records) <==> r in records && keep(r)
  {
    if records != [] {
      var last := |records| - 1;
      assert records == records[..last] + [records[last]];
      InFilter(keep, records[..last], r);
    }
  }

  /** Filtering by a coarser condition first changes nothing. */
  lemma {:induction false} FilterTwice(fine: Record -> bool, coarse: Record -> bool, records: seq<Record>)
    requires forall r <- records :: fine(r) ==> coarse(r)
    ensures Filter(fine, Filter(coarse, records)) == Filter(fine, records)
  {
    if records != [] {
      var last := |records| - 1;
      var rest := Filter(coarse, records[..last]);
      FilterTwice(fine, coarse, records[..last]);
      assert records[last] in records;
      if coarse(records[last]) {
        FilterAppend(fine, rest, [records[last]]);
        assert [records[last]][..0] == [];
      } else {
        assert rest + [] == rest;
      }
    }
  }

  // ---- the stable sort ----

  predicate Sorted(records: seq<Record>) {
    forall i, j | 0 <= i < j < |records| :: records[i].ts <= records[j].ts
  }

  /** After every record that is not later. */
  function Insert(sorted: seq<Record>, r: Record): seq<Record> {
    if sorted == [] || sorted[|sorted| - 1].ts <= r.ts then sorted + [r]
    else Insert(sorted[..|sorted| - 1], r) + [sorted[|sorted| - 1]]
  }

  function StableSort(records: seq<Record>): seq<Record> {
    if records == [] then []
    else Insert(StableSort(records[..|records| - 1]), records[|records| - 1])
  }

  lemma {:induction false} InsertSorted(sorted: seq<Record>, r: Record)
    requires Sorted(sorted)
    ensures Sorted(Insert(sorted, r))
    ensures forall x <- Insert(sorted, r) :: x == r || x in sorted
  {
    if !(sorted == [] || sorted[|sorted| - 1].ts <= r.ts) {
      var last := |sorted| - 1;
      InsertSorted(sorted[..last], r);
      var front := Insert(sorted[..last], r);
      forall i | 0 <= i < |front| ensures front[i].ts <= sorted[last].ts {
        assert front[i] in front;
      }
    }
  }

  lemma {:induction false} InsertKeepsTimes(sorted: seq<Record>, r: Record, ts: nat)
    requires Sorted(sorted)
    ensures Filter(AtTime(ts), Insert(sorted, r)) == Filter(AtTime(ts), sorted) + if r.ts == ts then [r] else []
  {
    var last := |sorted| - 1;
    if sorted == [] || sorted[last].ts <= r.ts {
      assert (sorted + [r])[..|sorted|] == sorted;
    } else {
      var front := Insert(sorted[..last], r);
      InsertKeepsTimes(sorted[..last], r, ts);
      assert (front + [sorted[last]])[..|front|] == front;
    }
  }

  /** The sort is ordered, and records of equal time keep their order. */
  lemma {:induction false} StableSortMeaning(records: seq<Record>, ts: nat)
    ensures Sorted(StableSort(records))
    ensures Filter(AtTime(ts), StableSort(records)) == Filter(AtTime(ts), records)
  {
    if records != [] {
      var last := |records| - 1;
      StableSortMeaning(records[..last], ts);
      InsertSorted(StableSort(records[..last]), records[last]);
      InsertKeepsTimes(StableSort(records[..last]), records[last], ts);
    }
  }

  lemma LastAtTime(a: seq<Record>, b: seq<Record>)
    requires Sorted(a) && Sorted(b) && a != [] && forall ts: nat :: Filter(AtTime(ts), a) == Filter(AtTime(ts), b)
    ensures b != [] && a[|a| - 1].ts <= b[|b| - 1].ts
  {
    var r := a[|a| - 1];
    InFilter(AtTime(r.ts), a, r);
    InFilter(AtTime(r.ts), b, r);
  }

  lemma EndsWithLast(a: seq<Record>)
    requires a != []
    ensures var last := a[|a| - 1];
            Filter(AtTime(last.ts), a) == Filter(AtTime(last.ts), a[..|a| - 1]) + [last]
  {
  }

  lemma SplitLast(a: seq<Record>, x: Record, b: seq<Record>, y: Record)
    requires a + [x] == b + [y]
    ensures a == b && x == y
  {
    assert (a + [x])[..|a|] == a && (b + [y])[..|b|] == b;
    assert (a + [x])[|a|] == x && (b + [y])[|b|] == y;
  }

  /** A sequence in time order is determined by what it holds at each time. */
  lemma {:induction false} SortedIsUnique(a: seq<Record>, b: seq<Record>)
    requires Sorted(a) && Sorted(b) && forall ts: nat :: Filter(AtTime(ts), a) == Filter(AtTime(ts), b)
    ensures a == b
  {
    if a == [] || b == [] {
      if a != [] { LastAtTime(a, b); }
      if b != [] { LastAtTime(b, a); }
    } else {
      var m, n := |a| - 1, |b| - 1;
      LastAtTime(a, b);
      LastAtTime(b, a);
      EndsWithLast(a);
      EndsWithLast(b);
      var at := AtTime(a[m].ts);
      assert Filter(at, a) == Filter(at, b);
      SplitLast(Filter(at, a[..m]), a[m], Filter(at, b[..n]), b[n]);
      forall ts: nat ensures Filter(AtTime(ts), a[..m]) == Filter(AtTime(ts), b[..n]) {
        assert Filter(AtTime(ts), a) == Filter(AtTime(ts), b);
        var x, y := Filter(AtTime(ts), a[..m]), Filter(AtTime(ts), b[..n]);
        if ts == a[m].ts { SplitLast(x, a[m], y, b[n]); } else { assert x + [] == x && y + [] == y; }
      }
      SortedIsUnique(a[..m], b[..n]);
      assert a == a[..m] + [a[m]] && b == b[..n] + [b[n]];
    }
  }

  // ---- any interleaving ----

  /** `file` holds each shard's records in that shard's order, in any interleaving. */
  ghost predicate Interleaves(file: seq<Record>, log: seq<Record>, shards: nat)
    requires shards > 0
  {
    forall s | 0 <= s < shards :: Stream(file, s, shards) == Stream(log, s, shards)
  }

  /** Equal times occur within one shard only. */
  ghost predicate TimesAreLocal(log: seq<Record>, shards: nat)
    requires shards > 0
  {
    forall r <- log, q <- log :: r.ts == q.ts ==> ShardOf(RefOf(r), shards) == ShardOf(RefOf(q), shards)
  }

  lemma SameMembers(file: seq<Record>, log: seq<Record>, shards: nat, r: Record)
    requires shards > 0 && Interleaves(file, log, shards)
    ensures r in file <==> r in log
  {
    var s := ShardOf(RefOf(r), shards);
    assert Stream(file, s, shards) == Stream(log, s, shards);
    InFilter(InShard(s, shards), file, r);
    InFilter(InShard(s, shards), log, r);
  }

  lemma SameAtTime(file: seq<Record>, log: seq<Record>, shards: nat, ts: nat)
    requires shards > 0 && Interleaves(file, log, shards) && TimesAreLocal(log, shards)
    ensures Filter(AtTime(ts), file) == Filter(AtTime(ts), log)
  {
    forall r: Record ensures r in file <==> r in log { SameMembers(file, log, shards, r); }
    if r :| r in log && r.ts == ts {
      var s := ShardOf(RefOf(r), shards);
      assert Stream(file, s, shards) == Stream(log, s, shards);
      FilterTwice(AtTime(ts), InShard(s, shards), file);
      FilterTwice(AtTime(ts), InShard(s, shards), log);
    } else {
      NoneAtTime(file, ts);
      NoneAtTime(log, ts);
    }
  }

  lemma {:induction false} NoneAtTime(records: seq<Record>, ts: nat)
    requires forall r <- records :: r.ts != ts
    ensures Filter(AtTime(ts), records) == []
  {
    if records != [] {
      assert records[|records| - 1] in records;
      NoneAtTime(records[..|records| - 1], ts);
    }
  }

  /** Sorting undoes every interleaving of the shards' streams. */
  lemma SortUndoesInterleaving(file: seq<Record>, log: seq<Record>, shards: nat)
    requires shards > 0 && Interleaves(file, log, shards) && TimesAreLocal(log, shards) && Sorted(log)
    ensures StableSort(file) == log
  {
    forall ts: nat ensures Filter(AtTime(ts), StableSort(file)) == Filter(AtTime(ts), log) {
      StableSortMeaning(file, ts);
      SameAtTime(file, log, shards, ts);
    }
    StableSortMeaning(file, 0);
    SortedIsUnique(StableSort(file), log);
  }

  // ---- the recorder ----

  /** How many records one shard's ring can hold. */
  const RING_CAPACITY: nat := 8192

  /** One ring per shard, filled by that shard's worker and emptied by the recorder's thread into the file. */
  class Recorder {
    const rings: array<seq<Record>>
    var file: seq<Record>
    ghost var accepted: seq<Record>

    ghost predicate Valid()
      reads this, rings
    {
      && rings.Length > 0
      && forall s | 0 <= s < rings.Length ::
           |rings[s]| <= RING_CAPACITY && Stream(file, s, rings.Length) + rings[s] == Stream(accepted, s, rings.Length)
    }

    constructor (shards: nat)
      requires shards > 0
      ensures Valid() && fresh(rings) && rings.Length == shards && file == [] && accepted == []
    {
      rings := new seq<Record>[shards](_ => []);
      file, accepted := [], [];
    }

    /** A shard's record enters its ring, or is refused when the ring is full. */
    method Push(s: nat, r: Record) returns (ok: bool)
      requires Valid() && s < rings.Length && ShardOf(RefOf(r), rings.Length) == s
      modifies this, rings
      ensures Valid() && file == old(file) && ok == (|old(rings[s])| < RING_CAPACITY)
      ensures accepted == if ok then old(accepted) + [r] else old(accepted)
      ensures rings[..] == if ok then old(rings[..])[s := old(rings[s]) + [r]] else old(rings[..])
    {
      if |rings[s]| >= RING_CAPACITY {
        return false;
      }
      assert (accepted + [r])[..|accepted|] == accepted;
      rings[s] := rings[s] + [r];
      accepted := accepted + [r];
      return true;
    }

    /** One record leaves a ring for the file. */
    method Pop(s: nat) returns (ok: bool)
      requires Valid() && s < rings.Length
      modifies this, rings
      ensures Valid() && accepted == old(accepted) && ok == (old(rings[s]) != [])
      ensures file == if ok then old(file) + [old(rings[s])[0]] else old(file)
      ensures rings[..] == if ok then old(rings[..])[s := old(rings[s])[1..]] else old(rings[..])
    {
      if rings[s] == [] {
        return false;
      }
      var r := rings[s][0];
      assert r in Stream(accepted, s, rings.Length) by { assert r in Stream(file, s, rings.Length) + rings[s]; }
      InFilter(InShard(s, rings.Length), accepted, r);
      assert (file + [r])[..|file|] == file;
      assert [r] + rings[s][1..] == rings[s];
      rings[s] := rings[s][1..];
      file := file + [r];
      return true;
    }

    /** One pass over the rings, emptying each in turn. */
    method DrainOnce() returns (any: bool)
      requires Valid()
      modifies this, rings
      ensures Valid() && accepted == old(accepted) && forall s | 0 <= s < rings.Length :: rings[s] == []
      ensures old(file) <= file && any == (old(file) < file)
      ensures Interleaves(file, accepted, rings.Length)
    {
      any := false;
      var s := 0;
      while s < rings.Length
        invariant s <= rings.Length && Valid() && accepted == old(accepted)
        invariant forall k | 0 <= k < s :: rings[k] == []
        invariant old(file) <= file && any == (old(file) < file)
      {
        var more := true;
        while more
          invariant s < rings.Length && Valid() && accepted == old(accepted)
          invariant forall k | 0 <= k < s :: rings[k] == []
          invariant old(file) <= file && any == (old(file) < file)
          invariant !more ==> rings[s] == []
          decreases more, |rings[s]|
        {
          ghost var before := rings[..];
          more := Pop(s);
          any := any || more;
          assert forall k | 0 <= k < s :: rings[..][k] == before[k];
          assert rings[..][s] == rings[s];
        }
        s := s + 1;
      }
      forall k | 0 <= k < rings.Length ensures Stream(file, k, rings.Length) == Stream(accepted, k, rings.Length) {
        assert Stream(file, k, rings.Length) + rings[k] == Stream(file, k, rings.Length);
      }
    }
  }

  // ---- reading the file back ----

  datatype Tail = Next(record: Record) | Idle | EndOfData | Failed

  /** The records before the first outcome that is not a record; None when that outcome is a failure. */
  function Gathered(outcomes: seq<Tail>): Option<seq<Record>> {
    if outcomes == [] || outcomes[0].Idle? || outcomes[0].EndOfData? then Some([])
    else if outcomes[0].Failed? then None
    else
      match Gathered(outcomes[1..])
      case None => None
      case Some(rest) => Some([outcomes[0].record] + rest)
  }

  /** Reads until the log is idle, then puts the records in order; a failure loses everything read. */
  method ReadAndOrder(outcomes: seq<Tail>) returns (out: Option<seq<Record>>)
    ensures out == match Gathered(outcomes) case None => None case Some(records) => Some(StableSort(records))
  {
    var records: seq<Record> := [];
    var i := 0;
    assert outcomes[0..] == outcomes && forall rest: seq<Record> :: [] + rest == rest;
    while i < |outcomes|
      invariant i <= |outcomes|
      invariant Gathered(outcomes) == match Gathered(outcomes[i..])
                                      case None => None
                                      case Some(rest) => Some(records + rest)
    {
      var head := outcomes[i..];
      assert head[1..] == outcomes[i + 1..];
      match outcomes[i] {
        case Next(r) =>
          assert forall rest: seq<Record> :: records + ([r] + rest) == records + [r] + rest;
          records := records + [r];
          i := i + 1;
        case Failed => return None;
        case _ =>
          assert records + [] == records;
          return Some(StableSort(records));
      }
    }
    assert records + [] == records;
    return Some(StableSort(records));
  }
}
