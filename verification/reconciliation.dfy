/** Comparing the local open orders with the venue's: both sides sorted by reference, then merged. */
module Reconciliation {
  import opened ExecTypes
  import opened Words

  datatype Snapshot = Snapshot(ref: Ref, state: OrderState, requested: int, filled: int)

  datatype Status = Matched | LocalOnly | VenueOnly | StateMismatch | VolumeMismatch

  datatype Result = Result(ref: Ref, status: Status)

  predicate Before(a: Ref, b: Ref) {
    if a.runId != b.runId then a.runId < b.runId else a.logicalId < b.logicalId
  }

  predicate Ascending(s: seq<Snapshot>) {
    forall i, j | 0 <= i < j < |s| :: Before(s[i].ref, s[j].ref)
  }

  predicate Distinct(s: seq<Snapshot>) {
    forall i, j | 0 <= i < j < |s| :: s[i].ref != s[j].ref
  }

  // ---- sorting ----

  function Insert(sorted: seq<Snapshot>, x: Snapshot): seq<Snapshot> {
    if sorted == [] || Before(sorted[|sorted| - 1].ref, x.ref) then sorted + [x]
    else Insert(sorted[..|sorted| - 1], x) + [sorted[|sorted| - 1]]
  }

  function Sort(s: seq<Snapshot>): seq<Snapshot> {
    if s == [] then [] else Insert(Sort(s[..|s| - 1]), s[|s| - 1])
  }

  lemma {:induction false} InsertAscends(sorted: seq<Snapshot>, x: Snapshot)
    requires Ascending(sorted) && forall y <- sorted :: y.ref != x.ref
    ensures Ascending(Insert(sorted, x)) && forall y :: y in Insert(sorted, x) <==> y == x || y in sorted
  {
    if !(sorted == [] || Before(sorted[|sorted| - 1].ref, x.ref)) {
      var last := |sorted| - 1;
      InsertAscends(sorted[..last], x);
      var front := Insert(sorted[..last], x);
      assert sorted == sorted[..last] + [sorted[last]];
      forall i | 0 <= i < |front| ensures Before(front[i].ref, sorted[last].ref) {
        assert front[i] in front;
      }
    }
  }

  /** Distinct references have one sorted order, and sorting keeps every entry. */
  lemma {:induction false} SortAscends(s: seq<Snapshot>)
    requires Distinct(s)
    ensures Ascending(Sort(s)) && forall y :: y in Sort(s) <==> y in s
  {
    if s != [] {
      var last := |s| - 1;
      SortAscends(s[..last]);
      assert s == s[..last] + [s[last]];
      InsertAscends(Sort(s[..last]), s[last]);
    }
  }

  // ---- the merge ----

  function Compared(l: Snapshot, v: Snapshot): Status {
    if l.state != v.state then StateMismatch
    else if l.filled != v.filled || l.requested != v.requested then VolumeMismatch
    else Matched
  }

  /** One entry per step, from whichever side comes first. */
  function Merge(local: seq<Snapshot>, venue: seq<Snapshot>): seq<Result>
    decreases |local| + |venue|
  {
    if local == [] && venue == [] then []
    else if venue == [] then [Result(local[0].ref, LocalOnly)] + Merge(local[1..], venue)
    else if local == [] then [Result(venue[0].ref, VenueOnly)] + Merge(local, venue[1..])
    else if local[0].ref == venue[0].ref then
      [Result(local[0].ref, Compared(local[0], venue[0]))] + Merge(local[1..], venue[1..])
    else if Before(local[0].ref, venue[0].ref) then [Result(local[0].ref, LocalOnly)] + Merge(local[1..], venue)
    else [Result(venue[0].ref, VenueOnly)] + Merge(local, venue[1..])
  }

  /** An order as one side reports it. */
  datatype Entry = Entry(state: OrderState, requested: int, filled: int)

  function EntryOf(x: Snapshot): Entry { Entry(x.state, x.requested, x.filled) }

  function Find(s: seq<Snapshot>, ref: Ref): Option<Entry> {
    if s == [] then None else if s[0].ref == ref then Some(EntryOf(s[0])) else Find(s[1..], ref)
  }

  /** The class of a reference, by what each side says of it. */
  function Classify(l: Option<Entry>, v: Option<Entry>): Option<Status> {
    match (l, v)
    case (None, None) => None
    case (Some(_), None) => Some(LocalOnly)
    case (None, Some(_)) => Some(VenueOnly)
    case (Some(x), Some(y)) =>
      Some(if x.state != y.state then StateMismatch
           else if x.filled != y.filled || x.requested != y.requested then VolumeMismatch
           else Matched)
  }

  function Listed(out: seq<Result>, ref: Ref): Option<Status> {
    if out == [] then None else if out[0].ref == ref then Some(out[0].status) else Listed(out[1..], ref)
  }

  predicate AscendingResults(out: seq<Result>) {
    forall i, j | 0 <= i < j < |out| :: Before(out[i].ref, out[j].ref)
  }

  predicate AllAfter(s: seq<Snapshot>, ref: Ref) {
    forall x <- s :: Before(ref, x.ref)
  }

  lemma {:induction false} NotFound(s: seq<Snapshot>, ref: Ref)
    requires AllAfter(s, ref)
    ensures Find(s, ref) == None
  {
    if s != [] {
      assert s[0] in s;
      NotFound(s[1..], ref);
    }
  }

  lemma AscendingTail(s: seq<Snapshot>)
    requires s != [] && Ascending(s)
    ensures Ascending(s[1..]) && AllAfter(s[1..], s[0].ref)
  {
  }

  lemma {:induction false} MergeComesAfter(local: seq<Snapshot>, venue: seq<Snapshot>, ref: Ref)
    requires AllAfter(local, ref) && AllAfter(venue, ref)
    ensures forall r <- Merge(local, venue) :: Before(ref, r.ref)
    decreases |local| + |venue|
  {
    if local != [] { assert local[0] in local; }
    if venue != [] { assert venue[0] in venue; }
    if local == [] && venue == [] {
    } else if venue == [] {
      MergeComesAfter(local[1..], venue, ref);
    } else if local == [] {
      MergeComesAfter(local, venue[1..], ref);
    } else if local[0].ref == venue[0].ref {
      MergeComesAfter(local[1..], venue[1..], ref);
    } else if Before(local[0].ref, venue[0].ref) {
      MergeComesAfter(local[1..], venue, ref);
    } else {
      MergeComesAfter(local, venue[1..], ref);
    }
  }

  /** How far each side moves in one step of the merge. */
  function LocalStep(local: seq<Snapshot>, venue: seq<Snapshot>): nat {
    if local == [] then 0
    else if venue == [] || local[0].ref == venue[0].ref || Before(local[0].ref, venue[0].ref) then 1 else 0
  }

  function VenueStep(local: seq<Snapshot>, venue: seq<Snapshot>): nat {
    if venue == [] then 0
    else if local == [] || local[0].ref == venue[0].ref || !Before(local[0].ref, venue[0].ref) then 1 else 0
  }

  lemma MergeUnfolds(local: seq<Snapshot>, venue: seq<Snapshot>)
    requires local != [] || venue != []
    requires Ascending(local) && Ascending(venue)
    ensures var i, j := LocalStep(local, venue), VenueStep(local, venue);
            var ref := if i == 1 then local[0].ref else venue[0].ref;
            && i + j > 0 && i <= |local| && j <= |venue|
            && Merge(local, venue) != [] && Merge(local, venue)[1..] == Merge(local[i..], venue[j..])
            && Merge(local, venue)[0].ref == ref
            && Ascending(local[i..]) && Ascending(venue[j..]) && AllAfter(local[i..], ref) && AllAfter(venue[j..], ref)
            && (i == 1 ==> local[0].ref == ref) && (j == 1 ==> venue[0].ref == ref)
            && Some(Merge(local, venue)[0].status)
               == Classify(if i == 1 then Some(EntryOf(local[0])) else None, if j == 1 then Some(EntryOf(venue[0])) else None)
  {
    if local != [] { AscendingTail(local); }
    if venue != [] { AscendingTail(venue); }
  }

  /** Reconciliation is exact: every reference of either side appears once, in order, with its class. */
  lemma {:induction false} MergeIsExact(local: seq<Snapshot>, venue: seq<Snapshot>)
    requires Ascending(local) && Ascending(venue)
    ensures AscendingResults(Merge(local, venue))
    ensures forall ref :: Listed(Merge(local, venue), ref) == Classify(Find(local, ref), Find(venue, ref))
    decreases |local| + |venue|
  {
    if local != [] || venue != [] {
      MergeUnfolds(local, venue);
      hide Merge, Ascending, Classify, EntryOf;
      var i, j := LocalStep(local, venue), VenueStep(local, venue);
      hide LocalStep, VenueStep;
      var out := Merge(local, venue);
      MergeIsExact(local[i..], venue[j..]);
      MergeComesAfter(local[i..], venue[j..], out[0].ref);
      forall a, b | 0 <= a < b < |out| ensures Before(out[a].ref, out[b].ref) {
        assert out[b] == out[1..][b - 1] && out[b] in out[1..];
        if a > 0 { assert out[a] == out[1..][a - 1]; }
      }
      NotFound(local[i..], out[0].ref);
      NotFound(venue[j..], out[0].ref);
      forall ref ensures Listed(out, ref) == Classify(Find(local, ref), Find(venue, ref)) {
        FindStep(local, i, ref);
        FindStep(venue, j, ref);
      }
    }
  }

  lemma FindStep(s: seq<Snapshot>, i: nat, ref: Ref)
    requires i <= 1 && i <= |s|
    ensures Find(s, ref) == if i == 1 && s[0].ref == ref then Some(EntryOf(s[0])) else Find(s[i..], ref)
  {
    assert s[0..] == s;
  }

  lemma {:induction false} FindMember(s: seq<Snapshot>, x: Snapshot)
    requires Distinct(s) && x in s
    ensures Find(s, x.ref) == Some(EntryOf(x))
  {
    if s[0] != x {
      var i :| 0 <= i < |s| && s[i] == x;
      assert s[0].ref != s[i].ref && x == s[1..][i - 1];
      FindMember(s[1..], x);
    }
  }

  lemma {:induction false} FindNothing(s: seq<Snapshot>, ref: Ref)
    requires forall x <- s :: x.ref != ref
    ensures Find(s, ref) == None
  {
    if s != [] {
      assert s[0] in s;
      FindNothing(s[1..], ref);
    }
  }

  lemma AscendingIsDistinct(s: seq<Snapshot>)
    requires Ascending(s)
    ensures Distinct(s)
  {
  }

  /** Sorting changes nothing a lookup can see. */
  lemma FindInSorted(s: seq<Snapshot>, ref: Ref)
    requires Distinct(s)
    ensures Find(Sort(s), ref) == Find(s, ref)
  {
    SortAscends(s);
    AscendingIsDistinct(Sort(s));
    if x :| x in s && x.ref == ref {
      FindMember(s, x);
      FindMember(Sort(s), x);
    } else {
      FindNothing(s, ref);
      FindNothing(Sort(s), ref);
    }
  }

  /** All there is to say about the two sides, with nothing cut off. */
  function Full(local: seq<Snapshot>, venue: seq<Snapshot>): seq<Result> {
    Merge(Sort(local), Sort(venue))
  }

  lemma {:induction false} MergeSize(local: seq<Snapshot>, venue: seq<Snapshot>)
    ensures |Merge(local, venue)| <= |local| + |venue|
    decreases |local| + |venue|
  {
    if local == [] && venue == [] {
    } else if venue == [] {
      MergeSize(local[1..], venue);
    } else if local == [] {
      MergeSize(local, venue[1..]);
    } else if local[0].ref == venue[0].ref {
      MergeSize(local[1..], venue[1..]);
    } else if Before(local[0].ref, venue[0].ref) {
      MergeSize(local[1..], venue);
    } else {
      MergeSize(local, venue[1..]);
    }
  }

  lemma {:induction false} InsertSize(sorted: seq<Snapshot>, x: Snapshot)
    ensures |Insert(sorted, x)| == |sorted| + 1
  {
    if !(sorted == [] || Before(sorted[|sorted| - 1].ref, x.ref)) { InsertSize(sorted[..|sorted| - 1], x); }
  }

  lemma {:induction false} SortSize(s: seq<Snapshot>)
    ensures |Sort(s)| == |s|
  {
    if s != [] {
      SortSize(s[..|s| - 1]);
      InsertSize(Sort(s[..|s| - 1]), s[|s| - 1]);
    }
  }

  /** The comparison of two order books: exact, in order, and no longer than both books together. */
  lemma FullIsExact(local: seq<Snapshot>, venue: seq<Snapshot>)
    requires Distinct(local) && Distinct(venue)
    ensures AscendingResults(Full(local, venue)) && |Full(local, venue)| <= |local| + |venue|
    ensures forall ref :: Listed(Full(local, venue), ref) == Classify(Find(local, ref), Find(venue, ref))
  {
    SortAscends(local);
    SortAscends(venue);
    MergeIsExact(Sort(local), Sort(venue));
    MergeSize(Sort(local), Sort(venue));
    SortSize(local);
    SortSize(venue);
    forall ref ensures Listed(Full(local, venue), ref) == Classify(Find(local, ref), Find(venue, ref)) {
      FindInSorted(local, ref);
      FindInSorted(venue, ref);
    }
  }

  predicate AllMatched(out: seq<Result>) {
    forall r <- out :: r.status.Matched?
  }

  ghost predicate SameBook(local: seq<Snapshot>, venue: seq<Snapshot>) {
    forall ref :: Find(local, ref) == Find(venue, ref)
  }

  lemma {:induction false} ListedMember(out: seq<Result>, r: Result)
    requires AscendingResults(out) && r in out
    ensures Listed(out, r.ref) == Some(r.status)
  {
    if out[0] != r {
      var i :| 0 <= i < |out| && out[i] == r;
      assert out[0].ref != out[i].ref && r == out[1..][i - 1];
      ListedMember(out[1..], r);
    }
  }

  lemma {:induction false} ListedIsMember(out: seq<Result>, ref: Ref)
    ensures Listed(out, ref).Some? ==> Result(ref, Listed(out, ref).value) in out
  {
    if out != [] && out[0].ref != ref { ListedIsMember(out[1..], ref); }
  }

  /** Nothing but matches is reported exactly when both sides have the same orders, states and volumes. */
  lemma MatchedMeansSame(local: seq<Snapshot>, venue: seq<Snapshot>)
    requires Distinct(local) && Distinct(venue)
    ensures AllMatched(Full(local, venue)) <==> SameBook(local, venue)
  {
    FullIsExact(local, venue);
    var out := Full(local, venue);
    hide Full;
    if AllMatched(out) {
      forall ref ensures Find(local, ref) == Find(venue, ref) {
        ListedIsMember(out, ref);
        assert Listed(out, ref) == Classify(Find(local, ref), Find(venue, ref));
      }
    }
    if SameBook(local, venue) {
      forall r | r in out ensures r.status.Matched? {
        ListedMember(out, r);
        assert Find(local, r.ref) == Find(venue, r.ref);
      }
    }
  }

  // ---- the loops ----

  lemma StepBoth(l: seq<Snapshot>, v: seq<Snapshot>, i: nat, j: nat, out: seq<Result>)
    requires i < |l| && j < |v| && l[i].ref == v[j].ref
    ensures out + Merge(l[i..], v[j..]) == out + [Result(l[i].ref, Compared(l[i], v[j]))] + Merge(l[i + 1..], v[j + 1..])
  {
    assert l[i..][1..] == l[i + 1..] && v[j..][1..] == v[j + 1..];
  }

  lemma StepLocal(l: seq<Snapshot>, v: seq<Snapshot>, i: nat, j: nat, out: seq<Result>)
    requires i < |l| && j <= |v| && (j < |v| ==> l[i].ref != v[j].ref && Before(l[i].ref, v[j].ref))
    ensures out + Merge(l[i..], v[j..]) == out + [Result(l[i].ref, LocalOnly)] + Merge(l[i + 1..], v[j..])
  {
    assert l[i..][1..] == l[i + 1..];
  }

  lemma StepVenue(l: seq<Snapshot>, v: seq<Snapshot>, i: nat, j: nat, out: seq<Result>)
    requires i <= |l| && j < |v| && (i < |l| ==> l[i].ref != v[j].ref && !Before(l[i].ref, v[j].ref))
    ensures out + Merge(l[i..], v[j..]) == out + [Result(v[j].ref, VenueOnly)] + Merge(l[i..], v[j + 1..])
  {
    assert v[j..][1..] == v[j + 1..];
  }

  lemma MergeEnds(l: seq<Snapshot>, v: seq<Snapshot>, out: seq<Result>)
    ensures out + Merge(l[|l|..], v[|v|..]) == out
    ensures [] + Merge(l[0..], v[0..]) == Merge(l, v)
  {
    assert l[0..] == l && v[0..] == v;
  }

  /** Writes the comparison from the front, as far as there is room. */
  method Compare(local: seq<Snapshot>, venue: seq<Snapshot>, capacity: nat) returns (out: seq<Result>)
    ensures out == Take(Full(local, venue), capacity)
  {
    var l, v := Sort(local), Sort(venue);
    ghost var full := Full(local, venue);
    hide Sort, Merge, Before, Compared;
    out := [];
    var i, j := 0, 0;
    MergeEnds(l, v, out);
    while i < |l| && j < |v| && |out| < capacity
      invariant i <= |l| && j <= |v| && |out| <= capacity && out + Merge(l[i..], v[j..]) == full
    {
      if l[i].ref == v[j].ref {
        StepBoth(l, v, i, j, out);
        out := out + [Result(l[i].ref, Compared(l[i], v[j]))];
        i, j := i + 1, j + 1;
      } else if Before(l[i].ref, v[j].ref) {
        StepLocal(l, v, i, j, out);
        out := out + [Result(l[i].ref, LocalOnly)];
        i := i + 1;
      } else {
        StepVenue(l, v, i, j, out);
        out := out + [Result(v[j].ref, VenueOnly)];
        j := j + 1;
      }
    }
    while i < |l| && |out| < capacity
      invariant i <= |l| && j <= |v| && |out| <= capacity && out + Merge(l[i..], v[j..]) == full
      invariant |out| < capacity ==> i == |l| || j == |v|
    {
      StepLocal(l, v, i, j, out);
      out := out + [Result(l[i].ref, LocalOnly)];
      i := i + 1;
    }
    while j < |v| && |out| < capacity
      invariant i <= |l| && j <= |v| && |out| <= capacity && out + Merge(l[i..], v[j..]) == full
      invariant |out| < capacity ==> i == |l|
    {
      StepVenue(l, v, i, j, out);
      out := out + [Result(v[j].ref, VenueOnly)];
      j := j + 1;
    }
    if |out| < capacity { MergeEnds(l, v, out); }
  }

  // ---- a buffer too small ----

  /** What fits into a buffer. */
  function Take<T>(s: seq<T>, room: nat): seq<T> {
    if room < |s| then s[..room] else s
  }

  lemma TakeSize<T>(s: seq<T>, room: nat)
    ensures |Take(s, room)| == Min(|s|, room)
  {
  }

  lemma TakeTail<T>(s: seq<T>, room: nat)
    requires s != [] && room > 0
    ensures Take(s, room) == [s[0]] + Take(s[1..], room - 1)
  {
  }

  lemma TakeBoth<T>(s: seq<T>, t: seq<T>, room: nat)
    requires s != [] && t != [] && room > 0
    ensures Take(s, room) == Take(t, room) <==> s[0] == t[0] && Take(s[1..], room - 1) == Take(t[1..], room - 1)
  {
    TakeTail(s, room);
    TakeTail(t, room);
    var a, b := Take(s, room), Take(t, room);
    if a == b { assert a[0] == b[0] && a[1..] == b[1..]; }
  }

  /** A merge that does not start with an order of both sides starts with a break. */
  lemma MergeStarts(local: seq<Snapshot>, venue: seq<Snapshot>)
    requires local != [] || venue != []
    ensures var out := Merge(local, venue);
            && out != []
            && if local != [] && venue != [] && local[0].ref == venue[0].ref
               then (out[0].status.Matched? <==> local[0] == venue[0]) && out[1..] == Merge(local[1..], venue[1..])
               else !out[0].status.Matched?
  {
  }

  /** What was written shows no break exactly when both sides, sorted, are the same as far as there is room. */
  lemma {:induction false} CutIsMatched(local: seq<Snapshot>, venue: seq<Snapshot>, room: nat)
    ensures AllMatched(Take(Merge(local, venue), room)) <==> Take(local, room) == Take(venue, room)
    decreases room
  {
    if room > 0 && (local != [] || venue != []) {
      hide Merge, Take, AllMatched;
      MergeStarts(local, venue);
      var both := local != [] && venue != [];
      var out := Merge(local, venue);
      var same := both && local[0] == venue[0];
      MatchedTail(out, out[0].status.Matched?, room);
      if both {
        TakeBoth(local, venue, room);
        if same { CutIsMatched(local[1..], venue[1..], room - 1); }
      } else {
        OneIsEmpty(local, venue, room);
      }
    }
  }

  lemma OneIsEmpty<T>(s: seq<T>, t: seq<T>, room: nat)
    requires room > 0 && (s == [] <==> t != [])
    ensures Take(s, room) != Take(t, room)
  {
  }

  lemma MatchedTail(out: seq<Result>, same: bool, room: nat)
    requires out != [] && room > 0 && (out[0].status.Matched? <==> same)
    ensures AllMatched(Take(out, room)) <==> same && AllMatched(Take(out[1..], room - 1))
  {
    TakeTail(out, room);
  }

  /** Two lists of distinct references are the same book exactly when they sort to the same list. */
  lemma SameSorted(local: seq<Snapshot>, venue: seq<Snapshot>)
    requires Distinct(local) && Distinct(venue)
    ensures SameBook(local, venue) <==> Sort(local) == Sort(venue)
  {
    MatchedMeansSame(local, venue);
    var room := |Full(local, venue)| + |Sort(local)| + |Sort(venue)|;
    CutIsMatched(Sort(local), Sort(venue), room);
  }

  /** A cut comparison of lists of these sizes cannot miss a break. */
  predicate CannotMiss(local: nat, venue: nat, room: nat) {
    room > Min(local, venue) || room == local == venue
  }

  /** Lists this long that are the same as far as there is room are the same. */
  lemma CutIsSound(local: seq<Snapshot>, venue: seq<Snapshot>, room: nat)
    requires CannotMiss(|local|, |venue|, room)
    ensures Take(Sort(local), room) == Take(Sort(venue), room) ==> Sort(local) == Sort(venue)
  {
    SortSize(local);
    SortSize(venue);
  }

  /** `n` orders with consecutive references. */
  function Book(first: nat, n: nat): (s: seq<Snapshot>)
    ensures |s| == n && forall k | 0 <= k < n :: s[k] == Snapshot(Ref(0, first + k), Acknowledged, 1, 0)
  {
    seq(n, k requires 0 <= k => Snapshot(Ref(0, first + k), Acknowledged, 1, 0))
  }

  /** A venue that has the first `common` orders of `Book(0, open)` and otherwise orders that book does not have. */
  function Other(open: nat, n: nat, common: nat): (s: seq<Snapshot>)
    requires common <= n
    ensures |s| == n
  {
    Book(0, common) + Book(open, n - common)
  }

  lemma {:induction false} SortOfAscending(s: seq<Snapshot>)
    requires Ascending(s)
    ensures Sort(s) == s
  {
    if s != [] { SortOfAscending(s[..|s| - 1]); }
  }

  lemma BookAscends(open: nat, n: nat, common: nat)
    requires common <= n && common <= open
    ensures Ascending(Book(0, open)) && Ascending(Other(open, n, common))
    ensures Other(open, n, common)[..common] == Book(0, open)[..common]
  {
  }

  lemma SortOfBook(open: nat, m: nat)
    requires m <= open
    ensures Sort(Book(0, open)[..m]) == Book(0, open)[..m]
  {
    BookAscends(open, open, 0);
    SortOfAscending(Book(0, open)[..m]);
  }

  /** Two books that are the same as far as `common`, and differ beyond. */
  lemma BooksDiffer(open: nat, n: nat, common: nat)
    requires common <= Min(open, n) && !(common == open == n)
    ensures var local, venue := Book(0, open), Other(open, n, common);
            Distinct(local) && Distinct(venue) && !SameBook(local, venue) && Sort(venue) == venue
  {
    hide Sort, SameBook, Before, Distinct;
    var local, venue := Book(0, open), Other(open, n, common);
    BookAscends(open, n, common);
    AscendingIsDistinct(local);
    AscendingIsDistinct(venue);
    SortOfAscending(venue);
    SortOfAscending(local);
    SameSorted(local, venue);
    if common < open && common < n {
      assert local[common].ref == Ref(0, common) && venue[common].ref == Ref(0, open);
    }
  }
}
