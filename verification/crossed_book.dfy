/** How long a book may stay crossed: over a run of deltas, quotes and rebases, the halt comes exactly when the tolerance
    is exceeded, counted from the update that crossed the book. */
module CrossedBooks {
  import opened BookSpec
  import opened OrderBooks

  datatype Update =
    | DeltaUpdate(event: DeltaEvent)
    | QuoteUpdate(bid: Level, ask: Level, ts: nat)
    | RebaseUpdate(ref: int)

  function TimeOf(u: Update): nat {
    match u
    case DeltaUpdate(e) => e.ts
    case QuoteUpdate(_, _, ts) => ts
    case RebaseUpdate(_) => 0
  }

  function Applied(b: Book, l: Limits, t: Tolerance, u: Update): (r: (Book, BookStatus))
    requires InOrder(b)
    ensures InOrder(r.0)
  {
    match u
    case DeltaUpdate(e) =>
      DeltaKeepsOrder(b, l, t, e);
      Delta(b, l, t, e.side, e.price, e.size, e.action, e.ts)
    case QuoteUpdate(bid, ask, ts) => Quote(b, l, t, bid, ask, ts)
    case RebaseUpdate(ref) => (Rebased(b, ref), RebaseRequired)
  }

  function After(l: Limits, t: Tolerance, updates: seq<Update>): (b: Book)
    ensures InOrder(b)
  {
    if updates == [] then Blank()
    else Applied(After(l, t, updates[..|updates| - 1]), l, t, updates[|updates| - 1]).0
  }

  /** The status of the last update. */
  function LastStatus(l: Limits, t: Tolerance, updates: seq<Update>): BookStatus
    requires updates != []
  {
    Applied(After(l, t, updates[..|updates| - 1]), l, t, updates[|updates| - 1]).1
  }

  /** The last update changed the book's levels: it was neither rejected nor answered with a rebase. */
  predicate Accepted(l: Limits, t: Tolerance, updates: seq<Update>)
    requires updates != []
  {
    !LastStatus(l, t, updates).Rejected? && !LastStatus(l, t, updates).RebaseRequired?
  }

  /** The update that crossed the book, when it has stayed crossed since; all of them, when it is not crossed. */
  function CrossedFrom(l: Limits, t: Tolerance, updates: seq<Update>): (s: nat)
    ensures s <= |updates|
    ensures s == |updates| <==> !IsCrossed(After(l, t, updates))
  {
    if !IsCrossed(After(l, t, updates)) then |updates|
    else
      var before := updates[..|updates| - 1];
      if IsCrossed(After(l, t, before)) then CrossedFrom(l, t, before) else |before|
  }

  /** How many updates have been accepted from the `s`-th on. */
  function AcceptedFrom(l: Limits, t: Tolerance, updates: seq<Update>, s: nat): nat
    requires s <= |updates|
  {
    if s == |updates| then 0
    else AcceptedFrom(l, t, updates[..|updates| - 1], s) + if Accepted(l, t, updates) then 1 else 0
  }

  /** What that update is: the book was not crossed before it, and has been ever since. */
  lemma {:induction false} CrossedSinceThen(l: Limits, t: Tolerance, updates: seq<Update>)
    requires IsCrossed(After(l, t, updates))
    ensures var s := CrossedFrom(l, t, updates);
            && s < |updates| && !IsCrossed(After(l, t, updates[..s]))
            && forall k | s < k <= |updates| :: IsCrossed(After(l, t, updates[..k]))
  {
    hide After, IsCrossed;
    StartsUncrossed(l, t);
    var last := |updates| - 1;
    var before := updates[..last];
    var s := CrossedFrom(l, t, updates);
    if IsCrossed(After(l, t, before)) { CrossedSinceThen(l, t, before); }
    hide CrossedFrom;
    forall k | s <= k <= |updates| ensures IsCrossed(After(l, t, updates[..k])) <==> k > s {
      if k <= last { assert before[..k] == updates[..k]; } else { assert updates[..k] == updates; }
    }
  }

  lemma StartsUncrossed(l: Limits, t: Tolerance)
    ensures !IsCrossed(After(l, t, []))
  {
  }

  /** A book is crossed exactly when some bid stands at or above some ask, wherever in their ladders. */
  lemma CrossedAnywhere(b: Book)
    requires InOrder(b)
    ensures IsCrossed(b)
            <==> exists i, j | 0 <= i < |b.bids| && 0 <= j < |b.asks| :: b.bids[i].price >= b.asks[j].price
  {
    if IsCrossed(b) { assert b.bids[0].price >= b.asks[0].price; }
    if i, j :| 0 <= i < |b.bids| && 0 <= j < |b.asks| && b.bids[i].price >= b.asks[j].price {
      assert i > 0 ==> Better(Bid, b.bids[0].price, b.bids[i].price);
      assert j > 0 ==> Better(Ask, b.asks[0].price, b.asks[j].price);
    }
  }

  /** One update, seen from the counters. */
  lemma UpdateCounts(b: Book, l: Limits, t: Tolerance, u: Update)
    requires InOrder(b)
    ensures var (b', status) := Applied(b, l, t, u);
            && (status.Rejected? ==> b'.bids == b.bids && b'.asks == b.asks
                                     && b'.crossed == b.crossed && b'.crossedSince == b.crossedSince)
            && (status.RebaseRequired? ==> !IsCrossed(b') && b'.crossed == 0)
            && (!status.Rejected? && !status.RebaseRequired? ==>
                  if !IsCrossed(b') then status.Fine? && b'.crossed == 0
                  else
                    && b'.crossed == b.crossed + 1
                    && b'.crossedSince == (if b.crossed == 0 then TimeOf(u) else b.crossedSince)
                    && (status.CrossedHalt? <==>
                          b'.crossed > t.maxUpdates ||
                          (TimeOf(u) >= b'.crossedSince && TimeOf(u) - b'.crossedSince > t.maxDuration))
                    && (status.CrossedHalt? || status.CrossedTolerated?))
  {
    hide BookSpec.Set, Erase, BookSpec.Find, Sorted;
  }

  /** The counters say since when, and for how many accepted updates, the book has been crossed. */
  lemma {:induction false} CountersCount(l: Limits, t: Tolerance, updates: seq<Update>)
    ensures var b, s := After(l, t, updates), CrossedFrom(l, t, updates);
            if s == |updates| then b.crossed == 0
            else b.crossed == AcceptedFrom(l, t, updates, s) > 0 && b.crossedSince == TimeOf(updates[s])
  {
    if updates != [] {
      var before, u := updates[..|updates| - 1], updates[|updates| - 1];
      CountersCount(l, t, before);
      UpdateCounts(After(l, t, before), l, t, u);
      hide Applied;
      var s := CrossedFrom(l, t, updates);
      if s == |before| {
        assert AcceptedFrom(l, t, before, s) == 0;
      }
    }
  }

  /** An accepted update halts exactly when it leaves a book that has stayed crossed for more than so many accepted
      updates, or for longer than so much time since the update that crossed it. */
  lemma HaltsExactlyWhenExceeded(l: Limits, t: Tolerance, updates: seq<Update>)
    requires updates != []
    ensures var s, now := CrossedFrom(l, t, updates), TimeOf(updates[|updates| - 1]);
            LastStatus(l, t, updates).CrossedHalt?
            <==> && Accepted(l, t, updates) && s < |updates|
                 && (AcceptedFrom(l, t, updates, s) > t.maxUpdates
                     || (now >= TimeOf(updates[s]) && now - TimeOf(updates[s]) > t.maxDuration))
  {
    var before := updates[..|updates| - 1];
    CountersCount(l, t, updates);
    UpdateCounts(After(l, t, before), l, t, updates[|updates| - 1]);
    hide Applied, AcceptedFrom;
  }
}
