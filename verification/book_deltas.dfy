/** What a delta does to the levels, price by price, and what the levels of a book can be. */
module BookDeltas {
  import opened BookSpec
  import opened OrderBooks
  import opened CrossedBooks

  /** The size standing at a price. */
  ghost predicate Stands(ladder: seq<Level>, price: int, size: int) {
    exists i | 0 <= i < |ladder| :: ladder[i] == Level(price, size)
  }

  predicate InLimits(l: Limits, e: DeltaEvent) {
    l.minPrice <= e.price <= l.maxPrice && 0 <= e.size <= l.maxSize
  }

  /** A delta of size 0 takes its price off the book whatever it is labelled. */
  predicate TakesOff(e: DeltaEvent) {
    e.action.Remove? || e.size == 0
  }

  function Other(side: Side): Side { if side.Bid? then Ask else Bid }

  lemma ErasedStands(side: Side, ladder: seq<Level>, i: nat, price: int, size: int)
    requires i < |ladder| && Sorted(side, ladder)
    ensures Stands(Erase(ladder, i), price, size) <==> Stands(ladder, price, size) && price != ladder[i].price
  {
    var rest := Erase(ladder, i);
    if Stands(ladder, price, size) && price != ladder[i].price {
      var k :| 0 <= k < |ladder| && ladder[k] == Level(price, size);
      if k < i { assert rest[k] == Level(price, size); } else { assert rest[k - 1] == Level(price, size); }
    }
    if Stands(rest, price, size) {
      var k :| 0 <= k < |rest| && rest[k] == Level(price, size);
      var j := if k < i then k else k + 1;
      assert ladder[j] == Level(price, size);
      if j < i { assert Better(side, ladder[j].price, ladder[i].price); } else { assert Better(side, ladder[i].price, ladder[j].price); }
    }
  }

  /** A delta outside the limits is refused. One that takes off a price that stands takes off exactly that; one whose price
      does not stand clears the book. Any other puts its size at its price, unless 32 better prices stand, and nothing else. */
  lemma DeltaExactly(b: Book, l: Limits, t: Tolerance, e: DeltaEvent)
    requires InOrder(b)
    ensures var (b', status) := Delta(b, l, t, e.side, e.price, e.size, e.action, e.ts);
            var ladder, ladder' := Ladder(b, e.side), Ladder(b', e.side);
            && (status.Rejected? <==> !InLimits(l, e))
            && (status.Rejected? ==> b'.bids == b.bids && b'.asks == b.asks)
            && (status.RebaseRequired? <==> InLimits(l, e) && TakesOff(e) && !Holds(ladder, e.price))
            && (status.RebaseRequired? ==> b'.bids == [] && b'.asks == [])
            && (!status.RebaseRequired? ==> Ladder(b', Other(e.side)) == Ladder(b, Other(e.side)))
            && (InLimits(l, e) && TakesOff(e) && Holds(ladder, e.price) ==>
                  forall price, size :: Stands(ladder', price, size) <==> price != e.price && Stands(ladder, price, size))
            && (InLimits(l, e) && !TakesOff(e) ==>
                  && (Stands(ladder', e.price, e.size) || (|ladder| == MAX_DEPTH && Beaten(e.side, ladder, e.price) && ladder' == ladder))
                  && (forall price, size | price != e.price && Stands(ladder', price, size) :: Stands(ladder, price, size)))
  {
    var ladder := Ladder(b, e.side);
    var i := Find(ladder, e.price);
    assert Holds(ladder, e.price) <==> i < |ladder|;
    hide Set, Erase;
    if TakesOff(e) {
      if i < |ladder| {
        forall price, size { ErasedStands(e.side, ladder, i, price, size); }
      }
    } else {
      SetStands(e.side, ladder, e.price, e.size);
    }
    hide Stands, Beaten;
  }

  lemma SetStands(side: Side, ladder: seq<Level>, price: int, size: int)
    requires |ladder| <= MAX_DEPTH && Sorted(side, ladder)
    ensures var ladder' := Set(side, ladder, price, size).0;
            && (Stands(ladder', price, size) || (|ladder| == MAX_DEPTH && Beaten(side, ladder, price) && ladder' == ladder))
            && (forall p, s | p != price && Stands(ladder', p, s) :: Stands(ladder, p, s))
  {
    var ladder' := Set(side, ladder, price, size).0;
    var i := Find(ladder, price);
    if i < |ladder| {
      assert ladder'[i] == Level(price, size);
      forall p, s | p != price && Stands(ladder', p, s) ensures Stands(ladder, p, s) {
        var k :| 0 <= k < |ladder'| && ladder'[k] == Level(p, s);
        assert ladder[k] == Level(p, s);
      }
    } else {
      InsertStands(side, ladder, Level(price, size));
    }
  }

  lemma InsertStands(side: Side, ladder: seq<Level>, l: Level)
    requires |ladder| <= MAX_DEPTH && Sorted(side, ladder) && Find(ladder, l.price) == |ladder|
    ensures var ladder' := Insert(side, ladder, l).0;
            && (Stands(ladder', l.price, l.size) || (|ladder| == MAX_DEPTH && Beaten(side, ladder, l.price) && ladder' == ladder))
            && (forall p, s | p != l.price && Stands(ladder', p, s) :: Stands(ladder, p, s))
  {
    if Place(side, ladder, l.price) < MAX_DEPTH {
      InsertedLevels(side, ladder, l);
      hide Insert, Sorted, Better;
      ShiftedStands(ladder, Insert(side, ladder, l).0, Place(side, ladder, l.price), l);
    } else {
      forall k | 0 <= k < |ladder| ensures Better(side, ladder[k].price, l.price) { assert ladder[k].price != l.price; }
    }
  }

  lemma ShiftedStands(ladder: seq<Level>, ladder': seq<Level>, p: nat, l: Level)
    requires p < |ladder'| <= |ladder| + 1 && p <= |ladder| && ladder'[p] == l
    requires (forall k | 0 <= k < p :: ladder'[k] == ladder[k]) && (forall k | p < k < |ladder'| :: ladder'[k] == ladder[k - 1])
    ensures Stands(ladder', l.price, l.size) && forall q, s | q != l.price && Stands(ladder', q, s) :: Stands(ladder, q, s)
  {
    assert ladder'[p] == Level(l.price, l.size);
    forall q, s | q != l.price && Stands(ladder', q, s) ensures Stands(ladder, q, s) {
      var k :| 0 <= k < |ladder'| && ladder'[k] == Level(q, s);
      assert ladder[if k < p then k else k - 1] == Level(q, s);
    }
  }

  predicate Sound(l: Limits, level: Level) {
    l.minPrice <= level.price <= l.maxPrice && 0 < level.size <= l.maxSize
  }

  ghost predicate Real(l: Limits, ladder: seq<Level>) {
    forall i | 0 <= i < |ladder| :: Sound(l, ladder[i])
  }

  lemma RealStands(l: Limits, ladder: seq<Level>)
    ensures Real(l, ladder) <==> forall price, size | Stands(ladder, price, size) :: Sound(l, Level(price, size))
  {
    if forall price, size | Stands(ladder, price, size) :: Sound(l, Level(price, size)) {
      forall i | 0 <= i < |ladder| ensures Sound(l, ladder[i]) {
        assert ladder[i] == Level(ladder[i].price, ladder[i].size);
        assert Stands(ladder, ladder[i].price, ladder[i].size);
      }
    }
  }

  lemma OnePrice(side: Side, ladder: seq<Level>, i: nat, j: nat)
    requires Sorted(side, ladder) && i < |ladder| && j < |ladder| && ladder[i].price == ladder[j].price
    ensures i == j
  {
  }

  lemma OneSize(side: Side, ladder: seq<Level>, price: int, a: int, b: int)
    requires Sorted(side, ladder) && Stands(ladder, price, a) && Stands(ladder, price, b)
    ensures a == b
  {
    var i :| 0 <= i < |ladder| && ladder[i] == Level(price, a);
    var j :| 0 <= j < |ladder| && ladder[j] == Level(price, b);
    OnePrice(side, ladder, i, j);
  }

  /** The side of the delta stays real. */
  lemma SideStaysReal(b: Book, l: Limits, t: Tolerance, e: DeltaEvent)
    requires InOrder(b) && Real(l, Ladder(b, e.side)) && InLimits(l, e)
    ensures Real(l, Ladder(Delta(b, l, t, e.side, e.price, e.size, e.action, e.ts).0, e.side))
  {
    var (b', status) := Delta(b, l, t, e.side, e.price, e.size, e.action, e.ts);
    var ladder, ladder' := Ladder(b, e.side), Ladder(b', e.side);
    DeltaExactly(b, l, t, e);
    DeltaKeepsOrder(b, l, t, e);
    RealStands(l, ladder);
    RealStands(l, ladder');
    hide Delta, Stands, Real, Beaten;
    if !status.RebaseRequired? && ladder' != ladder {
      forall price, size | Stands(ladder', price, size) ensures Sound(l, Level(price, size)) {
        if price == e.price && !TakesOff(e) { OneSize(e.side, ladder', price, size, e.size); }
      }
    } else {
      EmptyIsReal(l);
    }
  }

  lemma EmptyIsReal(l: Limits)
    ensures Real(l, [])
  {
  }

  /** In every run of deltas each level has a price within the limits and a size above 0 and within them. */
  lemma {:induction false} LevelsAreReal(l: Limits, t: Tolerance, events: seq<DeltaEvent>)
    ensures var b := Run(l, t, events).book; Real(l, b.bids) && Real(l, b.asks)
  {
    if events != [] {
      var before, e := events[..|events| - 1], events[|events| - 1];
      LevelsAreReal(l, t, before);
      var b := Run(l, t, before).book;
      DeltaExactly(b, l, t, e);
      hide Stands, Delta, TakesOff, Real, Holds;
      if InLimits(l, e) { SideStaysReal(b, l, t, e); }
      EmptyIsReal(l);
    }
  }

  // ---- quotes and counts ----

  /** A quote is refused exactly when a price or a size is outside its limits, or the spread too wide; otherwise its two
      levels, of whatever size, are the whole book. */
  lemma QuoteExactly(b: Book, l: Limits, t: Tolerance, bid: Level, ask: Level, ts: nat)
    ensures var (b', status) := Quote(b, l, t, bid, ask, ts);
            && (status.Rejected? <==>
                  !(l.minPrice <= bid.price <= l.maxPrice && l.minPrice <= ask.price <= l.maxPrice && ask.price - bid.price <= l.maxSpread
                    && 0 <= bid.size <= l.maxSize && 0 <= ask.size <= l.maxSize))
            && (if status.Rejected? then b'.bids == b.bids && b'.asks == b.asks else b'.bids == [bid] && b'.asks == [ask])
  {
  }

  /** Every update is counted once: as accepted, as rejected, or as a rebase. */
  lemma {:induction false} EveryUpdateIsCounted(l: Limits, t: Tolerance, updates: seq<Update>)
    ensures var c := After(l, t, updates).counters;
            c.updates + c.rejected + c.rebases == |updates| && c.outside <= c.updates
  {
    if updates != [] {
      var before := updates[..|updates| - 1];
      EveryUpdateIsCounted(l, t, before);
      UpdateIsCounted(After(l, t, before), l, t, updates[|updates| - 1]);
      hide Applied;
    }
  }

  lemma UpdateIsCounted(b: Book, l: Limits, t: Tolerance, u: Update)
    requires InOrder(b)
    ensures var (b', status) := Applied(b, l, t, u);
            var c, c' := b.counters, b'.counters;
            && c'.rejected == c.rejected + (if status.Rejected? then 1 else 0)
            && c'.rebases == c.rebases + (if status.RebaseRequired? then 1 else 0)
            && c'.updates == c.updates + (if !status.Rejected? && !status.RebaseRequired? then 1 else 0)
            && c'.outside - c.outside <= c'.updates - c.updates
  {
    hide BookSpec.Set, Erase, BookSpec.Find, Sorted;
  }

  // ---- rebases ----

  /** The reference an update asks for when it leads to a rebase. */
  function RefOf(u: Update): int {
    match u
    case DeltaUpdate(e) => e.price
    case RebaseUpdate(ref) => ref
    case QuoteUpdate(_, _, _) => 0
  }

  /** The references of the rebases of a run, in turn. */
  function Refs(l: Limits, t: Tolerance, updates: seq<Update>): seq<int> {
    if updates == [] then []
    else
      var before := Refs(l, t, updates[..|updates| - 1]);
      if LastStatus(l, t, updates).RebaseRequired? then before + [RefOf(updates[|updates| - 1])] else before
  }

  /** The `n`-th reference from the end, or 0. */
  function FromEnd(refs: seq<int>, n: nat): int {
    if n < |refs| then refs[|refs| - 1 - n] else 0
  }

  /** In every run the book knows the references of the last two rebases, and whether there was one. */
  lemma {:induction false} LastTwoRebases(l: Limits, t: Tolerance, updates: seq<Update>)
    ensures After(l, t, updates).rebase == Rebase(Refs(l, t, updates) != [], FromEnd(Refs(l, t, updates), 1), FromEnd(Refs(l, t, updates), 0))
  {
    if updates != [] {
      var before, u := updates[..|updates| - 1], updates[|updates| - 1];
      LastTwoRebases(l, t, before);
      RebaseMoves(After(l, t, before), l, t, u);
      hide Applied;
    }
  }

  lemma RebaseMoves(b: Book, l: Limits, t: Tolerance, u: Update)
    requires InOrder(b)
    ensures var (b', status) := Applied(b, l, t, u);
            b'.rebase == if status.RebaseRequired? then Rebase(true, b.rebase.newRef, RefOf(u)) else b.rebase
  {
    hide BookSpec.Set, Erase, BookSpec.Find, Sorted;
  }
}
