/** The depth-limited order book: two ladders in fixed arrays, updated in place. */
module OrderBooks {
  import opened BookSpec

  datatype Action = Add | Modify | Remove

  datatype BookStatus = Fine | CrossedTolerated | CrossedHalt | RebaseRequired | Rejected

  datatype Limits = Limits(minPrice: int, maxPrice: int, maxSpread: int, maxSize: int) {
    predicate PriceOk(price: int) { minPrice <= price <= maxPrice }

    predicate SizeOk(size: int) { 0 <= size <= maxSize }
  }

  datatype Tolerance = Tolerance(maxUpdates: nat, maxDuration: nat)

  datatype Rebase = Rebase(pending: bool, oldRef: int, newRef: int)

  datatype Counters = Counters(updates: nat, rebases: nat, rejected: nat, outside: nat)

  datatype Book = Book(bids: seq<Level>, asks: seq<Level>, crossed: nat, crossedSince: nat, rebase: Rebase, counters: Counters)

  // ---- the specification ----

  function Ladder(b: Book, side: Side): seq<Level> {
    if side.Bid? then b.bids else b.asks
  }

  function WithLadder(b: Book, side: Side, ladder: seq<Level>): Book {
    if side.Bid? then b.(bids := ladder) else b.(asks := ladder)
  }

  predicate IsCrossed(b: Book) {
    b.bids != [] && b.asks != [] && b.bids[0].price >= b.asks[0].price
  }

  /** A crossed book is tolerated for so many updates and so much time, and then halts. */
  function Evaluated(b: Book, t: Tolerance, ts: nat): (Book, BookStatus) {
    if !IsCrossed(b) then (b.(crossed := 0, crossedSince := 0), Fine)
    else
      var since := if b.crossed == 0 then ts else b.crossedSince;
      var count := b.crossed + 1;
      (b.(crossed := count, crossedSince := since),
       if count > t.maxUpdates || (ts >= since && ts - since > t.maxDuration) then CrossedHalt else CrossedTolerated)
  }

  function Rebased(b: Book, ref: int): Book {
    Book([], [], 0, 0, Rebase(true, b.rebase.newRef, ref), b.counters.(rebases := b.counters.rebases + 1))
  }

  function RejectedBook(b: Book): Book {
    b.(counters := b.counters.(rejected := b.counters.rejected + 1))
  }

  function Counted(b: Book, inside: bool): Book {
    b.(counters := b.counters.(updates := b.counters.updates + 1, outside := b.counters.outside + if inside then 0 else 1))
  }

  predicate Removes(action: Action, size: int) {
    size == 0 || action.Remove?
  }

  predicate Shaped(b: Book) {
    |b.bids| <= MAX_DEPTH && |b.asks| <= MAX_DEPTH
  }

  function Delta(b: Book, l: Limits, t: Tolerance, side: Side, price: int, size: int, action: Action, ts: nat): (Book, BookStatus)
    requires Shaped(b)
  {
    if !l.PriceOk(price) || !l.SizeOk(size) then (RejectedBook(b), Rejected)
    else
      var ladder := Ladder(b, side);
      var i := Find(ladder, price);
      if Removes(action, size) then
        if i == |ladder| then (Rebased(b, price), RebaseRequired)
        else Evaluated(Counted(WithLadder(b, side, Erase(ladder, i)), true), t, ts)
      else
        var (ladder', inside) := Set(side, ladder, price, size);
        Evaluated(Counted(WithLadder(b, side, ladder'), inside), t, ts)
  }

  function Quote(b: Book, l: Limits, t: Tolerance, bid: Level, ask: Level, ts: nat): (Book, BookStatus) {
    if !l.PriceOk(bid.price) || !l.PriceOk(ask.price) || !l.SizeOk(bid.size) || !l.SizeOk(ask.size) ||
       ask.price - bid.price > l.maxSpread then (RejectedBook(b), Rejected)
    else Evaluated(Counted(b.(bids := [bid], asks := [ask]), true), t, ts)
  }

  // ---- runs of deltas ----

  datatype DeltaEvent = DeltaEvent(side: Side, price: int, size: int, action: Action, ts: nat)

  function Blank(): Book {
    Book([], [], 0, 0, Rebase(false, 0, 0), Counters(0, 0, 0, 0))
  }

  /** The book after a run, and every level the run has set and not removed since the last rebase. */
  datatype Followed = Followed(book: Book, bids: map<int, int>, asks: map<int, int>)

  function FullSide(f: Followed, side: Side): map<int, int> {
    if side.Bid? then f.bids else f.asks
  }

  function WithFull(f: Followed, side: Side, full: map<int, int>): Followed {
    if side.Bid? then f.(bids := full) else f.(asks := full)
  }

  function Follow(f: Followed, l: Limits, t: Tolerance, e: DeltaEvent): Followed
    requires Shaped(f.book)
  {
    var book := Delta(f.book, l, t, e.side, e.price, e.size, e.action, e.ts).0;
    var full := FullSide(f, e.side);
    if !l.PriceOk(e.price) || !l.SizeOk(e.size) then f.(book := book)
    else if !Removes(e.action, e.size) then WithFull(f, e.side, full[e.price := e.size]).(book := book)
    else if Find(Ladder(f.book, e.side), e.price) == |Ladder(f.book, e.side)| then Followed(book, map[], map[])
    else WithFull(f, e.side, full - {e.price}).(book := book)
  }

  ghost predicate Good(f: Followed) {
    Shaped(f.book) && IsBest(Bid, f.book.bids, f.bids) && IsBest(Ask, f.book.asks, f.asks)
  }

  /** A removal that finds its level while others wait outside the ladder. */
  predicate Uncovers(f: Followed, l: Limits, e: DeltaEvent) {
    && l.PriceOk(e.price) && l.SizeOk(e.size) && Removes(e.action, e.size)
    && Find(Ladder(f.book, e.side), e.price) < |Ladder(f.book, e.side)|
    && |FullSide(f, e.side)| > MAX_DEPTH
  }

  lemma BestDepth(side: Side, ladder: seq<Level>, full: map<int, int>)
    requires IsBest(side, ladder, full)
    ensures |ladder| <= MAX_DEPTH
  {
  }

  lemma EmptyIsBest(side: Side)
    ensures IsBest(side, [], map[])
  {
  }

  lemma FollowSide(f: Followed, l: Limits, t: Tolerance, e: DeltaEvent, side: Side)
    requires Good(f)
    ensures var f' := Follow(f, l, t, e);
            IsBest(side, Ladder(f'.book, side), FullSide(f', side)) <==> !(side == e.side && Uncovers(f, l, e))
  {
    hide IsBest, Set, Erase;
    EmptyIsBest(side);
    if side == e.side && l.PriceOk(e.price) && l.SizeOk(e.size) {
      var ladder, full := Ladder(f.book, side), FullSide(f, side);
      if !Removes(e.action, e.size) {
        SetKeepsBest(side, ladder, full, e.price, e.size);
      } else if Find(ladder, e.price) < |ladder| {
        EraseKeepsBestIff(side, ladder, full, Find(ladder, e.price));
      }
    }
  }

  /** One delta keeps both ladders the best levels of what was set, exactly when it uncovers nothing. */
  lemma FollowKeepsBest(f: Followed, l: Limits, t: Tolerance, e: DeltaEvent)
    requires Good(f)
    ensures Good(Follow(f, l, t, e)) <==> !Uncovers(f, l, e)
  {
    FollowSide(f, l, t, e, Bid);
    FollowSide(f, l, t, e, Ask);
    hide Follow, Uncovers, IsBest;
    var f' := Follow(f, l, t, e);
    if !Uncovers(f, l, e) {
      BestDepth(Bid, f'.book.bids, f'.bids);
      BestDepth(Ask, f'.book.asks, f'.asks);
    }
  }

  lemma {:induction false} SetDepth(side: Side, ladder: seq<Level>, price: int, size: int)
    requires |ladder| <= MAX_DEPTH && Sorted(side, ladder)
    ensures |Set(side, ladder, price, size).0| <= MAX_DEPTH && Sorted(side, Set(side, ladder, price, size).0)
  {
    if Find(ladder, price) == |ladder| && Place(side, ladder, price) < MAX_DEPTH {
      InsertedLevels(side, ladder, Level(price, size));
      InsertKeepsOrder(side, ladder, Level(price, size));
    }
  }

  predicate InOrder(b: Book) {
    Shaped(b) && Sorted(Bid, b.bids) && Sorted(Ask, b.asks)
  }

  /** Every delta, removals and all, leaves both ladders strictly ordered and within the depth. */
  lemma DeltaKeepsOrder(b: Book, l: Limits, t: Tolerance, e: DeltaEvent)
    requires InOrder(b)
    ensures InOrder(Delta(b, l, t, e.side, e.price, e.size, e.action, e.ts).0)
  {
    var ladder := Ladder(b, e.side);
    SetDepth(e.side, ladder, e.price, e.size);
    hide Set;
    if Find(ladder, e.price) < |ladder| {
      ErasedLevels(ladder, Find(ladder, e.price));
      hide Erase;
    }
  }

  ghost function Run(l: Limits, t: Tolerance, events: seq<DeltaEvent>): (f: Followed)
    ensures InOrder(f.book)
  {
    if events == [] then Followed(Blank(), map[], map[])
    else
      var f := Run(l, t, events[..|events| - 1]);
      DeltaKeepsOrder(f.book, l, t, events[|events| - 1]);
      Follow(f, l, t, events[|events| - 1])
  }

  /** The depth-limited book is the best 32: at every moment of a run both ladders are the best levels of all that
      was set, exactly when no removal ever uncovers a level left outside. */
  lemma {:induction false} BookIsTheBestLevels(l: Limits, t: Tolerance, events: seq<DeltaEvent>)
    ensures (forall n | 0 <= n <= |events| :: Good(Run(l, t, events[..n])))
            <==> (forall n | 0 <= n < |events| :: !Uncovers(Run(l, t, events[..n]), l, events[n]))
  {
    hide Good, Uncovers, Follow;
    BlankIsGood(l, t);
    assert events[..0] == [];
    forall n | 0 <= n < |events|
      ensures Good(Run(l, t, events[..n])) ==>
        (Good(Run(l, t, events[..n + 1])) <==> !Uncovers(Run(l, t, events[..n]), l, events[n]))
    {
      assert events[..n + 1][..n] == events[..n];
      if Good(Run(l, t, events[..n])) { FollowKeepsBest(Run(l, t, events[..n]), l, t, events[n]); }
    }
    if forall n | 0 <= n < |events| :: !Uncovers(Run(l, t, events[..n]), l, events[n]) {
      GoodUpTo(l, t, events, |events|);
    }
    if forall n | 0 <= n <= |events| :: Good(Run(l, t, events[..n])) {
      forall n | 0 <= n < |events| ensures !Uncovers(Run(l, t, events[..n]), l, events[n]) {
        assert Good(Run(l, t, events[..n])) && Good(Run(l, t, events[..n + 1]));
      }
    }
  }

  lemma BlankIsGood(l: Limits, t: Tolerance)
    ensures Good(Run(l, t, []))
  {
    EmptyIsBest(Bid);
    EmptyIsBest(Ask);
  }

  lemma {:induction false} GoodUpTo(l: Limits, t: Tolerance, events: seq<DeltaEvent>, m: nat)
    requires m <= |events| && Good(Run(l, t, []))
    requires forall n | 0 <= n < |events| :: !Uncovers(Run(l, t, events[..n]), l, events[n])
    requires forall n | 0 <= n < |events| :: Good(Run(l, t, events[..n])) ==>
               (Good(Run(l, t, events[..n + 1])) <==> !Uncovers(Run(l, t, events[..n]), l, events[n]))
    ensures forall n | 0 <= n <= m :: Good(Run(l, t, events[..n]))
  {
    hide Good, Uncovers, Run;
    if m == 0 {
      assert events[..0] == [];
    } else {
      GoodUpTo(l, t, events, m - 1);
      assert Good(Run(l, t, events[..m - 1]));
      assert events[..m - 1 + 1] == events[..m];
    }
  }

  lemma InsertRefused(side: Side, ladder: seq<Level>, l: Level)
    requires |ladder| <= MAX_DEPTH && Place(side, ladder, l.price) == MAX_DEPTH
    ensures Insert(side, ladder, l) == (ladder, false)
  {
  }

  lemma InsertedIs(side: Side, ladder: seq<Level>, l: Level, result: seq<Level>)
    requires |ladder| <= MAX_DEPTH && Place(side, ladder, l.price) < MAX_DEPTH
    requires |result| == (if |ladder| == MAX_DEPTH then MAX_DEPTH else |ladder| + 1)
    requires var p := Place(side, ladder, l.price);
             && (forall k | 0 <= k < p :: result[k] == ladder[k]) && result[p] == l
             && forall k | p < k < |result| :: result[k] == ladder[k - 1]
    ensures Insert(side, ladder, l) == (result, true)
  {
    InsertedLevels(side, ladder, l);
    assert Insert(side, ladder, l).1;
    hide Insert;
    assert result == Insert(side, ladder, l).0;
  }

  // ---- the book itself ----

  /** One side's levels in a fixed array. */
  class LadderArray {
    const side: Side
    const levels: array<Level>
    var depth: nat

    ghost predicate Valid()
      reads this
    {
      levels.Length == MAX_DEPTH && depth <= MAX_DEPTH
    }

    ghost function View(): seq<Level>
      requires Valid()
      reads this, levels
    {
      levels[..depth]
    }

    constructor (side: Side)
      ensures Valid() && fresh(levels) && this.side == side && View() == []
    {
      this.side := side;
      levels := new Level[MAX_DEPTH](_ => Level(0, 0));
      depth := 0;
    }

    method FindPrice(price: int) returns (i: nat)
      requires Valid()
      ensures i == Find(View(), price)
    {
      i := 0;
      ghost var ladder := View();
      while i < depth && levels[i].price != price
        invariant i <= depth && ladder == View() && forall k | 0 <= k < i :: ladder[k].price != price
      {
        i := i + 1;
      }
      assert i < depth ==> ladder[i] == levels[i];
    }

    method EraseAt(index: nat)
      requires Valid() && index < depth
      modifies this`depth, levels
      ensures Valid() && View() == Erase(old(View()), index)
    {
      ghost var before := levels[..];
      var i := index;
      while i + 1 < depth
        invariant index <= i < depth == old(depth)
        invariant forall k | 0 <= k < index || i <= k < levels.Length :: levels[k] == before[k]
        invariant forall k | index <= k < i :: levels[k] == before[k + 1]
      {
        levels[i] := levels[i + 1];
        i := i + 1;
      }
      depth := depth - 1;
      assert View() == Erase(before[..old(depth)], index);
    }

    /** Shifts the worse levels down one place; a full ladder loses its last one. */
    method InsertSorted(l: Level) returns (inserted: bool)
      requires Valid()
      modifies this`depth, levels
      ensures Valid() && (View(), inserted) == Insert(side, old(View()), l)
    {
      hide Insert;
      ghost var before := levels[..];
      ghost var ladder := View();
      var position := 0;
      while position < depth && !Better(side, l.price, levels[position].price)
        invariant position <= depth && forall k | 0 <= k < position :: !Better(side, l.price, ladder[k].price)
      {
        position := position + 1;
      }
      assert position < depth ==> ladder[position] == levels[position];
      assert position == Place(side, ladder, l.price);
      if position == MAX_DEPTH {
        InsertRefused(side, ladder, l);
        return false;
      }
      if depth == MAX_DEPTH {
        depth := depth - 1;
      }
      ghost var kept := depth;
      var i := depth;
      while i > position
        invariant position <= i <= depth == kept < MAX_DEPTH
        invariant forall k | 0 <= k <= i :: levels[k] == before[k]
        invariant forall k | i < k <= depth :: levels[k] == before[k - 1]
      {
        levels[i] := levels[i - 1];
        i := i - 1;
      }
      levels[position] := l;
      depth := depth + 1;
      InsertedIs(side, ladder, l, View());
      return true;
    }

    method SetLevel(price: int, size: int) returns (inside: bool)
      requires Valid()
      modifies this`depth, levels
      ensures Valid() && (View(), inside) == Set(side, old(View()), price, size)
    {
      var i := FindPrice(price);
      if i < depth {
        ghost var ladder := View();
        levels[i] := Level(price, size);
        assert View() == ladder[i := Level(price, size)];
        return true;
      }
      inside := InsertSorted(Level(price, size));
    }

    method Only(l: Level)
      requires Valid()
      modifies this`depth, levels
      ensures Valid() && View() == [l]
    {
      levels[0] := l;
      depth := 1;
    }

    method Clear()
      requires Valid()
      modifies this`depth
      ensures Valid() && View() == []
    {
      depth := 0;
    }
  }

  class OrderBook {
    const limits: Limits
    const tolerance: Tolerance
    const bids: LadderArray
    const asks: LadderArray
    var crossed: nat
    var crossedSince: nat
    var rebase: Rebase
    var counters: Counters

    ghost predicate Valid()
      reads bids, asks
    {
      bids.Valid() && asks.Valid() && bids.side == Bid && asks.side == Ask && bids != asks && bids.levels != asks.levels
    }

    ghost function View(): Book
      requires Valid()
      reads this, bids, asks, bids.levels, asks.levels
    {
      Book(bids.View(), asks.View(), crossed, crossedSince, rebase, counters)
    }

    constructor (limits: Limits, tolerance: Tolerance)
      ensures Valid() && View() == Blank()
    {
      this.limits, this.tolerance := limits, tolerance;
      bids := new LadderArray(Bid);
      asks := new LadderArray(Ask);
      crossed, crossedSince, rebase, counters := 0, 0, Rebase(false, 0, 0), Counters(0, 0, 0, 0);
    }

    method ApplyDelta(side: Side, price: int, size: int, action: Action, ts: nat) returns (status: BookStatus)
      requires Valid()
      modifies this, bids`depth, asks`depth, bids.levels, asks.levels
      ensures Valid() && (View(), status) == Delta(old(View()), limits, tolerance, side, price, size, action, ts)
    {
      hide Set, Erase, Find, Evaluated, LadderArray.Valid, LadderArray.View, WithLadder, Ladder;
      if !limits.PriceOk(price) || !limits.SizeOk(size) {
        counters := counters.(rejected := counters.rejected + 1);
        return Rejected;
      }
      if Removes(action, size) {
        var i, found := FindSide(side, price);
        if !found {
          RequestRebase(price);
          return RebaseRequired;
        }
        EraseSide(side, i);
        counters := counters.(updates := counters.updates + 1);
      } else {
        var inside := SetSide(side, price, size);
        counters := counters.(updates := counters.updates + 1, outside := counters.outside + if inside then 0 else 1);
      }
      status := EvaluateCrossed(ts);
    }

    method FindSide(side: Side, price: int) returns (i: nat, found: bool)
      requires Valid()
      ensures i == Find(Ladder(View(), side), price) && found == (i < |Ladder(View(), side)|)
    {
      if side.Bid? {
        i := bids.FindPrice(price);
        found := i < bids.depth;
      } else {
        i := asks.FindPrice(price);
        found := i < asks.depth;
      }
    }

    method EraseSide(side: Side, i: nat)
      requires Valid() && i < |Ladder(View(), side)|
      modifies bids`depth, asks`depth, bids.levels, asks.levels
      ensures Valid() && View() == WithLadder(old(View()), side, Erase(Ladder(old(View()), side), i))
    {
      hide Erase;
      if side.Bid? { bids.EraseAt(i); } else { asks.EraseAt(i); }
    }

    method SetSide(side: Side, price: int, size: int) returns (inside: bool)
      requires Valid()
      modifies bids`depth, asks`depth, bids.levels, asks.levels
      ensures Valid() && Shaped(old(View()))
      ensures var res := Set(side, Ladder(old(View()), side), price, size);
              View() == WithLadder(old(View()), side, res.0) && inside == res.1
    {
      hide Set;
      if side.Bid? { inside := bids.SetLevel(price, size); } else { inside := asks.SetLevel(price, size); }
    }

    method ApplyQuote(bid: Level, ask: Level, ts: nat) returns (status: BookStatus)
      requires Valid()
      modifies this, bids`depth, asks`depth, bids.levels, asks.levels
      ensures Valid() && (View(), status) == Quote(old(View()), limits, tolerance, bid, ask, ts)
    {
      if !limits.PriceOk(bid.price) || !limits.PriceOk(ask.price) || !limits.SizeOk(bid.size) || !limits.SizeOk(ask.size) ||
         ask.price - bid.price > limits.maxSpread {
        counters := counters.(rejected := counters.rejected + 1);
        return Rejected;
      }
      bids.Only(bid);
      asks.Only(ask);
      counters := counters.(updates := counters.updates + 1);
      status := EvaluateCrossed(ts);
    }

    method RequestRebase(ref: int)
      requires Valid()
      modifies this, bids`depth, asks`depth
      ensures Valid() && View() == Rebased(old(View()), ref)
    {
      rebase := Rebase(true, rebase.newRef, ref);
      bids.Clear();
      asks.Clear();
      crossed, crossedSince := 0, 0;
      counters := counters.(rebases := counters.rebases + 1);
    }

    method EvaluateCrossed(ts: nat) returns (status: BookStatus)
      requires Valid()
      modifies this`crossed, this`crossedSince
      ensures Valid() && (View(), status) == Evaluated(old(View()), tolerance, ts)
    {
      if bids.depth == 0 || asks.depth == 0 || bids.levels[0].price < asks.levels[0].price {
        crossed, crossedSince := 0, 0;
        return Fine;
      }
      if crossed == 0 {
        crossedSince := ts;
      }
      crossed := crossed + 1;
      var tooMany := crossed > tolerance.maxUpdates;
      var tooLong := ts >= crossedSince && ts - crossedSince > tolerance.maxDuration;
      return if tooMany || tooLong then CrossedHalt else CrossedTolerated;
    }
  }
}
