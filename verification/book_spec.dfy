/** A price ladder of bounded depth, against the unbounded map from price to size that it summarises. */
module BookSpec {
  datatype Side = Bid | Ask

  datatype Level = Level(price: int, size: int)

  const MAX_DEPTH: nat := 32

  /** Bids are better when higher, asks when lower. */
  predicate Better(side: Side, a: int, b: int) {
    if side.Bid? then a > b else a < b
  }

  predicate Sorted(side: Side, ladder: seq<Level>) {
    forall i, j | 0 <= i < j < |ladder| :: Better(side, ladder[i].price, ladder[j].price)
  }

  /** The index of a price, or the depth. */
  function Find(ladder: seq<Level>, price: int): (i: nat)
    ensures i <= |ladder| && (i < |ladder| ==> ladder[i].price == price) && forall k | 0 <= k < i :: ladder[k].price != price
  {
    if ladder == [] then 0 else if ladder[0].price == price then 0 else 1 + Find(ladder[1..], price)
  }

  /** The index of the first level the price beats, or the depth. */
  function Place(side: Side, ladder: seq<Level>, price: int): (i: nat)
    ensures i <= |ladder| && (i < |ladder| ==> Better(side, price, ladder[i].price))
    ensures forall k | 0 <= k < i :: !Better(side, price, ladder[k].price)
  {
    if ladder == [] then 0 else if Better(side, price, ladder[0].price) then 0 else 1 + Place(side, ladder[1..], price)
  }

  /** Inserts in order; a full ladder drops its worst level, or refuses a level worse than all. */
  function Insert(side: Side, ladder: seq<Level>, l: Level): (seq<Level>, bool)
    requires |ladder| <= MAX_DEPTH
  {
    var p := Place(side, ladder, l.price);
    if p == MAX_DEPTH then (ladder, false)
    else
      var kept := if |ladder| == MAX_DEPTH then ladder[..MAX_DEPTH - 1] else ladder;
      (kept[..p] + [l] + kept[p..], true)
  }

  /** An add or a modify: a known price changes its size, a new one is inserted. */
  function Set(side: Side, ladder: seq<Level>, price: int, size: int): (seq<Level>, bool)
    requires |ladder| <= MAX_DEPTH
  {
    var i := Find(ladder, price);
    if i < |ladder| then (ladder[i := Level(price, size)], true) else Insert(side, ladder, Level(price, size))
  }

  function Erase(ladder: seq<Level>, i: nat): seq<Level>
    requires i < |ladder|
  {
    ladder[..i] + ladder[i + 1..]
  }

  // ---- the best levels of a map ----

  function Prices(ladder: seq<Level>): set<int> {
    set l | l in ladder :: l.price
  }

  predicate Holds(ladder: seq<Level>, price: int) {
    exists i | 0 <= i < |ladder| :: ladder[i].price == price
  }

  /** Every level is an entry of the map. */
  ghost predicate Entries(ladder: seq<Level>, full: map<int, int>) {
    forall i | 0 <= i < |ladder| :: ladder[i].price in full && full[ladder[i].price] == ladder[i].size
  }

  /** Every price is in the ladder or worse than all of it. */
  ghost predicate Covers(side: Side, ladder: seq<Level>, full: map<int, int>) {
    forall p <- full :: Holds(ladder, p) || Beaten(side, ladder, p)
  }

  predicate Beaten(side: Side, ladder: seq<Level>, price: int) {
    forall i | 0 <= i < |ladder| :: Better(side, ladder[i].price, price)
  }

  /** The ladder is the best `MAX_DEPTH` entries of the map, best first. */
  ghost predicate IsBest(side: Side, ladder: seq<Level>, full: map<int, int>) {
    && Sorted(side, ladder)
    && |ladder| == (if |full| < MAX_DEPTH then |full| else MAX_DEPTH)
    && Entries(ladder, full) && Covers(side, ladder, full)
  }

  lemma {:induction false} PricesCount(side: Side, ladder: seq<Level>)
    requires Sorted(side, ladder)
    ensures |Prices(ladder)| == |ladder|
  {
    if ladder == [] {
      assert Prices(ladder) == {};
    } else {
      var last := |ladder| - 1;
      PricesCount(side, ladder[..last]);
      assert Prices(ladder) == Prices(ladder[..last]) + {ladder[last].price};
      forall l | l in ladder[..last] ensures l.price != ladder[last].price {
        var i :| 0 <= i < last && ladder[i] == l;
      }
    }
  }

  /** A ladder with as many levels as the map has entries holds them all. */
  lemma HoldsAll(side: Side, ladder: seq<Level>, full: map<int, int>, price: int)
    requires IsBest(side, ladder, full) && |ladder| == |full| && price in full
    ensures Holds(ladder, price)
  {
    PricesCount(side, ladder);
    assert Prices(ladder) <= full.Keys;
    SameSize(Prices(ladder), full.Keys);
    assert price in Prices(ladder);
    var l :| l in ladder && l.price == price;
    var i :| 0 <= i < |ladder| && ladder[i] == l;
  }

  lemma SameSize(a: set<int>, b: set<int>)
    requires a <= b && |a| == |b|
    ensures a == b
  {
    assert |b - a| == 0;
    assert b == a + (b - a);
  }

  lemma KnownPrice(side: Side, ladder: seq<Level>, full: map<int, int>, price: int, size: int)
    requires IsBest(side, ladder, full) && Find(ladder, price) < |ladder|
    ensures IsBest(side, Set(side, ladder, price, size).0, full[price := size])
  {
    var i := Find(ladder, price);
    var ladder' := ladder[i := Level(price, size)];
    assert price in full && full[price := size].Keys == full.Keys;
    forall p | p in full && Holds(ladder, p) ensures Holds(ladder', p) {
      var k :| 0 <= k < |ladder| && ladder[k].price == p;
      assert ladder'[k].price == p;
    }
  }

  /** A price that every level of a full ladder beats stays outside, whether or not it was known before. */
  lemma OutsidePrice(side: Side, ladder: seq<Level>, full: map<int, int>, price: int, size: int)
    requires IsBest(side, ladder, full) && !Holds(ladder, price) && Place(side, ladder, price) == MAX_DEPTH
    ensures IsBest(side, ladder, full[price := size])
  {
    assert full[price := size].Keys == full.Keys + {price};
    forall i | 0 <= i < |ladder| ensures ladder[i].price != price && Better(side, ladder[i].price, price) {
    }
  }

  /** The new ladder's levels, by their old positions. */
  lemma InsertedLevels(side: Side, ladder: seq<Level>, l: Level)
    requires |ladder| <= MAX_DEPTH && Place(side, ladder, l.price) < MAX_DEPTH
    ensures var p := Place(side, ladder, l.price);
            var ladder' := Insert(side, ladder, l).0;
            && |ladder'| == (if |ladder| == MAX_DEPTH then MAX_DEPTH else |ladder| + 1)
            && (forall k | 0 <= k < p :: ladder'[k] == ladder[k]) && ladder'[p] == l
            && (forall k | p < k < |ladder'| :: ladder'[k] == ladder[k - 1])
  {
  }

  lemma InsertKeepsOrder(side: Side, ladder: seq<Level>, l: Level)
    requires |ladder| <= MAX_DEPTH && Place(side, ladder, l.price) < MAX_DEPTH && Sorted(side, ladder) && !Holds(ladder, l.price)
    ensures Sorted(side, Insert(side, ladder, l).0)
  {
    InsertedLevels(side, ladder, l);
    var p := Place(side, ladder, l.price);
    var ladder' := Insert(side, ladder, l).0;
    hide Insert;
    forall i, j | 0 <= i < j < |ladder'| ensures Better(side, ladder'[i].price, ladder'[j].price) {
      if i < p { assert ladder[i].price != l.price; }
    }
  }

  lemma InsertedEntries(side: Side, ladder: seq<Level>, full: map<int, int>, l: Level)
    requires |ladder| <= MAX_DEPTH && Entries(ladder, full) && !Holds(ladder, l.price) && Place(side, ladder, l.price) < MAX_DEPTH
    ensures Entries(Insert(side, ladder, l).0, full[l.price := l.size])
  {
    InsertedLevels(side, ladder, l);
    hide Insert;
    assert forall i | 0 <= i < |ladder| :: ladder[i].price != l.price;
  }

  lemma InsertedPrice(side: Side, ladder: seq<Level>, full: map<int, int>, l: Level)
    requires IsBest(side, ladder, full) && !Holds(ladder, l.price) && Place(side, ladder, l.price) < MAX_DEPTH
    ensures IsBest(side, Insert(side, ladder, l).0, full[l.price := l.size])
  {
    var ladder', full' := Insert(side, ladder, l).0, full[l.price := l.size];
    InsertedLevels(side, ladder, l);
    InsertKeepsOrder(side, ladder, l);
    NewPriceIsNew(side, ladder, full, l.price);
    InsertedEntries(side, ladder, full, l);
    hide Insert, Holds, Beaten, Sorted, Entries, Place;
    assert full'.Keys == full.Keys + {l.price};
    forall q | q in full' ensures Holds(ladder', q) || Beaten(side, ladder', q) {
      AllHeldWhenShort(side, ladder, full, q);
      StillCovered(side, ladder, ladder', l, q);
    }
    hide Covers;
  }

  lemma AllHeldWhenShort(side: Side, ladder: seq<Level>, full: map<int, int>, q: int)
    requires IsBest(side, ladder, full)
    ensures q in full && !Holds(ladder, q) ==> |ladder| == MAX_DEPTH
  {
    if q in full && |ladder| == |full| { HoldsAll(side, ladder, full, q); }
  }

  /** A price not held that would be inserted was not known at all: a known one outside is worse than a full ladder. */
  lemma NewPriceIsNew(side: Side, ladder: seq<Level>, full: map<int, int>, price: int)
    requires IsBest(side, ladder, full) && !Holds(ladder, price) && Place(side, ladder, price) < MAX_DEPTH
    ensures price !in full
  {
    AllHeldWhenShort(side, ladder, full, price);
    var p := Place(side, ladder, price);
    assert p < |ladder| ==> !Better(side, ladder[p].price, price);
  }

  /** What beats a level beats every level after it. */
  lemma NewcomerBeats(side: Side, ladder: seq<Level>, price: int, k: nat)
    requires Sorted(side, ladder) && Place(side, ladder, price) <= k < |ladder|
    ensures Better(side, price, ladder[k].price) && forall i | 0 <= i < k :: Better(side, ladder[i].price, ladder[k].price)
  {
  }

  lemma StillCovered(side: Side, ladder: seq<Level>, ladder': seq<Level>, l: Level, q: int)
    requires Sorted(side, ladder) && |ladder| <= MAX_DEPTH
    requires (q == l.price || Holds(ladder, q) || (Beaten(side, ladder, q) && |ladder| == MAX_DEPTH))
    requires var p := Place(side, ladder, l.price);
             && p < MAX_DEPTH && |ladder'| == (if |ladder| == MAX_DEPTH then MAX_DEPTH else |ladder| + 1)
             && (forall k | 0 <= k < p :: ladder'[k] == ladder[k]) && ladder'[p] == l
             && (forall k | p < k < |ladder'| :: ladder'[k] == ladder[k - 1])
    requires Sorted(side, ladder')
    ensures Holds(ladder', q) || Beaten(side, ladder', q)
  {
    var p := Place(side, ladder, l.price);
    if q == l.price {
      assert ladder'[p].price == q;
    } else if Holds(ladder, q) {
      var k :| 0 <= k < |ladder| && ladder[k].price == q;
      if k < p {
        assert ladder'[k].price == q;
      } else if k + 1 < |ladder'| {
        assert ladder'[k + 1].price == q;
      } else {
        NewcomerBeats(side, ladder, l.price, k);
      }
    }
  }

  /** Adding or changing any level keeps the ladder the best levels of the whole map. */
  lemma SetKeepsBest(side: Side, ladder: seq<Level>, full: map<int, int>, price: int, size: int)
    requires IsBest(side, ladder, full)
    ensures IsBest(side, Set(side, ladder, price, size).0, full[price := size])
  {
    var i := Find(ladder, price);
    assert |ladder| <= MAX_DEPTH;
    hide IsBest, Insert;
    if i < |ladder| {
      KnownPrice(side, ladder, full, price, size);
    } else {
      assert !Holds(ladder, price);
      if Place(side, ladder, price) == MAX_DEPTH {
        OutsidePrice(side, ladder, full, price, size);
      } else {
        InsertedPrice(side, ladder, full, Level(price, size));
      }
    }
  }

  /** Removing a level keeps the ladder best exactly when nothing was ever left outside it. */
  lemma EraseKeepsBestIff(side: Side, ladder: seq<Level>, full: map<int, int>, i: nat)
    requires IsBest(side, ladder, full) && i < |ladder|
    ensures IsBest(side, Erase(ladder, i), full - {ladder[i].price}) <==> |full| <= MAX_DEPTH
  {
    var price := ladder[i].price;
    assert (full - {price}).Keys == full.Keys - {price};
    assert |full - {price}| == |full| - 1;
    if |full| <= MAX_DEPTH { EraseKeepsBest(side, ladder, full, i); }
  }

  lemma EraseKeepsBest(side: Side, ladder: seq<Level>, full: map<int, int>, i: nat)
    requires IsBest(side, ladder, full) && i < |ladder| && |full| <= MAX_DEPTH
    ensures IsBest(side, Erase(ladder, i), full - {ladder[i].price})
  {
    hide Erase;
    var full' := full - {ladder[i].price};
    assert full'.Keys == full.Keys - {ladder[i].price};
    ErasedLevels(ladder, i);
    ErasedEntries(side, ladder, Erase(ladder, i), full, i);
    forall p | p in full' ensures Holds(Erase(ladder, i), p) { StillHeld(side, ladder, full, i, p); }
    hide Sorted, Entries;
  }

  lemma StillHeld(side: Side, ladder: seq<Level>, full: map<int, int>, i: nat, p: int)
    requires IsBest(side, ladder, full) && i < |ladder| && |full| <= MAX_DEPTH && p in full && p != ladder[i].price
    ensures Holds(Erase(ladder, i), p)
  {
    HoldsAll(side, ladder, full, p);
    ErasedLevels(ladder, i);
    hide IsBest, Erase;
    var k :| 0 <= k < |ladder| && ladder[k].price == p;
    assert Erase(ladder, i)[if k < i then k else k - 1].price == p;
  }

  lemma ErasedLevels(ladder: seq<Level>, i: nat)
    requires i < |ladder|
    ensures |Erase(ladder, i)| == |ladder| - 1
    ensures forall k | 0 <= k < |ladder| - 1 :: Erase(ladder, i)[k] == ladder[if k < i then k else k + 1]
  {
  }

  lemma ErasedEntries(side: Side, ladder: seq<Level>, ladder': seq<Level>, full: map<int, int>, i: nat)
    requires Sorted(side, ladder) && Entries(ladder, full) && i < |ladder| && |ladder'| == |ladder| - 1
    requires forall k | 0 <= k < |ladder'| :: ladder'[k] == ladder[if k < i then k else k + 1]
    ensures Sorted(side, ladder') && Entries(ladder', full - {ladder[i].price})
  {
  }
}
