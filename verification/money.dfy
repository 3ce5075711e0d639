/** A law of money over fills: marked at any prices, what has been realised and what the open positions are worth make what
    all the fills are worth, but for the rounding of the averages. */
module Money {
  import opened ExecTypes
  import opened AccountSpec

  /** A fill and the quote it was made against. */
  datatype Fill = Fill(symbol: nat, side: Side, limit: bool, price: int, volume: int, bid: int, ask: int)

  type Marks = nat -> int

  type Ticks = nat -> int

  /** The book after a sequence of fills, and what they realised. */
  function Settled(ticks: Ticks, fills: seq<Fill>): FillResult {
    if fills == [] then FillResult([], 0, 0, true)
    else
      var before, f := Settled(ticks, fills[..|fills| - 1]), fills[|fills| - 1];
      var r := Netted(before.book, before.tickets, f.symbol, f.side, f.price, f.volume, ticks(f.symbol));
      FillResult(r.book, before.realized + r.realized, r.tickets, before.ok && r.ok)
  }

  predicate Tradable(f: Fill) {
    f.symbol < MAX_SYMBOLS && f.price > 0 && f.volume > 0
  }

  predicate AllTradable(fills: seq<Fill>) {
    forall i | 0 <= i < |fills| :: Tradable(fills[i])
  }

  /** The signed volume filled of a symbol. */
  function Traded(fills: seq<Fill>, symbol: nat): int {
    if fills == [] then 0
    else
      var f := fills[|fills| - 1];
      Traded(fills[..|fills| - 1], symbol) + if f.symbol == symbol then Signed(f.side, f.volume) else 0
  }

  lemma {:induction false} SettledKeepsBook(ticks: Ticks, fills: seq<Fill>)
    requires AllTradable(fills)
    ensures var r := Settled(ticks, fills);
            r.ok && BookOk(r.book) && forall s: nat :: Net(r.book, s) == Traded(fills, s)
  {
    if fills != [] {
      var f, front := fills[|fills| - 1], fills[..|fills| - 1];
      SettledKeepsBook(ticks, front);
      assert Tradable(f);
      var before := Settled(ticks, front);
      hide Settled, BookOk, Net, Netted;
      NettedKeepsBook(before.book, before.tickets, f.symbol, f.side, f.price, f.volume, ticks(f.symbol));
      SettledNext(ticks, fills);
    }
  }

  lemma SettledNext(ticks: Ticks, fills: seq<Fill>)
    requires fills != []
    ensures var before, f := Settled(ticks, fills[..|fills| - 1]), fills[|fills| - 1];
            var r := Netted(before.book, before.tickets, f.symbol, f.side, f.price, f.volume, ticks(f.symbol));
            Settled(ticks, fills) == FillResult(r.book, before.realized + r.realized, r.tickets, before.ok && r.ok)
  {
    hide Netted;
  }

  // ---- what positions and fills are worth ----

  function Value(side: Side, volume: int, price: int, mark: int, tick: int): int {
    Signed(side, volume) * (mark - price) * tick
  }

  function WorthOf(p: Position, marks: Marks, ticks: Ticks): int {
    if p.open then Value(p.side, p.volume, p.avgPrice, marks(p.symbol), ticks(p.symbol)) else 0
  }

  /** What closing every open position at the marks would bring. */
  function Worth(book: seq<Position>, marks: Marks, ticks: Ticks): int {
    if book == [] then 0 else Worth(book[..|book| - 1], marks, ticks) + WorthOf(book[|book| - 1], marks, ticks)
  }

  /** What all the fills are worth at the marks: each at the difference from its own price. */
  function FillsWorth(fills: seq<Fill>, marks: Marks, ticks: Ticks): int {
    if fills == [] then 0
    else
      var f := fills[|fills| - 1];
      FillsWorth(fills[..|fills| - 1], marks, ticks) + Value(f.side, f.volume, f.price, marks(f.symbol), ticks(f.symbol))
  }

  lemma {:induction false} WorthUpdate(book: seq<Position>, i: nat, p: Position, marks: Marks, ticks: Ticks)
    requires i < |book|
    ensures Worth(book[i := p], marks, ticks)
         == Worth(book, marks, ticks) - WorthOf(book[i], marks, ticks) + WorthOf(p, marks, ticks)
  {
    var last := |book| - 1;
    if i == last {
      assert book[i := p][..last] == book[..last];
    } else {
      assert book[i := p][..last] == book[..last][i := p];
      WorthUpdate(book[..last], i, p, marks, ticks);
    }
    hide WorthOf;
  }

  /** A position opened in a closed slot or a new one adds its worth. */
  lemma OpenedWorth(book: seq<Position>, p: Position, marks: Marks, ticks: Ticks)
    requires Opened(book, p).1
    ensures Worth(Opened(book, p).0, marks, ticks) == Worth(book, marks, ticks) + WorthOf(p, marks, ticks)
  {
    var i := FirstClosed(book);
    if i < |book| {
      WorthUpdate(book, i, p, marks, ticks);
    } else {
      assert (book + [p])[..|book|] == book;
    }
  }

  function Abs(x: int): nat { if x < 0 then -x else x }

  // ---- one fill ----

  /** Closing part of a position at a price brings what that part was worth there. */
  lemma ClosedWorth(p: Position, price: int, closing: int, marks: Marks, ticks: Ticks)
    requires p.open && p.volume >= closing
    ensures var result := Realized(p, price, closing, ticks(p.symbol));
            result + WorthOf(Reduced(p, closing, result), marks, ticks)
            == WorthOf(p, marks, ticks)
             + Value(if p.side.Buy? then Sell else Buy, closing, price, marks(p.symbol), ticks(p.symbol))
  {
    var v, c, a, m, t := p.volume, closing, p.avgPrice, marks(p.symbol), ticks(p.symbol);
    ClosingParts(v, c, a, m, price, t);
  }

  lemma ClosingParts(v: int, c: int, a: int, m: int, price: int, t: int)
    ensures (price - a) * c * t + (v - c) * (m - a) * t == v * (m - a) * t - c * (m - price) * t
    ensures (a - price) * c * t - (v - c) * (m - a) * t == -v * (m - a) * t + c * (m - price) * t
    ensures v == c ==> (price - a) * c * t == v * (m - a) * t - c * (m - price) * t
  {
    assert (price - a) * c * t == price * c * t - a * c * t;
    assert (v - c) * (m - a) * t == v * (m - a) * t - c * (m - a) * t;
    assert c * (m - a) * t == c * m * t - c * a * t;
    assert c * (m - price) * t == c * m * t - c * price * t;
  }

  /** The new average times the new volume misses what was paid by at most half the volume. */
  lemma AverageMisses(avg: int, volume: int, price: int, more: int)
    requires volume > 0 && more > 0
    ensures 2 * Abs(avg * volume + price * more - Average(avg, volume, price, more) * (volume + more)) <= volume + more
  {
    var total, paid := volume + more, avg * volume + price * more + (volume + more) / 2;
    assert paid == total * (paid / total) + paid % total;
    assert Average(avg, volume, price, more) == paid / total;
    assert total * (paid / total) == (paid / total) * total;
  }

  /** What adding to a position changes of its worth, beyond what the fill is worth. */
  lemma AddedWorth(p: Position, price: int, volume: int, marks: Marks, ticks: Ticks)
    requires p.open && p.volume > 0 && volume > 0
    ensures var gain := WorthOf(Added(p, volume, price), marks, ticks) - WorthOf(p, marks, ticks)
                      - Value(p.side, volume, price, marks(p.symbol), ticks(p.symbol));
            2 * Abs(gain) <= Abs(ticks(p.symbol)) * (p.volume + volume)
  {
    var v, w, a, m, t := p.volume, volume, p.avgPrice, marks(p.symbol), ticks(p.symbol);
    var b := Added(p, volume, price).avgPrice;
    var miss := a * v + price * w - b * (v + w);
    AverageMisses(a, v, price, w);
    AddingParts(v, w, a, b, m, price, t);
    hide Average;
    var gain := WorthOf(Added(p, volume, price), marks, ticks) - WorthOf(p, marks, ticks)
              - Value(p.side, volume, price, marks(p.symbol), ticks(p.symbol));
    assert gain == if p.side.Buy? then miss * t else -miss * t;
    Product(miss, t, v + w);
  }

  lemma AddingParts(v: int, w: int, a: int, b: int, m: int, price: int, t: int)
    ensures (v + w) * (m - b) * t - v * (m - a) * t - w * (m - price) * t == (a * v + price * w - b * (v + w)) * t
    ensures -(v + w) * (m - b) * t + v * (m - a) * t + w * (m - price) * t == -(a * v + price * w - b * (v + w)) * t
  {
    assert (v + w) * (m - b) * t == v * m * t + w * m * t - b * (v + w) * t;
    assert v * (m - a) * t == v * m * t - a * v * t;
    assert w * (m - price) * t == w * m * t - price * w * t;
  }

  lemma AbsTimes(x: int, t: int)
    ensures Abs(x * t) == Abs(x) * Abs(t)
  {
    if x < 0 { assert -x * t == -(x * t); }
    if t < 0 { assert x * -t == -(x * t) && Abs(x) * Abs(t) == Abs(x) * -t; }
  }

  lemma Scaled(x: nat, bound: nat, t: nat)
    requires 2 * x <= bound
    ensures 2 * (x * t) <= t * bound
  {
    assert t * (bound - 2 * x) >= 0;
  }

  lemma Product(x: int, t: int, bound: nat)
    requires 2 * Abs(x) <= bound
    ensures 2 * Abs(x * t) <= Abs(t) * bound && 2 * Abs(-x * t) <= Abs(t) * bound
  {
    AbsTimes(x, t);
    AbsTimes(-x, t);
    Scaled(Abs(x), bound, Abs(t));
  }

  /** The fill adds to a position on its own side. */
  predicate AddsTo(net: int, side: Side) {
    if side.Buy? then net > 0 else net < 0
  }

  lemma NetOfBook(book: seq<Position>, symbol: nat, side: Side)
    requires BookOk(book)
    ensures var i := FindSymbol(book, symbol);
            && (AddsTo(Net(book, symbol), side) <==> i < |book| && book[i].side == side)
            && (i < |book| ==> book[i].volume > 0 && Abs(Net(book, symbol)) == book[i].volume)
  {
  }

  /** One fill, at any marks: what it realises and what it changes of the worth of the open positions make exactly what it
      is worth itself; when it adds to a position, up to half a tick for each unit the position then has. So marked at its
      own price it changes nothing. */
  lemma FillKeepsWorth(book: seq<Position>, tickets: nat, f: Fill, marks: Marks, ticks: Ticks)
    requires BookOk(book) && Tradable(f)
    ensures var r := Netted(book, tickets, f.symbol, f.side, f.price, f.volume, ticks(f.symbol));
            var gain := r.realized + Worth(r.book, marks, ticks) - Worth(book, marks, ticks)
                      - Value(f.side, f.volume, f.price, marks(f.symbol), ticks(f.symbol));
            if AddsTo(Net(book, f.symbol), f.side)
            then 2 * Abs(gain) <= Abs(ticks(f.symbol)) * Abs(Net(book, f.symbol) + Signed(f.side, f.volume))
            else gain == 0
  {
    var i := FindSymbol(book, f.symbol);
    NetOfBook(book, f.symbol, f.side);
    hide Worth, Opened, Average, BookOk, FindSymbol;
    if i == |book| {
      NewWorth(book, Position(tickets + 1, f.symbol, f.side, true, f.volume, f.price, 0), marks, ticks);
    } else if book[i].side == f.side {
      AddedWorth(book[i], f.price, f.volume, marks, ticks);
      WorthUpdate(book, i, Added(book[i], f.volume, f.price), marks, ticks);
      hide Value;
    } else {
      TurnedWorth(book, tickets, i, f, marks, ticks);
    }
  }

  /** A position that has just been opened is worth what its fill is. */
  lemma NewWorth(book: seq<Position>, p: Position, marks: Marks, ticks: Ticks)
    requires BookOk(book) && p.open
    ensures Worth(Opened(book, p).0, marks, ticks)
         == Worth(book, marks, ticks) + Value(p.side, p.volume, p.avgPrice, marks(p.symbol), ticks(p.symbol))
  {
    RoomToOpen(book, p);
    OpenedWorth(book, p, marks, ticks);
  }

  /** A fill against a position, taken apart. */
  lemma TurnedBooks(book: seq<Position>, tickets: nat, i: nat, f: Fill, tick: int)
    requires BookOk(book) && Tradable(f) && i == FindSymbol(book, f.symbol) < |book| && book[i].side != f.side
    ensures var r := Netted(book, tickets, f.symbol, f.side, f.price, f.volume, tick);
            var closing := if f.volume < book[i].volume then f.volume else book[i].volume;
            var result := Realized(book[i], f.price, closing, tick);
            var book1 := book[i := Reduced(book[i], closing, result)];
            && r.realized == result && BookOk(book1) && 0 < closing <= book[i].volume
            && r.book == if f.volume > closing
                         then Opened(book1, Position(tickets + 1, f.symbol, f.side, true, f.volume - closing, f.price, 0)).0
                         else book1
  {
    var closing := if f.volume < book[i].volume then f.volume else book[i].volume;
    VolumeIsPositive(book, i);
    ReducedSlot(book, i, f.side, closing, Realized(book[i], f.price, closing, tick));
    hide Opened, BookOk, FindSymbol, Realized, NetMoves;
  }

  lemma TurnedWorth(book: seq<Position>, tickets: nat, i: nat, f: Fill, marks: Marks, ticks: Ticks)
    requires BookOk(book) && Tradable(f) && i == FindSymbol(book, f.symbol) < |book| && book[i].side != f.side
    ensures var r := Netted(book, tickets, f.symbol, f.side, f.price, f.volume, ticks(f.symbol));
            r.realized + Worth(r.book, marks, ticks)
            == Worth(book, marks, ticks) + Value(f.side, f.volume, f.price, marks(f.symbol), ticks(f.symbol))
  {
    hide Worth, Opened, BookOk, FindSymbol, Realized, WorthOf, Reduced, Netted, Value, Signed;
    var p, tick := book[i], ticks(f.symbol);
    var closing := if f.volume < p.volume then f.volume else p.volume;
    var closed := Reduced(p, closing, Realized(p, f.price, closing, tick));
    TurnedBooks(book, tickets, i, f, tick);
    ClosedWorth(p, f.price, closing, marks, ticks);
    WorthUpdate(book, i, closed, marks, ticks);
    if f.volume > closing {
      NewWorth(book[i := closed], Position(tickets + 1, f.symbol, f.side, true, f.volume - closing, f.price, 0), marks, ticks);
      ValueAdds(f.side, closing, f.volume - closing, f.price, marks(f.symbol), tick);
    }
  }

  lemma ValueAdds(side: Side, x: int, y: int, price: int, mark: int, tick: int)
    ensures Value(side, x, price, mark, tick) + Value(side, y, price, mark, tick) == Value(side, x + y, price, mark, tick)
  {
    var d := (mark - price) * tick;
    assert Value(side, x, price, mark, tick) == Signed(side, x) * d;
    assert Value(side, y, price, mark, tick) == Signed(side, y) * d;
    assert Value(side, x + y, price, mark, tick) == Signed(side, x + y) * d;
    assert Signed(side, x + y) * d == (Signed(side, x) + Signed(side, y)) * d;
  }

  // ---- all fills ----

  /** What the last fill may bring the averages off by, twice: a tick for each unit of the position it adds to. */
  function Slack(ticks: Ticks, fills: seq<Fill>): nat
    requires fills != []
  {
    var f := fills[|fills| - 1];
    if AddsTo(Traded(fills[..|fills| - 1], f.symbol), f.side) then Abs(ticks(f.symbol)) * Abs(Traded(fills, f.symbol)) else 0
  }

  function Rounding(ticks: Ticks, fills: seq<Fill>): nat {
    if fills == [] then 0 else Rounding(ticks, fills[..|fills| - 1]) + Slack(ticks, fills)
  }

  /** How far realised and worth are from what the fills are worth. */
  function Miss(ticks: Ticks, fills: seq<Fill>, marks: Marks): int {
    Settled(ticks, fills).realized + Worth(Settled(ticks, fills).book, marks, ticks) - FillsWorth(fills, marks, ticks)
  }

  lemma OneMoreMiss(ticks: Ticks, fills: seq<Fill>, marks: Marks)
    requires AllTradable(fills) && fills != []
    ensures 2 * Abs(Miss(ticks, fills, marks) - Miss(ticks, fills[..|fills| - 1], marks)) <= Slack(ticks, fills)
  {
    hide Netted, Worth, Value, BookOk, Net, Settled;
    var before, f := fills[..|fills| - 1], fills[|fills| - 1];
    SettledKeepsBook(ticks, before);
    assert Tradable(f);
    var r := Settled(ticks, before);
    FillKeepsWorth(r.book, r.tickets, f, marks, ticks);
    SettledNext(ticks, fills);
    assert Net(r.book, f.symbol) == Traded(before, f.symbol);
  }

  lemma Adds(x: int, y: int, a: nat, b: nat)
    requires 2 * Abs(x) <= a && 2 * Abs(y - x) <= b
    ensures 2 * Abs(y) <= a + b
  {
  }

  lemma {:induction false} MissIsSmall(ticks: Ticks, fills: seq<Fill>, marks: Marks)
    requires AllTradable(fills)
    ensures 2 * Abs(Miss(ticks, fills, marks)) <= Rounding(ticks, fills)
  {
    if fills != [] {
      var before := fills[..|fills| - 1];
      hide Abs, Slack, Miss;
      MissIsSmall(ticks, before, marks);
      OneMoreMiss(ticks, fills, marks);
      Adds(Miss(ticks, before, marks), Miss(ticks, fills, marks), Rounding(ticks, before), Slack(ticks, fills));
    }
  }

  /** Over any fills, at any marks: realised and the worth of what is open make what all the fills are worth, up to the
      rounding. Marked at 0: realised is what was received for sales less what was paid for purchases, plus the cost of what
      is open. */
  lemma RealizedIsWorth(ticks: Ticks, fills: seq<Fill>, marks: Marks)
    requires AllTradable(fills)
    ensures var r := Settled(ticks, fills);
            2 * Abs(r.realized + Worth(r.book, marks, ticks) - FillsWorth(fills, marks, ticks)) <= Rounding(ticks, fills)
  {
    MissIsSmall(ticks, fills, marks);
    hide Settled, Worth, FillsWorth, Abs;
  }
}
