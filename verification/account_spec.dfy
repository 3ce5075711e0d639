/** A netting account: at most one open position per symbol, positions kept in reusable slots, and money that
    only moves through realised results and commission. */
module AccountSpec {
  import opened ExecTypes
  import opened Words

  datatype Position = Position(ticket: nat, symbol: nat, side: Side, open: bool, volume: int, avgPrice: int, realized: int)

  datatype Account = Account(balance: int, realized: int, commission: int)

  function Signed(side: Side, volume: int): int {
    if side.Buy? then volume else -volume
  }

  // ---- the position book ----

  /** The open position of a symbol, or the number of slots. */
  function FindSymbol(book: seq<Position>, symbol: nat): (i: nat)
    ensures i <= |book| && (i < |book| ==> book[i].open && book[i].symbol == symbol)
    ensures forall k | 0 <= k < i :: !(book[k].open && book[k].symbol == symbol)
  {
    if book == [] then 0 else if book[0].open && book[0].symbol == symbol then 0 else 1 + FindSymbol(book[1..], symbol)
  }

  function FirstClosed(book: seq<Position>): (i: nat)
    ensures i <= |book| && (i < |book| ==> !book[i].open) && forall k | 0 <= k < i :: book[k].open
  {
    if book == [] then 0 else if !book[0].open then 0 else 1 + FirstClosed(book[1..])
  }

  /** A closed slot is reused; with none, the book grows up to its bound. */
  function Opened(book: seq<Position>, p: Position): (seq<Position>, bool) {
    var i := FirstClosed(book);
    if i < |book| then (book[i := p], true)
    else if |book| >= MAX_POSITIONS then (book, false)
    else (book + [p], true)
  }

  /** The volume-weighted average, rounded to the nearest tick. */
  function Average(avg: int, volume: int, price: int, more: int): int
    requires volume + more > 0
  {
    (avg * volume + price * more + (volume + more) / 2) / (volume + more)
  }

  function Added(p: Position, volume: int, price: int): Position {
    if p.volume + volume <= 0 then p
    else p.(avgPrice := Average(p.avgPrice, p.volume, price, volume), volume := p.volume + volume)
  }

  /** What closing `volume` of a position at `price` realises. */
  function Realized(p: Position, price: int, volume: int, tickValue: int): int {
    (if p.side.Buy? then price - p.avgPrice else p.avgPrice - price) * volume * tickValue
  }

  /** A position that reaches zero is closed. */
  function Reduced(p: Position, closing: int, result: int): Position {
    p.(volume := p.volume - closing, realized := p.realized + result, open := p.volume != closing)
  }

  datatype FillResult = FillResult(book: seq<Position>, realized: int, tickets: nat, ok: bool)

  /** A fill adds to the symbol's position, reduces it, or turns it round through a fresh ticket. */
  function Netted(book: seq<Position>, tickets: nat, symbol: nat, side: Side, price: int, volume: int, tickValue: int): FillResult {
    var i := FindSymbol(book, symbol);
    if i == |book| then
      var (book', ok) := Opened(book, Position(tickets + 1, symbol, side, true, volume, price, 0));
      FillResult(book', 0, tickets + 1, ok)
    else
      var p := book[i];
      if p.side == side then FillResult(book[i := Added(p, volume, price)], 0, tickets, true)
      else
        var closing := if volume < p.volume then volume else p.volume;
        var result := Realized(p, price, closing, tickValue);
        var book1 := book[i := Reduced(p, closing, result)];
        if p.volume == closing && volume > closing then
          var (book', ok) := Opened(book1, Position(tickets + 1, symbol, side, true, volume - closing, price, 0));
          FillResult(book', result, tickets + 1, ok)
        else FillResult(book1, result, tickets, true)
  }

  // ---- what a book holds ----

  /** The signed volume of a symbol. */
  function Net(book: seq<Position>, symbol: nat): int {
    var i := FindSymbol(book, symbol);
    if i < |book| then Signed(book[i].side, book[i].volume) else 0
  }

  /** Only the symbol's net volume moves, by `delta`. */
  ghost predicate NetMoves(book: seq<Position>, book': seq<Position>, symbol: nat, delta: int) {
    forall s: nat :: Net(book', s) == Net(book, s) + if s == symbol then delta else 0
  }

  ghost predicate BookOk(book: seq<Position>) {
    && |book| <= MAX_POSITIONS
    && (forall i | 0 <= i < |book| && book[i].open :: book[i].volume > 0 && book[i].symbol < MAX_SYMBOLS && book[i].avgPrice >= 0)
    && (forall i, j | 0 <= i < j < |book| && book[i].open && book[j].open :: book[i].symbol != book[j].symbol)
  }

  /** The only open position of its symbol is the one a search finds. */
  lemma FindsOnly(book: seq<Position>, i: nat)
    requires BookOk(book) && i < |book| && book[i].open
    ensures FindSymbol(book, book[i].symbol) == i
  {
    var k := FindSymbol(book, book[i].symbol);
    assert k <= i;
  }

  lemma FindsNone(book: seq<Position>, symbol: nat)
    requires forall i | 0 <= i < |book| :: !(book[i].open && book[i].symbol == symbol)
    ensures FindSymbol(book, symbol) == |book|
  {
  }

  /** A book whose slots are all open has at most one slot per symbol: there is always room. */
  lemma RoomToOpen(book: seq<Position>, p: Position)
    requires BookOk(book)
    ensures Opened(book, p).1
  {
    if FirstClosed(book) == |book| { AllOpenIsSmall(book); }
  }

  lemma AllOpenIsSmall(book: seq<Position>)
    requires BookOk(book) && forall i | 0 <= i < |book| :: book[i].open
    ensures |book| <= MAX_SYMBOLS
  {
    SymbolCount(book);
    Below(Symbols(book), MAX_SYMBOLS);
  }

  function Symbols(book: seq<Position>): set<nat> {
    set p | p in book :: p.symbol
  }

  lemma {:induction false} SymbolCount(book: seq<Position>)
    requires forall i, j | 0 <= i < j < |book| :: book[i].symbol != book[j].symbol
    ensures |Symbols(book)| == |book|
  {
    if book != [] {
      var last := |book| - 1;
      SymbolCount(book[..last]);
      assert book == book[..last] + [book[last]];
      assert Symbols(book) == Symbols(book[..last]) + {book[last].symbol};
    }
  }

  lemma {:induction false} Below(s: set<nat>, n: nat)
    requires forall x <- s :: x < n
    ensures |s| <= n
  {
    if n == 0 {
      assert s == {};
    } else {
      Below(s - {n - 1}, n - 1);
      if n - 1 in s { assert |s - {n - 1}| == |s| - 1; } else { assert s - {n - 1} == s; }
    }
  }

  lemma OpenedAt(book: seq<Position>, p: Position)
    requires BookOk(book)
    ensures var at := FirstClosed(book);
            var book' := Opened(book, p).0;
            && |book'| == (if at < |book| then |book| else |book| + 1) && |book'| <= MAX_POSITIONS
            && book'[at] == p && forall i | 0 <= i < |book| && i != at :: book'[i] == book[i]
  {
    RoomToOpen(book, p);
    if FirstClosed(book) == |book| { AllOpenIsSmall(book); }
  }

  lemma OpenedBook(book: seq<Position>, p: Position)
    requires BookOk(book) && p.open && p.volume > 0 && p.symbol < MAX_SYMBOLS && p.avgPrice >= 0
    requires FindSymbol(book, p.symbol) == |book|
    ensures var (book', ok) := Opened(book, p);
            ok && BookOk(book') && NetMoves(book, book', p.symbol, Signed(p.side, p.volume))
  {
    RoomToOpen(book, p);
    OpenedAt(book, p);
    var book' := Opened(book, p).0;
    var at := FirstClosed(book);
    hide Opened;
    OneSlotOk(book, book', at);
    hide BookOk, FindSymbol;
    forall s: nat ensures Net(book', s) == Net(book, s) + if s == p.symbol then Signed(p.side, p.volume) else 0 {
      ReplacedNet(book, book', at, s);
    }
  }

  lemma OneSlotOk(book: seq<Position>, book': seq<Position>, at: nat)
    requires BookOk(book) && at < |book'| <= MAX_POSITIONS && |book| <= |book'| <= |book| + 1
    requires (forall i | 0 <= i < |book| && i != at :: book'[i] == book[i]) && (|book'| > |book| ==> at == |book|)
    requires book'[at].open ==>
      && book'[at].volume > 0 && book'[at].symbol < MAX_SYMBOLS && book'[at].avgPrice >= 0
      && (FindSymbol(book, book'[at].symbol) == |book| || (at < |book| && book[at].open && book[at].symbol == book'[at].symbol))
    ensures BookOk(book')
  {
    forall i | 0 <= i < |book| && book[i].open { FindsOnly(book, i); }
    hide FindSymbol;
  }

  /** Changing one slot changes the net volume of the symbol involved only. */
  lemma ReplacedNet(book: seq<Position>, book': seq<Position>, at: nat, s: nat)
    requires BookOk(book) && BookOk(book') && at < |book'| && |book| <= |book'| <= |book| + 1
    requires (forall i | 0 <= i < |book| && i != at :: book'[i] == book[i]) && (|book'| > |book| ==> at == |book|)
    requires at < |book| && book[at].open ==> book'[at].symbol == book[at].symbol
    requires book'[at].open || (at < |book| && book[at].open)
    ensures Net(book', s)
         == if s == book'[at].symbol then (if book'[at].open then Signed(book'[at].side, book'[at].volume) else 0) else Net(book, s)
  {
    if s == book'[at].symbol {
      if book'[at].open { FindsOnly(book', at); } else { OnlyAt(book, book', at); }
    } else {
      SameElsewhere(book, book', at, s);
    }
  }

  lemma OnlyAt(book: seq<Position>, book': seq<Position>, at: nat)
    requires BookOk(book) && at < |book| == |book'| && book[at].open && !book'[at].open && book'[at].symbol == book[at].symbol
    requires forall i | 0 <= i < |book| && i != at :: book'[i] == book[i]
    ensures FindSymbol(book', book'[at].symbol) == |book'|
  {
  }

  lemma SameElsewhere(book: seq<Position>, book': seq<Position>, at: nat, s: nat)
    requires BookOk(book) && BookOk(book') && at < |book'| && |book| <= |book'| <= |book| + 1
    requires (forall i | 0 <= i < |book| && i != at :: book'[i] == book[i]) && (|book'| > |book| ==> at == |book|)
    requires at < |book| && book[at].open ==> book'[at].symbol == book[at].symbol
    requires s != book'[at].symbol
    ensures Net(book', s) == Net(book, s)
  {
    var i := FindSymbol(book, s);
    if i < |book| {
      assert book'[i] == book[i];
      FindsOnly(book', i);
    } else {
      FindsNone(book', s);
    }
  }

  lemma AverageIsNatural(avg: int, volume: int, price: int, more: int)
    requires avg >= 0 && price >= 0 && volume > 0 && more > 0
    ensures Average(avg, volume, price, more) >= 0
  {
    assert avg * volume >= 0 && price * more >= 0;
  }

  /** A fill always finds a slot, keeps one open position per symbol, and moves the symbol's net volume by exactly the
      signed volume filled. */
  lemma NettedKeepsBook(book: seq<Position>, tickets: nat, symbol: nat, side: Side, price: int, volume: int, tickValue: int)
    requires BookOk(book) && symbol < MAX_SYMBOLS && price > 0 && volume > 0
    ensures var r := Netted(book, tickets, symbol, side, price, volume, tickValue);
            && r.ok && BookOk(r.book) && r.tickets >= tickets && NetMoves(book, r.book, symbol, Signed(side, volume))
  {
    var i := FindSymbol(book, symbol);
    if i == |book| {
      OpenedBook(book, Position(tickets + 1, symbol, side, true, volume, price, 0));
    } else if book[i].side == side {
      GrownBook(book, i, price, volume);
    } else {
      ReducedBook(book, tickets, i, side, price, volume, tickValue);
    }
  }

  /** Changing the volume of an open position, or closing it, moves its symbol's net volume by the difference. */
  lemma ChangedBook(book: seq<Position>, i: nat, p: Position)
    requires BookOk(book) && i < |book| && book[i].open && p.symbol == book[i].symbol && p.side == book[i].side
    requires if p.open then p.volume > 0 && p.avgPrice >= 0 else p.volume == 0
    ensures BookOk(book[i := p])
    ensures NetMoves(book, book[i := p], p.symbol, Signed(p.side, p.volume - book[i].volume))
  {
    var book' := book[i := p];
    OneSlotOk(book, book', i);
    FindsOnly(book, i);
    hide BookOk, FindSymbol;
    forall s: nat ensures Net(book', s) == Net(book, s) + if s == p.symbol then Signed(p.side, p.volume - book[i].volume) else 0 {
      ReplacedNet(book, book', i, s);
    }
  }

  lemma GrownBook(book: seq<Position>, i: nat, price: int, volume: int)
    requires BookOk(book) && i < |book| && book[i].open && price > 0 && volume > 0
    ensures var book' := book[i := Added(book[i], volume, price)];
            BookOk(book') && NetMoves(book, book', book[i].symbol, Signed(book[i].side, volume))
  {
    AverageIsNatural(book[i].avgPrice, book[i].volume, price, volume);
    hide Average;
    ChangedBook(book, i, Added(book[i], volume, price));
  }

  lemma ReducedBook(book: seq<Position>, tickets: nat, i: nat, side: Side, price: int, volume: int, tickValue: int)
    requires BookOk(book) && i < |book| && book[i].open && book[i].side != side && price > 0 && volume > 0
    ensures var r := Netted(book, tickets, book[i].symbol, side, price, volume, tickValue);
            && r.ok && BookOk(r.book) && NetMoves(book, r.book, book[i].symbol, Signed(side, volume))
  {
    hide Realized, FirstClosed, BookOk, NetMoves, Opened, Reduced, Signed;
    var p := book[i];
    FindsOnly(book, i);
    var closing := if volume < p.volume then volume else p.volume;
    var book1 := book[i := Reduced(p, closing, Realized(p, price, closing, tickValue))];
    VolumeIsPositive(book, i);
    ReducedSlot(book, i, side, closing, Realized(p, price, closing, tickValue));
    if p.volume == closing && volume > closing {
      var next := Position(tickets + 1, p.symbol, side, true, volume - closing, price, 0);
      OpenedBook(book1, next);
      SignedAdds(side, closing, volume - closing);
      MovesAdd(book, book1, Opened(book1, next).0, p.symbol, Signed(side, closing), Signed(side, volume - closing));
    }
  }

  lemma VolumeIsPositive(book: seq<Position>, i: nat)
    requires BookOk(book) && i < |book| && book[i].open
    ensures book[i].volume > 0 && book[i].symbol < MAX_SYMBOLS
  {
  }

  lemma SignedAdds(side: Side, x: int, y: int)
    ensures Signed(side, x) + Signed(side, y) == Signed(side, x + y)
  {
  }

  lemma ReducedSlot(book: seq<Position>, i: nat, side: Side, closing: int, result: int)
    requires BookOk(book) && i < |book| && book[i].open && book[i].side != side && 0 < closing <= book[i].volume
    ensures var book1 := book[i := Reduced(book[i], closing, result)];
            && BookOk(book1) && NetMoves(book, book1, book[i].symbol, Signed(side, closing))
            && (closing == book[i].volume ==> FindSymbol(book1, book[i].symbol) == |book1|)
  {
    ChangedBook(book, i, Reduced(book[i], closing, result));
    if closing == book[i].volume { OnlyAt(book, book[i := Reduced(book[i], closing, result)], i); }
    hide NetMoves, BookOk;
  }

  lemma MovesAdd(a: seq<Position>, b: seq<Position>, c: seq<Position>, symbol: nat, x: int, y: int)
    requires NetMoves(a, b, symbol, x) && NetMoves(b, c, symbol, y)
    ensures NetMoves(a, c, symbol, x + y)
  {
    hide Net;
  }

  /** The new average lies between the old one and the new price. */
  lemma AverageLiesBetween(avg: int, volume: int, price: int, more: int)
    requires volume > 0 && more > 0
    ensures var a := Average(avg, volume, price, more);
            if avg <= price then avg <= a <= price else price <= a <= avg
  {
    var total := volume + more;
    assert avg * total == avg * volume + avg * more && price * total == price * volume + price * more;
    if avg <= price {
      Between(avg, price, volume, more);
    } else {
      Between(price, avg, more, volume);
    }
  }

  /** A weighted mean, rounded, stays within its ends. */
  lemma Between(low: int, high: int, v: int, w: int)
    requires low <= high && v > 0 && w > 0
    ensures low <= (low * v + high * w + (v + w) / 2) / (v + w) <= high
  {
    var total := v + w;
    var n := low * v + high * w + total / 2;
    Distributes(low, v, w);
    Distributes(high, v, w);
    TimesOrder(low, high, v);
    TimesOrder(low, high, w);
    Quotient(n, total, low, high);
  }

  lemma Distributes(x: int, v: int, w: int)
    ensures x * (v + w) == x * v + x * w
  {
  }

  lemma Quotient(n: int, d: int, low: int, high: int)
    requires d > 0 && low * d <= n < high * d + d
    ensures low <= n / d <= high
  {
    var q := n / d;
    assert n == q * d + n % d;
    assert (q + 1) * d == q * d + d && (high + 1) * d == high * d + d;
    TimesOrder(q + 1, low, d);
    TimesOrder(high + 1, q, d);
  }
}
