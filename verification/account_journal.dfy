/** What the reader makes of the account and position records a broker writes: when they are read back, and then exactly as
    they were. */
module AccountJournal {
  import opened ExecTypes
  import opened Journal
  import opened RecoveryStreaming
  import opened JournalRoundTrip
  import B = AccountSpec

  // ---- the account ----

  function AccountRec(ts: nat, runId: nat, a: Account): Record {
    Record(ts, ACCOUNT_UPDATE, 0, 0, runId, 0, 0, a.balance, a.equity, a.marginUsed, a.freeMargin)
  }

  function PnlRec(ts: nat, runId: nat, a: Account): Record {
    Record(ts, PNL_UPDATE, 0, 0, runId, 0, 0, a.realized, a.unrealized, a.commission, 0)
  }

  /** What the account is always recomputed to. */
  predicate Consistent(a: Account) {
    a.equity == a.balance + a.unrealized && a.freeMargin == a.equity - a.marginUsed
  }

  /** The two records of an account are read back exactly as it was, if it is consistent and its margin neither negative nor
      more than its equity; otherwise they are refused. */
  lemma AccountIsReadBack(p: Replay, ts: nat, runId: nat, a: Account)
    requires p.ledger.lastTs <= ts
    ensures var p' := ReadPlain(p, [AccountRec(ts, runId, a), PnlRec(ts, runId, a)]);
            && (p'.Some? <==> Consistent(a) && 0 <= a.marginUsed <= a.equity)
            && (p'.Some? ==>
                  && p'.value.store == p.store
                  && p'.value.ledger == p.ledger.(lastTs := ts, account := a, haveAccount := true, havePnl := true))
  {
    ReadTwo(p, AccountRec(ts, runId, a), PnlRec(ts, runId, a));
  }

  /** The second record is refused without the first, and a second time; a log that ends between the two is not recovered. */
  lemma RecordsComeInPairs(p: Replay, ts: nat, runId: nat, a: Account)
    requires p.ledger.lastTs <= ts
    ensures !p.ledger.haveAccount || p.ledger.havePnl ==> ReadStep(p, PnlRec(ts, runId, a)).None?
    ensures var p' := ReadStep(p, AccountRec(ts, runId, a)); p'.Some? ==> Finish(p'.value).None?
  {
  }

  // ---- positions ----

  /** One write of a position. */
  datatype Update = Update(ticket: nat, symbol: nat, side: Side, volume: int, avgPrice: int, realized: int)

  function SideCode(side: Side): int { if side.Buy? then 0 else 1 }

  function PositionRec(ts: nat, runId: nat, u: Update): Record {
    Record(ts, POSITION_UPDATE, 0, u.symbol, runId, 0, u.ticket, SideCode(u.side), u.volume, u.avgPrice, u.realized)
  }

  function PositionRecs(ts: nat, runId: nat, updates: seq<Update>): seq<Record> {
    seq(|updates|, i requires 0 <= i < |updates| => PositionRec(ts, runId, updates[i]))
  }

  function PositionOf(u: Update): Position {
    Position(u.symbol, u.side, u.volume, u.avgPrice, u.realized, u.volume == 0)
  }

  /** The last update of each ticket. */
  function Last(updates: seq<Update>): map<nat, Position> {
    if updates == [] then map[]
    else
      var u := updates[|updates| - 1];
      Last(updates[..|updates| - 1])[u.ticket := PositionOf(u)]
  }

  predicate Plain(u: Update) {
    u.ticket != 0 && u.symbol < MAX_SYMBOLS && u.volume >= 0 && u.avgPrice >= 0
  }

  /** An earlier update and a later one go together: one ticket stays on its symbol and side and is not written again once
      closed; in a netting account different tickets are on different symbols. */
  predicate GoTogether(u: Update, v: Update, netting: bool) {
    if u.ticket == v.ticket then u.symbol == v.symbol && u.side == v.side && u.volume != 0
    else netting ==> u.symbol != v.symbol
  }

  predicate Coherent(updates: seq<Update>, netting: bool) {
    && (forall i | 0 <= i < |updates| :: Plain(updates[i]))
    && (forall i, j | 0 <= i < j < |updates| :: GoTogether(updates[i], updates[j], netting))
    && (forall j | 0 <= j < |updates| && updates[j].volume == 0 ::
          exists i | 0 <= i < j :: updates[i].ticket == updates[j].ticket)
    && |Last(updates)| <= MAX_POSITIONS
  }

  function Written(p: Replay, ts: nat, runId: nat, updates: seq<Update>): Option<Replay> {
    if updates == [] then Some(p)
    else
      match Written(p, ts, runId, updates[..|updates| - 1])
      case None => None
      case Some(q) => ReadStep(q, PositionRec(ts, runId, updates[|updates| - 1]))
  }

  lemma {:induction false} WrittenIsRead(p: Replay, ts: nat, runId: nat, updates: seq<Update>)
    ensures ReadPlain(p, PositionRecs(ts, runId, updates)) == Written(p, ts, runId, updates)
  {
    var recs := PositionRecs(ts, runId, updates);
    if updates == [] {
      assert recs == [];
    } else {
      var last := |updates| - 1;
      WrittenIsRead(p, ts, runId, updates[..last]);
      assert recs == PositionRecs(ts, runId, updates[..last]) + [PositionRec(ts, runId, updates[last])];
      ReadPlainAppend(p, PositionRecs(ts, runId, updates[..last]), [PositionRec(ts, runId, updates[last])]);
      hide ReadStep;
      match Written(p, ts, runId, updates[..last])
      case None =>
      case Some(q) => ReadOne(q, PositionRec(ts, runId, updates[last]));
    }
  }

  lemma {:induction false} LastHas(updates: seq<Update>, ticket: nat)
    ensures ticket in Last(updates) <==> exists i | 0 <= i < |updates| :: updates[i].ticket == ticket
    ensures ticket in Last(updates) ==> exists i | 0 <= i < |updates| ::
              && updates[i].ticket == ticket && Last(updates)[ticket] == PositionOf(updates[i])
              && forall j | i < j < |updates| :: updates[j].ticket != ticket
  {
    if updates != [] {
      var last := |updates| - 1;
      LastHas(updates[..last], ticket);
      if updates[last].ticket == ticket {
        assert updates[last].ticket == ticket;
      } else if ticket in Last(updates[..last]) {
        var i :| 0 <= i < last && updates[..last][i].ticket == ticket && Last(updates[..last])[ticket] == PositionOf(updates[..last][i])
                 && forall j | i < j < last :: updates[..last][j].ticket != ticket;
        assert updates[i].ticket == ticket && forall j | i < j < |updates| :: updates[j].ticket != ticket;
      }
    }
  }

  /** The next update is accepted when it goes together with the last one of each ticket. */
  predicate Accepts(positions: map<nat, Position>, u: Update, netting: bool) {
    && Plain(u)
    && (if u.ticket in positions then
          var p := positions[u.ticket]; p.symbol == u.symbol && p.side == u.side && !p.closed
        else u.volume != 0 && |positions| < MAX_POSITIONS)
    && (netting ==> forall t <- positions :: t != u.ticket ==> positions[t].symbol != u.symbol)
  }

  lemma UpdateIsRead(p: Replay, ts: nat, runId: nat, u: Update)
    requires p.ledger.lastTs <= ts
    ensures var p' := ReadStep(p, PositionRec(ts, runId, u));
            && (p'.Some? <==> Accepts(p.ledger.positions, u, p.ledger.netting))
            && (p'.Some? ==>
                  && p'.value.store == p.store
                  && p'.value.ledger == p.ledger.(lastTs := ts, positions := p.ledger.positions[u.ticket := PositionOf(u)]))
  {
  }

  lemma LastSize(updates: seq<Update>)
    requires updates != []
    ensures var u, before := updates[|updates| - 1], Last(updates[..|updates| - 1]);
            |Last(updates)| == |before| + if u.ticket in before then 0 else 1
  {
    var u, before := updates[|updates| - 1], Last(updates[..|updates| - 1]);
    assert Last(updates).Keys == before.Keys + {u.ticket};
  }

  /** The last update of a ticket among the first ones. */
  lemma LastOf(updates: seq<Update>, ticket: nat) returns (k: nat)
    requires ticket in Last(updates)
    ensures k < |updates| && updates[k].ticket == ticket && Last(updates)[ticket] == PositionOf(updates[k])
    ensures forall j | k < j < |updates| :: updates[j].ticket != ticket
  {
    LastHas(updates, ticket);
    k :| 0 <= k < |updates| && updates[k].ticket == ticket && Last(updates)[ticket] == PositionOf(updates[k])
         && forall j | k < j < |updates| :: updates[j].ticket != ticket;
  }

  lemma CoherentIsAccepted(updates: seq<Update>, netting: bool)
    requires updates != [] && Coherent(updates, netting)
    ensures var front, u := updates[..|updates| - 1], updates[|updates| - 1];
            Coherent(front, netting) && Accepts(Last(front), u, netting)
  {
    var last := |updates| - 1;
    var front, u := updates[..last], updates[last];
    LastSize(updates);
    hide Last, GoTogether;
    forall j | 0 <= j < |front| && front[j].volume == 0 ensures exists i | 0 <= i < j :: front[i].ticket == front[j].ticket {
      var i :| 0 <= i < j && updates[i].ticket == updates[j].ticket;
      assert front[i].ticket == front[j].ticket;
    }
    forall i, j | 0 <= i < j < |front| ensures GoTogether(front[i], front[j], netting) {
      assert GoTogether(updates[i], updates[j], netting);
    }
    AcceptsLast(front, u, netting);
  }

  lemma AcceptsLast(front: seq<Update>, u: Update, netting: bool)
    requires Plain(u) && (u.ticket !in Last(front) ==> |Last(front)| < MAX_POSITIONS)
    requires forall i | 0 <= i < |front| :: GoTogether(front[i], u, netting)
    requires u.volume == 0 ==> exists i | 0 <= i < |front| :: front[i].ticket == u.ticket
    ensures Accepts(Last(front), u, netting)
  {
    LastHas(front, u.ticket);
    hide Last;
    if u.ticket in Last(front) {
      var k := LastOf(front, u.ticket);
      assert GoTogether(front[k], u, netting);
    }
    if netting {
      forall t | t in Last(front) && t != u.ticket ensures Last(front)[t].symbol != u.symbol {
        var k := LastOf(front, t);
        assert GoTogether(front[k], u, netting);
      }
    }
  }

  lemma AcceptedIsCoherent(updates: seq<Update>, netting: bool)
    requires updates != []
    requires var front, u := updates[..|updates| - 1], updates[|updates| - 1];
             Coherent(front, netting) && Accepts(Last(front), u, netting)
    ensures Coherent(updates, netting)
  {
    var last := |updates| - 1;
    var front, u := updates[..last], updates[last];
    LastSize(updates);
    LastHas(front, u.ticket);
    hide Last, GoTogether;
    forall i | 0 <= i < last ensures GoTogether(updates[i], u, netting) {
      GoesWithLast(front, u, netting, i);
    }
    forall i, j | 0 <= i < j < |updates| ensures GoTogether(updates[i], updates[j], netting) {
      if j < last { assert GoTogether(front[i], front[j], netting); }
    }
    forall j | 0 <= j < |updates| && updates[j].volume == 0 ensures exists i | 0 <= i < j :: updates[i].ticket == updates[j].ticket {
      if j < last {
        var i :| 0 <= i < j && front[i].ticket == front[j].ticket;
        assert updates[i].ticket == updates[j].ticket;
      } else {
        var i :| 0 <= i < |front| && front[i].ticket == u.ticket;
        assert updates[i].ticket == updates[j].ticket;
      }
    }
    forall i | 0 <= i < |updates| ensures Plain(updates[i]) { if i < last { assert Plain(front[i]); } }
  }

  lemma GoesWithLast(front: seq<Update>, u: Update, netting: bool, i: nat)
    requires Coherent(front, netting) && Accepts(Last(front), u, netting) && i < |front|
    ensures GoTogether(front[i], u, netting)
  {
    LastHas(front, front[i].ticket);
    hide Last;
    var k := LastOf(front, front[i].ticket);
    if i < k { assert GoTogether(front[i], front[k], netting); }
  }

  /** Any sequence of position updates is read back exactly, each ticket as it was written last, if it is coherent; and it is
      refused otherwise. */
  lemma {:induction false} PositionsAreReadBack(p: Replay, ts: nat, runId: nat, updates: seq<Update>)
    requires p.ledger.positions == map[] && p.ledger.lastTs <= ts
    ensures var p' := ReadPlain(p, PositionRecs(ts, runId, updates));
            && (p'.Some? <==> Coherent(updates, p.ledger.netting))
            && (p'.Some? ==>
                  && p'.value.store == p.store
                  && p'.value.ledger == p.ledger.(lastTs := if updates == [] then p.ledger.lastTs else ts, positions := Last(updates)))
  {
    WrittenIsRead(p, ts, runId, updates);
    if updates == [] {
      assert Coherent(updates, p.ledger.netting);
    } else {
      hide ReadPlain, ReadStep, Coherent, Accepts;
      var last := |updates| - 1;
      PositionsAreReadBack(p, ts, runId, updates[..last]);
      WrittenIsRead(p, ts, runId, updates[..last]);
      var q := Written(p, ts, runId, updates[..last]);
      if q.Some? {
        UpdateIsRead(q.value, ts, runId, updates[last]);
        if Accepts(Last(updates[..last]), updates[last], p.ledger.netting) { AcceptedIsCoherent(updates, p.ledger.netting); }
      }
      if Coherent(updates, p.ledger.netting) { CoherentIsAccepted(updates, p.ledger.netting); }
    }
  }

  // ---- what a broker writes that is not ----

  /** The account record a stop-out writes carries the reason in place of the free margin: it is accepted only when that
      happens to be the free margin. */
  lemma StopOutIsReadIff(p: Replay, ts: nat, runId: nat, a: Account, reason: nat)
    requires Consistent(a) && p.ledger.lastTs <= ts
    ensures ReadStep(p, AccountRec(ts, runId, a).(d := reason)).Some? <==> 0 <= a.marginUsed && a.freeMargin == reason
  {
  }

  /** The write of a position by the broker. */
  function Written1(q: B.Position): Update {
    Update(q.ticket, q.symbol, q.side, q.volume, q.avgPrice, q.realized)
  }

  const BOUGHT: B.Position := B.Position(1, 0, Buy, true, 10, 100, 0)
  const TURNED: B.Position := B.Position(2, 0, Sell, true, 5, 110, 0)

  lemma Turns()
    ensures B.Netted([], 0, 0, Buy, 100, 10, 1) == B.FillResult([BOUGHT], 0, 1, true)
    ensures B.Netted([BOUGHT], 1, 0, Sell, 110, 15, 1) == B.FillResult([TURNED], 100, 2, true)
  {
    assert B.FindSymbol([], 0) == 0 && B.FirstClosed([]) == 0 && [] + [BOUGHT] == [BOUGHT];
    assert B.FindSymbol([BOUGHT], 0) == 0;
    var closed := B.Reduced(BOUGHT, 10, 100);
    assert B.Realized(BOUGHT, 110, 10, 1) == 100 && [BOUGHT][0 := closed] == [closed] && !closed.open;
    assert B.FirstClosed([closed]) == 0 && [closed][0 := TURNED] == [TURNED];
  }

  lemma TurnWrites(netting: bool)
    ensures var written := [Written1(BOUGHT), Written1(TURNED)];
            && (netting ==> !Coherent(written, true))
            && Coherent(written, false)
            && Last(written) == map[1 := PositionOf(written[0]), 2 := PositionOf(written[1])]
  {
    var written := [Written1(BOUGHT), Written1(TURNED)];
    assert written[..1] == [Written1(BOUGHT)] && written[..1][..0] == [];
    assert !GoTogether(written[0], written[1], true);
    assert Last(written[..1]) == map[1 := PositionOf(written[0])];
    assert |Last(written).Keys| <= 2 by { assert Last(written).Keys == {1, 2}; }
  }

  /** A fill that turns a position round closes it and opens another, but only the new one is written: a netting reader
      refuses that, and a hedging one is left with both positions open. */
  lemma TurnIsNotReadBack(p: Replay, ts: nat, runId: nat)
    requires p.ledger.positions == map[] && p.ledger.lastTs <= ts
    ensures var first := B.Netted([], 0, 0, Buy, 100, 10, 1);
            var second := B.Netted(first.book, first.tickets, 0, Sell, 110, 15, 1);
            && first.book == [BOUGHT] && second.book == [TURNED]
            && var p' := ReadPlain(p, PositionRecs(ts, runId, [Written1(BOUGHT), Written1(TURNED)]));
               && (p.ledger.netting ==> p'.None?)
               && (!p.ledger.netting ==>
                     && p'.Some? && p'.value.ledger.positions
                        == map[1 := Position(0, Buy, 10, 100, 0, false), 2 := Position(0, Sell, 5, 110, 0, false)])
  {
    Turns();
    TurnWrites(p.ledger.netting);
    hide ReadPlain, PositionRecs, Coherent, Last;
    PositionsAreReadBack(p, ts, runId, [Written1(BOUGHT), Written1(TURNED)]);
  }
}
