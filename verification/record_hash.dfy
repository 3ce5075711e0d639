/** The 64-bit hash of the duplicate window: records that differ can share it, so the window can
    take a new record for a repetition. */
module RecordHash {
  import opened Journal
  import opened RecoveryStreaming
  import opened JournalRoundTrip
  import opened ExecTypes
  import opened WindowedReplay
  import opened Words

  /** A 64-bit field as the unsigned word that is hashed. */
  function Word(x: int): (w: nat)
    ensures w < TWO_64
  {
    x % TWO_64
  }

  /** The signed field a word stands for. */
  function Field(w: nat): int {
    if w < TWO_64 / 2 then w else w - TWO_64
  }

  lemma WordOfField(w: nat)
    requires w < TWO_64
    ensures Word(Field(w)) == w && -(TWO_64 / 2) <= Field(w) < TWO_64 / 2
  {
  }

  function Mix(h: nat, v: nat): (m: nat)
    ensures m < TWO_64
  {
    Xor(h, v) * 1099511628211 % TWO_64
  }

  function MixHeader(r: Record): nat {
    Mix(Mix(Mix(Mix(Mix(Mix(Mix(1469598103934665603, Word(r.ts)), Word(r.kind)), Word(r.reserved)), Word(r.symbol)),
                Word(r.runId)), Word(r.logicalId)), Word(r.ticket))
  }

  function Fnv(r: Record): nat {
    Mix(Mix(Mix(Mix(MixHeader(r), Word(r.a)), Word(r.b)), Word(r.c)), Word(r.d))
  }

  /** Any change of the first operand field can be made up for in the second. */
  function Twin(r: Record, a: int): Record {
    var x, y := Mix(MixHeader(r), Word(r.a)), Mix(MixHeader(r), Word(a));
    r.(a := a, b := Field(Xor(Xor(x, y), Word(r.b))))
  }

  lemma MixBalances(x: nat, y: nat, b: int)
    requires x < TWO_64 && y < TWO_64
    ensures Mix(y, Word(Field(Xor(Xor(x, y), Word(b))))) == Mix(x, Word(b))
  {
    hide Xor;
    WordWidth();
    XorBound(x, y, 64);
    XorBound(Xor(x, y), Word(b), 64);
    WordOfField(Xor(Xor(x, y), Word(b)));
    XorCancels(x, y, Word(b));
    hide Word, Field;
  }

  lemma TwinHash(r: Record, a: int)
    ensures Fnv(Twin(r, a)) == Fnv(r)
  {
    hide Mix, Word, Field, Xor;
    var h := MixHeader(r);
    assert MixHeader(Twin(r, a)) == h;
    MixBalances(Mix(h, Word(r.a)), Mix(h, Word(a)), r.b);
  }

  /** The window's promise never to invent a duplicate fails for every record with a non-zero hash. */
  lemma InventsADuplicate(r: Record, a: int, window: nat)
    requires window > 0 && a != r.a && Fnv(r) != 0
    ensures Twin(r, a) != r && Repeats(Fnv, window, [r, Twin(r, a)], 0, 1)
  {
    hide Fnv, Mix;
    TwinHash(r, a);
  }

  /** That stops a replay that would go through: a confirmation and its twin are both accepted by the reader itself, for
      any order it knows to be acknowledged, and the second of them is refused by the window. */
  lemma TwinStopsReplay(p: Replay, r: Record, window: nat)
    requires window > 0 && Fnv(r) != 0 && HeaderOk(p.ledger, r)
    requires r.kind == ACKNOWLEDGEMENT && r.a == 0 && r.ticket == 0
    requires RefOf(r) in p.store.live && p.store.live[RefOf(r)].state.Acknowledged?
    ensures Twin(r, 1) != r && ReadPlain(p, [r, Twin(r, 1)]).Some?
    ensures ReadAll(p, seq(window, _ => 0), Fnv, [r, Twin(r, 1)]) == None
  {
    var twin := Twin(r, 1);
    hide Fnv, Mix, Xor, Word, Field, MixHeader;
    InventsADuplicate(r, 1, window);
    assert Flagged(Fnv, window, [r, twin]);
    WindowOnlyStopsRepeats(p, Fnv, window, [r, twin]);
    ReadTwo(p, r, twin);
  }
}
