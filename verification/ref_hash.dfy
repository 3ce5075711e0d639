/** The hash the store really uses. It reaches every word, so it reaches every cell of every index. */
module RefHash {
  import opened ExecTypes
  import opened Words
  import T = StoreTable
  import S = OmsSpec

  const RUN_FACTOR: nat := 0x9E3779B97F4A7C15
  const FACTOR_0: nat := 0xBF58476D1CE4E5B9
  const FACTOR_1: nat := 0x94D049BB133111EB

  /** The inverses of the two odd factors modulo 2^64. */
  const INVERSE_0: nat := 0x96DE1B173F119089
  const INVERSE_1: nat := 0x319642B2D24D8EC3

  /** A right shift, one bit at a time. */
  function Shifted(x: nat, bits: nat): (r: nat)
    ensures r <= x
    decreases bits
  {
    if bits == 0 then x else Shifted(x / 2, bits - 1)
  }

  /** A word mixed with its own high bits. */
  function Fold(x: nat, bits: nat): nat { Xor(x, Shifted(x, bits)) }

  function Scaled(x: nat, factor: nat): nat { factor * x % TWO_64 }

  function MixRef(ref: Ref): nat {
    var x := Xor(ref.logicalId, Scaled(ref.runId, RUN_FACTOR));
    Fold(Scaled(Fold(Scaled(Fold(x, 30), FACTOR_0), 27), FACTOR_1), 31)
  }

  // ---- mixing with the own high bits is undone ----

  lemma {:induction false} ShiftOfXor(x: nat, y: nat, bits: nat)
    ensures Shifted(Xor(x, y), bits) == Xor(Shifted(x, bits), Shifted(y, bits))
    decreases bits
  {
    if bits > 0 {
      ShiftOfXor(x / 2, y / 2, bits - 1);
      XorBits(x, y);
      hide Xor;
    }
  }

  /** The word that folds to `y`. */
  function Unfold(y: nat, bits: nat): nat
    requires bits > 0
  {
    if y == 0 then 0
    else Xor(y, Unfold(Shifted(y, bits), bits))
  }

  lemma {:induction false} UnfoldShifts(y: nat, bits: nat)
    requires bits > 0
    ensures Shifted(Unfold(y, bits), bits) == Unfold(Shifted(y, bits), bits)
  {
    if y == 0 {
      assert Shifted(0, bits) == 0;
    } else {
      var z := Shifted(y, bits);
      UnfoldShifts(z, bits);
      ShiftOfXor(y, Unfold(z, bits), bits);
      hide Xor, Shifted;
      XorOfZeros();
    }
  }

  lemma XorOfZeros()
    ensures Xor(0, 0) == 0
  {
  }

  lemma FoldUndone(y: nat, bits: nat)
    requires bits > 0
    ensures Fold(Unfold(y, bits), bits) == y
  {
    if y > 0 {
      UnfoldShifts(y, bits);
      XorUndoes(y, Unfold(Shifted(y, bits), bits));
      hide Xor, Shifted;
    }
  }

  lemma {:induction false} UnfoldFits(y: nat, bits: nat)
    requires bits > 0 && y < TWO_64
    ensures Unfold(y, bits) < TWO_64
  {
    if y > 0 {
      UnfoldFits(Shifted(y, bits), bits);
      WordWidth();
      XorBound(y, Unfold(Shifted(y, bits), bits), 64);
      hide Xor, Shifted;
    }
  }

  // ---- every word is hashed to ----

  lemma ScaleUndone(x: nat)
    requires x < TWO_64
    ensures Scaled(Scaled(x, INVERSE_0), FACTOR_0) == x && Scaled(Scaled(x, INVERSE_1), FACTOR_1) == x
  {
    assert FACTOR_0 * INVERSE_0 % TWO_64 == 1 && FACTOR_1 * INVERSE_1 % TWO_64 == 1;
    InverseFactor(FACTOR_0, INVERSE_0, x, TWO_64);
    InverseFactor(FACTOR_1, INVERSE_1, x, TWO_64);
  }

  /** The order of a run whose reference hashes to `y`. */
  function Unmix(runId: nat, y: nat): Ref {
    var x := Unfold(Scaled(Unfold(Scaled(Unfold(y, 31), INVERSE_1), 27), INVERSE_0), 30);
    Ref(runId, Xor(x, Scaled(runId, RUN_FACTOR)))
  }

  /** In every run every word is the hash of some order's reference. */
  lemma EveryWordIsAHash(runId: nat, y: nat)
    requires y < TWO_64
    ensures Unmix(runId, y).logicalId < TWO_64 && MixRef(Unmix(runId, y)) == y
  {
    hide Fold, Unfold, Scaled, Xor;
    var a := Unfold(y, 31);
    UnfoldFits(y, 31);
    FoldUndone(y, 31);
    ScaleUndone(a);
    var b := Scaled(a, INVERSE_1);
    ScaledFits(a, INVERSE_1);
    var c := Unfold(b, 27);
    UnfoldFits(b, 27);
    FoldUndone(b, 27);
    ScaleUndone(c);
    var d := Scaled(c, INVERSE_0);
    ScaledFits(c, INVERSE_0);
    var x := Unfold(d, 30);
    UnfoldFits(d, 30);
    FoldUndone(d, 30);
    var run := Scaled(runId, RUN_FACTOR);
    ScaledFits(runId, RUN_FACTOR);
    XorUndoes(x, run);
    WordWidth();
    XorBound(x, run, 64);
  }

  lemma ScaledFits(x: nat, factor: nat)
    ensures Scaled(x, factor) < TWO_64
  {
  }

  /** A run about orders of one run of the system, whose numbers are words. */
  predicate OfRun(ops: seq<S.Op>, runId: nat) {
    forall op <- ops :: T.RefOf(op).runId == runId && T.RefOf(op).logicalId < TWO_64
  }

  /** With the real hash too, an empty cell is always left exactly when the capacity is not a power of two: orders of one
      and the same run of the system, with 64-bit numbers, suffice to fill the table. */
  lemma RealHashFillsTable(capacity: nat, runId: nat)
    requires T.IndexSize(capacity) <= TWO_64 && runId < TWO_64
    ensures (forall ops | OfRun(ops, runId) :: T.HasEmptyCell(T.Run(MixRef, capacity, ops))) <==> !IsPowerOfTwo(capacity)
  {
    hide T.Run, T.HasEmptyCell, T.IndexSize, IsPowerOfTwo, MixRef;
    if IsPowerOfTwo(capacity) {
      var refs := Homes(T.IndexSize(capacity), runId);
      var ops := T.RunFillsTable(MixRef, capacity, refs);
      assert OfRun(ops, runId) && !T.HasEmptyCell(T.Run(MixRef, capacity, ops));
    } else {
      forall ops | OfRun(ops, runId) ensures T.HasEmptyCell(T.Run(MixRef, capacity, ops)) {
        T.EmptyCellLeft(MixRef, capacity, ops);
      }
    }
  }

  lemma Homes(n: nat, runId: nat) returns (refs: seq<Ref>)
    requires n <= TWO_64
    ensures |refs| == n && T.ReachEveryCell(MixRef, refs)
    ensures forall p | 0 <= p < n :: refs[p].runId == runId && refs[p].logicalId < TWO_64
  {
    hide MixRef, Unmix;
    refs := seq(n, p requires 0 <= p < n => Unmix(runId, p));
    forall p | 0 <= p < n
      ensures MixRef(refs[p]) % n == p && refs[p].runId == runId && refs[p].logicalId < TWO_64
    {
      HomeOfWord(n, runId, p);
    }
  }

  lemma HomeOfWord(n: nat, runId: nat, p: nat)
    requires p < n <= TWO_64
    ensures var ref := Unmix(runId, p);
            MixRef(ref) % n == p && ref.runId == runId && ref.logicalId < TWO_64
  {
    hide MixRef, Xor, Scaled, Unfold, Fold;
    EveryWordIsAHash(runId, p);
    RemainderIsUnique(n, 0, p, p);
  }
}
