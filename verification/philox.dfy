/** The counter-based generator: ten rounds that can each be undone, so that distinct counters never share a block. */
module Philox {
  import opened Words

  const W: nat := 0x1_0000_0000

  const MULTIPLIER_0: nat := 0xD2511F53
  const MULTIPLIER_1: nat := 0xCD9E8D57
  const WEYL_0: nat := 0x9E3779B9
  const WEYL_1: nat := 0xBB67AE85
  const ROUNDS: nat := 10

  /** The inverses of the odd multipliers modulo 2^32. */
  const INVERSE_0: nat := 0x991A7CDB
  const INVERSE_1: nat := 0x6D7CAE67

  datatype Block = Block(w0: nat, w1: nat, w2: nat, w3: nat)

  datatype Key = Key(k0: nat, k1: nat)

  predicate BlockOk(b: Block) {
    b.w0 < W && b.w1 < W && b.w2 < W && b.w3 < W
  }

  predicate KeyOk(k: Key) {
    k.k0 < W && k.k1 < W
  }

  function High(a: nat, b: nat): nat { a * b / W }

  function Low(a: nat, b: nat): (r: nat)
    ensures r < W
  {
    a * b % W
  }

  /** Two products, their low halves kept and their high halves mixed into the other words. */
  function Round(c: Block, k: Key): Block {
    Block(Xor(Xor(High(MULTIPLIER_1, c.w2), c.w1), k.k0), Low(MULTIPLIER_1, c.w2),
          Xor(Xor(High(MULTIPLIER_0, c.w0), c.w3), k.k1), Low(MULTIPLIER_0, c.w0))
  }

  function Unround(x: Block, k: Key): Block {
    var w0, w2 := Low(INVERSE_0, x.w3), Low(INVERSE_1, x.w1);
    Block(w0, Xor(Xor(x.w0, k.k0), High(MULTIPLIER_1, w2)), w2, Xor(Xor(x.w2, k.k1), High(MULTIPLIER_0, w0)))
  }

  function NextKey(k: Key): Key {
    Key((k.k0 + WEYL_0) % W, (k.k1 + WEYL_1) % W)
  }

  /** The key of the n-th round. */
  function KeyAt(k: Key, n: nat): Key {
    if n == 0 then k else NextKey(KeyAt(k, n - 1))
  }

  function Rounds(c: Block, k: Key, n: nat): Block {
    if n == 0 then c else Round(Rounds(c, k, n - 1), KeyAt(k, n - 1))
  }

  function Unrounds(x: Block, k: Key, n: nat): Block
    decreases n
  {
    if n == 0 then x else Unrounds(Unround(x, KeyAt(k, n - 1)), k, n - 1)
  }

  // ---- a round is undone ----

  lemma Inverses()
    ensures (INVERSE_0 * MULTIPLIER_0) % W == 1 && (INVERSE_1 * MULTIPLIER_1) % W == 1
    ensures (MULTIPLIER_0 * INVERSE_0) % W == 1 && (MULTIPLIER_1 * INVERSE_1) % W == 1
  {
  }

  lemma LowUndone(x: nat)
    requires x < W
    ensures Low(INVERSE_0, Low(MULTIPLIER_0, x)) == x && Low(INVERSE_1, Low(MULTIPLIER_1, x)) == x
    ensures Low(MULTIPLIER_0, Low(INVERSE_0, x)) == x && Low(MULTIPLIER_1, Low(INVERSE_1, x)) == x
  {
    Inverses();
    InverseFactor(INVERSE_0, MULTIPLIER_0, x, W);
    InverseFactor(INVERSE_1, MULTIPLIER_1, x, W);
    InverseFactor(MULTIPLIER_0, INVERSE_0, x, W);
    InverseFactor(MULTIPLIER_1, INVERSE_1, x, W);
  }

  /** Mixing in `h` and a key is undone by mixing in the key and `h`, and the other way round. */
  lemma MixUndone(h: nat, w: nat, k: nat)
    ensures Xor(Xor(Xor(Xor(h, w), k), k), h) == w && Xor(Xor(h, Xor(Xor(w, k), h)), k) == w
  {
    XorUndoes(Xor(h, w), k);
    XorCommutes(h, w);
    XorUndoes(w, h);
    var x := Xor(w, k);
    XorCommutes(h, Xor(x, h));
    XorUndoes(x, h);
    XorUndoes(w, k);
    hide Xor;
  }

  lemma RoundUndone(c: Block, k: Key)
    requires c.w0 < W && c.w2 < W
    ensures Unround(Round(c, k), k) == c
  {
    LowUndone(c.w0);
    LowUndone(c.w2);
    MixUndone(High(MULTIPLIER_1, c.w2), c.w1, k.k0);
    MixUndone(High(MULTIPLIER_0, c.w0), c.w3, k.k1);
    hide Low, High, Xor;
  }

  lemma UnroundUndone(x: Block, k: Key)
    requires x.w1 < W && x.w3 < W
    ensures Round(Unround(x, k), k) == x
  {
    LowUndone(x.w3);
    LowUndone(x.w1);
    var c := Unround(x, k);
    MixUndone(High(MULTIPLIER_1, c.w2), x.w0, k.k0);
    MixUndone(High(MULTIPLIER_0, c.w0), x.w2, k.k1);
    hide Low, High, Xor;
  }

  lemma ProductFits(x: nat, y: nat)
    requires x < W && y < W
    ensures x * y <= (W - 1) * (W - 1)
  {
    TimesOrder(x, W - 1, y);
  }

  lemma HighFits(a: nat, b: nat)
    requires a < W && b < W
    ensures High(a, b) < W
  {
    ProductFits(a, b);
  }

  lemma XorFits(a: nat, b: nat)
    requires a < W && b < W
    ensures Xor(a, b) < W
  {
    Shift8(0); Shift8(8); Shift8(16); Shift8(24);
    XorBound(a, b, 32);
  }

  lemma KeyStaysOk(k: Key, n: nat)
    requires KeyOk(k)
    ensures KeyOk(KeyAt(k, n))
  {
  }

  lemma MixFits(m: nat, c: nat, w: nat, k: nat)
    requires m < W && c < W && w < W && k < W
    ensures Xor(Xor(High(m, c), w), k) < W && Xor(Xor(w, k), High(m, c)) < W
  {
    HighFits(m, c);
    XorFits(High(m, c), w);
    XorFits(Xor(High(m, c), w), k);
    XorFits(w, k);
    XorFits(Xor(w, k), High(m, c));
    hide High, Xor;
  }

  lemma RoundStaysOk(c: Block, k: Key)
    requires BlockOk(c) && KeyOk(k)
    ensures BlockOk(Round(c, k)) && BlockOk(Unround(c, k))
  {
    MixFits(MULTIPLIER_1, c.w2, c.w1, k.k0);
    MixFits(MULTIPLIER_0, c.w0, c.w3, k.k1);
    MixFits(MULTIPLIER_1, Low(INVERSE_1, c.w1), c.w0, k.k0);
    MixFits(MULTIPLIER_0, Low(INVERSE_0, c.w3), c.w2, k.k1);
    hide High, Low, Xor;
  }

  /** Any number of rounds stays within words and is undone by as many inverse rounds, and the other way round. */
  lemma {:induction false} RoundsUndone(c: Block, k: Key, n: nat)
    requires BlockOk(c) && KeyOk(k)
    ensures BlockOk(Rounds(c, k, n)) && Unrounds(Rounds(c, k, n), k, n) == c
  {
    if n > 0 {
      hide Round, Unround, BlockOk, KeyOk;
      RoundsUndone(c, k, n - 1);
      var before := Rounds(c, k, n - 1);
      KeyStaysOk(k, n - 1);
      RoundStaysOk(before, KeyAt(k, n - 1));
      BlockWords(before);
      RoundUndone(before, KeyAt(k, n - 1));
    }
  }

  lemma BlockWords(c: Block)
    requires BlockOk(c)
    ensures c.w0 < W && c.w1 < W && c.w2 < W && c.w3 < W
  {
  }

  lemma {:induction false} UnroundsUndone(x: Block, k: Key, n: nat)
    requires BlockOk(x) && KeyOk(k)
    ensures BlockOk(Unrounds(x, k, n)) && Rounds(Unrounds(x, k, n), k, n) == x
    decreases n
  {
    hide Round, Unround, KeyAt, BlockOk, KeyOk;
    if n > 0 {
      var last := KeyAt(k, n - 1);
      var y := Unround(x, last);
      KeyStaysOk(k, n - 1);
      RoundStaysOk(x, last);
      BlockWords(x);
      UnroundUndone(x, last);
      assert Unrounds(x, k, n) == Unrounds(y, k, n - 1);
      assert Rounds(Unrounds(y, k, n - 1), k, n) == Round(Rounds(Unrounds(y, k, n - 1), k, n - 1), last);
      hide Rounds, Unrounds;
      UnroundsUndone(y, k, n - 1);
    }
  }

  function GenerateRaw(c: Block, k: Key): Block {
    Rounds(c, k, ROUNDS)
  }

  /** For each key the block function is a permutation of the 128-bit counters: each block has exactly one counter. */
  lemma BlockFunctionIsAPermutation(k: Key, c: Block, x: Block)
    requires BlockOk(c) && BlockOk(x) && KeyOk(k)
    ensures BlockOk(GenerateRaw(c, k)) && BlockOk(Unrounds(x, k, ROUNDS))
    ensures GenerateRaw(c, k) == x <==> Unrounds(x, k, ROUNDS) == c
  {
    RoundsUndone(c, k, ROUNDS);
    UnroundsUndone(x, k, ROUNDS);
    hide Rounds, Unrounds;
  }

  // ---- draws ----

  function CounterOf(corrId: nat, stage: nat): Block {
    Block(corrId % W, corrId / W, stage, 0)
  }

  function KeyOf(seed: nat): Key {
    Key(seed % W, seed / W)
  }

  function Generate(seed: nat, corrId: nat, stage: nat): Block {
    GenerateRaw(CounterOf(corrId, stage), KeyOf(seed))
  }

  /** Under one seed, different orders or different stages never share a block. */
  lemma DrawsAreDistinct(seed: nat, corrId: nat, stage: nat, corrId': nat, stage': nat)
    requires seed < TWO_64 && corrId < TWO_64 && corrId' < TWO_64 && stage < W && stage' < W
    ensures Generate(seed, corrId, stage) == Generate(seed, corrId', stage') <==> corrId == corrId' && stage == stage'
  {
    var k, c, c' := KeyOf(seed), CounterOf(corrId, stage), CounterOf(corrId', stage');
    RoundsUndone(c, k, ROUNDS);
    RoundsUndone(c', k, ROUNDS);
    hide Rounds, Unrounds;
    assert corrId == W * c.w1 + c.w0 && corrId' == W * c'.w1 + c'.w0;
  }

  /** The ten rounds as the loop runs them: the key moves on between rounds only. */
  method GenerateBlock(counter: Block, key: Key) returns (c: Block)
    ensures c == GenerateRaw(counter, key)
  {
    hide Round, NextKey;
    var k := key;
    c := counter;
    var round := 0;
    while round < ROUNDS
      invariant round <= ROUNDS && c == Rounds(counter, key, round)
      invariant round < ROUNDS ==> k == KeyAt(key, round)
    {
      c := Round(c, k);
      if round + 1 < ROUNDS {
        k := NextKey(k);
      }
      round := round + 1;
    }
  }

  // ---- ranges ----

  /** The high word of a 64 by 64 bit product, from four 32 by 32 bit products that each fit a word. */
  function MultiplyHigh(a: nat, b: nat): nat {
    var aLo, aHi, bLo, bHi := a % W, a / W, b % W, b / W;
    var ll, lh, hl, hh := aLo * bLo, aLo * bHi, aHi * bLo, aHi * bHi;
    var carry := (ll / W + lh % W + hl % W) / W;
    hh + lh / W + hl / W + carry
  }

  /** The product, put together from its parts. */
  lemma ProductParts(a: nat, b: nat)
    ensures a * b == (a / W) * (b / W) * TWO_64 + ((a % W) * (b / W) + (a / W) * (b % W)) * W + (a % W) * (b % W)
  {
    var aLo, aHi, bLo, bHi := a % W, a / W, b % W, b / W;
    assert a == aHi * W + aLo && b == bHi * W + bLo;
    assert a * b == (aHi * W) * (bHi * W) + (aHi * W) * bLo + aLo * (bHi * W) + aLo * bLo;
    assert (aHi * W) * (bHi * W) == aHi * bHi * TWO_64;
    assert (aHi * W) * bLo == aHi * bLo * W && aLo * (bHi * W) == aLo * bHi * W;
  }

  /** No partial product or sum leaves 64 bits. */
  lemma PartsFit(a: nat, b: nat)
    requires a < TWO_64 && b < TWO_64
    ensures var ll, lh, hl, hh := (a % W) * (b % W), (a % W) * (b / W), (a / W) * (b % W), (a / W) * (b / W);
            && ll < TWO_64 && lh < TWO_64 && hl < TWO_64 && hh < TWO_64 && ll / W + lh % W + hl % W < TWO_64
  {
    ProductFits(a % W, b % W);
    ProductFits(a % W, b / W);
    ProductFits(a / W, b % W);
    ProductFits(a / W, b / W);
  }

  /** The high word is exact. */
  lemma MultiplyHighIsExact(a: nat, b: nat)
    ensures MultiplyHigh(a, b) == a * b / TWO_64
  {
    ProductParts(a, b);
    var aLo, aHi, bLo, bHi := a % W, a / W, b % W, b / W;
    HighOfParts(a * b, aLo * bLo, aLo * bHi, aHi * bLo, aHi * bHi);
  }

  lemma HighOfParts(n: nat, ll: nat, lh: nat, hl: nat, hh: nat)
    requires n == hh * TWO_64 + (lh + hl) * W + ll
    ensures hh + lh / W + hl / W + (ll / W + lh % W + hl % W) / W == n / TWO_64
  {
  }

  lemma HighBelow(a: nat, b: nat)
    requires a < TWO_64 && b < TWO_64
    ensures a * b / TWO_64 <= (if b > 0 then b - 1 else 0)
  {
    TimesOrder(a, TWO_64 - 1, b);
  }

  /** A draw scaled to `low..high`; the span wraps to 0 for the whole word range. */
  function Scaled(draw: nat, low: nat, high: nat): nat {
    if high <= low then low else low + MultiplyHigh(draw, (high - low + 1) % TWO_64)
  }

  /** The result is in range. */
  lemma ScaledIsInRange(draw: nat, low: nat, high: nat)
    requires draw < TWO_64 && low <= high < TWO_64
    ensures low <= Scaled(draw, low, high) <= high
  {
    var span := (high - low + 1) % TWO_64;
    MultiplyHighIsExact(draw, span);
    HighBelow(draw, span);
  }

  /** The smallest draw that is scaled to `low + k`: `k * 2^64 / span`, rounded up. */
  function FirstDraw(k: nat, span: nat): nat
    requires span > 0
  {
    (k * TWO_64 + span - 1) / span
  }

  /** Dividing rounded up is the least that multiplies back to enough. */
  lemma CeilingMeaning(n: nat, span: nat, draw: nat)
    requires span > 0
    ensures (n + span - 1) / span <= draw <==> n <= draw * span
  {
    var c := (n + span - 1) / span;
    assert n + span - 1 == span * c + (n + span - 1) % span;
    assert c * span == span * c;
    if c <= draw {
      TimesOrder(c, draw, span);
    } else {
      TimesOrder(draw, c - 1, span);
      assert (c - 1) * span == c * span - span;
    }
  }

  /** Dividing rounded down is the greatest that multiplies back to no more. */
  lemma FloorMeaning(n: nat, k: nat)
    ensures n / TWO_64 == k <==> k * TWO_64 <= n < (k + 1) * TWO_64
  {
  }

  /** Scaling covers its range: each value is drawn from one interval of draws, and each of these intervals is next to
      the following one. */
  lemma DrawsOfValue(draw: nat, low: nat, high: nat, v: nat)
    requires draw < TWO_64 && low <= v <= high && 0 < high - low < TWO_64 - 1
    ensures var span := high - low + 1;
            Scaled(draw, low, high) == v <==> FirstDraw(v - low, span) <= draw < FirstDraw(v - low + 1, span)
  {
    hide Scaled;
    var span := high - low + 1;
    ScaledIsQuotient(draw, low, high);
    FloorMeaning(draw * span, v - low);
    CeilingMeaning((v - low) * TWO_64, span, draw);
    CeilingMeaning((v - low + 1) * TWO_64, span, draw);
  }

  lemma ScaledUnfolds(draw: nat, low: nat, high: nat)
    requires 0 < high - low < TWO_64 - 1
    ensures Scaled(draw, low, high) == low + MultiplyHigh(draw, high - low + 1)
  {
    hide MultiplyHigh;
  }

  lemma ScaledIsQuotient(draw: nat, low: nat, high: nat)
    requires 0 < high - low < TWO_64 - 1
    ensures Scaled(draw, low, high) == low + draw * (high - low + 1) / TWO_64
  {
    hide Scaled, MultiplyHigh;
    ScaledUnfolds(draw, low, high);
    MultiplyHighIsExact(draw, high - low + 1);
  }

  /** All intervals are equally long, up to one draw; together they are all draws. */
  lemma DrawsAreEven(k: nat, span: nat)
    requires 0 < span < TWO_64
    ensures FirstDraw(0, span) == 0 && FirstDraw(span, span) == TWO_64
    ensures var n := FirstDraw(k + 1, span) - FirstDraw(k, span);
            1 <= TWO_64 / span <= n <= TWO_64 / span + 1
  {
    CeilingMeaning(span * TWO_64, span, TWO_64);
    CeilingMeaning(span * TWO_64, span, TWO_64 - 1);
    TimesOrder(1, TWO_64 / span, span);
    StepOfCeiling(k * TWO_64, TWO_64, span);
  }

  lemma StepOfCeiling(n: nat, step: nat, span: nat)
    requires 0 < span
    ensures step / span <= (n + step + span - 1) / span - (n + span - 1) / span <= step / span + 1
  {
    var c, d := (n + span - 1) / span, (n + step + span - 1) / span;
    CeilingBounds(n, span);
    CeilingBounds(n + step, span);
    assert (d - c) * span == d * span - c * span;
    QuotientBetween(step, d - c, span);
  }

  lemma CeilingBounds(n: nat, span: nat)
    requires span > 0
    ensures var c := (n + span - 1) / span; n <= c * span < n + span
  {
    var m := n + span - 1;
    assert m == span * (m / span) + m % span;
    assert span * (m / span) == (m / span) * span;
  }

  lemma QuotientBetween(step: nat, d: int, span: nat)
    requires span > 0 && step - span < d * span < step + span
    ensures step / span <= d <= step / span + 1
  {
    var q := step / span;
    assert step == span * q + step % span;
    assert (q - 1) * span == span * q - span && (q + 2) * span == span * q + 2 * span;
    TimesOrder(d, q - 1, span);
    TimesOrder(q + 2, d, span);
  }

  predicate Reaches(low: nat, high: nat, v: nat) {
    exists draw | 0 <= draw < TWO_64 :: Scaled(draw, low, high) == v
  }

  /** Every value of the range can be drawn exactly when the span does not wrap to 0. The whole word range is the one
      that does, and all it ever gives is its lower end. */
  lemma ReachesAllUnlessWrapped(low: nat, high: nat)
    requires low <= high < TWO_64
    ensures (forall v | low <= v <= high :: Reaches(low, high, v)) <==> (high - low + 1) % TWO_64 != 0
    ensures (high - low + 1) % TWO_64 == 0 ==> forall v :: Reaches(low, high, v) <==> v == low
  {
    var span := high - low + 1;
    if low == high {
      assert Scaled(0, low, high) == low;
    } else if span == TWO_64 {
      forall draw: nat ensures Scaled(draw, low, high) == low { MultiplyHighIsExact(draw, 0); }
      assert Reaches(low, high, low) by { assert Scaled(0, low, high) == low; }
      assert !Reaches(low, high, high);
    } else {
      forall v | low <= v <= high ensures Reaches(low, high, v) { Reached(low, high, v); }
    }
  }

  lemma Reached(low: nat, high: nat, v: nat)
    requires low <= v <= high && 0 < high - low < TWO_64 - 1
    ensures Reaches(low, high, v)
  {
    var span := high - low + 1;
    var draw := FirstDraw(v - low, span);
    DrawsAreEven(v - low, span);
    TimesOrder(v - low, span - 1, TWO_64);
    CeilingMeaning((v - low) * TWO_64, span, TWO_64 - 1);
    assert (v - low) * TWO_64 <= (span - 1) * TWO_64 <= (TWO_64 - 1) * span;
    DrawsOfValue(draw, low, high, v);
    assert Scaled(draw, low, high) == v;
  }
}
