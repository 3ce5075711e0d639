/** Unsigned 64-bit words, powers of two, and the masks that stand for remainders. */
module Words {
  const TWO_64: nat := 0x1_0000_0000_0000_0000

  function Min(a: nat, b: nat): nat { if a < b then a else b }

  function Pow2(bits: nat): nat {
    if bits == 0 then 1 else 2 * Pow2(bits - 1)
  }

  lemma Shift8(k: nat)
    ensures Pow2(k + 8) == 256 * Pow2(k)
  {
    assert Pow2(k + 8) == 4 * Pow2(k + 6) && Pow2(k + 6) == 4 * Pow2(k + 4);
    assert Pow2(k + 4) == 4 * Pow2(k + 2) && Pow2(k + 2) == 4 * Pow2(k);
  }

  lemma WordWidth()
    ensures Pow2(64) == TWO_64
  {
    Shift8(0); Shift8(8); Shift8(16); Shift8(24); Shift8(32); Shift8(40); Shift8(48); Shift8(56);
  }

  predicate IsPowerOfTwo(n: nat) {
    n == 1 || (n > 1 && n % 2 == 0 && IsPowerOfTwo(n / 2))
  }

  /** The first power of two from `p` on that reaches `n`. */
  function PowerFrom(p: nat, n: nat): (q: nat)
    requires IsPowerOfTwo(p)
    ensures IsPowerOfTwo(q) && n <= q && (q > p ==> q / 2 < n)
    decreases n - p
  {
    if p >= n then p else PowerFrom(2 * p, n)
  }

  /** The smallest power of two that reaches `n`. */
  method NextPowerOfTwo(n: nat) returns (p: nat)
    ensures p == PowerFrom(1, n)
    ensures IsPowerOfTwo(p) && n <= p
    ensures p > 1 ==> p / 2 < n
  {
    p := 1;
    while p < n
      invariant IsPowerOfTwo(p)
      invariant PowerFrom(p, n) == PowerFrom(1, n)
      invariant p > 1 ==> p / 2 < n
      decreases n - p
    {
      p := 2 * p;
    }
  }

  /** No power of two lies strictly between another and its double. */
  lemma {:induction false} NoPowerBetween(p: nat, q: nat)
    requires IsPowerOfTwo(p) && IsPowerOfTwo(q) && p <= q < 2 * p
    ensures p == q
    decreases p
  {
    if p > 1 { NoPowerBetween(p / 2, q / 2); }
  }

  /** The power of two that reaches twice `n` is exactly that when `n` is one, and otherwise more. */
  lemma PowerOfDouble(n: nat)
    requires n > 0
    ensures if IsPowerOfTwo(n) then PowerFrom(1, 2 * n) == 2 * n else PowerFrom(1, 2 * n) > 2 * n
  {
    var q := PowerFrom(1, 2 * n);
    if IsPowerOfTwo(n) { NoPowerBetween(n, q / 2); }
  }

  lemma {:induction false} Pow2IsPower(bits: nat)
    ensures IsPowerOfTwo(Pow2(bits)) && Pow2(bits) > 0
  {
    if bits > 0 { Pow2IsPower(bits - 1); }
  }

  /** A multiple of `x` other than 0 is at least `x` away from 0. */
  lemma {:induction false} MultipleIsLarge(x: nat, d: int)
    requires d != 0
    ensures x * d >= x || x * d <= -(x as int)
    decreases if d < 0 then -d else d
  {
    if d > 1 {
      MultipleIsLarge(x, d - 1);
      assert x * d == x * (d - 1) + x;
    } else if d < -1 {
      MultipleIsLarge(x, d + 1);
      assert x * d == x * (d + 1) - x;
    }
  }

  /** The remainder is the only number below `x` that differs by a multiple of `x`. */
  lemma RemainderIsUnique(x: nat, q: int, r: nat, n: nat)
    requires r < x && n == x * q + r
    ensures n % x == r && n / x == q
  {
    var d := n / x - q;
    assert n == x * (n / x) + n % x;
    assert x * d == x * (n / x) - x * q;
    if d != 0 { MultipleIsLarge(x, d); assert false; }
  }

  lemma Doubled(x: nat, y: nat)
    requires x > 0 && y % x == 0
    ensures (2 * y) % (2 * x) == 0
  {
    var q := y / x;
    assert 2 * x * q == 2 * y;
    RemainderIsUnique(2 * x, q, 0, 2 * y);
  }

  lemma {:induction false} PowersDivide(small: nat, large: nat)
    requires IsPowerOfTwo(small) && IsPowerOfTwo(large) && small <= large
    ensures large % small == 0
    decreases small
  {
    if small > 1 {
      PowersDivide(small / 2, large / 2);
      Doubled(small / 2, large / 2);
    }
  }

  /** Bitwise and. */
  function And(x: nat, y: nat): nat {
    if x == 0 || y == 0 then 0 else 2 * And(x / 2, y / 2) + if x % 2 == 1 && y % 2 == 1 then 1 else 0
  }

  function Remainder(n: nat, size: nat): nat
    requires size > 0
  {
    n % size
  }

  lemma RemainderOfDouble(n: nat, half: nat)
    requires half > 0
    ensures Remainder(n, 2 * half) == 2 * Remainder(n / 2, half) + n % 2
  {
    var q, r := n / 2 / half, n / 2 % half;
    assert n / 2 == half * q + r;
    assert 2 * half * q == 2 * (half * q);
    RemainderIsUnique(2 * half, q, 2 * r + n % 2, n);
  }

  lemma SmallRemainders(n: nat, size: nat)
    requires size > 0 && (size == 1 || n == 0)
    ensures Remainder(n, size) == 0
  {
  }

  lemma {:induction false} MaskBits(n: nat, size: nat)
    requires IsPowerOfTwo(size)
    ensures And(n, size - 1) == Remainder(n, size)
    decreases size
  {
    hide Remainder;
    if size == 1 || n == 0 {
      SmallRemainders(n, size);
    } else {
      var half := size / 2;
      MaskBits(n / 2, half);
      assert (size - 1) / 2 == half - 1 && (size - 1) % 2 == 1;
      RemainderOfDouble(n, half);
    }
  }

  /** Masking with a power of two less one takes the remainder. */
  lemma MaskIsRemainder(n: nat, size: nat)
    requires IsPowerOfTwo(size)
    ensures And(n, size - 1) == n % size
  {
    MaskBits(n, size);
  }

  // ---- counters that wrap at the word ----

  /** The slot of a wrapped counter is the slot of the unbounded one. */
  lemma SlotSurvivesWrap(n: nat, size: nat)
    requires size > 0 && TWO_64 % size == 0
    ensures n % TWO_64 % size == n % size
  {
    var k, q, r := TWO_64 / size, n / TWO_64, n % TWO_64;
    var m, s := r / size, r % size;
    assert n == TWO_64 * q + r && TWO_64 == size * k && r == size * m + s;
    assert TWO_64 * q == size * (k * q);
    assert size * (k * q + m) == size * (k * q) + size * m;
    RemainderIsUnique(size, k * q + m, s, n);
  }

  /** Slots line up across the wrap exactly for sizes that divide the word. */
  lemma SlotsNeedDivisor(size: nat)
    requires size > 0
    ensures (forall n: nat :: n % TWO_64 % size == n % size) <==> TWO_64 % size == 0
  {
    if TWO_64 % size == 0 {
      forall n: nat ensures n % TWO_64 % size == n % size { SlotSurvivesWrap(n, size); }
    } else {
      assert TWO_64 % TWO_64 % size == 0;
    }
  }

  /** The wrapped difference of two counters less than a word apart is their distance. */
  lemma WrappedDistance(p: nat, q: nat)
    requires q <= p < q + TWO_64
    ensures (p % TWO_64 - q % TWO_64) % TWO_64 == p - q
  {
  }

  lemma DistinctSlots(i: nat, j: nat, size: nat)
    requires i < j < i + size
    ensures i % size != j % size
  {
    var d := j / size - i / size;
    assert i == size * (i / size) + i % size && j == size * (j / size) + j % size;
    assert size * d == size * (j / size) - size * (i / size);
    if d != 0 { MultipleIsLarge(size, d); }
  }

  /** Going round a ring of `n`, from less than one round away. */
  function Around(pos: nat, n: nat): (slot: nat)
    requires 0 < n && pos < 2 * n
    ensures slot == pos % n
  {
    RemainderIsUnique(n, if pos < n then 0 else 1, if pos < n then pos else pos - n, pos);
    if pos < n then pos else pos - n
  }

  /** Bitwise exclusive or. */
  function Xor(x: nat, y: nat): nat {
    if x == 0 && y == 0 then 0 else 2 * Xor(x / 2, y / 2) + (x + y) % 2
  }

  lemma {:induction false} XorBound(x: nat, y: nat, bits: nat)
    requires x < Pow2(bits) && y < Pow2(bits)
    ensures Xor(x, y) < Pow2(bits)
  {
    if bits > 0 {
      XorBound(x / 2, y / 2, bits - 1);
    }
  }

  lemma {:induction false} XorCancels(x: nat, y: nat, v: nat)
    ensures Xor(y, Xor(Xor(x, y), v)) == Xor(x, v)
    decreases x + y + v
  {
    if x + y + v != 0 {
      hide Xor;
      XorCancels(x / 2, y / 2, v / 2);
      XorBits(x, y);
      var z := Xor(x, y);
      XorBits(z, v);
      var w := Xor(z, v);
      XorBits(y, w);
      XorBits(x, v);
      Parity(x, y, v, z, w);
    }
  }

  lemma Parity(x: nat, y: nat, v: nat, z: nat, w: nat)
    requires z % 2 == (x + y) % 2 && w % 2 == (z + v) % 2
    ensures (y + w) % 2 == (x + v) % 2
  {
  }

  lemma XorBits(x: nat, y: nat)
    ensures Xor(x, y) == 2 * Xor(x / 2, y / 2) + (x + y) % 2
    ensures Xor(x, y) / 2 == Xor(x / 2, y / 2) && Xor(x, y) % 2 == (x + y) % 2
  {
  }

  lemma {:induction false} XorCommutes(x: nat, y: nat)
    ensures Xor(x, y) == Xor(y, x)
    decreases x + y
  {
    if x + y != 0 { XorCommutes(x / 2, y / 2); }
  }

  lemma {:induction false} XorUndoes(x: nat, y: nat)
    ensures Xor(Xor(x, y), y) == x
    decreases x + y
  {
    if x + y != 0 {
      hide Xor;
      XorUndoes(x / 2, y / 2);
      XorBits(x, y);
      XorBits(Xor(x, y), y);
    }
  }

  // ---- remainders of products ----

  /** A factor may be reduced first. */
  lemma ReduceFactor(a: nat, b: nat, w: nat)
    requires w > 0
    ensures (a * (b % w)) % w == (a * b) % w
  {
    var q, r := b / w, b % w;
    var s, t := a * r / w, a * r % w;
    assert b == w * q + r && a * r == w * s + t;
    assert a * b == w * (a * q + s) + t by {
      assert a * b == a * (w * q) + a * r;
      assert a * (w * q) == w * (a * q);
      assert w * (a * q) + w * s == w * (a * q + s);
    }
    RemainderIsUnique(w, a * q + s, t, a * b);
  }

  lemma TimesOrder(a: int, b: int, d: int)
    requires d >= 0
    ensures a <= b ==> a * d <= b * d
  {
    assert a <= b ==> (b - a) * d >= 0;
  }

  lemma Reorder(a: nat, b: nat, x: nat)
    ensures a * (b * x) == x * (a * b)
  {
  }

  /** Multiplying by a number and by its inverse gives the word back. */
  lemma InverseFactor(a: nat, b: nat, x: nat, w: nat)
    requires x < w && (a * b) % w == 1
    ensures (a * ((b * x) % w)) % w == x
  {
    var p, q := a * b, b * x;
    ReduceFactor(a, q, w);
    ReduceFactor(x, p, w);
    Reorder(a, b, x);
    assert (x * (p % w)) % w == (x * 1) % w == x % w;
    RemainderIsUnique(w, 0, x, x);
  }
}
