/** The known answer of the generator: a published vector of Random123 for philox4x32-10, worked out round by round. */
module PhiloxAnswers {
  import opened Words
  import opened Philox

  // ---- exclusive or, byte by byte ----

  function Byte(x: bv8): nat { x as nat }

  lemma HalfByte(x: bv8)
    ensures Byte(x) == 2 * Byte(x >> 1) + Byte(x & 1) && Byte(x & 1) < 2
  {
  }

  lemma ByteFits(x: bv8)
    ensures Byte(x) < 0x100
  {
  }

  lemma LastBit(x: bv8, y: bv8)
    ensures Byte((x ^ y) & 1) == (Byte(x & 1) + Byte(y & 1)) % 2 && (x ^ y) >> 1 == (x >> 1) ^ (y >> 1)
  {
  }

  lemma ZeroBytes(x: bv8, y: bv8)
    requires Byte(x) == Byte(y) == 0
    ensures Byte(x >> 1) == Byte(y >> 1) == Byte((x >> 1) ^ (y >> 1)) == 0
  {
  }

  lemma XorOfHalves(x: nat, y: nat, i: nat, j: nat)
    requires i < 2 && j < 2
    ensures Xor(2 * x + i, 2 * y + j) == 2 * Xor(x, y) + (i + j) % 2
  {
    var p, q := 2 * x + i, 2 * y + j;
    assert p / 2 == x && q / 2 == y && (p + q) % 2 == (i + j) % 2;
    if p == 0 && q == 0 { assert x == 0 && y == 0 && i == 0 && j == 0; }
  }

  lemma {:induction false} XorOfBytes(x: bv8, y: bv8)
    ensures Xor(Byte(x), Byte(y)) == Byte(x ^ y)
    decreases Byte(x) + Byte(y)
  {
    hide Xor, Byte;
    HalfByte(x);
    HalfByte(y);
    HalfByte(x ^ y);
    LastBit(x, y);
    if Byte(x) + Byte(y) != 0 {
      XorOfBytes(x >> 1, y >> 1);
    } else {
      ZeroBytes(x, y);
      NothingXor();
    }
    XorOfHalves(Byte(x >> 1), Byte(y >> 1), Byte(x & 1), Byte(y & 1));
  }

  lemma NothingXor()
    ensures Xor(0, 0) == 0
  {
  }

  lemma Parts(x: nat, half: nat, a: nat)
    requires a < 2 * half
    ensures x * (2 * half) + a == 2 * (x * half + a / 2) + a % 2
  {
  }

  /** Low bits and high bits do not mix. */
  lemma {:induction false} XorInParts(x: nat, y: nat, a: nat, b: nat, bits: nat)
    requires a < Pow2(bits) && b < Pow2(bits)
    ensures Xor(x * Pow2(bits) + a, y * Pow2(bits) + b) == Xor(x, y) * Pow2(bits) + Xor(a, b)
  {
    hide Xor;
    if bits > 0 {
      var half := Pow2(bits - 1);
      XorInParts(x, y, a / 2, b / 2, bits - 1);
      Parts(x, half, a);
      Parts(y, half, b);
      XorOfHalves(x * half + a / 2, y * half + b / 2, a % 2, b % 2);
      XorOfHalves(a / 2, b / 2, a % 2, b % 2);
      Distributes(Xor(x, y), half);
    } else {
      NothingXor();
    }
  }

  lemma Distributes(x: nat, half: nat)
    ensures 2 * (x * half) == x * (2 * half)
  {
  }

  /** A word by its bytes. */
  function Word(a: bv8, b: bv8, c: bv8, d: bv8): nat {
    ((Byte(a) * 0x100 + Byte(b)) * 0x100 + Byte(c)) * 0x100 + Byte(d)
  }

  lemma ByteSize()
    ensures Pow2(8) == 0x100
  {
    assert Pow2(4) == 0x10;
  }

  lemma XorOfWords(a: bv8, b: bv8, c: bv8, d: bv8, e: bv8, f: bv8, g: bv8, h: bv8)
    ensures Xor(Word(a, b, c, d), Word(e, f, g, h)) == Word(a ^ e, b ^ f, c ^ g, d ^ h)
  {
    hide Xor, Byte, Pow2;
    ByteSize();
    ByteFits(b);
    ByteFits(c);
    ByteFits(d);
    ByteFits(f);
    ByteFits(g);
    ByteFits(h);
    XorOfBytes(a, e);
    XorOfBytes(b, f);
    XorOfBytes(c, g);
    XorOfBytes(d, h);
    var x, y := Byte(a) * 0x100 + Byte(b), Byte(e) * 0x100 + Byte(f);
    XorInParts(Byte(a), Byte(e), Byte(b), Byte(f), 8);
    XorInParts(x, y, Byte(c), Byte(g), 8);
    XorInParts(x * 0x100 + Byte(c), y * 0x100 + Byte(g), Byte(d), Byte(h), 8);
  }

  lemma MixOfWords(a: bv8, b: bv8, c: bv8, d: bv8, e: bv8, f: bv8, g: bv8, h: bv8, i: bv8, j: bv8, k: bv8, l: bv8)
    ensures Xor(Xor(Word(a, b, c, d), Word(e, f, g, h)), Word(i, j, k, l)) == Word(a ^ e ^ i, b ^ f ^ j, c ^ g ^ k, d ^ h ^ l)
  {
    hide Xor, Word;
    XorOfWords(a, b, c, d, e, f, g, h);
    XorOfWords(a ^ e, b ^ f, c ^ g, d ^ h, i, j, k, l);
  }

  // ---- the vector ----

  /** The counter and the key of the vector, the first digits of pi. */
  const PI: Block := Block(0x243F6A88, 0x85A308D3, 0x13198A2E, 0x03707344)
  const PI_KEY: Key := Key(0xA4093822, 0x299F31D0)

  lemma Next(n: nat, c: Block, k: Key)
    requires Rounds(PI, PI_KEY, n) == c && KeyAt(PI_KEY, n) == k
    ensures Rounds(PI, PI_KEY, n + 1) == Round(c, k) && KeyAt(PI_KEY, n + 1) == NextKey(k)
  {
    hide Round, NextKey;
  }

  lemma Beginning()
    ensures Rounds(PI, PI_KEY, 0) == PI && KeyAt(PI_KEY, 0) == PI_KEY
  {
  }

  lemma Round1()
    ensures Rounds(PI, PI_KEY, 1) == Block(0x2EFD7704, 0xAD2D4BA2, 0x3728C377, 0xB37E0218)
    ensures KeyAt(PI_KEY, 1) == Key(0x4240B1DB, 0xE506E055)
  {
    hide Xor, Rounds, KeyAt;
    Beginning();
    MixOfWords(0x0F, 0x57, 0x47, 0xF5, 0x85, 0xA3, 0x08, 0xD3, 0xA4, 0x09, 0x38, 0x22);
    MixOfWords(0x1D, 0xC7, 0x81, 0xE3, 0x03, 0x70, 0x73, 0x44, 0x29, 0x9F, 0x31, 0xD0);
    Next(0, Block(0x243F6A88, 0x85A308D3, 0x13198A2E, 0x03707344), Key(0xA4093822, 0x299F31D0));
  }

  lemma Round2()
    ensures Rounds(PI, PI_KEY, 2) == Block(0xC320345A, 0x20F4F871, 0x70E22DDE, 0xDDDB124C)
    ensures KeyAt(PI_KEY, 2) == Key(0xE0782B94, 0xA06E8EDA)
  {
    hide Xor, Rounds, KeyAt;
    Round1();
    MixOfWords(0x2C, 0x4D, 0xCE, 0x23, 0xAD, 0x2D, 0x4B, 0xA2, 0x42, 0x40, 0xB1, 0xDB);
    MixOfWords(0x26, 0x9A, 0xCF, 0x93, 0xB3, 0x7E, 0x02, 0x18, 0xE5, 0x06, 0xE0, 0x55);
    Next(1, Block(0x2EFD7704, 0xAD2D4BA2, 0x3728C377, 0xB37E0218), Key(0x4240B1DB, 0xE506E055));
  }

  lemma Round3()
    ensures Rounds(PI, PI_KEY, 3) == Block(0x9A27DB43, 0x0524DC72, 0xDDFBDC94, 0x8E41DF2E)
    ensures KeyAt(PI_KEY, 3) == Key(0x7EAFA54D, 0x5BD63D5F)
  {
    hide Xor, Rounds, KeyAt;
    Round2();
    MixOfWords(0x5A, 0xAB, 0x08, 0xA6, 0x20, 0xF4, 0xF8, 0x71, 0xE0, 0x78, 0x2B, 0x94);
    MixOfWords(0xA0, 0x4E, 0x40, 0x02, 0xDD, 0xDB, 0x12, 0x4C, 0xA0, 0x6E, 0x8E, 0xDA);
    Next(2, Block(0xC320345A, 0x20F4F871, 0x70E22DDE, 0xDDDB124C), Key(0xE0782B94, 0xA06E8EDA));
  }

  lemma Round4()
    ensures Rounds(PI, PI_KEY, 4) == Block(0xC9C7529C, 0xD06D7A4C, 0xAB326927, 0x24AC33B9)
    ensures KeyAt(PI_KEY, 4) == Key(0x1CE71F06, 0x173DEBE4)
  {
    hide Xor, Rounds, KeyAt;
    Round3();
    MixOfWords(0xB2, 0x4C, 0x2B, 0xA3, 0x05, 0x24, 0xDC, 0x72, 0x7E, 0xAF, 0xA5, 0x4D);
    MixOfWords(0x7E, 0xA5, 0x8B, 0x56, 0x8E, 0x41, 0xDF, 0x2E, 0x5B, 0xD6, 0x3D, 0x5F);
    Next(3, Block(0x9A27DB43, 0x0524DC72, 0xDDFBDC94, 0x8E41DF2E), Key(0x7EAFA54D, 0x5BD63D5F));
  }

  lemma Round5()
    ensures Rounds(PI, PI_KEY, 5) == Block(0x450B009C, 0x131E3741, 0x9654AAD8, 0xA9FCAC94)
    ensures KeyAt(PI_KEY, 5) == Key(0xBB1E98BF, 0xD2A59A69)
  {
    hide Xor, Rounds, KeyAt;
    Round4();
    MixOfWords(0x89, 0x81, 0x65, 0xD6, 0xD0, 0x6D, 0x7A, 0x4C, 0x1C, 0xE7, 0x1F, 0x06);
    MixOfWords(0xA5, 0xC5, 0x72, 0x85, 0x24, 0xAC, 0x33, 0xB9, 0x17, 0x3D, 0xEB, 0xE4);
    Next(4, Block(0xC9C7529C, 0xD06D7A4C, 0xAB326927, 0x24AC33B9), Key(0x1CE71F06, 0x173DEBE4));
  }

  lemma Round6()
    ensures Rounds(PI, PI_KEY, 6) == Block(0xD0BE47EE, 0x222F0768, 0x43E1D190, 0xE1001694)
    ensures KeyAt(PI_KEY, 6) == Key(0x59561278, 0x8E0D48EE)
  {
    hide Xor, Rounds, KeyAt;
    Round5();
    MixOfWords(0x78, 0xBE, 0xE8, 0x10, 0x13, 0x1E, 0x37, 0x41, 0xBB, 0x1E, 0x98, 0xBF);
    MixOfWords(0x38, 0xB8, 0xE7, 0x6D, 0xA9, 0xFC, 0xAC, 0x94, 0xD2, 0xA5, 0x9A, 0x69);
    Next(5, Block(0x450B009C, 0x131E3741, 0x9654AAD8, 0xA9FCAC94), Key(0xBB1E98BF, 0xD2A59A69));
  }

  lemma Round7()
    ensures Rounds(PI, PI_KEY, 7) == Block(0x4DFCCABA, 0x190A87F0, 0xC47362BA, 0xB6B5242A)
    ensures KeyAt(PI_KEY, 7) == Key(0xF78D8C31, 0x4974F773)
  {
    hide Xor, Rounds, KeyAt;
    Round6();
    MixOfWords(0x36, 0x85, 0xDF, 0xAA, 0x22, 0x2F, 0x07, 0x68, 0x59, 0x56, 0x12, 0x78);
    MixOfWords(0xAB, 0x7E, 0x3C, 0xC0, 0xE1, 0x00, 0x16, 0x94, 0x8E, 0x0D, 0x48, 0xEE);
    Next(6, Block(0xD0BE47EE, 0x222F0768, 0x43E1D190, 0xE1001694), Key(0x59561278, 0x8E0D48EE));
  }

  lemma Round8()
    ensures Rounds(PI, PI_KEY, 8) == Block(0x734D1A7D, 0x3162FF36, 0xBFD3C78A, 0x9E5C404E)
    ensures KeyAt(PI_KEY, 8) == Key(0x95C505EA, 0x04DCA5F8)
  {
    hide Xor, Rounds, KeyAt;
    Round7();
    MixOfWords(0x9D, 0xCA, 0x11, 0xBC, 0x19, 0x0A, 0x87, 0xF0, 0xF7, 0x8D, 0x8C, 0x31);
    MixOfWords(0x40, 0x12, 0x14, 0xD3, 0xB6, 0xB5, 0x24, 0x2A, 0x49, 0x74, 0xF7, 0x73);
    Next(7, Block(0x4DFCCABA, 0x190A87F0, 0xC47362BA, 0xB6B5242A), Key(0xF78D8C31, 0x4974F773));
  }

  lemma Round9()
    ensures Rounds(PI, PI_KEY, 9) == Block(0x3EB49FBB, 0x7F0BD1E6, 0xC4392C8D, 0xA3C1B987)
    ensures KeyAt(PI_KEY, 9) == Key(0x33FC7FA3, 0xC044547D)
  {
    hide Xor, Rounds, KeyAt;
    Round8();
    MixOfWords(0x9A, 0x13, 0x65, 0x67, 0x31, 0x62, 0xFF, 0x36, 0x95, 0xC5, 0x05, 0xEA);
    MixOfWords(0x5E, 0xB9, 0xC9, 0x3B, 0x9E, 0x5C, 0x40, 0x4E, 0x04, 0xDC, 0xA5, 0xF8);
    Next(8, Block(0x734D1A7D, 0x3162FF36, 0xBFD3C78A, 0x9E5C404E), Key(0x95C505EA, 0x04DCA5F8));
  }

  /** Ten rounds, the key moving on by the two Weyl constants in between, give the published answer. */
  lemma KnownAnswer()
    ensures Rounds(PI, PI_KEY, ROUNDS) == Block(0xD16CFE09, 0x94FDCCEB, 0x5001E420, 0x24126EA1)
  {
    hide Xor, Rounds, KeyAt;
    Round9();
    MixOfWords(0x9D, 0x9B, 0x50, 0x4C, 0x7F, 0x0B, 0xD1, 0xE6, 0x33, 0xFC, 0x7F, 0xA3);
    MixOfWords(0x33, 0x84, 0x09, 0xDA, 0xA3, 0xC1, 0xB9, 0x87, 0xC0, 0x44, 0x54, 0x7D);
    Next(9, Block(0x3EB49FBB, 0x7F0BD1E6, 0xC4392C8D, 0xA3C1B987), Key(0x33FC7FA3, 0xC044547D));
  }
}
