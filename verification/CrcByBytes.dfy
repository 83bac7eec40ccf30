/** The CRC-32 register as four bytes, on which known values can be worked out. */
module CrcByBytes {
  import opened Bits
  import opened Crc32

  function Val(x: bv8): Byte { x as int }

  function Four(a: nat, b: nat, c: nat, d: nat): nat { d + 0x100 * (c + 0x100 * (b + 0x100 * a)) }

  /** A 32-bit word, most significant byte first. */
  datatype Word = Word(a: bv8, b: bv8, c: bv8, d: bv8) {
    function Value(): nat { Four(Val(a), Val(b), Val(c), Val(d)) }

    function Xor(w: Word): Word { Word(a ^ w.a, b ^ w.b, c ^ w.c, d ^ w.d) }

    function Half(): Word {
      Word(a >> 1, (a << 7) | (b >> 1), (b << 7) | (c >> 1), (c << 7) | (d >> 1))
    }

    function Step(): Word {
      if d & 1 == 1 then Half().Xor(Word(0xED, 0xB8, 0x83, 0x20)) else Half()
    }
  }

  // ---------- One byte ----------

  lemma HalfOf(x: bv8)
    ensures Val(x) / 2 == Val(x >> 1) && Val(x) % 2 == if x & 1 == 1 then 1 else 0
  {}

  lemma NoBits(x: bv8)
    requires Val(x) < 1
    ensures x == 0
  {}

  lemma HalvesOfXor(x: bv8, y: bv8)
    ensures Val(x ^ y) / 2 == Val((x >> 1) ^ (y >> 1))
    ensures Val(x ^ y) % 2 == if Val(x) % 2 == Val(y) % 2 then 0 else 1
  {
    hide Val;
    HalfOf(x ^ y);
    HalfOf(x);
    HalfOf(y);
    assert (x ^ y) >> 1 == (x >> 1) ^ (y >> 1);
    assert (x ^ y) & 1 == 1 <==> x & 1 != y & 1;
    assert (x & 1 == 0 || x & 1 == 1) && (y & 1 == 0 || y & 1 == 1);
  }

  lemma XorFromHalves(a: nat, b: nat, c: nat)
    requires Bits.Xor(a / 2, b / 2) == c / 2 && c % 2 == if a % 2 == b % 2 then 0 else 1
    ensures Bits.Xor(a, b) == c
  {}

  lemma {:induction false} XorOfBytes(x: bv8, y: bv8, n: nat)
    requires Val(x) < Pow2(n) && Val(y) < Pow2(n)
    ensures Bits.Xor(Val(x), Val(y)) == Val(x ^ y)
    decreases n
  {
    hide Bits.Xor, Val;
    if n == 0 {
      NoBits(x);
      NoBits(y);
      assert x ^ y == 0 && Val(0) == 0 by { HalfOf(0); }
      XorZero(0);
    } else {
      HalfOf(x);
      HalfOf(y);
      HalvesOfXor(x, y);
      XorOfBytes(x >> 1, y >> 1, n - 1);
      XorFromHalves(Val(x), Val(y), Val(x ^ y));
    }
  }

  lemma AddTopBit(y: bv8)
    requires y < 0x80
    ensures Val(0x80 | y) == 0x80 + Val(y)
  {}

  lemma Carry(x: bv8, y: bv8)
    ensures Val((x << 7) | (y >> 1)) == 0x80 * (Val(x) % 2) + Val(y) / 2
  {
    hide Val;
    HalfOf(x);
    HalfOf(y);
    if x & 1 == 0 {
      assert (x << 7) | (y >> 1) == y >> 1;
    } else {
      assert x & 1 == 1 && (x << 7) | (y >> 1) == 0x80 | (y >> 1) && (y >> 1) < 0x80;
      AddTopBit(y >> 1);
    }
  }

  // ---------- Four bytes ----------

  lemma {:induction false} XorSplit(a: nat, b: nat, r: nat, s: nat, n: nat)
    requires a < Pow2(n) && b < Pow2(n)
    ensures Bits.Xor(a + ShiftLeft(r, n), b + ShiftLeft(s, n)) == Bits.Xor(a, b) + ShiftLeft(Bits.Xor(r, s), n)
  {
    if n > 0 {
      XorUnfold(a + ShiftLeft(r, n), b + ShiftLeft(s, n));
      XorUnfold(a, b);
      XorSplit(a / 2, b / 2, r, s, n - 1);
    }
  }

  lemma XorByteAnd(x: Byte, y: Byte, r: nat, s: nat)
    ensures Bits.Xor(x + 0x100 * r, y + 0x100 * s) == Bits.Xor(x, y) + 0x100 * Bits.Xor(r, s)
  {
    Powers();
    ByteShift(r);
    ByteShift(s);
    ByteShift(Bits.Xor(r, s));
    XorSplit(x, y, r, s, 8);
  }

  lemma XorOfFour(a: Byte, b: Byte, c: Byte, d: Byte, e: Byte, f: Byte, g: Byte, h: Byte)
    ensures Bits.Xor(Four(a, b, c, d), Four(e, f, g, h))
            == Four(Bits.Xor(a, e), Bits.Xor(b, f), Bits.Xor(c, g), Bits.Xor(d, h))
  {
    hide Bits.Xor;
    XorByteAnd(b, f, a, e);
    XorByteAnd(c, g, b + 0x100 * a, f + 0x100 * e);
    XorByteAnd(d, h, c + 0x100 * (b + 0x100 * a), g + 0x100 * (f + 0x100 * e));
  }

  lemma XorIsXor(v: Word, w: Word)
    ensures Bits.Xor(v.Value(), w.Value()) == v.Xor(w).Value()
  {
    hide Bits.Xor, Val, Four;
    Powers();
    XorOfFour(Val(v.a), Val(v.b), Val(v.c), Val(v.d), Val(w.a), Val(w.b), Val(w.c), Val(w.d));
    XorOfBytes(v.a, w.a, 8);
    XorOfBytes(v.b, w.b, 8);
    XorOfBytes(v.c, w.c, 8);
    XorOfBytes(v.d, w.d, 8);
  }

  lemma HalfOfFour(a: nat, b: nat, c: nat, d: nat)
    ensures Four(a, b, c, d) % 2 == d % 2
    ensures Four(a, b, c, d) / 2 == Four(a / 2, 0x80 * (a % 2) + b / 2, 0x80 * (b % 2) + c / 2, 0x80 * (c % 2) + d / 2)
  {}

  lemma HalfIsHalf(w: Word)
    ensures w.Half().Value() == w.Value() / 2 && w.Value() % 2 == if w.d & 1 == 1 then 1 else 0
  {
    hide Val, Four;
    HalfOf(w.a);
    HalfOf(w.d);
    Carry(w.a, w.b);
    Carry(w.b, w.c);
    Carry(w.c, w.d);
    HalfOfFour(Val(w.a), Val(w.b), Val(w.c), Val(w.d));
  }

  /** Four bytes in bit vectors go through the same shift step. */
  lemma StepIsStep(w: Word)
    ensures w.Step().Value() == ShiftStep(w.Value())
  {
    hide Bits.Xor, Val;
    HalfIsHalf(w);
    XorIsXor(w.Half(), Word(0xED, 0xB8, 0x83, 0x20));
    assert Word(0xED, 0xB8, 0x83, 0x20).Value() == CRC32_POLY by { PolyBytes(); }
  }

  lemma PolyBytes()
    ensures Word(0xED, 0xB8, 0x83, 0x20).Value() == 0xEDB8_8320
  {}

  // ---------- Known values ----------

  function Steps(w: Word): Word { w.Step().Step().Step().Step().Step().Step().Step().Step() }

  lemma StepsAreShifts(w: Word)
    ensures Steps(w).Value() == Shift(8, w.Value())
  {
    hide ShiftStep, Word.Value, Word.Step;
    var w1, w2, w3, w4 := w.Step(), w.Step().Step(), w.Step().Step().Step(), w.Step().Step().Step().Step();
    StepIsStep(w);
    StepIsStep(w1);
    StepIsStep(w2);
    StepIsStep(w3);
    FourShifts(w.Value());
    StepIsStep(w4);
    StepIsStep(w4.Step());
    StepIsStep(w4.Step().Step());
    StepIsStep(w4.Step().Step().Step());
    FourShifts(w4.Value());
    ShiftCompose(4, 4, w.Value());
  }

  lemma FourShifts(crc: nat)
    ensures Shift(4, crc) == ShiftStep(ShiftStep(ShiftStep(ShiftStep(crc))))
  {
    assert Shift(4, crc) == Shift(3, ShiftStep(crc));
    hide ShiftStep;
    assert Shift(3, ShiftStep(crc)) == Shift(1, ShiftStep(ShiftStep(ShiftStep(crc))));
  }

  /** One byte of data. */
  function Feed(w: Word, b: bv8): Word { Steps(w.Xor(Word(0, 0, 0, b))) }

  lemma FeedIsByteStep(w: Word, b: bv8)
    ensures Feed(w, b).Value() == ByteStep(w.Value(), Val(b))
  {
    hide Bits.Xor, Val, Steps;
    XorIsXor(w, Word(0, 0, 0, b));
    assert Val(0) == 0 by { HalfOf(0); }
    StepsAreShifts(w.Xor(Word(0, 0, 0, b)));
  }

  lemma FeedThree(w: Word, a: bv8, b: bv8, c: bv8)
    ensures Feed(Feed(Feed(w, a), b), c).Value() == Update(w.Value(), [Val(a), Val(b), Val(c)])
  {
    hide Feed, Word.Value, Val, ByteStep;
    FeedIsByteStep(w, a);
    FeedIsByteStep(Feed(w, a), b);
    FeedIsByteStep(Feed(Feed(w, a), b), c);
    assert [Val(c)][1..] == [] && [Val(b), Val(c)][1..] == [Val(c)];
    assert [Val(a), Val(b), Val(c)][1..] == [Val(b), Val(c)];
    var w2 := Feed(Feed(w, a), b).Value();
    assert Update(w2, [Val(c)]) == ByteStep(w2, Val(c));
  }

  lemma Known()
    ensures Val(0x31) == 0x31 && Val(0x32) == 0x32 && Val(0x33) == 0x33 && Val(0x34) == 0x34 && Val(0x35) == 0x35
    ensures Val(0x36) == 0x36 && Val(0x37) == 0x37 && Val(0x38) == 0x38 && Val(0x39) == 0x39
    ensures Word(0xFF, 0xFF, 0xFF, 0xFF).Value() == 0xFFFF_FFFF && Word(0xDE, 0xBB, 0x20, 0xE3).Value() == 0xDEBB_20E3
    ensures Word(0x34, 0x0B, 0xC6, 0xD9).Value() == 0x340B_C6D9 && Word(0xCB, 0xF4, 0x39, 0x26).Value() == 0xCBF4_3926
  {}

  lemma NineBytes()
    ensures Feed(Feed(Feed(Word(0xFF, 0xFF, 0xFF, 0xFF), 0x31), 0x32), 0x33) == Word(0x77, 0xB7, 0x9C, 0x2D)
    ensures Feed(Feed(Feed(Word(0x77, 0xB7, 0x9C, 0x2D), 0x34), 0x35), 0x36) == Word(0xF6, 0x8D, 0x2C, 0x9E)
    ensures Feed(Feed(Feed(Word(0xF6, 0x8D, 0x2C, 0x9E), 0x37), 0x38), 0x39) == Word(0x34, 0x0B, 0xC6, 0xD9)
  {}

  /** The check value of this CRC, that of the nine characters "123456789". */
  lemma CheckValue()
    ensures Compute([0x31, 0x32, 0x33, 0x34, 0x35, 0x36, 0x37, 0x38, 0x39]) == 0xCBF4_3926
  {
    hide Feed, Word.Value, Val, Update, Bits.Xor;
    var a, b, c := [0x31, 0x32, 0x33], [0x34, 0x35, 0x36], [0x37, 0x38, 0x39];
    var ones := Word(0xFF, 0xFF, 0xFF, 0xFF);
    Known();
    NineBytes();
    FeedThree(ones, 0x31, 0x32, 0x33);
    FeedThree(Word(0x77, 0xB7, 0x9C, 0x2D), 0x34, 0x35, 0x36);
    FeedThree(Word(0xF6, 0x8D, 0x2C, 0x9E), 0x37, 0x38, 0x39);
    UpdateConcat(0xFFFF_FFFF, a, b + c);
    UpdateConcat(Update(0xFFFF_FFFF, a), b, c);
    assert a + (b + c) == [0x31, 0x32, 0x33, 0x34, 0x35, 0x36, 0x37, 0x38, 0x39];
    XorIsXor(Word(0x34, 0x0B, 0xC6, 0xD9), ones);
  }

  lemma AllOnesThrough()
    ensures Shift(32, 0xFFFF_FFFF) == 0xDEBB_20E3
  {
    hide Shift, Steps, Word.Value;
    var w0, w1 := Word(0xFF, 0xFF, 0xFF, 0xFF), Word(0x2D, 0xFD, 0x10, 0x72);
    var w2, w3 := Word(0xBE, 0x26, 0xED, 0x00), Word(0x00, 0xBE, 0x26, 0xED);
    Known();
    FourWords();
    StepsAreShifts(w0);
    StepsAreShifts(w1);
    StepsAreShifts(w2);
    StepsAreShifts(w3);
    ShiftCompose(8, 24, 0xFFFF_FFFF);
    ShiftCompose(8, 16, w1.Value());
    ShiftCompose(8, 8, w2.Value());
  }

  lemma FourWords()
    ensures Steps(Word(0xFF, 0xFF, 0xFF, 0xFF)) == Word(0x2D, 0xFD, 0x10, 0x72)
    ensures Steps(Word(0x2D, 0xFD, 0x10, 0x72)) == Word(0xBE, 0x26, 0xED, 0x00)
    ensures Steps(Word(0xBE, 0x26, 0xED, 0x00)) == Word(0x00, 0xBE, 0x26, 0xED)
    ensures Steps(Word(0x00, 0xBE, 0x26, 0xED)) == Word(0xDE, 0xBB, 0x20, 0xE3)
  {}

  /** The residue of this CRC: data followed by their CRC always leave the same register. */
  lemma Residue(data: seq<Byte>)
    ensures Update(0xFFFF_FFFF, data + ToLittleEndian(Compute(data), 4)) == 0xDEBB_20E3
  {
    hide Bits.Xor, Shift;
    var c, w := Update(0xFFFF_FFFF, data), ToLittleEndian(Compute(data), 4);
    UpdateConcat(0xFFFF_FFFF, data, w);
    UpdateAsWord(c, w);
    Widths();
    ComputeInRange(data);
    LittleEndianRoundTrip(Compute(data), 4);
    XorAssoc(c, c, 0xFFFF_FFFF);
    XorSelf(c);
    XorComm(0, 0xFFFF_FFFF);
    XorZero(0xFFFF_FFFF);
    AllOnesThrough();
  }
}
