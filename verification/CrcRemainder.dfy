/** What the CRC-32 is: a remainder of polynomials over the field of two elements, which are given
    here by the exponents of their terms. */
module CrcRemainder {
  import opened Bits
  import opened Crc32

  type Poly = set<int>

  function Add(a: Poly, b: Poly): Poly { (a - b) + (b - a) }

  /** x^n times the polynomial */
  function Times(a: Poly, n: int): Poly { set e | e in a :: e + n }

  /** The generator of section 3.2.9 of IEEE 802.3. */
  const GENERATOR: Poly := {32, 26, 23, 22, 16, 12, 11, 10, 8, 7, 5, 4, 2, 1, 0}

  /** All terms of exponents below n. */
  function AllBelow(n: nat): (p: Poly)
    ensures forall e :: e in p <==> 0 <= e < n
  {
    if n == 0 then {} else AllBelow(n - 1) + {n - 1}
  }

  const ONES: Poly := AllBelow(32)

  /** The bits of `w` as terms, the lowest bit that of exponent `top`: data are reflected. */
  function Terms(w: nat, top: int): Poly {
    if w == 0 then {} else (if w % 2 == 1 then {top} else {}) + Terms(w / 2, top - 1)
  }

  /** The data as a polynomial, the first bit sent that of the highest exponent. */
  function Message(data: seq<Byte>): Poly {
    if data == [] then {} else
      var n := |data| - 1;
      Add(Times(Message(data[..n]), 8), Terms(data[n], 7))
  }

  /** The product of the generator, times x^e, with the polynomial whose coefficients are the bits of q. */
  function Multiple(q: nat, e: int): Poly {
    if q == 0 then {} else Add(if q % 2 == 1 then Times(GENERATOR, e) else {}, Multiple(q / 2, e + 1))
  }

  /** Equal up to a multiple of the generator. */
  ghost predicate Congruent(a: Poly, b: Poly) { exists q :: Add(a, b) == Multiple(q, 0) }

  // ---------- Sums ----------

  lemma AddAssoc(a: Poly, b: Poly, c: Poly)
    ensures Add(Add(a, b), c) == Add(a, Add(b, c))
  {}

  lemma AddComm(a: Poly, b: Poly)
    ensures Add(a, b) == Add(b, a)
  {}

  lemma AddSelf(a: Poly)
    ensures Add(a, a) == {} && Add(a, {}) == a && Add({}, a) == a
  {}

  lemma TimesIn(a: Poly, n: int, e: int)
    ensures e in Times(a, n) <==> e - n in a
  {
    if e - n in a { assert (e - n) + n in Times(a, n); }
  }

  lemma TimesAdd(a: Poly, b: Poly, n: int)
    ensures Times(Add(a, b), n) == Add(Times(a, n), Times(b, n))
  {
    forall e ensures e in Times(Add(a, b), n) <==> e in Add(Times(a, n), Times(b, n)) {
      TimesIn(Add(a, b), n, e);
      TimesIn(a, n, e);
      TimesIn(b, n, e);
    }
  }

  lemma TimesTimes(a: Poly, m: int, n: int)
    ensures Times(Times(a, m), n) == Times(a, m + n)
  {
    forall e ensures e in Times(Times(a, m), n) <==> e in Times(a, m + n) {
      TimesIn(Times(a, m), n, e);
      TimesIn(a, m, e - n);
      TimesIn(a, m + n, e);
    }
  }

  lemma TimesNone(a: Poly)
    ensures Times(a, 0) == a
  {
    forall e ensures e in Times(a, 0) <==> e in a { TimesIn(a, 0, e); }
  }

  // ---------- Words as polynomials ----------

  lemma TermsHalf(w: nat, top: int)
    ensures Terms(w, top) == (if w % 2 == 1 then {top} else {}) + Terms(w / 2, top - 1)
  {}

  lemma {:induction false} TermsBelow(w: nat, top: int)
    ensures forall e | e in Terms(w, top) :: e <= top
    decreases w
  {
    if w != 0 { TermsBelow(w / 2, top - 1); }
  }

  lemma {:induction false} TermsAbove(w: nat, top: int, n: nat)
    requires w < Pow2(n)
    ensures forall e | e in Terms(w, top) :: top - n < e
    decreases n
  {
    if w != 0 { TermsAbove(w / 2, top - 1, n - 1); }
  }

  lemma {:induction false} TermsXor(a: nat, b: nat, top: int)
    ensures Terms(Xor(a, b), top) == Add(Terms(a, top), Terms(b, top))
    decreases a + b
  {
    if a != 0 || b != 0 {
      TermsXor(a / 2, b / 2, top - 1);
      XorUnfold(a, b);
      TermsHalf(a, top);
      TermsHalf(b, top);
      TermsHalf(Xor(a, b), top);
      TermsBelow(a / 2, top - 1);
      TermsBelow(b / 2, top - 1);
    }
  }

  lemma {:induction false} TermsTimes(w: nat, top: int, n: int)
    ensures Times(Terms(w, top), n) == Terms(w, top + n)
    decreases w
  {
    if w != 0 {
      TermsTimes(w / 2, top - 1, n);
      forall e ensures e in Times(Terms(w, top), n) <==> e in Terms(w, top + n) {
        TimesIn(Terms(w, top), n, e);
        TimesIn(Terms(w / 2, top - 1), n, e);
      }
    }
  }

  lemma {:induction false} TermsInjective(a: nat, b: nat, top: int)
    requires Terms(a, top) == Terms(b, top)
    ensures a == b
    decreases a + b
  {
    if a != 0 || b != 0 {
      TermsHalf(a, top);
      TermsHalf(b, top);
      TermsBelow(a / 2, top - 1);
      TermsBelow(b / 2, top - 1);
      assert a % 2 == 1 <==> top in Terms(a, top);
      assert b % 2 == 1 <==> top in Terms(b, top);
      assert Terms(a / 2, top - 1) == Terms(a, top) - {top};
      assert Terms(b / 2, top - 1) == Terms(b, top) - {top};
      TermsInjective(a / 2, b / 2, top - 1);
    }
  }

  lemma {:induction false} TermsSplit(a: nat, r: nat, top: int, n: nat)
    requires a < Pow2(n)
    ensures Terms(a + ShiftLeft(r, n), top) == Terms(a, top) + Terms(r, top - n)
    decreases n
  {
    if n > 0 {
      TermsSplit(a / 2, r, top - 1, n - 1);
      TermsHalf(a, top);
      TermsHalf(a + ShiftLeft(r, n), top);
    }
  }

  lemma TermsDigit(a: nat, r: nat, top: int)
    requires a < 0x10
    ensures Terms(a + 0x10 * r, top) == Terms(a, top) + Terms(r, top - 4)
  {
    assert Pow2(4) == 0x10 && ShiftLeft(r, 1) == 2 * r;
    assert ShiftLeft(r, 2) == 2 * ShiftLeft(r, 1);
    assert ShiftLeft(r, 4) == 4 * ShiftLeft(r, 2);
    TermsSplit(a, r, top, 4);
  }

  lemma DigitTerms()
    ensures Terms(0, 31) == {} && Terms(2, 27) == {26} && Terms(3, 23) == {23, 22} && Terms(8, 19) == {16}
  {}

  lemma MoreDigitTerms()
    ensures Terms(8, 15) == {12} && Terms(0xB, 11) == {11, 10, 8} && Terms(0xD, 7) == {7, 5, 4}
    ensures Terms(0xE, 3) == {2, 1, 0}
  {}

  /** The reflected constant of the code is the generator without its highest term. */
  lemma PolyTerms()
    ensures Terms(0xEDB8_8320, 31) == GENERATOR - {32}
  {
    hide Terms;
    DigitTerms();
    MoreDigitTerms();
    TermsDigit(0, 0xEDB_8832, 31);
    TermsDigit(2, 0xED_B883, 27);
    TermsDigit(3, 0xE_DB88, 23);
    TermsDigit(8, 0xEDB8, 19);
    TermsDigit(8, 0xEDB, 15);
    TermsDigit(0xB, 0xED, 11);
    TermsDigit(0xD, 0xE, 7);
  }

  /** A word of n ones. */
  lemma {:induction false} OnesTerms(w: nat, n: nat)
    requires w == Pow2(n) - 1
    ensures Terms(w, n - 1) == AllBelow(n)
    decreases n
  {
    if n > 0 {
      OnesTerms(w / 2, n - 1);
      TermsHalf(w, n - 1);
    }
  }

  lemma InitialTerms()
    ensures Terms(0xFFFF_FFFF, 31) == ONES
  {
    Powers();
    OnesTerms(0xFFFF_FFFF, 32);
  }

  // ---------- Multiples of the generator ----------

  lemma MultipleHalf(q: nat, e: int)
    ensures Multiple(q, e) == Add(if q % 2 == 1 then Times(GENERATOR, e) else {}, Multiple(q / 2, e + 1))
  {
    if q == 0 { AddSelf({}); }
  }

  lemma {:induction false} MultipleXor(q: nat, r: nat, e: int)
    ensures Multiple(Xor(q, r), e) == Add(Multiple(q, e), Multiple(r, e))
    decreases q + r
  {
    if q == 0 && r == 0 {
      AddSelf({});
    } else {
      MultipleXor(q / 2, r / 2, e + 1);
      XorUnfold(q, r);
      MultipleHalf(q, e);
      MultipleHalf(r, e);
      MultipleHalf(Xor(q, r), e);
      hide Times, Multiple;
    }
  }

  lemma {:induction false} MultipleTimes(q: nat, e: int, n: int)
    ensures Times(Multiple(q, e), n) == Multiple(q, e + n)
    decreases q
  {
    if q != 0 {
      MultipleTimes(q / 2, e + 1, n);
      TimesAdd(if q % 2 == 1 then Times(GENERATOR, e) else {}, Multiple(q / 2, e + 1), n);
      TimesTimes(GENERATOR, e, n);
    }
  }

  lemma NoMultiple(e: int)
    ensures Multiple(0, e) == {}
  {}

  lemma GeneratorTop(e: int)
    ensures e + 32 in Times(GENERATOR, e) && forall k | k in Times(GENERATOR, e) :: k <= e + 32
  {
    TimesIn(GENERATOR, e, e + 32);
    forall k | k in Times(GENERATOR, e) ensures k <= e + 32 { TimesIn(GENERATOR, e, k); }
  }

  /** A multiple other than zero has a term of exponent 32 or more. */
  lemma {:induction false} MultipleIsHigh(q: nat, e: int) returns (top: int)
    requires q != 0
    ensures top in Multiple(q, e) && top >= e + 32 && forall k | k in Multiple(q, e) :: k <= top
    decreases q
  {
    hide Times, Multiple;
    GeneratorTop(e);
    MultipleHalf(q, e);
    if q == 1 {
      top := e + 32;
      assert Multiple(0, e + 1) == {} by { NoMultiple(e + 1); }
      AddSelf(Times(GENERATOR, e));
    } else {
      top := MultipleIsHigh(q / 2, e + 1);
    }
  }

  lemma {:induction false} ShiftedQuotient(q: nat, n: nat)
    ensures Multiple(ShiftLeft(q, n), 0) == Multiple(q, n)
    decreases n
  {
    if n > 0 {
      ShiftedQuotient(q, n - 1);
      MultipleHalf(ShiftLeft(q, n), 0);
      AddSelf(Multiple(ShiftLeft(q, n - 1), 1));
      MultipleTimes(ShiftLeft(q, n - 1), 0, 1);
      MultipleTimes(q, n - 1, 1);
    }
  }

  // ---------- Congruence ----------

  lemma CongruentSame(a: Poly)
    ensures Congruent(a, a)
  {
    AddSelf(a);
    assert Add(a, a) == Multiple(0, 0);
  }

  lemma CongruentTrans(a: Poly, b: Poly, c: Poly)
    requires Congruent(a, b) && Congruent(b, c)
    ensures Congruent(a, c)
  {
    var q :| Add(a, b) == Multiple(q, 0);
    var r :| Add(b, c) == Multiple(r, 0);
    MultipleXor(q, r, 0);
    AddThrough(a, b, c);
    hide Multiple, Add;
    assert Add(a, c) == Multiple(Xor(q, r), 0);
  }

  lemma AddThrough(a: Poly, b: Poly, c: Poly)
    ensures Add(Add(a, b), Add(b, c)) == Add(a, c)
  {}

  lemma CongruentAdd(a: Poly, b: Poly, c: Poly)
    requires Congruent(a, b)
    ensures Congruent(Add(a, c), Add(b, c))
  {
    var q :| Add(a, b) == Multiple(q, 0);
    assert Add(Add(a, c), Add(b, c)) == Add(a, b);
  }

  lemma CongruentTimes(a: Poly, b: Poly, n: nat)
    requires Congruent(a, b)
    ensures Congruent(Times(a, n), Times(b, n))
  {
    var q :| Add(a, b) == Multiple(q, 0);
    TimesAdd(a, b, n);
    MultipleTimes(q, 0, n);
    ShiftedQuotient(q, n);
    hide Multiple, Add, Times;
    assert Add(Times(a, n), Times(b, n)) == Multiple(ShiftLeft(q, n), 0);
  }

  /** Below degree 32 there is one remainder only. */
  lemma RemainderUnique(a: Poly, b: Poly)
    requires Congruent(a, b) && a <= ONES && b <= ONES
    ensures a == b
  {
    var q :| Add(a, b) == Multiple(q, 0);
    if q != 0 {
      var top := MultipleIsHigh(q, 0);
      assert false;
    }
  }

  // ---------- The register is a remainder ----------

  /** One shift multiplies by x. */
  lemma StepIsTimes(c: nat)
    ensures Congruent(Times(Terms(c, 31), 1), Terms(ShiftStep(c), 31))
  {
    TermsTimes(c, 31, 1);
    TermsHalf(c, 32);
    PolyTerms();
    TermsBelow(c / 2, 31);
    if c % 2 == 1 {
      TermsXor(c / 2, CRC32_POLY, 31);
      MultipleHalf(1, 0);
      TimesNone(GENERATOR);
      AddSelf(GENERATOR);
      assert Add(Terms(c, 32), Terms(ShiftStep(c), 31)) == GENERATOR by { hide Xor, Terms; }
      assert Add(Terms(c, 32), Terms(ShiftStep(c), 31)) == Multiple(1, 0);
    } else {
      CongruentSame(Terms(c / 2, 31));
    }
  }

  lemma {:induction false} ShiftIsTimes(n: nat, c: nat)
    ensures Congruent(Times(Terms(c, 31), n), Terms(Shift(n, c), 31))
    decreases n
  {
    hide Congruent, Terms, Times, ShiftStep;
    if n == 0 {
      TimesNone(Terms(c, 31));
      CongruentSame(Terms(c, 31));
    } else {
      StepIsTimes(c);
      CongruentTimes(Times(Terms(c, 31), 1), Terms(ShiftStep(c), 31), n - 1);
      TimesTimes(Terms(c, 31), 1, n - 1);
      ShiftIsTimes(n - 1, ShiftStep(c));
      CongruentTrans(Times(Terms(c, 31), n), Times(Terms(ShiftStep(c), 31), n - 1), Terms(Shift(n, c), 31));
    }
  }

  lemma ByteIsTimes(c: nat, b: Byte)
    ensures Congruent(Add(Times(Terms(c, 31), 8), Terms(b, 39)), Terms(ByteStep(c, b), 31))
  {
    hide Congruent, Terms, Times, Shift, Add;
    ShiftIsTimes(8, Xor(c, b));
    TermsXor(c, b, 31);
    TimesAdd(Terms(c, 31), Terms(b, 31), 8);
    TermsTimes(b, 31, 8);
  }

  /** What the register stands for: that of the start times x^(8n), and the data times x^32. */
  function Dividend(crc: nat, data: seq<Byte>): Poly {
    Add(Times(Terms(crc, 31), 8 * |data|), Times(Message(data), 32))
  }

  lemma DividendSnoc(crc: nat, data: seq<Byte>)
    requires data != []
    ensures var n := |data| - 1;
            Dividend(crc, data) == Add(Times(Dividend(crc, data[..n]), 8), Terms(data[n], 39))
  {
    hide Terms, Times, Add;
    var n := |data| - 1;
    var start, rest, last := Terms(crc, 31), Message(data[..n]), Terms(data[n], 7);
    TimesAdd(Times(start, 8 * n), Times(rest, 32), 8);
    TimesTimes(start, 8 * n, 8);
    TimesTimes(rest, 32, 8);
    TimesAdd(Times(rest, 8), last, 32);
    TimesTimes(rest, 8, 32);
    TermsTimes(data[n], 7, 32);
    AddAssoc(Times(start, 8 * n + 8), Times(rest, 40), Terms(data[n], 39));
  }

  lemma {:induction false} RegisterIsRemainder(crc: nat, data: seq<Byte>)
    ensures Congruent(Dividend(crc, data), Terms(Update(crc, data), 31))
    decreases |data|
  {
    hide Congruent, Terms, Times, Add, ByteStep;
    if data == [] {
      hide *;
      NothingSent(crc);
    } else {
      var n := |data| - 1;
      var c := Update(crc, data[..n]);
      assert data[..n + 1] == data;
      UpdateSnoc(crc, data, n);
      DividendSnoc(crc, data);
      RegisterIsRemainder(crc, data[..n]);
      CongruentTimes(Dividend(crc, data[..n]), Terms(c, 31), 8);
      CongruentAdd(Times(Dividend(crc, data[..n]), 8), Times(Terms(c, 31), 8), Terms(data[n], 39));
      ByteIsTimes(c, data[n]);
      CongruentTrans(Dividend(crc, data), Add(Times(Terms(c, 31), 8), Terms(data[n], 39)),
                     Terms(Update(crc, data), 31));
    }
  }

  lemma NothingSent(crc: nat)
    ensures Congruent(Dividend(crc, []), Terms(Update(crc, []), 31))
  {
    TimesNone(Terms(crc, 31));
    AddSelf(Terms(crc, 31));
    CongruentSame(Terms(crc, 31));
  }

  lemma WordIsLow(w: Word32)
    ensures Terms(w, 31) <= ONES
  {
    Powers();
    TermsBelow(w, 31);
    TermsAbove(w, 31, 32);
  }

  /** The remainder theorem: w is the CRC of n bytes of data exactly if, complemented, it is the
      remainder by the generator of x^32 times the data plus x^(8n) times 32 ones. */
  lemma CrcIsRemainder(data: seq<Byte>, w: Word32)
    ensures w == Compute(data) <==>
              Congruent(Add(Times(ONES, 8 * |data|), Times(Message(data), 32)), Add(Terms(w, 31), ONES))
  {
    var c := Update(CRC32_INIT, data);
    InitialTerms();
    RegisterIsRemainder(CRC32_INIT, data);
    UpdateInRange(CRC32_INIT, data);
    TermsXor(w, CRC32_INIT, 31);
    Xor32(w, CRC32_INIT);
    XorTwice(c, CRC32_INIT);
    XorTwice(w, CRC32_INIT);
    if Congruent(Dividend(CRC32_INIT, data), Terms(Xor(w, CRC32_INIT), 31)) {
      SameRemainder(Dividend(CRC32_INIT, data), c, Xor(w, CRC32_INIT));
    }
  }

  lemma SameRemainder(a: Poly, v: Word32, w: Word32)
    requires Congruent(a, Terms(v, 31)) && Congruent(a, Terms(w, 31))
    ensures v == w
  {
    hide Terms;
    CongruentComm(a, Terms(v, 31));
    CongruentTrans(Terms(v, 31), a, Terms(w, 31));
    WordIsLow(v);
    WordIsLow(w);
    RemainderUnique(Terms(v, 31), Terms(w, 31));
    TermsInjective(v, w, 31);
  }

  lemma CongruentComm(a: Poly, b: Poly)
    requires Congruent(a, b)
    ensures Congruent(b, a)
  {
    AddComm(a, b);
  }
}
