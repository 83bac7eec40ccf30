/** Bitwise exclusive or of unsigned values, defined from the lowest bit upwards.  The C code
    uses it on 32-bit words and the Python script on unbounded integers; `x >> 1` is `x / 2`
    and `x & 1` is `x % 2` for both. */
module Bits {

  type Byte = x: int | 0 <= x < 0x100
  type Word32 = x: int | 0 <= x < 0x1_0000_0000

  function Xor(a: nat, b: nat): nat {
    if a == 0 && b == 0 then 0
    else (if a % 2 == b % 2 then 0 else 1) + 2 * Xor(a / 2, b / 2)
  }

  lemma XorUnfold(a: nat, b: nat)
    ensures Xor(a, b) % 2 == if a % 2 == b % 2 then 0 else 1
    ensures Xor(a, b) / 2 == Xor(a / 2, b / 2)
  {}

  lemma {:induction false} XorComm(a: nat, b: nat)
    ensures Xor(a, b) == Xor(b, a)
  {
    if a != 0 || b != 0 { XorComm(a / 2, b / 2); }
  }

  lemma {:induction false} XorZero(a: nat)
    ensures Xor(a, 0) == a
  {
    if a != 0 { XorZero(a / 2); }
  }

  lemma {:induction false} XorSelf(a: nat)
    ensures Xor(a, a) == 0
  {
    if a != 0 { XorSelf(a / 2); }
  }

  lemma {:induction false} XorAssoc(a: nat, b: nat, c: nat)
    ensures Xor(Xor(a, b), c) == Xor(a, Xor(b, c))
    decreases a + b + c
  {
    if a != 0 || b != 0 || c != 0 {
      XorAssoc(a / 2, b / 2, c / 2);
      XorUnfold(a, b);
      XorUnfold(b, c);
      XorUnfold(Xor(a, b), c);
      XorUnfold(a, Xor(b, c));
    }
  }

  lemma XorTwice(a: nat, b: nat)
    ensures Xor(Xor(a, b), b) == a
  {}

  lemma XorCancel(a: nat, b: nat, c: nat)
    requires Xor(a, c) == Xor(b, c)
    ensures a == b
  {}

  // (a ^ c) ^ (b ^ d) == (a ^ b) ^ (c ^ d)
  lemma XorShuffle(a: nat, b: nat, c: nat, d: nat)
    ensures Xor(Xor(a, c), Xor(b, d)) == Xor(Xor(a, b), Xor(c, d))
  {
    XorAssoc(a, c, Xor(b, d));
    XorAssoc(c, b, d);
    XorComm(c, b);
    XorAssoc(b, c, d);
    XorAssoc(a, b, Xor(c, d));
  }

  function Pow2(n: nat): nat {
    if n == 0 then 1 else 2 * Pow2(n - 1)
  }

  lemma Powers()
    ensures Pow2(8) == 0x100 && Pow2(31) == 0x8000_0000 && Pow2(32) == 0x1_0000_0000
  {
    assert Pow2(8) == 0x100;
    assert Pow2(16) == 0x100 * Pow2(8);
    assert Pow2(24) == 0x100 * Pow2(16);
    assert Pow2(31) == 0x80 * Pow2(24);
  }

  /** Exclusive or stays within the width of its operands. */
  lemma {:induction false} XorBound(a: nat, b: nat, n: nat)
    requires a < Pow2(n) && b < Pow2(n)
    ensures Xor(a, b) < Pow2(n)
  {
    if n > 0 && (a != 0 || b != 0) { XorBound(a / 2, b / 2, n - 1); }
  }

  /** A bit above the width of `a` comes from `b` alone. */
  lemma {:induction false} XorTopBit(a: nat, b: nat, n: nat)
    requires a < Pow2(n) <= b < Pow2(n + 1)
    ensures Pow2(n) <= Xor(a, b) < Pow2(n + 1)
  {
    XorUnfold(a, b);
    if n == 0 {
      XorComm(a, b);
      XorZero(b);
    } else {
      XorTopBit(a / 2, b / 2, n - 1);
    }
  }

  /** `r << n` */
  function ShiftLeft(r: nat, n: nat): nat {
    if n == 0 then r else 2 * ShiftLeft(r, n - 1)
  }

  lemma ByteShift(r: nat)
    ensures ShiftLeft(r, 8) == 0x100 * r
  {
    assert ShiftLeft(r, 1) == 2 * r;
    assert ShiftLeft(r, 2) == 2 * ShiftLeft(r, 1);
    assert ShiftLeft(r, 4) == 4 * ShiftLeft(r, 2);
    assert ShiftLeft(r, 6) == 4 * ShiftLeft(r, 4);
  }

  /** Operands with no bit in common add. */
  lemma {:induction false} XorDisjoint(a: nat, r: nat, n: nat)
    requires a < Pow2(n)
    ensures Xor(a, ShiftLeft(r, n)) == a + ShiftLeft(r, n)
  {
    XorUnfold(a, ShiftLeft(r, n));
    if n == 0 {
      XorComm(a, r);
      XorZero(r);
    } else {
      XorDisjoint(a / 2, r, n - 1);
    }
  }

  // ---------- Little-endian byte strings ----------

  /** The little-endian value of `w`. */
  function LittleEndian(w: seq<Byte>): nat {
    if w == [] then 0 else w[0] + 0x100 * LittleEndian(w[1..])
  }

  /** The byte at the lowest address is the least significant. */
  lemma FourBytes(w: seq<Byte>)
    requires |w| == 4
    ensures LittleEndian(w) == w[0] as int + 0x100 * w[1] as int + 0x1_0000 * w[2] as int + 0x100_0000 * w[3] as int
  {
    var r := w[1..];
    assert LittleEndian(w) == w[0] + 0x100 * LittleEndian(r);
    assert LittleEndian(r) == r[0] + 0x100 * LittleEndian(r[1..]);
    assert LittleEndian(r[1..]) == w[2] + 0x100 * LittleEndian(r[1..][1..]);
    assert r[1..][1..] == [w[3]];
  }

  lemma {:induction false} LittleEndianInjective(v: seq<Byte>, w: seq<Byte>)
    requires |v| == |w| && LittleEndian(v) == LittleEndian(w)
    ensures v == w
  {
    if v != [] {
      LittleEndianInjective(v[1..], w[1..]);
      assert v == [v[0]] + v[1..] && w == [w[0]] + w[1..];
    }
  }

  /** The `k` lowest bytes of `n`, least significant first. */
  function ToLittleEndian(n: nat, k: nat): (bytes: seq<Byte>)
    ensures |bytes| == k
  {
    if k == 0 then [] else [n % 0x100] + ToLittleEndian(n / 0x100, k - 1)
  }

  function Pow256(k: nat): nat {
    if k == 0 then 1 else 0x100 * Pow256(k - 1)
  }

  /** A number that fits in `k` bytes survives being stored and read back. */
  lemma {:induction false} LittleEndianRoundTrip(n: nat, k: nat)
    requires n < Pow256(k)
    ensures LittleEndian(ToLittleEndian(n, k)) == n
  {
    if k > 0 {
      LittleEndianRoundTrip(n / 0x100, k - 1);
      assert ToLittleEndian(n, k)[1..] == ToLittleEndian(n / 0x100, k - 1);
    }
  }

  lemma {:induction false} LittleEndianWidth(w: seq<Byte>)
    ensures LittleEndian(w) < Pow256(|w|)
  {
    if w != [] { LittleEndianWidth(w[1..]); }
  }

  lemma Widths()
    ensures Pow256(1) == 0x100 && Pow256(2) == 0x1_0000 && Pow256(3) == 0x100_0000
    ensures Pow256(4) == 0x1_0000_0000 && Pow256(8) == 0x1_0000_0000_0000_0000
  {}

  lemma WordWidth(w: seq<Byte>)
    requires |w| <= 4
    ensures LittleEndian(w) < 0x1_0000_0000
  {
    Widths();
    LittleEndianWidth(w);
  }
}
