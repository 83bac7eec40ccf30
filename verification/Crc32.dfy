/** The reflected CRC-32 of src/crc32.c.  Its parameters are those of section 3.2.9 of
    IEEE 802.3 and section 8 of RFC 1952: polynomial 0xEDB88320 (reflected), initial value
    and final exclusive or 0xFFFFFFFF. */
module Crc32 {
  import opened Options
  import opened Bits

  const CRC32_POLY: Word32 := 0xEDB8_8320
  const CRC32_INIT: Word32 := 0xFFFF_FFFF

  // ---------- Specification: one shift, one byte, one buffer ----------

  function ShiftStep(crc: nat): nat {
    if crc % 2 != 0 then Xor(crc / 2, CRC32_POLY) else crc / 2
  }

  function Shift(n: nat, crc: nat): nat {
    if n == 0 then crc else Shift(n - 1, ShiftStep(crc))
  }

  function ByteStep(crc: nat, b: Byte): nat { Shift(8, Xor(crc, b)) }

  function Update(crc: nat, data: seq<Byte>): nat
    decreases |data|
  {
    if data == [] then crc else Update(ByteStep(crc, data[0]), data[1..])
  }

  function Compute(data: seq<Byte>): nat { Xor(Update(CRC32_INIT, data), CRC32_INIT) }

  /** Streaming: feeding two buffers one after the other is feeding their concatenation. */
  lemma {:induction false} UpdateConcat(crc: nat, a: seq<Byte>, b: seq<Byte>)
    ensures Update(crc, a + b) == Update(Update(crc, a), b)
    decreases |a|
  {
    if a == [] {
      assert a + b == b;
    } else {
      assert (a + b)[1..] == a[1..] + b;
      UpdateConcat(ByteStep(crc, a[0]), a[1..], b);
    }
  }

  lemma UpdateSnoc(crc: nat, data: seq<Byte>, k: nat)
    requires k < |data|
    ensures Update(crc, data[..k + 1]) == ByteStep(Update(crc, data[..k]), data[k])
  {
    assert data[..k + 1] == data[..k] + [data[k]];
    UpdateConcat(crc, data[..k], [data[k]]);
  }

  lemma {:induction false} ShiftSnoc(n: nat, crc: nat)
    ensures Shift(n + 1, crc) == ShiftStep(Shift(n, crc))
  {
    if n == 0 {
      assert Shift(1, crc) == Shift(0, ShiftStep(crc));
    } else {
      ShiftSnoc(n - 1, ShiftStep(crc));
    }
  }

  // ---------- Values stay within 32 bits ----------

  lemma Xor32(a: Word32, b: Word32)
    ensures Xor(a, b) < 0x1_0000_0000
  {
    Powers();
    XorBound(a, b, 32);
  }

  lemma {:induction false} ShiftInRange(n: nat, crc: Word32)
    ensures Shift(n, crc) < 0x1_0000_0000
  {
    if n > 0 {
      Xor32(crc / 2, CRC32_POLY);
      ShiftInRange(n - 1, ShiftStep(crc));
    }
  }

  lemma {:induction false} UpdateInRange(crc: Word32, data: seq<Byte>)
    ensures Update(crc, data) < 0x1_0000_0000
    decreases |data|
  {
    if data != [] {
      Xor32(crc, data[0]);
      ShiftInRange(8, Xor(crc, data[0]));
      UpdateInRange(ByteStep(crc, data[0]), data[1..]);
    }
  }

  lemma ComputeInRange(data: seq<Byte>)
    ensures Compute(data) < 0x1_0000_0000
  {
    UpdateInRange(CRC32_INIT, data);
    Xor32(Update(CRC32_INIT, data), CRC32_INIT);
  }

  // ---------- The C functions ----------

  /** crc32_update.  `data` is None for the NULL pointer.  Every assignment to `crc` fits the
      C type uint32_t, so nothing is truncated. */
  method Crc32Update(crc0: Word32, data: Option<seq<Byte>>) returns (crc: Word32)
    ensures crc == Update(crc0, data.GetOr([]))
  {
    crc := crc0;
    if data.None? {
      return;
    }
    var bytes := data.value;
    for index := 0 to |bytes|
      invariant crc == Update(crc0, bytes[..index])
    {
      ghost var before := crc;
      Xor32(crc, bytes[index]);
      crc := Xor(crc, bytes[index]);
      for bit := 0 to 8
        invariant crc == Shift(bit, Xor(before, bytes[index]))
      {
        ShiftSnoc(bit, Xor(before, bytes[index]));
        if crc % 2 != 0 {
          Xor32(crc / 2, CRC32_POLY);
          crc := Xor(crc / 2, CRC32_POLY);
        } else {
          crc := crc / 2;
        }
      }
      UpdateSnoc(crc0, bytes, index);
    }
    assert bytes[..|bytes|] == bytes;
  }

  /** crc32_compute */
  method Crc32Compute(data: Option<seq<Byte>>) returns (crc: Word32)
    ensures crc == Compute(data.GetOr([]))
  {
    crc := Crc32Update(CRC32_INIT, data);
    Xor32(crc, CRC32_INIT);
    crc := Xor(crc, CRC32_INIT);
  }

  // ---------- The shift step is a linear bijection on 32-bit words ----------

  function UnshiftStep(crc: Word32): nat {
    if crc >= 0x8000_0000 then 2 * Xor(crc, CRC32_POLY) + 1 else 2 * crc
  }

  lemma UnshiftShift(crc: Word32)
    ensures ShiftStep(crc) < 0x1_0000_0000 && UnshiftStep(ShiftStep(crc)) == crc
  {
    Powers();
    if crc % 2 != 0 {
      XorTopBit(crc / 2, CRC32_POLY, 31);
      XorTwice(crc / 2, CRC32_POLY);
    }
  }

  lemma ShiftUnshift(crc: Word32)
    ensures UnshiftStep(crc) < 0x1_0000_0000 && ShiftStep(UnshiftStep(crc)) == crc
  {
    Powers();
    if crc >= 0x8000_0000 {
      XorTwice(crc, CRC32_POLY);
      Xor32(crc, CRC32_POLY);
      if Xor(crc, CRC32_POLY) >= 0x8000_0000 {
        TopBitsCancel(crc, CRC32_POLY, 31);
      }
    }
  }

  lemma {:induction false} TopBitsCancel(a: nat, b: nat, n: nat)
    requires Pow2(n) <= a < Pow2(n + 1) && Pow2(n) <= b < Pow2(n + 1)
    ensures Xor(a, b) < Pow2(n)
  {
    XorUnfold(a, b);
    if n == 0 {
      XorSelf(1);
    } else {
      TopBitsCancel(a / 2, b / 2, n - 1);
    }
  }

  lemma {:induction false} ShiftInjective(n: nat, a: Word32, b: Word32)
    requires Shift(n, a) == Shift(n, b)
    ensures a == b
  {
    if n > 0 {
      UnshiftShift(a);
      UnshiftShift(b);
      ShiftInjective(n - 1, ShiftStep(a), ShiftStep(b));
    }
  }

  lemma ShiftStepLinear(a: nat, b: nat)
    ensures ShiftStep(Xor(a, b)) == Xor(ShiftStep(a), ShiftStep(b))
  {
    var p := CRC32_POLY;
    XorUnfold(a, b);
    if a % 2 != 0 {
      if b % 2 != 0 {
        XorShuffle(a / 2, b / 2, p, p);
        XorSelf(p);
        XorZero(Xor(a / 2, b / 2));
      } else {
        XorAssoc(a / 2, p, b / 2);
        XorComm(p, b / 2);
        XorAssoc(a / 2, b / 2, p);
      }
    } else if b % 2 != 0 {
      XorAssoc(a / 2, b / 2, p);
    }
  }

  lemma {:induction false} ShiftLinear(n: nat, a: nat, b: nat)
    ensures Shift(n, Xor(a, b)) == Xor(Shift(n, a), Shift(n, b))
  {
    if n > 0 {
      ShiftStepLinear(a, b);
      ShiftLinear(n - 1, ShiftStep(a), ShiftStep(b));
    }
  }

  lemma {:induction false} ShiftCompose(m: nat, n: nat, crc: nat)
    ensures Shift(m + n, crc) == Shift(n, Shift(m, crc))
  {
    if m > 0 { ShiftCompose(m - 1, n, ShiftStep(crc)); }
  }

  /** For a fixed input, the register after the input determines the register before it. */
  lemma {:induction false} UpdateInjective(a: Word32, b: Word32, data: seq<Byte>)
    requires Update(a, data) == Update(b, data)
    ensures a == b
    decreases |data|
  {
    if data != [] {
      Xor32(a, data[0]);
      Xor32(b, data[0]);
      ShiftInRange(8, Xor(a, data[0]));
      ShiftInRange(8, Xor(b, data[0]));
      UpdateInjective(ByteStep(a, data[0]), ByteStep(b, data[0]), data[1..]);
      ShiftInjective(8, Xor(a, data[0]), Xor(b, data[0]));
      XorCancel(a, b, data[0]);
    }
  }

  // ---------- Up to four bytes act as one 32-bit word ----------

  lemma EvenStep(y: nat)
    ensures ShiftStep(2 * y) == y
  {}

  /** `n` shifts bring everything above the lowest `n` bits down, unchanged. */
  lemma {:induction false} ShiftDown(n: nat, x: nat)
    ensures Shift(n, ShiftLeft(x, n)) == x
  {
    if n > 0 {
      EvenStep(ShiftLeft(x, n - 1));
      hide ShiftStep;
      ShiftDown(n - 1, x);
    }
  }

  /** Feeding bytes is one wide exclusive or followed by eight shifts a byte. */
  lemma {:induction false} UpdateAsWord(crc: nat, w: seq<Byte>)
    ensures Update(crc, w) == Shift(8 * |w|, Xor(crc, LittleEndian(w)))
    decreases |w|
  {
    hide Xor;
    if w == [] {
      XorZero(crc);
    } else {
      var x, r := Xor(crc, w[0]), LittleEndian(w[1..]);
      UpdateAsWord(Shift(8, x), w[1..]);
      Powers();
      ByteShift(r);
      ShiftDown(8, r);
      ShiftLinear(8, x, 0x100 * r);
      ShiftCompose(8, 8 * |w[1..]|, Xor(x, 0x100 * r));
      XorDisjoint(w[0], r, 8);
      XorAssoc(crc, w[0], 0x100 * r);
    }
  }

  /** Two streams of equal length that differ, and only inside one window of four
      consecutive bytes. */
  ghost predicate DifferInWindow(a: seq<Byte>, b: seq<Byte>, start: nat) {
    && |a| == |b| && a != b
    && forall k | 0 <= k < |a| && !(start <= k < start + 4) :: a[k] == b[k]
  }

  lemma {:induction false} WindowDetected(crc: Word32, v: seq<Byte>, w: seq<Byte>)
    requires |v| == |w| <= 4 && Update(crc, v) == Update(crc, w)
    ensures v == w
  {
    UpdateAsWord(crc, v);
    UpdateAsWord(crc, w);
    WordWidth(v);
    WordWidth(w);
    Xor32(crc, LittleEndian(v));
    Xor32(crc, LittleEndian(w));
    ShiftInjective(8 * |v|, Xor(crc, LittleEndian(v)), Xor(crc, LittleEndian(w)));
    XorComm(crc, LittleEndian(v));
    XorComm(crc, LittleEndian(w));
    XorCancel(LittleEndian(v), LittleEndian(w), crc);
    LittleEndianInjective(v, w);
  }

  /** A corruption confined to four consecutive bytes always changes the CRC. */
  lemma BurstDetected(a: seq<Byte>, b: seq<Byte>, start: nat)
    requires DifferInWindow(a, b, start)
    ensures Compute(a) != Compute(b)
  {
    var lo := if start < |a| then start else |a|;
    var hi := if start + 4 < |a| then start + 4 else |a|;
    var pre, post := a[..lo], a[hi..];
    assert a == pre + (a[lo..hi] + post);
    assert b == pre + (b[lo..hi] + post);
    if Compute(a) == Compute(b) {
      XorCancel(Update(CRC32_INIT, a), Update(CRC32_INIT, b), CRC32_INIT);
      var p := Update(CRC32_INIT, pre);
      UpdateInRange(CRC32_INIT, pre);
      UpdateInRange(p, a[lo..hi]);
      UpdateInRange(p, b[lo..hi]);
      UpdateConcat(CRC32_INIT, pre, a[lo..hi] + post);
      UpdateConcat(CRC32_INIT, pre, b[lo..hi] + post);
      UpdateConcat(p, a[lo..hi], post);
      UpdateConcat(p, b[lo..hi], post);
      UpdateInjective(Update(p, a[lo..hi]), Update(p, b[lo..hi]), post);
      WindowDetected(p, a[lo..hi], b[lo..hi]);
    }
  }
}
