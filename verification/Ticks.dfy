/** The kernel's tick type and how it relates to real time.  On this port (64-bit RISC-V)
    TickType_t is an unsigned 64-bit integer.  Real time is an unbounded count of ticks; the
    tick counter holds its residue, and its epoch counts the wraps so far. */
module Ticks {

  type Tick = x: int | 0 <= x < 0x1_0000_0000_0000_0000

  const MAX_DELAY: Tick := 0xFFFF_FFFF_FFFF_FFFF

  function Residue(time: int): Tick { time % 0x1_0000_0000_0000_0000 }

  function Epoch(time: int): int { time / 0x1_0000_0000_0000_0000 }

  /** Unsigned addition and subtraction of the C type. */
  function Add(a: Tick, b: Tick): Tick {
    if a + b >= 0x1_0000_0000_0000_0000 then a + b - 0x1_0000_0000_0000_0000 else a + b
  }

  function Sub(a: Tick, b: Tick): Tick {
    if a >= b then a - b else a - b + 0x1_0000_0000_0000_0000
  }

  /** The C sum of a residue and a duration is the residue of the real sum, and it comes out
      smaller than the first operand exactly when the epoch changed. */
  lemma AddIsReal(time: int, d: Tick)
    ensures Add(Residue(time), d) == Residue(time + d)
    ensures Epoch(time + d) == if Add(Residue(time), d) < Residue(time) then Epoch(time) + 1 else Epoch(time)
  {}

  /** The C difference of two residues less than a wrap apart is the real difference. */
  lemma SubIsReal(later: int, earlier: int)
    requires earlier <= later < earlier + 0x1_0000_0000_0000_0000
    ensures Sub(Residue(later), Residue(earlier)) == later - earlier
    ensures Epoch(later) == if Residue(later) < Residue(earlier) then Epoch(earlier) + 1 else Epoch(earlier)
  {}

  lemma SameEpochOrder(a: int, b: int)
    requires Epoch(a) == Epoch(b)
    ensures a <= b <==> Residue(a) <= Residue(b)
  {}
}
