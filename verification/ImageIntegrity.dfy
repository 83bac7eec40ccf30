/** The boot-time image check of src/image_integrity.c and the build-time patcher of
    scripts/patch_image_crc.py. */
module ImageIntegrity {
  import opened Options
  import opened Bits
  import opened Crc32

  /** The bytes the CRC covers: the region without its four-byte slot. */
  function Covered(memory: seq<Byte>, start: nat, slot: nat, end: nat): seq<Byte>
    requires start <= slot && slot + 4 <= end <= |memory|
  {
    memory[start..slot] + memory[slot + 4..end]
  }

  /** The 32-bit little-endian word stored at `at`. */
  function ReadWord(memory: seq<Byte>, at: nat): Word32
    requires at + 4 <= |memory|
  {
    WordWidth(memory[at..at + 4]);
    LittleEndian(memory[at..at + 4])
  }

  lemma ByteOrder(memory: seq<Byte>, at: nat)
    requires at + 4 <= |memory|
    ensures ReadWord(memory, at)
            == memory[at] as int + 0x100 * memory[at + 1] as int + 0x1_0000 * memory[at + 2] as int
               + 0x100_0000 * memory[at + 3] as int
  {
    FourBytes(memory[at..at + 4]);
  }

  /** Where in the covered bytes that of address `a` is. */
  function CoveredAt(start: nat, slot: nat, a: nat): int { if a < slot then a - start else a - 4 - start }

  /** Every byte of the region outside the slot is covered, in order, and no other. */
  lemma CoveredBytes(memory: seq<Byte>, start: nat, slot: nat, end: nat)
    requires start <= slot && slot + 4 <= end <= |memory|
    ensures |Covered(memory, start, slot, end)| == end - start - 4
    ensures forall a | start <= a < end && !(slot <= a < slot + 4) ::
              && 0 <= CoveredAt(start, slot, a) < end - start - 4
              && Covered(memory, start, slot, end)[CoveredAt(start, slot, a)] == memory[a]
  {}

  /** What image_integrity_crc_region_ex answers; pointers are offsets, None is NULL. */
  function RegionCrc(memory: seq<Byte>, start: Option<nat>, slot: Option<nat>, end: Option<nat>): nat
    requires end.Some? ==> end.value <= |memory|
  {
    if start.None? || slot.None? || end.None? || slot.value < start.value || end.value < slot.value
       || slot.value + 4 > end.value
    then 0
    else Compute(Covered(memory, start.value, slot.value, end.value))
  }

  /** image_integrity_crc_region_ex */
  method CrcRegion(memory: seq<Byte>, start: Option<nat>, slot: Option<nat>, end: Option<nat>)
    returns (crc: Word32)
    requires end.Some? ==> end.value <= |memory|
    ensures crc == RegionCrc(memory, start, slot, end)
  {
    crc := CRC32_INIT;
    if start.None? || slot.None? || end.None? || slot.value < start.value || end.value < slot.value
       || slot.value + 4 > end.value
    {
      return 0;
    }
    ghost var head, tail := memory[start.value..slot.value], memory[slot.value + 4..end.value];
    crc := Crc32Update(crc, Some(memory[start.value..slot.value]));
    crc := Crc32Update(crc, Some(memory[slot.value + 4..end.value]));
    UpdateConcat(CRC32_INIT, head, tail);
    Xor32(crc, CRC32_INIT);
    crc := Xor(crc, CRC32_INIT);
  }

  /** The verdict of a boot: the slot is not zero and holds the CRC of the rest. */
  predicate BootOk(memory: seq<Byte>, start: nat, slot: nat, end: nat)
    requires start <= slot && slot + 4 <= end <= |memory|
  {
    ReadWord(memory, slot) != 0 && ReadWord(memory, slot) == Compute(Covered(memory, start, slot, end))
  }

  /** The static variables of image_integrity.c and the image they are about. */
  class Checker {
    const start: nat
    const slot: nat
    const end: nat
    var ok: bool
    var computed: Word32
    var expected: Word32

    constructor (start: nat, slot: nat, end: nat)
      requires start <= slot && slot + 4 <= end
      ensures this.start == start && this.slot == slot && this.end == end && ok
    {
      this.start, this.slot, this.end := start, slot, end;
      ok, computed, expected := true, 0, 0;
    }

    /** image_integrity_verify.  Its result is also what image_integrity_boot_ok answers later. */
    method Verify(memory: seq<Byte>) returns (r: bool)
      requires start <= slot && slot + 4 <= end <= |memory|
      modifies this
      ensures r == ok == BootOk(memory, start, slot, end)
      ensures ok <==> expected != 0 && computed == expected
      ensures expected == ReadWord(memory, slot)
      ensures computed == Compute(Covered(memory, start, slot, end))
    {
      expected := ReadWord(memory, slot);
      computed := CrcRegion(memory, Some(start), Some(slot), Some(end));
      if expected == 0 {
        ok := false;
        return false;
      }
      ok := computed == expected;
      return ok;
    }
  }

  // ---------- The patcher ----------

  datatype PatchError = SlotOutsideRegion | RegionOutsideImage | SegmentTooLong | NoSpaceToPack
  datatype PatchResult = Patched(image: seq<Byte>, digest: nat) | Failed(error: PatchError)

  /** crc32_ieee: the same loops on unbounded integers. */
  method Crc32Ieee(data: seq<Byte>) returns (crc: nat)
    ensures crc == Compute(data) < 0x1_0000_0000
  {
    crc := 0xFFFF_FFFF;
    for i := 0 to |data|
      invariant crc == Update(CRC32_INIT, data[..i])
    {
      ghost var before := crc;
      crc := Xor(crc, data[i]);
      for bit := 0 to 8
        invariant crc == Shift(bit, Xor(before, data[i]))
      {
        ShiftSnoc(bit, Xor(before, data[i]));
        if crc % 2 == 1 {
          crc := Xor(crc / 2, 0xEDB8_8320);
        } else {
          crc := crc / 2;
        }
      }
      UpdateSnoc(CRC32_INIT, data, i);
    }
    assert data[..|data|] == data;
    ComputeInRange(data);
    crc := Xor(crc, 0xFFFF_FFFF);
  }

  /** struct.pack("<I", digest) */
  function PackWord(digest: Word32): (bytes: seq<Byte>)
    ensures |bytes| == 4 && LittleEndian(bytes) == digest
  {
    Widths();
    LittleEndianRoundTrip(digest, 4);
    ToLittleEndian(digest, 4)
  }

  /** A Python slice bound: a negative one counts from the end, and any is kept within the length. */
  function Bound(i: int, length: nat): (b: nat)
    ensures b <= length
  {
    if i >= length then length else if i >= 0 then i else if i + length >= 0 then i + length else 0
  }

  /** `s[from:to]` in Python */
  function Slice(s: seq<Byte>, from: int, to: int): seq<Byte> {
    var i, j := Bound(from, |s|), Bound(to, |s|);
    if i < j then s[i..j] else []
  }

  /** Where `struct.pack_into` packs a word, if there is space. */
  predicate HasSpace(at: int, length: nat) { 0 <= at <= length - 4 || (at + length >= 0 && at <= -4) }

  /** The arithmetic of patch_kernel: `slot` and `end` are the symbols' offsets in the binary, which
      are negative for a symbol below the load address. */
  method PatchKernel(binary: seq<Byte>, slot: int, end: int, segmentSize: nat) returns (r: PatchResult)
    ensures r.Patched? <==> slot + 4 <= end <= |binary| && segmentSize <= |binary| && HasSpace(slot, |binary|)
    ensures slot + 4 > end ==> r == Failed(SlotOutsideRegion)
    ensures slot + 4 <= end && end > |binary| ==> r == Failed(RegionOutsideImage)
    ensures slot + 4 <= end <= |binary| && segmentSize > |binary| ==> r == Failed(SegmentTooLong)
    ensures r.Patched? ==>
              && |r.image| == |binary|
              && var at := if slot < 0 then |binary| + slot else slot;
              && ReadWord(r.image, at) == r.digest
              && r.digest == r.image[at] as int + 0x100 * r.image[at + 1] as int
                             + 0x1_0000 * r.image[at + 2] as int + 0x100_0000 * r.image[at + 3] as int
              && r.image[..at] == binary[..at] && r.image[at + 4..] == binary[at + 4..]
              && (slot >= 0 ==> r.digest == Compute(Covered(binary, 0, slot, end)))
  {
    var image := binary;
    if slot + 4 > end {
      return Failed(SlotOutsideRegion);
    }
    if end > |image| {
      return Failed(RegionOutsideImage);
    }
    if segmentSize > |image| {
      return Failed(SegmentTooLong);
    }
    var payload := Slice(image, 0, end);
    var crcInput := Slice(payload, 0, slot) + Slice(payload, slot + 4, end);
    assert slot >= 0 ==> crcInput == Covered(binary, 0, slot, end);
    var digest := Crc32Ieee(crcInput);
    var word := PackWord(digest);
    if !HasSpace(slot, |image|) {
      return Failed(NoSpaceToPack);
    }
    var at := if slot < 0 then |image| + slot else slot;
    image := image[..at] + word + image[at + 4..];
    assert image[at..at + 4] == word;
    ByteOrder(image, at);
    return Patched(image, digest);
  }

  // ---------- The two agree ----------

  /** Writing anything into the slot leaves the region CRC alone. */
  lemma SlotNotCovered(before: seq<Byte>, after: seq<Byte>, start: nat, slot: nat, end: nat)
    requires start <= slot && slot + 4 <= end <= |before| == |after|
    requires before[..slot] == after[..slot] && before[slot + 4..] == after[slot + 4..]
    ensures Covered(before, start, slot, end) == Covered(after, start, slot, end)
  {}

  /** An image the patcher produced boots exactly when its digest is not zero. */
  method PatchThenBoot(binary: seq<Byte>, slot: nat, end: nat, segmentSize: nat) returns (r: PatchResult, ok: bool)
    ensures r.Patched? ==> slot + 4 <= end <= |r.image| && BootOk(r.image, 0, slot, end) == ok
    ensures r.Patched? ==> ok == (r.digest != 0)
  {
    ok := false;
    r := PatchKernel(binary, slot, end, segmentSize);
    if r.Patched? {
      SlotNotCovered(binary, r.image, 0, slot, end);
      var checker := new Checker(0, slot, end);
      ok := checker.Verify(r.image);
    }
  }

  /** Once an image boots, no corruption of four consecutive covered bytes that spares the slot
      goes unnoticed. */
  lemma CorruptionFailsBoot(good: seq<Byte>, bad: seq<Byte>, slot: nat, end: nat, at: nat)
    requires slot + 4 <= end <= |good| == |bad|
    requires BootOk(good, 0, slot, end)
    requires good[slot..slot + 4] == bad[slot..slot + 4]
    requires DifferInWindow(Covered(good, 0, slot, end), Covered(bad, 0, slot, end), at)
    ensures !BootOk(bad, 0, slot, end)
  {
    BurstDetected(Covered(good, 0, slot, end), Covered(bad, 0, slot, end), at);
  }

  /** The same by address: an image that boots no longer does if bytes of its region other than the
      slot have changed, all at four consecutive addresses. */
  lemma ChangedImageFailsBoot(good: seq<Byte>, bad: seq<Byte>, slot: nat, end: nat, at: nat, changed: nat)
    requires slot + 4 <= end <= |good| == |bad|
    requires BootOk(good, 0, slot, end)
    requires good[slot..slot + 4] == bad[slot..slot + 4]
    requires forall a | 0 <= a < end && !(at <= a < at + 4) :: good[a] == bad[a]
    requires changed < end && good[changed] != bad[changed]
    ensures !BootOk(bad, 0, slot, end)
  {
    var start := if at < slot then at else if at < slot + 4 then slot else at - 4;
    var was, now := Covered(good, 0, slot, end), Covered(bad, 0, slot, end);
    CoveredBytes(good, 0, slot, end);
    CoveredBytes(bad, 0, slot, end);
    forall k | 0 <= k < |was| && !(start <= k < start + 4) ensures was[k] == now[k] {
      var a := if k < slot then k else k + 4;
      assert CoveredAt(0, slot, a) == k && good[a] == bad[a];
    }
    SlotByte(good, bad, slot, changed);
    assert was[CoveredAt(0, slot, changed)] != now[CoveredAt(0, slot, changed)];
    CorruptionFailsBoot(good, bad, slot, end, start);
  }

  lemma SlotByte(good: seq<Byte>, bad: seq<Byte>, slot: nat, a: nat)
    requires slot + 4 <= |good| == |bad| && good[slot..slot + 4] == bad[slot..slot + 4]
    ensures slot <= a < slot + 4 ==> good[a] == bad[a]
  {
    if slot <= a < slot + 4 {
      assert good[slot..slot + 4][a - slot] == bad[slot..slot + 4][a - slot];
    }
  }
}
