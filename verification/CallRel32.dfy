/**
The five bytes that installProbe writes over the start of a system-call wrapper: a CALL with a
32-bit displacement, computed in 64-bit arithmetic and truncated.
 */
module CallRel32 {
  import opened Words

  /** The five bytes: opcode 0xE8 and the low half of the displacement, lowest byte first */
  function Encode(addr: Word, target: Word): (bytes: seq<Byte>)
    ensures |bytes| == 5 && bytes[0] == 0xE8
  {
    var offset := (target - addr - 5) % UINT;
    [0xE8, offset % 256, offset / 0x100 % 256, offset / 0x1_0000 % 256, offset / 0x100_0000 % 256]
  }

  /** Where the processor goes when it executes such bytes at `addr` */
  function Target(addr: Word, bytes: seq<Byte>): Word
    requires |bytes| == 5
  {
    var b1: int, b2: int, b3: int, b4: int := bytes[1], bytes[2], bytes[3], bytes[4];
    ULong(addr + 5 + Int32(b1 + 0x100 * b2 + 0x1_0000 * b3 + 0x100_0000 * b4))
  }

  /** The displacement fits in the 32 bits that the instruction has for it. */
  predicate InRange(addr: Word, target: Word) {
    -UINT / 2 <= Long(ULong(target - addr - 5)) < UINT / 2
  }

  lemma BytesRoundTrip(offset: int)
    requires 0 <= offset < UINT
    ensures offset == offset % 256 + 0x100 * (offset / 0x100 % 256)
                    + 0x1_0000 * (offset / 0x1_0000 % 256) + 0x100_0000 * (offset / 0x100_0000 % 256)
  {
    assert offset / 0x100 == 256 * (offset / 0x1_0000) + offset / 0x100 % 256;
    assert offset / 0x1_0000 == 256 * (offset / 0x100_0000) + offset / 0x1_0000 % 256;
    assert offset / 0x100_0000 < 256;
  }

  /** The call reaches the trampoline if and only if the displacement fits. */
  lemma CallReachesTarget(addr: Word, target: Word)
    ensures Target(addr, Encode(addr, target)) == target <==> InRange(addr, target)
  {
    hide ULong, Int32, InRange;
    var d := target - addr - 5;
    BytesRoundTrip(d % UINT);
    assert Target(addr, Encode(addr, target)) == ULong(addr + 5 + Int32(d % UINT));
    SameInt32(d, d % UINT, d / UINT);
    TruncationIsExact(addr, target);
  }

  /** Keeping the low half of a displacement loses nothing exactly when it is in range. */
  lemma TruncationIsExact(addr: Word, target: Word)
    ensures ULong(addr + 5 + Int32(target - addr - 5)) == target <==> InRange(addr, target)
  {
    hide ULong, Long, Int32;
    var d := target - addr - 5;
    assert ULong(addr + 5 + d) == target;
    ULongCancels(addr + 5, Int32(d), d);
    ShortIsLong(d);
  }

  lemma ULongCancels(a: int, x: int, y: int)
    ensures ULong(a + x) == ULong(a + y) <==> ULong(x) == ULong(y)
  {
    if ULong(x) == ULong(y) {
      SameULong(a + x, a + y, x / ULONG - y / ULONG);
    }
    if ULong(a + x) == ULong(a + y) {
      SameULong(x, y, (a + x) / ULONG - (a + y) / ULONG);
    }
  }

  lemma ShortIsLong(d: int)
    ensures ULong(Int32(d)) == ULong(d) <==> -UINT / 2 <= Long(ULong(d)) < UINT / 2
  {
    var short := Int32(d);
    assert Long(ULong(short)) == short;
    var long := Long(ULong(d));
    var k := if ULong(d) < ULONG / 2 then d / ULONG else d / ULONG + 1;
    assert d == long + ULONG * k;
    SameInt32(d, long, UINT * k);
    if -UINT / 2 <= long < UINT / 2 {
      assert Int32(long) == long;
      SameULong(d, long, k);
    }
  }
}
