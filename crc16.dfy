/**
 * The 16-bit checksum both photo-tunnel stations compute (calculateCRC16):
 * CRC-16/MODBUS, i.e. the reflected polynomial 0xA001, initial register
 * 0xFFFF, eight shift steps per byte, no final XOR (section 6.2.2 and
 * Appendix B "CRC Generation" of the MODBUS over Serial Line Specification
 * V1.02).
 *
 * The register is a `bv16`; the bytes fed into it and the value stored in a
 * header are integers, so the two conversions (a byte widened into the
 * register, the register read back as a uint16_t) are written out bit by bit.
 */
module Crc16Spec {
  import opened Bytes

  const CRC_INIT: bv16 := 0xFFFF
  const CRC_POLY: bv16 := 0xA001

  /** One shift of the register: shift right, XOR the polynomial if bit 0 was set. */
  function ShiftStep(crc: bv16): bv16 {
    if crc & 1 == 1 then (crc >> 1) ^ CRC_POLY else crc >> 1
  }

  /** `n` shift steps. */
  function Shifts(crc: bv16, n: nat): bv16 {
    if n == 0 then crc else ShiftStep(Shifts(crc, n - 1))
  }

  /** Bit 0 of `x`, as a register value. */
  function LowBit(x: int): bv16 {
    if x % 2 == 1 then 1 else 0
  }

  /** The low `n` bits of `b` as a register value. */
  function Widen(b: nat, n: nat): bv16 {
    if n == 0 then 0 else (Widen(b / 2, n - 1) << 1) | LowBit(b)
  }

  /** A byte widened to the 16-bit register (uint8_t promoted to uint16_t). */
  function ByteBits(b: u8): bv16 {
    Widen(b, 8)
  }

  /** XOR a widened byte into the register, then shift eight times. */
  function Feed(crc: bv16, w: bv16): bv16 {
    Shifts(crc ^ w, 8)
  }

  /** Feeding one byte (one iteration of the outer loop of calculateCRC16). */
  function UpdateByte(crc: bv16, b: u8): bv16 {
    Feed(crc, ByteBits(b))
  }

  /** The register after feeding `data`, byte by byte from the front, into `crc`. */
  function CrcFrom(crc: bv16, data: seq<u8>): bv16
    decreases |data|
  {
    if data == [] then crc else CrcFrom(UpdateByte(crc, data[0]), data[1..])
  }

  /** Bit 0 of a register value, as a number. */
  function BitOf(w: bv16): nat {
    if w & 1 == 1 then 1 else 0
  }

  /** The number the low `n` bits of `w` stand for. */
  function Narrow(w: bv16, n: nat): nat {
    if n == 0 then 0 else BitOf(w) + 2 * Narrow(w >> 1, n - 1)
  }

  function Pow2(k: nat): nat {
    if k == 0 then 1 else 2 * Pow2(k - 1)
  }

  lemma {:induction false} NarrowBound(w: bv16, n: nat)
    ensures Narrow(w, n) < Pow2(n)
  {
    if n > 0 {
      NarrowBound(w >> 1, n - 1);
    }
  }

  lemma Pow2Of16()
    ensures Pow2(16) == 0x1_0000
  {
    assert Pow2(4) == 16;
    assert Pow2(8) == 256;
    assert Pow2(12) == 4096;
  }

  /** The register read as the uint16_t the firmware returns. */
  function RegisterValue(w: bv16): u16 {
    NarrowBound(w, 16);
    Pow2Of16();
    Narrow(w, 16)
  }

  /** calculateCRC16 as a value: the register after feeding `data` into 0xFFFF. */
  function Crc(data: seq<u8>): u16 {
    RegisterValue(CrcFrom(CRC_INIT, data))
  }
}

/**
 * Bit-level facts about the register: no step of the CRC loses information.
 */
module Crc16Bits {
  import opened Bytes
  import opened Crc16Spec

  /** The register value with its low `n` bits set. */
  function Mask(n: nat): bv16 {
    if n == 0 then 0 else (Mask(n - 1) << 1) | 1
  }

  lemma MaskBound(n: nat)
    requires n <= 8
    ensures Mask(n) <= 0xFF
  {
    if n == 0 {} else if n == 1 {} else if n == 2 {} else if n == 3 {} else if n == 4 {}
    else if n == 5 {} else if n == 6 {} else if n == 7 {} else {}
  }

  /** Widening `n` bits sets nothing above bit n - 1. */
  lemma {:induction false} WidenBound(b: nat, n: nat)
    requires n <= 8
    ensures Widen(b, n) <= Mask(n)
  {
    if n > 0 {
      WidenBound(b / 2, n - 1);
      MaskBound(n - 1);
    }
  }

  /** Shifting a bit in below an 8-bit value can be undone. */
  lemma ShiftInBit(v: bv16, bit: bv16)
    requires v <= 0xFF && bit <= 1
    ensures ((v << 1) | bit) & 1 == bit && ((v << 1) | bit) >> 1 == v
  {
  }

  lemma Halve(x: int, y: int)
    requires x >= 0 && y >= 0 && x % 2 == y % 2 && x / 2 == y / 2
    ensures x == y
  {
  }

  lemma {:induction false} WidenInjective(x: nat, y: nat, n: nat)
    requires n <= 8 && x < Pow2(n) && y < Pow2(n)
    requires Widen(x, n) == Widen(y, n)
    ensures x == y
  {
    if n > 0 {
      WidenBound(x / 2, n - 1);
      WidenBound(y / 2, n - 1);
      MaskBound(n - 1);
      ShiftInBit(Widen(x / 2, n - 1), LowBit(x));
      ShiftInBit(Widen(y / 2, n - 1), LowBit(y));
      WidenInjective(x / 2, y / 2, n - 1);
      Halve(x, y);
    }
  }

  /** Widening loses nothing: different bytes give different register values. */
  lemma ByteBitsDistinct(x: u8, y: u8)
    requires x != y
    ensures ByteBits(x) != ByteBits(y)
  {
    if ByteBits(x) == ByteBits(y) {
      assert Pow2(8) == 0x100;
      WidenInjective(x, y, 8);
    }
  }

  /** A shift step loses no information: from the new top bit one recovers bit 0. */
  lemma ShiftStepInjective(a: bv16, b: bv16)
    requires ShiftStep(a) == ShiftStep(b)
    ensures a == b
  {
  }

  lemma {:induction false} ShiftsInjective(a: bv16, b: bv16, n: nat)
    requires Shifts(a, n) == Shifts(b, n)
    ensures a == b
  {
    if n > 0 {
      ShiftStepInjective(Shifts(a, n - 1), Shifts(b, n - 1));
      ShiftsInjective(a, b, n - 1);
    }
  }

  lemma ShiftsDistinct(a: bv16, b: bv16, n: nat)
    requires a != b
    ensures Shifts(a, n) != Shifts(b, n)
  {
    if Shifts(a, n) == Shifts(b, n) {
      ShiftsInjective(a, b, n);
    }
  }

  /** From one register, different widened bytes give different registers. */
  lemma FeedInjective(crc: bv16, u: bv16, v: bv16)
    requires u != v
    ensures Feed(crc, u) != Feed(crc, v)
  {
    ShiftsDistinct(crc ^ u, crc ^ v, 8);
  }

  lemma DigitStep(a: nat, b: nat, r: nat, s: nat)
    requires a <= 1 && b <= 1 && a + 2 * r == b + 2 * s
    ensures a == b && r == s
  {
  }

  lemma BitOfInjective(x: bv16, y: bv16)
    requires BitOf(x) == BitOf(y)
    ensures x & 1 == y & 1
  {
  }

  lemma NarrowHalf(x: bv16, y: bv16, n: nat)
    requires n > 0
    requires Narrow(x, n) == Narrow(y, n)
    ensures x & 1 == y & 1 && Narrow(x >> 1, n - 1) == Narrow(y >> 1, n - 1)
  {
    DigitStep(BitOf(x), BitOf(y), Narrow(x >> 1, n - 1), Narrow(y >> 1, n - 1));
    BitOfInjective(x, y);
  }

  /** From different registers, the same widened byte gives different registers. */
  lemma FeedRegisterInjective(c: bv16, d: bv16, w: bv16)
    requires c != d
    ensures Feed(c, w) != Feed(d, w)
  {
    assert c ^ w != d ^ w;
    ShiftsDistinct(c ^ w, d ^ w, 8);
  }
}

/**
 * The conversion of the register to a uint16_t loses nothing.
 */
module Crc16Value {
  import opened Crc16Spec
  import opened Crc16Bits

  /** `m` has no bit set at or above bit `n`. */
  predicate Fits(m: bv16, n: nat) {
    if n == 0 then m == 0 else Fits(m >> 1, n - 1)
  }

  /** `x` and `y` agree on the bits that `m` selects. */
  predicate Agree(x: bv16, y: bv16, m: bv16) {
    x & m == y & m
  }

  lemma HalfStep(x: bv16, y: bv16, m: bv16)
    requires (x >> 1) & (m >> 1) == (y >> 1) & (m >> 1) && x & 1 == y & 1
    ensures x & m == y & m
  {
  }

  lemma AgreeStep(x: bv16, y: bv16, m: bv16)
    requires x & 1 == y & 1 && Agree(x >> 1, y >> 1, m >> 1)
    ensures Agree(x, y, m)
  {
    HalfStep(x, y, m);
  }

  /** Equal numbers from the low `n` bits mean equal low `n` bits. */
  lemma {:induction false} NarrowInjective(x: bv16, y: bv16, m: bv16, n: nat)
    requires Fits(m, n)
    requires Narrow(x, n) == Narrow(y, n)
    ensures Agree(x, y, m)
  {
    if n > 0 {
      NarrowHalf(x, y, n);
      NarrowInjective(x >> 1, y >> 1, m >> 1, n - 1);
      AgreeStep(x, y, m);
    }
  }

  lemma Fits16()
    ensures Fits(0xFFFF, 16)
  {
    assert Fits(0, 0);
    assert Fits(0x1, 1);
    assert Fits(0x3, 2);
    assert Fits(0x7, 3);
    assert Fits(0xF, 4);
    assert Fits(0x1F, 5);
    assert Fits(0x3F, 6);
    assert Fits(0x7F, 7);
    assert Fits(0xFF, 8);
    assert Fits(0x1FF, 9);
    assert Fits(0x3FF, 10);
    assert Fits(0x7FF, 11);
    assert Fits(0xFFF, 12);
    assert Fits(0x1FFF, 13);
    assert Fits(0x3FFF, 14);
    assert Fits(0x7FFF, 15);
  }

  /** Two different registers are two different uint16_t values. */
  lemma RegisterValueDistinct(x: bv16, y: bv16)
    requires x != y
    ensures RegisterValue(x) != RegisterValue(y)
  {
    if RegisterValue(x) == RegisterValue(y) {
      Fits16();
      NarrowInjective(x, y, 0xFFFF, 16);
    }
  }
}

/**
 * calculateCRC16 as the firmware writes it, and the properties of the
 * checksum the transfer relies on.
 */
module Crc16 {
  import opened Bytes
  import opened Crc16Spec
  import opened Crc16Bits
  import opened Crc16Value

  /** Feeding a + b is feeding a, then continuing with b from the register reached. */
  lemma {:induction false} CrcFromConcat(crc: bv16, a: seq<u8>, b: seq<u8>)
    ensures CrcFrom(crc, a + b) == CrcFrom(CrcFrom(crc, a), b)
    decreases |a|
  {
    if a == [] {
      assert a + b == b;
    } else {
      assert (a + b)[0] == a[0];
      assert (a + b)[1..] == a[1..] + b;
      CrcFromConcat(UpdateByte(crc, a[0]), a[1..], b);
    }
  }

  /** Appending one byte performs exactly one more byte update. */
  lemma CrcFromSnoc(crc: bv16, a: seq<u8>, x: u8)
    ensures CrcFrom(crc, a + [x]) == UpdateByte(CrcFrom(crc, a), x)
  {
    CrcFromConcat(crc, a, [x]);
    assert CrcFrom(UpdateByte(CrcFrom(crc, a), x), []) == UpdateByte(CrcFrom(crc, a), x);
  }

  /**
   * calculateCRC16(data + from, length): the nested loop of the firmware,
   * proved to compute the fold.
   */
  method CalculateCrc16(data: seq<u8>, from: nat, length: u16) returns (crc: u16)
    requires from + length <= |data|
    ensures crc == Crc(data[from..from + length])
  {
    var reg: bv16 := 0xFFFF;
    var i := 0;
    while i < length
      invariant 0 <= i <= length
      invariant reg == CrcFrom(CRC_INIT, data[from..from + i])
    {
      ghost var before := reg;
      reg := reg ^ ByteBits(data[from + i]);
      ghost var seeded := reg;
      var j := 0;
      while j < 8
        invariant 0 <= j <= 8
        invariant reg == Shifts(seeded, j)
      {
        if reg & 0x0001 == 1 {
          reg := (reg >> 1) ^ 0xA001;
        } else {
          reg := reg >> 1;
        }
        j := j + 1;
      }
      assert reg == UpdateByte(before, data[from + i]);
      assert data[from..from + i + 1] == data[from..from + i] + [data[from + i]];
      CrcFromSnoc(CRC_INIT, data[from..from + i], data[from + i]);
      i := i + 1;
    }
    crc := RegisterValue(reg);
  }

  /** From the same register, two different bytes lead to two different registers. */
  lemma UpdateByteInjective(crc: bv16, x: u8, y: u8)
    requires x != y
    ensures UpdateByte(crc, x) != UpdateByte(crc, y)
  {
    ByteBitsDistinct(x, y);
    FeedInjective(crc, ByteBits(x), ByteBits(y));
  }

  /** Two different registers stay different whatever bytes follow. */
  lemma {:induction false} CrcFromInjective(c: bv16, d: bv16, data: seq<u8>)
    requires c != d
    ensures CrcFrom(c, data) != CrcFrom(d, data)
    decreases |data|
  {
    if data != [] {
      FeedRegisterInjective(c, d, ByteBits(data[0]));
      CrcFromInjective(UpdateByte(c, data[0]), UpdateByte(d, data[0]), data[1..]);
    }
  }

  /** The register after all of `a` is the register after a[..k], then a[k], then the rest. */
  lemma CrcFromSplit(crc: bv16, a: seq<u8>, k: nat)
    requires k < |a|
    ensures CrcFrom(crc, a) == CrcFrom(UpdateByte(CrcFrom(crc, a[..k]), a[k]), a[k + 1..])
  {
    assert a == a[..k] + [a[k]] + a[k + 1..];
    CrcFromConcat(crc, a[..k] + [a[k]], a[k + 1..]);
    CrcFromSnoc(crc, a[..k], a[k]);
  }

  /** From one register, two different bytes followed by the same rest give different registers. */
  lemma DifferentByteDetected(r: bv16, x: u8, y: u8, rest: seq<u8>)
    requires x != y
    ensures CrcFrom(UpdateByte(r, x), rest) != CrcFrom(UpdateByte(r, y), rest)
  {
    UpdateByteInjective(r, x, y);
    CrcFromInjective(UpdateByte(r, x), UpdateByte(r, y), rest);
  }

  /** The final registers of two inputs that differ in exactly one byte differ. */
  lemma SingleByteErrorRegister(a: seq<u8>, b: seq<u8>, k: nat)
    requires |a| == |b| && k < |a|
    requires a[k] != b[k]
    requires a[..k] == b[..k] && a[k + 1..] == b[k + 1..]
    ensures CrcFrom(CRC_INIT, a) != CrcFrom(CRC_INIT, b)
  {
    CrcFromSplit(CRC_INIT, a, k);
    CrcFromSplit(CRC_INIT, b, k);
    DifferentByteDetected(CrcFrom(CRC_INIT, a[..k]), a[k], b[k], a[k + 1..]);
  }

  /**
   * Every corruption confined to one byte of a chunk (in particular every
   * single flipped bit) changes its CRC, so the receiver's CRC test rejects it.
   */
  lemma SingleByteErrorDetected(a: seq<u8>, b: seq<u8>, k: nat)
    requires |a| == |b| && k < |a|
    requires a[k] != b[k]
    requires forall i :: 0 <= i < |a| && i != k ==> a[i] == b[i]
    ensures Crc(a) != Crc(b)
  {
    assert a[..k] == b[..k];
    assert a[k + 1..] == b[k + 1..];
    SingleByteErrorRegister(a, b, k);
    RegisterValueDistinct(CrcFrom(CRC_INIT, a), CrcFrom(CRC_INIT, b));
  }

  /** The CRC of the empty range is the initial register 0xFFFF. */
  lemma CrcEmpty()
    ensures Crc([]) == 0xFFFF
  {
    assert Narrow(0x0001, 1) == 1;
    assert Narrow(0x0003, 2) == 3;
    assert Narrow(0x0007, 3) == 7;
    assert Narrow(0x000F, 4) == 0xF;
    assert Narrow(0x001F, 5) == 0x1F;
    assert Narrow(0x003F, 6) == 0x3F;
    assert Narrow(0x007F, 7) == 0x7F;
    assert Narrow(0x00FF, 8) == 0xFF;
    assert Narrow(0x01FF, 9) == 0x1FF;
    assert Narrow(0x03FF, 10) == 0x3FF;
    assert Narrow(0x07FF, 11) == 0x7FF;
    assert Narrow(0x0FFF, 12) == 0xFFF;
    assert Narrow(0x1FFF, 13) == 0x1FFF;
    assert Narrow(0x3FFF, 14) == 0x3FFF;
    assert Narrow(0x7FFF, 15) == 0x7FFF;
  }

  /** Feeding a sequence whose first byte is `x`. */
  lemma CrcFromCons(crc: bv16, x: u8, rest: seq<u8>)
    ensures CrcFrom(crc, [x] + rest) == CrcFrom(UpdateByte(crc, x), rest)
  {
    assert ([x] + rest)[1..] == rest;
  }

  /** The first three bytes of the check string, "123". */
  lemma CheckBytes123()
    ensures CrcFrom(0xFFFF, [0x31, 0x32, 0x33]) == 0x7A75
  {
    assert ByteBits(0x31) == 0x31 && Feed(0xFFFF, 0x31) == 0x947E;
    assert ByteBits(0x32) == 0x32 && Feed(0x947E, 0x32) == 0xF595;
    assert ByteBits(0x33) == 0x33 && Feed(0xF595, 0x33) == 0x7A75;
    CrcFromCons(0xFFFF, 0x31, [0x32, 0x33]);
    CrcFromCons(0x947E, 0x32, [0x33]);
    CrcFromCons(0xF595, 0x33, []);
  }

  /** The bytes "456", continuing from the register "123" left. */
  lemma CheckBytes456()
    ensures CrcFrom(0x7A75, [0x34, 0x35, 0x36]) == 0x32E4
  {
    assert ByteBits(0x34) == 0x34 && Feed(0x7A75, 0x34) == 0x30BA;
    assert ByteBits(0x35) == 0x35 && Feed(0x30BA, 0x35) == 0xA471;
    assert ByteBits(0x36) == 0x36 && Feed(0xA471, 0x36) == 0x32E4;
    CrcFromCons(0x7A75, 0x34, [0x35, 0x36]);
    CrcFromCons(0x30BA, 0x35, [0x36]);
    CrcFromCons(0xA471, 0x36, []);
  }

  /** The bytes "789", continuing from the register "123456" left. */
  lemma CheckBytes789()
    ensures CrcFrom(0x32E4, [0x37, 0x38, 0x39]) == 0x4B37
  {
    assert ByteBits(0x37) == 0x37 && Feed(0x32E4, 0x37) == 0x9D73;
    assert ByteBits(0x38) == 0x38 && Feed(0x9D73, 0x38) == 0x37DD;
    assert ByteBits(0x39) == 0x39 && Feed(0x37DD, 0x39) == 0x4B37;
    CrcFromCons(0x32E4, 0x37, [0x38, 0x39]);
    CrcFromCons(0x9D73, 0x38, [0x39]);
    CrcFromCons(0x37DD, 0x39, []);
  }

  /** The register 0x4B37 read as a number. */
  lemma CheckRegisterValue()
    ensures RegisterValue(0x4B37) == 0x4B37
  {
    assert Narrow(0x0001, 1) == 1;
    assert Narrow(0x0002, 2) == 2;
    assert Narrow(0x0004, 3) == 4;
    assert Narrow(0x0009, 4) == 9;
    assert Narrow(0x0012, 5) == 0x12;
    assert Narrow(0x0025, 6) == 0x25;
    assert Narrow(0x004B, 7) == 0x4B;
    assert Narrow(0x0096, 8) == 0x96;
    assert Narrow(0x012C, 9) == 0x12C;
    assert Narrow(0x0259, 10) == 0x259;
    assert Narrow(0x04B3, 11) == 0x4B3;
    assert Narrow(0x0966, 12) == 0x966;
    assert Narrow(0x12CD, 13) == 0x12CD;
    assert Narrow(0x259B, 14) == 0x259B;
    assert Narrow(0x4B37 >> 1, 15) == 0x4B37 / 2;
  }

  /** The standard CRC-16/MODBUS check value: the ASCII string "123456789" gives 0x4B37. */
  lemma CheckValue()
    ensures Crc([0x31, 0x32, 0x33, 0x34, 0x35, 0x36, 0x37, 0x38, 0x39]) == 0x4B37
  {
    var s: seq<u8> := [0x31, 0x32, 0x33, 0x34, 0x35, 0x36, 0x37, 0x38, 0x39];
    assert s == [0x31, 0x32, 0x33] + [0x34, 0x35, 0x36] + [0x37, 0x38, 0x39];
    CheckBytes123();
    CheckBytes456();
    CheckBytes789();
    CrcFromConcat(CRC_INIT, [0x31, 0x32, 0x33] + [0x34, 0x35, 0x36], [0x37, 0x38, 0x39]);
    CrcFromConcat(CRC_INIT, [0x31, 0x32, 0x33], [0x34, 0x35, 0x36]);
    CheckRegisterValue();
  }
}
