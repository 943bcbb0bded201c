/** `hiredis-vip/crc16.c` and the key-to-slot rule of `hircluster.c`.

    The reference for the checksum is polynomial long division: the remainder of
    M(x) * x^16 by x^16 + x^12 + x^5 + 1, one message bit at a time. */
module Crc16Bits {
  import opened Bytes

  // ---------- the reference: long division over GF(2) ----------

  /** One step of long division: when the bit pushed out of the register is set, subtract the
      divisor; bring down the next bit of the dividend. */
  function DivideStep(r: bv16, bit: bool): bv16 {
    Xor(Shift(r), LowBit(bit))
  }

  function LowBit(bit: bool): bv16 { if bit then 1 else 0 }

  /** One zero bit of long division: multiplication by x modulo the divisor. */
  function Shift(r: bv16): bv16 {
    (r << 1) ^ Feedback(r)
  }

  function Xor(x: bv16, y: bv16): bv16 { x ^ y }

  /** The low terms of the divisor, x^12 + x^5 + 1, when the top bit of `r` is set. */
  function Feedback(r: bv16): bv16 {
    ((r >> 15) << 12) ^ ((r >> 15) << 5) ^ (r >> 15)
  }

  function Divide(r: bv16, bits: seq<bool>): bv16
    decreases |bits|
  {
    if bits == [] then r else Divide(DivideStep(r, bits[0]), bits[1..])
  }

  function BitsOfByte(b: bv16): seq<bool> {
    HighBits(b) + LowBits(b)
  }

  function HighBits(b: bv16): seq<bool> {
    [b & 0x80 != 0, b & 0x40 != 0, b & 0x20 != 0, b & 0x10 != 0]
  }

  function LowBits(b: bv16): seq<bool> {
    [b & 0x08 != 0, b & 0x04 != 0, b & 0x02 != 0, b & 0x01 != 0]
  }

  function Bits(buf: Text): seq<bool> {
    if buf == [] then [] else BitsOfByte(buf[0] as bv16) + Bits(buf[1..])
  }

  function Zeros(n: nat): seq<bool> {
    if n == 0 then [] else [false] + Zeros(n - 1)
  }

  /** The remainder of M(x) * x^16. */
  function Remainder(buf: Text): bv16 {
    Divide(0, Bits(buf) + Zeros(16))
  }

  // ---------- the table ----------

  const ROW0: seq<bv16> := [
    0x0000, 0x1021, 0x2042, 0x3063, 0x4084, 0x50a5, 0x60c6, 0x70e7,
    0x8108, 0x9129, 0xa14a, 0xb16b, 0xc18c, 0xd1ad, 0xe1ce, 0xf1ef
  ]
  const ROW1: seq<bv16> := [
    0x1231, 0x0210, 0x3273, 0x2252, 0x52b5, 0x4294, 0x72f7, 0x62d6,
    0x9339, 0x8318, 0xb37b, 0xa35a, 0xd3bd, 0xc39c, 0xf3ff, 0xe3de
  ]
  const ROW2: seq<bv16> := [
    0x2462, 0x3443, 0x0420, 0x1401, 0x64e6, 0x74c7, 0x44a4, 0x5485,
    0xa56a, 0xb54b, 0x8528, 0x9509, 0xe5ee, 0xf5cf, 0xc5ac, 0xd58d
  ]
  const ROW3: seq<bv16> := [
    0x3653, 0x2672, 0x1611, 0x0630, 0x76d7, 0x66f6, 0x5695, 0x46b4,
    0xb75b, 0xa77a, 0x9719, 0x8738, 0xf7df, 0xe7fe, 0xd79d, 0xc7bc
  ]
  const ROW4: seq<bv16> := [
    0x48c4, 0x58e5, 0x6886, 0x78a7, 0x0840, 0x1861, 0x2802, 0x3823,
    0xc9cc, 0xd9ed, 0xe98e, 0xf9af, 0x8948, 0x9969, 0xa90a, 0xb92b
  ]
  const ROW5: seq<bv16> := [
    0x5af5, 0x4ad4, 0x7ab7, 0x6a96, 0x1a71, 0x0a50, 0x3a33, 0x2a12,
    0xdbfd, 0xcbdc, 0xfbbf, 0xeb9e, 0x9b79, 0x8b58, 0xbb3b, 0xab1a
  ]
  const ROW6: seq<bv16> := [
    0x6ca6, 0x7c87, 0x4ce4, 0x5cc5, 0x2c22, 0x3c03, 0x0c60, 0x1c41,
    0xedae, 0xfd8f, 0xcdec, 0xddcd, 0xad2a, 0xbd0b, 0x8d68, 0x9d49
  ]
  const ROW7: seq<bv16> := [
    0x7e97, 0x6eb6, 0x5ed5, 0x4ef4, 0x3e13, 0x2e32, 0x1e51, 0x0e70,
    0xff9f, 0xefbe, 0xdfdd, 0xcffc, 0xbf1b, 0xaf3a, 0x9f59, 0x8f78
  ]
  const ROW8: seq<bv16> := [
    0x9188, 0x81a9, 0xb1ca, 0xa1eb, 0xd10c, 0xc12d, 0xf14e, 0xe16f,
    0x1080, 0x00a1, 0x30c2, 0x20e3, 0x5004, 0x4025, 0x7046, 0x6067
  ]
  const ROW9: seq<bv16> := [
    0x83b9, 0x9398, 0xa3fb, 0xb3da, 0xc33d, 0xd31c, 0xe37f, 0xf35e,
    0x02b1, 0x1290, 0x22f3, 0x32d2, 0x4235, 0x5214, 0x6277, 0x7256
  ]
  const ROWA: seq<bv16> := [
    0xb5ea, 0xa5cb, 0x95a8, 0x8589, 0xf56e, 0xe54f, 0xd52c, 0xc50d,
    0x34e2, 0x24c3, 0x14a0, 0x0481, 0x7466, 0x6447, 0x5424, 0x4405
  ]
  const ROWB: seq<bv16> := [
    0xa7db, 0xb7fa, 0x8799, 0x97b8, 0xe75f, 0xf77e, 0xc71d, 0xd73c,
    0x26d3, 0x36f2, 0x0691, 0x16b0, 0x6657, 0x7676, 0x4615, 0x5634
  ]
  const ROWC: seq<bv16> := [
    0xd94c, 0xc96d, 0xf90e, 0xe92f, 0x99c8, 0x89e9, 0xb98a, 0xa9ab,
    0x5844, 0x4865, 0x7806, 0x6827, 0x18c0, 0x08e1, 0x3882, 0x28a3
  ]
  const ROWD: seq<bv16> := [
    0xcb7d, 0xdb5c, 0xeb3f, 0xfb1e, 0x8bf9, 0x9bd8, 0xabbb, 0xbb9a,
    0x4a75, 0x5a54, 0x6a37, 0x7a16, 0x0af1, 0x1ad0, 0x2ab3, 0x3a92
  ]
  const ROWE: seq<bv16> := [
    0xfd2e, 0xed0f, 0xdd6c, 0xcd4d, 0xbdaa, 0xad8b, 0x9de8, 0x8dc9,
    0x7c26, 0x6c07, 0x5c64, 0x4c45, 0x3ca2, 0x2c83, 0x1ce0, 0x0cc1
  ]
  const ROWF: seq<bv16> := [
    0xef1f, 0xff3e, 0xcf5d, 0xdf7c, 0xaf9b, 0xbfba, 0x8fd9, 0x9ff8,
    0x6e17, 0x7e36, 0x4e55, 0x5e74, 0x2e93, 0x3eb2, 0x0ed1, 0x1ef0
  ]

  /** `crc16tab[index]`, the table cut into rows of sixteen. */
  function TableEntry(index: bv16): bv16
    requires index < 256
  {
    Row(index >> 4)[(index & 0xF) as int]
  }

  function Row(high: bv16): (row: seq<bv16>)
    requires high < 16
    ensures |row| == 16
  {
    match high
      case 0 => ROW0
      case 1 => ROW1
      case 2 => ROW2
      case 3 => ROW3
      case 4 => ROW4
      case 5 => ROW5
      case 6 => ROW6
      case 7 => ROW7
      case 8 => ROW8
      case 9 => ROW9
      case 10 => ROWA
      case 11 => ROWB
      case 12 => ROWC
      case 13 => ROWD
      case 14 => ROWE
      case _ => ROWF
  }

  function Shift8(r: bv16): bv16 {
    Shift(Shift(Shift(Shift(Shift(Shift(Shift(Shift(r))))))))
  }

  lemma Row0ByBits(l: bv16)
    requires l < 16
    ensures ROW0[l as int] == Shift8(0x0000 | (l << 8))
  {}

  lemma Row1ByBits(l: bv16)
    requires l < 16
    ensures ROW1[l as int] == Shift8(0x1000 | (l << 8))
  {}

  lemma Row2ByBits(l: bv16)
    requires l < 16
    ensures ROW2[l as int] == Shift8(0x2000 | (l << 8))
  {}

  lemma Row3ByBits(l: bv16)
    requires l < 16
    ensures ROW3[l as int] == Shift8(0x3000 | (l << 8))
  {}

  lemma Row4ByBits(l: bv16)
    requires l < 16
    ensures ROW4[l as int] == Shift8(0x4000 | (l << 8))
  {}

  lemma Row5ByBits(l: bv16)
    requires l < 16
    ensures ROW5[l as int] == Shift8(0x5000 | (l << 8))
  {}

  lemma Row6ByBits(l: bv16)
    requires l < 16
    ensures ROW6[l as int] == Shift8(0x6000 | (l << 8))
  {}

  lemma Row7ByBits(l: bv16)
    requires l < 16
    ensures ROW7[l as int] == Shift8(0x7000 | (l << 8))
  {}

  lemma Row8ByBits(l: bv16)
    requires l < 16
    ensures ROW8[l as int] == Shift8(0x8000 | (l << 8))
  {}

  lemma Row9ByBits(l: bv16)
    requires l < 16
    ensures ROW9[l as int] == Shift8(0x9000 | (l << 8))
  {}

  lemma RowAByBits(l: bv16)
    requires l < 16
    ensures ROWA[l as int] == Shift8(0xA000 | (l << 8))
  {}

  lemma RowBByBits(l: bv16)
    requires l < 16
    ensures ROWB[l as int] == Shift8(0xB000 | (l << 8))
  {}

  lemma RowCByBits(l: bv16)
    requires l < 16
    ensures ROWC[l as int] == Shift8(0xC000 | (l << 8))
  {}

  lemma RowDByBits(l: bv16)
    requires l < 16
    ensures ROWD[l as int] == Shift8(0xD000 | (l << 8))
  {}

  lemma RowEByBits(l: bv16)
    requires l < 16
    ensures ROWE[l as int] == Shift8(0xE000 | (l << 8))
  {}

  lemma RowFByBits(l: bv16)
    requires l < 16
    ensures ROWF[l as int] == Shift8(0xF000 | (l << 8))
  {}

  lemma TableByBits(index: bv16)
    requires index < 256
    ensures TableEntry(index) == Shift8(index << 8)
  {
    match index >> 4
      case 0 => Row0ByBits(index & 0xF);
      case 1 => Row1ByBits(index & 0xF);
      case 2 => Row2ByBits(index & 0xF);
      case 3 => Row3ByBits(index & 0xF);
      case 4 => Row4ByBits(index & 0xF);
      case 5 => Row5ByBits(index & 0xF);
      case 6 => Row6ByBits(index & 0xF);
      case 7 => Row7ByBits(index & 0xF);
      case 8 => Row8ByBits(index & 0xF);
      case 9 => Row9ByBits(index & 0xF);
      case 10 => RowAByBits(index & 0xF);
      case 11 => RowBByBits(index & 0xF);
      case 12 => RowCByBits(index & 0xF);
      case 13 => RowDByBits(index & 0xF);
      case 14 => RowEByBits(index & 0xF);
      case 15 => RowFByBits(index & 0xF);
  }

  // ---------- facts about single words, each within reach of the bit-vector solver ----------

  lemma ShiftXor(x: bv16, y: bv16)
    ensures Shift(x ^ y) == Shift(x) ^ Shift(y)
  {
  }

  lemma ShiftLinear(x: bv16, y: bv16)
    ensures Shift(Xor(x, y)) == Xor(Shift(x), Shift(y))
  {
    ShiftXor(x, y);
  }

  /** The register form: the message bit is added to the bit about to be pushed out, and no
      zeros are appended to the message. */
  function RegisterStep(r: bv16, bit: bool): bv16 {
    Shift(Xor(r, if bit then 0x8000 else 0))
  }

  /** Feeding the top bit of `x` keeps the register, with the rest of `x` still to be added,
      equal to the plain shift of their sum. */
  lemma AbsorbBit(r: bv16, x: bv16, next: bv16, bit: bool)
    requires bit == (x & 0x8000 != 0) && next == x << 1
    ensures Xor(RegisterStep(r, bit), next) == Shift(Xor(r, x))
  {
  }

  lemma ByteBits(b: bv16)
    requires b < 256
    ensures b & 0x80 != 0 <==> (b << 8) & 0x8000 != 0
    ensures b & 0x40 != 0 <==> (b << 9) & 0x8000 != 0
    ensures b & 0x20 != 0 <==> (b << 10) & 0x8000 != 0
    ensures b & 0x10 != 0 <==> (b << 11) & 0x8000 != 0
    ensures b & 0x08 != 0 <==> (b << 12) & 0x8000 != 0
    ensures b & 0x04 != 0 <==> (b << 13) & 0x8000 != 0
    ensures b & 0x02 != 0 <==> (b << 14) & 0x8000 != 0
    ensures b & 0x01 != 0 <==> (b << 15) & 0x8000 != 0
  {
  }

  lemma XorZero(x: bv16)
    ensures Xor(x, 0) == x
  {
  }

  lemma ShiftsCompose(b: bv16)
    ensures b << 9 == (b << 8) << 1 && b << 10 == (b << 9) << 1
    ensures b << 11 == (b << 10) << 1 && b << 12 == (b << 11) << 1
    ensures b << 13 == (b << 12) << 1 && b << 14 == (b << 13) << 1
    ensures b << 15 == (b << 14) << 1 && 0 == (b << 15) << 1
  {
  }

  /** One byte of the table algorithm. */
  function TableStep(crc: bv16, b: bv16): bv16 {
    (crc << 8) ^ TableEntry(((crc >> 8) ^ b) & 0x00FF)
  }

  lemma LowByteShifts(x: bv16)
    requires x < 256
    ensures Shift8(x) == x << 8
  {
  }

  lemma SplitWord(crc: bv16, b: bv16, index: bv16)
    requires b < 256 && index == ((crc >> 8) ^ b) & 0x00FF
    ensures Xor(index << 8, crc & 0x00FF) == Xor(crc, b << 8)
    ensures (crc & 0x00FF) << 8 == crc << 8
    ensures Xor(Shift8(index << 8), crc << 8) == Xor(crc << 8, Shift8(index << 8))
  {
  }
}

/** The table-driven checksum computes the remainder of the long division. */
module Crc16Register {
  import opened Crc16Bits

  // ---------- iterating a linear step ----------

  function Iterate<G>(f: G -> G, r: G, n: nat): G
    decreases n
  {
    if n == 0 then r else Iterate(f, f(r), n - 1)
  }

  lemma {:induction false} IterateLast<G>(f: G -> G, r: G, n: nat)
    ensures Iterate(f, f(r), n) == f(Iterate(f, r, n))
    decreases n
  {
    if n > 0 { IterateLast(f, f(r), n - 1); }
  }

  lemma {:induction false} IterateSum<G>(f: G -> G, r: G, m: nat, n: nat)
    ensures Iterate(f, r, m + n) == Iterate(f, Iterate(f, r, m), n)
    decreases m
  {
    if m > 0 { IterateSum(f, f(r), m - 1, n); }
  }

  lemma {:induction false} IterateLinear<G(!new)>(f: G -> G, add: (G, G) -> G, x: G, y: G, n: nat)
    requires forall a, b :: f(add(a, b)) == add(f(a), f(b))
    ensures Iterate(f, add(x, y), n) == add(Iterate(f, x, n), Iterate(f, y, n))
    decreases n
  {
    if n > 0 { IterateLinear(f, add, f(x), f(y), n - 1); }
  }

  /** A bit added at the low end and carried through `n` steps arrives as if it had been
      added at the high end just before one step. */
  lemma CarryThrough<G(!new)>(f: G -> G, add: (G, G) -> G, r: G, low: G, high: G, n: nat)
    requires forall a, b :: f(add(a, b)) == add(f(a), f(b))
    requires Iterate(f, low, n) == f(high)
    ensures Iterate(f, add(f(r), low), n) == f(add(Iterate(f, r, n), high))
  {
    IterateLinear(f, add, f(r), low, n);
    IterateLast(f, r, n);
  }

  // ---------- the table algorithm is the long division ----------

  lemma ShiftAllLinear()
    ensures forall x, y :: Shift(Xor(x, y)) == Xor(Shift(x), Shift(y))
  {
    forall x, y ensures Shift(Xor(x, y)) == Xor(Shift(x), Shift(y)) { ShiftLinear(x, y); }
  }

  lemma {:induction false} DivideZeros(r: bv16, n: nat)
    ensures Divide(r, Zeros(n)) == Iterate(Shift, r, n)
    decreases n
  {
    if n > 0 {
      assert Zeros(n)[1..] == Zeros(n - 1);
      XorZero(Shift(r));
      DivideZeros(Shift(r), n - 1);
    }
  }

  function Register(r: bv16, bits: seq<bool>): bv16
    decreases |bits|
  {
    if bits == [] then r else Register(RegisterStep(r, bits[0]), bits[1..])
  }

  lemma RegisterStepDivides(r: bv16, bit: bool)
    ensures Iterate(Shift, DivideStep(r, bit), 16) == RegisterStep(Iterate(Shift, r, 16), bit)
  {
    var low, high := LowBit(bit), if bit then 0x8000 else 0;
    ShiftAllLinear();
    LowToHigh();
    CarryThrough(Shift, Xor, r, low, high, 16);
  }

  lemma DivideCons(r: bv16, bits: seq<bool>, tail: seq<bool>)
    requires bits != []
    ensures Divide(r, bits + tail) == Divide(DivideStep(r, bits[0]), bits[1..] + tail)
  {
    assert (bits + tail)[1..] == bits[1..] + tail;
  }

  lemma {:induction false} RegisterDivides(r: bv16, bits: seq<bool>)
    ensures Divide(r, bits + Zeros(16)) == Register(Iterate(Shift, r, 16), bits)
    decreases |bits|
  {
    if bits == [] {
      assert bits + Zeros(16) == Zeros(16);
      DivideZeros(r, 16);
    } else {
      DivideCons(r, bits, Zeros(16));
      RegisterCons(Iterate(Shift, r, 16), bits[0], bits[1..]);
      assert [bits[0]] + bits[1..] == bits;
      RegisterStepDivides(r, bits[0]);
      RegisterDivides(DivideStep(r, bits[0]), bits[1..]);
    }
  }

  /** x^16 is congruent to x^12 + x^5 + 1. */
  lemma LowToHigh()
    ensures Iterate(Shift, 0, 16) == Shift(0) && Iterate(Shift, 1, 16) == Shift(0x8000)
  {
    IterateSum(Shift, 1, 8, 8);
    IterateSum(Shift, 0, 8, 8);
    IterateEight(0);
    IterateEight(1);
    assert Shift8(0) == 0 && Shift8(1) == 0x100;
    IterateEight(0x100);
    assert Shift8(0x100) == 0x1021 == Shift(0x8000);
  }

  lemma IterateEight(r: bv16)
    ensures Iterate(Shift, r, 8) == Shift8(r)
  {
    var r1 := Shift(r);
    var r2 := Shift(r1);
    var r3 := Shift(r2);
    var r4 := Shift(r3);
    var r5 := Shift(r4);
    var r6 := Shift(r5);
    var r7 := Shift(r6);
    assert Iterate(Shift, r, 8) == Iterate(Shift, r1, 7) == Iterate(Shift, r2, 6) == Iterate(Shift, r3, 5)
        == Iterate(Shift, r4, 4) == Iterate(Shift, r5, 3) == Iterate(Shift, r6, 2) == Iterate(Shift, r7, 1)
        == Iterate(Shift, Shift(r7), 0);
  }

  lemma RegisterCons(r: bv16, bit: bool, rest: seq<bool>)
    ensures Register(r, [bit] + rest) == Register(RegisterStep(r, bit), rest)
  {
    assert ([bit] + rest)[1..] == rest;
  }

  /** Feeding the bits of a byte one by one is adding the byte at the top and shifting. */
  lemma RegisterByte(r: bv16, b: bv16, rest: seq<bool>)
    requires b < 256
    ensures Register(r, BitsOfByte(b) + rest) == Register(Iterate(Shift, Xor(r, b << 8), 8), rest)
  {
    var high, low := HighBits(b), LowBits(b);
    ByteBits(b);
    ShiftsCompose(b);
    var r4 := RegisterHalf(r, b << 8, b << 9, b << 10, b << 11, b << 12, high, low + rest);
    RegisterLow(r4, b, low, rest);
    assert BitsOfByte(b) + rest == high + (low + rest);
    IterateSum(Shift, Xor(r, b << 8), 4, 4);
  }

  lemma RegisterLow(r4: bv16, b: bv16, low: seq<bool>, rest: seq<bool>)
    requires b < 256 && low == LowBits(b)
    ensures Register(r4, low + rest) == Register(Iterate(Shift, Xor(r4, b << 12), 4), rest)
  {
    ByteBits(b);
    ShiftsCompose(b);
    var r8 := RegisterHalf(r4, b << 12, b << 13, b << 14, b << 15, 0, low, rest);
    XorZero(r8);
  }

  /** Four message bits, taken from the top of `x0` and its successive shifts. */
  lemma RegisterHalf(r: bv16, x0: bv16, x1: bv16, x2: bv16, x3: bv16, x4: bv16, bits: seq<bool>, rest: seq<bool>)
    returns (r4: bv16)
    requires |bits| == 4 && x1 == x0 << 1 && x2 == x1 << 1 && x3 == x2 << 1 && x4 == x3 << 1
    requires bits[0] == (x0 & 0x8000 != 0) && bits[1] == (x1 & 0x8000 != 0)
    requires bits[2] == (x2 & 0x8000 != 0) && bits[3] == (x3 & 0x8000 != 0)
    ensures Register(r, bits + rest) == Register(r4, rest)
    ensures Xor(r4, x4) == Iterate(Shift, Xor(r, x0), 4)
  {
    var r2 := RegisterTwo(r, x0, x1, x2, bits[0], bits[1], bits[2..] + rest);
    r4 := RegisterTwo(r2, x2, x3, x4, bits[2], bits[3], rest);
    assert bits + rest == [bits[0], bits[1]] + (bits[2..] + rest);
    assert bits[2..] + rest == [bits[2], bits[3]] + rest;
    IterateSum(Shift, Xor(r, x0), 2, 2);
  }

  lemma RegisterTwo(r: bv16, x0: bv16, x1: bv16, x2: bv16, bit0: bool, bit1: bool, rest: seq<bool>)
    returns (r2: bv16)
    requires x1 == x0 << 1 && x2 == x1 << 1
    requires bit0 == (x0 & 0x8000 != 0) && bit1 == (x1 & 0x8000 != 0)
    ensures Register(r, [bit0, bit1] + rest) == Register(r2, rest)
    ensures Xor(r2, x2) == Iterate(Shift, Xor(r, x0), 2)
  {
    var r1 := RegisterStep(r, bit0);
    r2 := RegisterStep(r1, bit1);
    AbsorbBit(r, x0, x1, bit0);
    AbsorbBit(r1, x1, x2, bit1);
    assert [bit0, bit1] + rest == [bit0] + ([bit1] + rest);
    RegisterCons(r, bit0, [bit1] + rest);
    RegisterCons(r1, bit1, rest);
    IterateTwo(Xor(r, x0));
  }

  lemma IterateTwo(r: bv16)
    ensures Iterate(Shift, r, 2) == Shift(Shift(r))
  {
    assert Iterate(Shift, r, 2) == Iterate(Shift, Shift(r), 1);
  }

  lemma TableStepShifts(crc: bv16, b: bv16)
    requires b < 256
    ensures TableStep(crc, b) == Iterate(Shift, Xor(crc, b << 8), 8)
  {
    var index := ((crc >> 8) ^ b) & 0x00FF;
    TableByBits(index);
    SplitRegister(crc, b, index, index << 8, TableEntry(index));
  }

  lemma SplitRegister(crc: bv16, b: bv16, index: bv16, top: bv16, entry: bv16)
    requires b < 256 && index == ((crc >> 8) ^ b) & 0x00FF && top == index << 8
    requires entry == Shift8(top)
    ensures Iterate(Shift, Xor(crc, b << 8), 8) == Xor(crc << 8, entry)
  {
    var low := crc & 0x00FF;
    IterateEight(top);
    IterateEight(low);
    LowByteShifts(low);
    ShiftAllLinear();
    IterateLinear(Shift, Xor, top, low, 8);
    SplitWord(crc, b, index);
  }
}

/** The loop of `crc16`. */
module Crc16 {
  import opened Bytes
  import opened Crc16Bits
  import opened Crc16Register

  /** `crc16`. */
  method Crc16(buf: Text) returns (crc: bv16)
    ensures crc == Remainder(buf)
  {
    crc := 0;
    var counter := 0;
    RegisterDivides(0, Bits(buf));
    LowToHigh();
    while counter < |buf|
      invariant 0 <= counter <= |buf|
      invariant Register(crc, Bits(buf[counter..])) == Remainder(buf)
    {
      var b := buf[counter] as bv16;
      ByteWord(buf[counter]);
      RegisterByte(crc, b, Bits(buf[counter + 1..]));
      TableStepShifts(crc, b);
      assert buf[counter..][1..] == buf[counter + 1..];
      crc := TableStep(crc, b);
      counter := counter + 1;
    }
    assert buf[counter..] == [];
  }

  lemma ByteWord(b: Byte)
    ensures (b as bv16) < 256
  {
  }
}
