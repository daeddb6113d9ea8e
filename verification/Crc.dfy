/**
 The X.25 checksum: the shift-and-xor byte step the library uses, the bit-serial
 division of RFC 1662 Appendix C that it abbreviates, and the errors it detects.
 */
module Crc {

  /** A byte as the number it stands for. */
  type byte = x: int | 0 <= x <= 255

  const X25_INIT_CRC: bv16 := 0xFFFF

  /** What a register ends on when it is also fed the complement of its own value. */
  const X25_VALIDATE_CRC: bv16 := 0xF0B8

  function FromBits(b: bv8): byte {
    b as int
  }

  /** The bits of a byte, defined by counting up so that only increments need explaining. */
  function ToBits(n: byte): (b: bv8)
    ensures FromBits(b) == n
  {
    if n == 0 then Counts(0); 0 else Counts(ToBits(n - 1)); ToBits(n - 1) + 1
  }

  lemma Counts(b: bv8)
    ensures FromBits(0) == 0
    ensures FromBits(b) < 255 ==> FromBits(b + 1) == FromBits(b) + 1
  {
  }

  lemma ToBitsFromBits(b: bv8)
    ensures ToBits(FromBits(b)) == b
  {
    hide ToBits;
    assert FromBits(ToBits(FromBits(b))) as bv8 == ToBits(FromBits(b)) && FromBits(b) as bv8 == b;
  }

  function LowBits(crc: bv16): bv8 {
    (crc & 0xFF) as bv8
  }

  function HighBits(crc: bv16): bv8 {
    (crc >> 8) as bv8
  }

  /** The low byte of the register, which goes on the wire first. */
  function CkA(crc: bv16): byte {
    FromBits(LowBits(crc))
  }

  /** The high byte of the register. */
  function CkB(crc: bv16): byte {
    FromBits(HighBits(crc))
  }

  /** A 16-bit value from its two wire bytes. */
  function FromBytes(lo: byte, hi: byte): bv16 {
    Join(ToBits(lo), ToBits(hi))
  }

  function Join(lo: bv8, hi: bv8): bv16 {
    (lo as bv16) | ((hi as bv16) << 8)
  }

  function Xor(a: bv16, b: bv16): bv16 {
    a ^ b
  }

  /** One byte into the register, in shifts and xors. */
  function ByteStep(data: bv8, crc: bv16): bv16 {
    var tmp := data ^ LowBits(crc);
    Mix(tmp ^ (tmp << 4), crc >> 8)
  }

  function Accumulate(data: byte, crc: bv16): bv16 {
    ByteStep(ToBits(data), crc)
  }

  function Mix(t: bv8, hi: bv16): bv16 {
    Xor(Xor(Xor(hi, (t as bv16) << 8), (t as bv16) << 3), (t >> 4) as bv16)
  }

  /** A buffer into the register, first byte first. */
  function AccumulateAll(data: seq<byte>, crc: bv16): bv16
    decreases |data|
  {
    if data == [] then crc
    else Accumulate(data[|data| - 1], AccumulateAll(data[..|data| - 1], crc))
  }

  /** `crc_accumulate` */
  method CrcAccumulate(data: byte, crcAccum: bv16) returns (crc: bv16)
    ensures crc == Accumulate(data, crcAccum)
  {
    hide Mix, LowBits;
    var tmp := ToBits(data) ^ LowBits(crcAccum);
    tmp := tmp ^ (tmp << 4);
    crc := Mix(tmp, crcAccum >> 8);
  }

  /** `crc_accumulate_buffer` */
  method CrcAccumulateBuffer(crcAccum: bv16, buffer: array<byte>, from: nat, length: nat) returns (crc: bv16)
    requires from + length <= buffer.Length
    ensures crc == AccumulateAll(buffer[from..from + length], crcAccum)
  {
    crc := crcAccum;
    var p, left := from, length;
    while left > 0
      invariant from <= p <= from + length && p + left == from + length
      invariant crc == AccumulateAll(buffer[from..p], crcAccum)
    {
      crc := CrcAccumulate(buffer[p], crc);
      assert buffer[from..p + 1][..p - from] == buffer[from..p];
      p, left := p + 1, left - 1;
    }
  }

  /** `crc_calculate` */
  method CrcCalculate(buffer: array<byte>, from: nat, length: nat) returns (crc: bv16)
    requires from + length <= buffer.Length
    ensures crc == AccumulateAll(buffer[from..from + length], X25_INIT_CRC)
  {
    crc := CrcAccumulateBuffer(X25_INIT_CRC, buffer, from, length);
  }

  /** Feeding a buffer in two pieces is feeding it whole. */
  lemma {:induction false} AccumulateConcat(a: seq<byte>, b: seq<byte>, crc: bv16)
    ensures AccumulateAll(a + b, crc) == AccumulateAll(b, AccumulateAll(a, crc))
    decreases |b|
  {
    hide Accumulate;
    if b == [] {
      assert a + b == a;
    } else {
      assert (a + b)[..|a + b| - 1] == a + b[..|b| - 1];
      AccumulateConcat(a, b[..|b| - 1], crc);
    }
  }

  lemma AccumulateOne(d: byte, crc: bv16)
    ensures AccumulateAll([d], crc) == Accumulate(d, crc)
  {
    hide Accumulate;
    assert [d][..0] == [];
  }

  lemma AccumulateTwo(d: byte, e: byte, crc: bv16)
    ensures AccumulateAll([d, e], crc) == Accumulate(e, Accumulate(d, crc))
  {
    hide Accumulate;
    assert [d, e][..1] == [d];
    AccumulateOne(d, crc);
  }

  lemma {:induction false} AccumulateSnoc(a: seq<byte>, d: byte, crc: bv16)
    ensures AccumulateAll(a + [d], crc) == Accumulate(d, AccumulateAll(a, crc))
  {
    hide Accumulate;
    AccumulateConcat(a, [d], crc);
    AccumulateOne(d, AccumulateAll(a, crc));
  }

  // ----- The reference: bit-serial division by x^16 + x^12 + x^5 + 1, reflected -----

  /** One bit of long division: shift out the low bit, subtract the generator if the bits differ. */
  function DivideBit(bit: bool, crc: bv16): bv16 {
    if (crc & 1 == 1) != bit then (crc >> 1) ^ 0x8408 else crc >> 1
  }

  /** The bits of a byte in transmission order, least significant first. */
  function Bits(data: bv8): (bits: seq<bool>)
    ensures |bits| == 8
  {
    [data & 1 != 0, data & 2 != 0, data & 4 != 0, data & 8 != 0,
     data & 16 != 0, data & 32 != 0, data & 64 != 0, data & 128 != 0]
  }

  /** The bits of a buffer in transmission order. */
  function BitStream(data: seq<byte>): (bits: seq<bool>)
    ensures |bits| == 8 * |data|
    decreases |data|
  {
    if data == [] then [] else BitStream(data[..|data| - 1]) + Bits(ToBits(data[|data| - 1]))
  }

  function Divide(bits: seq<bool>, crc: bv16): bv16
    decreases |bits|
  {
    if bits == [] then crc else DivideBit(bits[|bits| - 1], Divide(bits[..|bits| - 1], crc))
  }

  lemma {:induction false} DivideConcat(a: seq<bool>, b: seq<bool>, crc: bv16)
    ensures Divide(a + b, crc) == Divide(b, Divide(a, crc))
    decreases |b|
  {
    hide DivideBit;
    if b == [] {
      assert a + b == a;
    } else {
      assert (a + b)[..|a + b| - 1] == a + b[..|b| - 1];
      DivideConcat(a, b[..|b| - 1], crc);
    }
  }

  // Eight divisions by one bit are one byte step. Data bits still to come are kept
  // xored into the register, which turns each division into a pure shift.

  function Half(v: bv16): bv16 {
    v >> 1
  }

  function Shift(v: bv16): bv16 {
    if v & 1 == 1 then (v >> 1) ^ 0x8408 else v >> 1
  }

  function ShiftN(n: nat, v: bv16): bv16 {
    if n == 0 then v else Shift(ShiftN(n - 1, v))
  }

  function HalfN(n: nat, v: bv16): bv16 {
    if n == 0 then v else Half(HalfN(n - 1, v))
  }

  lemma BitStep00(c: bv16, d: bv16)
    requires c & 1 != 1 && d & 1 != 1
    ensures Xor(DivideBit(false, c), Half(d)) == Shift(Xor(c, d))
  {
  }

  lemma BitStep01(c: bv16, d: bv16)
    requires c & 1 != 1 && d & 1 == 1
    ensures Xor(DivideBit(true, c), Half(d)) == Shift(Xor(c, d))
  {
  }

  lemma BitStep10(c: bv16, d: bv16)
    requires c & 1 == 1 && d & 1 != 1
    ensures Xor(DivideBit(false, c), Half(d)) == Shift(Xor(c, d))
  {
  }

  lemma BitStep11(c: bv16, d: bv16)
    requires c & 1 == 1 && d & 1 == 1
    ensures Xor(DivideBit(true, c), Half(d)) == Shift(Xor(c, d))
  {
  }

  lemma BitStep(bit: bool, c: bv16, d: bv16)
    requires bit == (d & 1 == 1)
    ensures Xor(DivideBit(bit, c), Half(d)) == Shift(Xor(c, d))
  {
    hide DivideBit, Shift, Xor, Half;
    if c & 1 == 1 {
      if d & 1 == 1 { BitStep11(c, d); } else { BitStep10(c, d); }
    } else {
      if d & 1 == 1 { BitStep01(c, d); } else { BitStep00(c, d); }
    }
  }

  lemma HalfNIsShift(d: bv16)
    ensures HalfN(1, d) == d >> 1 && HalfN(2, d) == d >> 2 && HalfN(3, d) == d >> 3
    ensures HalfN(4, d) == d >> 4 && HalfN(5, d) == d >> 5 && HalfN(6, d) == d >> 6
    ensures HalfN(7, d) == d >> 7 && HalfN(8, d) == d >> 8
  {
    assert HalfN(1, d) == d >> 1;
    assert HalfN(2, d) == d >> 2;
    assert HalfN(3, d) == d >> 3;
    assert HalfN(4, d) == d >> 4;
    assert HalfN(5, d) == d >> 5;
    assert HalfN(6, d) == d >> 6;
    assert HalfN(7, d) == d >> 7;
  }

  lemma BitAt(data: bv8, n: nat)
    requires n < 8
    ensures Bits(data)[n] == (HalfN(n, data as bv16) & 1 == 1)
  {
    HalfNIsShift(data as bv16);
  }

  lemma {:induction false} SerialBits(data: bv8, crc: bv16, n: nat)
    requires n <= 8
    ensures Xor(Divide(Bits(data)[..n], crc), HalfN(n, data as bv16)) == ShiftN(n, Xor(crc, data as bv16))
  {
    hide DivideBit, Shift, Half, Xor, Bits;
    if n > 0 {
      SerialBits(data, crc, n - 1);
      var bs := Bits(data)[..n];
      assert bs[..n - 1] == Bits(data)[..n - 1];
      BitAt(data, n - 1);
      BitStep(bs[n - 1], Divide(bs[..n - 1], crc), HalfN(n - 1, data as bv16));
    }
  }

  lemma ShiftEight(v: bv16)
    ensures ShiftN(8, v) == Shift(Shift(Shift(Shift(Shift(Shift(Shift(Shift(v))))))))
  {
    hide Shift;
    assert ShiftN(1, v) == Shift(v);
    assert ShiftN(2, v) == Shift(Shift(v));
    assert ShiftN(3, v) == Shift(ShiftN(2, v));
    assert ShiftN(4, v) == Shift(ShiftN(3, v));
    assert ShiftN(5, v) == Shift(ShiftN(4, v));
    assert ShiftN(6, v) == Shift(ShiftN(5, v));
    assert ShiftN(7, v) == Shift(ShiftN(6, v));
  }

  /** Two and four divisions at once: the bits shifted out come back at the places of the polynomial. */
  function ShiftTwo(v: bv16): bv16 {
    (v >> 2) ^ ((v & 3) << 14) ^ ((v & 3) << 9) ^ ((v & 3) << 2)
  }

  function ShiftFour(v: bv16): bv16 {
    Xor(v >> 4, Spread(v & 15))
  }

  function Spread(n: bv16): bv16 {
    (n << 12) ^ (n << 7) ^ n
  }

  lemma OneShift(v: bv16)
    ensures Shift(v) == (v >> 1) ^ ((v & 1) << 15) ^ ((v & 1) << 10) ^ ((v & 1) << 3)
  {
    if v & 1 == 1 {
      assert Shift(v) == (v >> 1) ^ 0x8408;
    } else {
      assert v & 1 == 0;
    }
  }

  lemma TwoShifts(v: bv16)
    ensures Shift(Shift(v)) == ShiftTwo(v)
  {
    hide Shift;
    OneShift(v);
    OneShift(Shift(v));
  }

  lemma FourShifts(v: bv16)
    ensures ShiftTwo(ShiftTwo(v)) == ShiftFour(v)
  {
  }

  /** What the first four divisions leave in the upper and in the low four bits for the next four. */
  function Upper(v: bv16): bv16 {
    ((v & 15) << 8) ^ ((v & 15) << 3)
  }

  function Lower(v: bv16): bv16 {
    (v ^ (v >> 4)) & 15
  }

  function Folded(v: bv16): bv16 {
    (v ^ (v << 4)) & 0xFF
  }

  function WideMix(t: bv16): bv16 {
    Xor(Xor(t << 8, t << 3), t >> 4)
  }

  lemma FourParts(v: bv16)
    ensures ShiftFour(v) >> 4 == Xor(v >> 8, Upper(v)) && ShiftFour(v) & 15 == Lower(v)
  {
  }

  lemma FourTwice(v: bv16)
    ensures ShiftFour(ShiftFour(v)) == Xor(Xor(v >> 8, Upper(v)), Spread(Lower(v)))
  {
    hide Spread, Upper, Lower, Xor;
    FourParts(v);
  }

  lemma Gathered(v: bv16)
    ensures Xor(Upper(v), Spread(Lower(v))) == WideMix(Folded(v))
  {
  }

  lemma WideHigh(t: bv8)
    ensures (t >> 4) as bv16 == (t as bv16) >> 4
  {
  }

  lemma MixIsWide(t: bv8, hi: bv16)
    ensures Mix(t, hi) == Xor(hi, WideMix(t as bv16))
  {
    hide Xor;
    WideHigh(t);
    XorMoves(hi, (t as bv16) << 8, (t as bv16) << 3);
    XorMoves(hi, Xor((t as bv16) << 8, (t as bv16) << 3), (t >> 4) as bv16);
  }

  lemma LowFolded(v: bv16)
    ensures (LowBits(v) ^ (LowBits(v) << 4)) as bv16 == Folded(v)
  {
  }

  lemma XorMoves(a: bv16, b: bv16, c: bv16)
    ensures Xor(Xor(a, b), c) == Xor(a, Xor(b, c))
  {
  }

  lemma EightShifts(v: bv16)
    ensures ShiftFour(ShiftFour(v)) == Mix(LowBits(v) ^ (LowBits(v) << 4), v >> 8)
  {
    hide Spread, Upper, Lower, Folded, WideMix, Mix, LowBits, ShiftFour, Xor;
    FourTwice(v);
    XorMoves(v >> 8, Upper(v), Spread(Lower(v)));
    Gathered(v);
    MixIsWide(LowBits(v) ^ (LowBits(v) << 4), v >> 8);
    LowFolded(v);
  }

  lemma ShiftEightSpreads(v: bv16)
    ensures Shift(Shift(Shift(Shift(Shift(Shift(Shift(Shift(v)))))))) == Mix(LowBits(v) ^ (LowBits(v) << 4), v >> 8)
  {
    hide Shift, ShiftTwo, ShiftFour, Mix, LowBits;
    var w := ShiftFour(v);
    TwoShifts(v);
    TwoShifts(ShiftTwo(v));
    FourShifts(v);
    TwoShifts(w);
    TwoShifts(ShiftTwo(w));
    FourShifts(w);
    EightShifts(v);
  }

  lemma XorData(data: bv8, crc: bv16)
    ensures LowBits(Xor(crc, data as bv16)) == data ^ LowBits(crc)
    ensures Xor(crc, data as bv16) >> 8 == crc >> 8
  {
  }

  lemma NothingLeft(data: bv8, v: bv16)
    ensures HalfN(8, data as bv16) == 0 && Xor(v, 0) == v
  {
    HalfNIsShift(data as bv16);
  }

  /** One byte step is eight bits of division. */
  lemma ByteStepDivides(data: bv8, crc: bv16)
    ensures ByteStep(data, crc) == Divide(Bits(data), crc)
  {
    hide Shift, Mix, LowBits, Bits, Xor;
    SerialBits(data, crc, 8);
    assert Bits(data)[..8] == Bits(data);
    NothingLeft(data, Divide(Bits(data), crc));
    var v := Xor(crc, data as bv16);
    ShiftEight(v);
    ShiftEightSpreads(v);
    XorData(data, crc);
  }

  /** The checksum of a buffer is the remainder of its bit stream. */
  lemma {:induction false} ChecksumDivides(data: seq<byte>, crc: bv16)
    ensures AccumulateAll(data, crc) == Divide(BitStream(data), crc)
    decreases |data|
  {
    hide ByteStep, DivideBit, Bits, ToBits;
    if data != [] {
      var init, last := data[..|data| - 1], ToBits(data[|data| - 1]);
      ChecksumDivides(init, crc);
      ByteStepDivides(last, AccumulateAll(init, crc));
      DivideConcat(BitStream(init), Bits(last), crc);
    }
  }

  /** The published check value of this checksum, that of the nine digits "123456789". */
  lemma CheckValue()
    ensures AccumulateAll([0x31, 0x32, 0x33, 0x34, 0x35, 0x36, 0x37, 0x38, 0x39], X25_INIT_CRC) == 0x6F91
  {
    hide Accumulate, AccumulateAll;
    CheckSteps();
    assert AccumulateAll([], 0xFFFF) == 0xFFFF by { NoneFolded(0xFFFF); }
    OneFolded([], 0x31, 0xFFFF);
    assert [] + [0x31] == [0x31];
    OneFolded([0x31], 0x32, 0xFFFF);
    assert [0x31] + [0x32] == [0x31, 0x32];
    OneFolded([0x31, 0x32], 0x33, 0xFFFF);
    assert [0x31, 0x32] + [0x33] == [0x31, 0x32, 0x33];
    OneFolded([0x31, 0x32, 0x33], 0x34, 0xFFFF);
    assert [0x31, 0x32, 0x33] + [0x34] == [0x31, 0x32, 0x33, 0x34];
    OneFolded([0x31, 0x32, 0x33, 0x34], 0x35, 0xFFFF);
    assert [0x31, 0x32, 0x33, 0x34] + [0x35] == [0x31, 0x32, 0x33, 0x34, 0x35];
    OneFolded([0x31, 0x32, 0x33, 0x34, 0x35], 0x36, 0xFFFF);
    assert [0x31, 0x32, 0x33, 0x34, 0x35] + [0x36] == [0x31, 0x32, 0x33, 0x34, 0x35, 0x36];
    OneFolded([0x31, 0x32, 0x33, 0x34, 0x35, 0x36], 0x37, 0xFFFF);
    assert [0x31, 0x32, 0x33, 0x34, 0x35, 0x36] + [0x37] == [0x31, 0x32, 0x33, 0x34, 0x35, 0x36, 0x37];
    OneFolded([0x31, 0x32, 0x33, 0x34, 0x35, 0x36, 0x37], 0x38, 0xFFFF);
    assert [0x31, 0x32, 0x33, 0x34, 0x35, 0x36, 0x37] + [0x38] == [0x31, 0x32, 0x33, 0x34, 0x35, 0x36, 0x37, 0x38];
    OneFolded([0x31, 0x32, 0x33, 0x34, 0x35, 0x36, 0x37, 0x38], 0x39, 0xFFFF);
    assert [0x31, 0x32, 0x33, 0x34, 0x35, 0x36, 0x37, 0x38] + [0x39]
        == [0x31, 0x32, 0x33, 0x34, 0x35, 0x36, 0x37, 0x38, 0x39];
  }

  lemma NoneFolded(crc: bv16)
    ensures AccumulateAll([], crc) == crc
  {
  }

  lemma OneFolded(data: seq<byte>, d: byte, crc: bv16)
    ensures AccumulateAll(data + [d], crc) == Accumulate(d, AccumulateAll(data, crc))
  {
    assert (data + [d])[..|data|] == data;
  }

  /** The digits, one after the other. */
  lemma CheckSteps()
    ensures Accumulate(0x31, 0xFFFF) == 0x2F8D
    ensures Accumulate(0x32, 0x2F8D) == 0x4D53
    ensures Accumulate(0x33, 0x4D53) == 0x634B
    ensures Accumulate(0x34, 0x634B) == 0x8B13
    ensures Accumulate(0x35, 0x8B13) == 0x44BF
    ensures Accumulate(0x36, 0x44BF) == 0x198D
    ensures Accumulate(0x37, 0x198D) == 0x1AC8
    ensures Accumulate(0x38, 0x1AC8) == 0xF795
    ensures Accumulate(0x39, 0xF795) == 0x6F91
  {
    hide ToBits, ByteStep;
    Digits();
    DigitSteps();
  }

  lemma Digits()
    ensures ToBits(0x31) == 0x31 && ToBits(0x32) == 0x32 && ToBits(0x33) == 0x33
    ensures ToBits(0x34) == 0x34 && ToBits(0x35) == 0x35 && ToBits(0x36) == 0x36
    ensures ToBits(0x37) == 0x37 && ToBits(0x38) == 0x38 && ToBits(0x39) == 0x39
  {
    hide ToBits;
    ToBitsFromBits(0x31);
    ToBitsFromBits(0x32);
    ToBitsFromBits(0x33);
    ToBitsFromBits(0x34);
    ToBitsFromBits(0x35);
    ToBitsFromBits(0x36);
    ToBitsFromBits(0x37);
    ToBitsFromBits(0x38);
    ToBitsFromBits(0x39);
  }

  lemma DigitSteps()
    ensures ByteStep(0x31, 0xFFFF) == 0x2F8D
    ensures ByteStep(0x32, 0x2F8D) == 0x4D53
    ensures ByteStep(0x33, 0x4D53) == 0x634B
    ensures ByteStep(0x34, 0x634B) == 0x8B13
    ensures ByteStep(0x35, 0x8B13) == 0x44BF
    ensures ByteStep(0x36, 0x44BF) == 0x198D
    ensures ByteStep(0x37, 0x198D) == 0x1AC8
    ensures ByteStep(0x38, 0x1AC8) == 0xF795
    ensures ByteStep(0x39, 0xF795) == 0x6F91
  {
  }

  // ----- Residues -----

  lemma ResidueStep(crc: bv16)
    ensures ByteStep(HighBits(crc), ByteStep(LowBits(crc), crc)) == 0
    ensures ByteStep(!HighBits(crc), ByteStep(!LowBits(crc), crc)) == X25_VALIDATE_CRC
  {
  }

  lemma Complement(b: bv8)
    ensures ToBits(255 - FromBits(b)) == !b
  {
    hide ToBits;
    ComplementCounts(b);
    ToBitsFromBits(!b);
  }

  lemma ComplementCounts(b: bv8)
    ensures FromBits(!b) == 255 - FromBits(b)
  {
  }

  /** A buffer followed by its checksum, low byte first, leaves 0; followed by the complement, the good value. */
  lemma Residue(data: seq<byte>, crc: bv16, sum: bv16)
    requires sum == AccumulateAll(data, crc)
    ensures AccumulateAll(data + [CkA(sum), CkB(sum)], crc) == 0
    ensures AccumulateAll(data + [255 - CkA(sum), 255 - CkB(sum)], crc) == X25_VALIDATE_CRC
  {
    hide AccumulateAll, Accumulate, CkA, CkB;
    TwoMore(data, CkA(sum), CkB(sum), crc);
    TwoMore(data, 255 - CkA(sum), 255 - CkB(sum), crc);
    ResidueOfChecksum(sum);
  }

  lemma TwoMore(data: seq<byte>, d: byte, e: byte, crc: bv16)
    ensures AccumulateAll(data + [d, e], crc) == Accumulate(e, Accumulate(d, AccumulateAll(data, crc)))
  {
    hide AccumulateAll, Accumulate;
    AccumulateConcat(data, [d, e], crc);
    AccumulateTwo(d, e, AccumulateAll(data, crc));
  }

  lemma ResidueOfChecksum(sum: bv16)
    ensures Accumulate(CkB(sum), Accumulate(CkA(sum), sum)) == 0
    ensures Accumulate(255 - CkB(sum), Accumulate(255 - CkA(sum), sum)) == X25_VALIDATE_CRC
  {
    hide ByteStep, ToBits, FromBits, LowBits, HighBits;
    ToBitsFromBits(LowBits(sum));
    ToBitsFromBits(HighBits(sum));
    Complement(LowBits(sum));
    Complement(HighBits(sum));
    ResidueStep(sum);
  }

  lemma JoinDetermines(crc: bv16, lo: bv8, hi: bv8)
    ensures Join(LowBits(crc), HighBits(crc)) == crc
    ensures LowBits(Join(lo, hi)) == lo && HighBits(Join(lo, hi)) == hi
  {
  }

  /** The two checksum bytes determine the register. */
  lemma BytesDetermine(crc: bv16, lo: byte, hi: byte)
    ensures FromBytes(CkA(crc), CkB(crc)) == crc
    ensures CkA(FromBytes(lo, hi)) == lo && CkB(FromBytes(lo, hi)) == hi
  {
    hide Join, ToBits, FromBits, LowBits, HighBits;
    JoinDetermines(crc, ToBits(lo), ToBits(hi));
    ToBitsFromBits(LowBits(crc));
    ToBitsFromBits(HighBits(crc));
  }

  // ----- Error detection -----

  /** All but the k low bits of a register. */
  function Mask(k: nat): bv16
    requires k <= 16
  {
    var masks: seq<bv16> := [
      0xFFFF, 0xFFFE, 0xFFFC, 0xFFF8, 0xFFF0, 0xFFE0, 0xFFC0, 0xFF80,
      0xFF00, 0xFE00, 0xFC00, 0xF800, 0xF000, 0xE000, 0xC000, 0x8000, 0x0000];
    masks[k]
  }

  predicate AgreeAbove(c: bv16, d: bv16, mask: bv16) {
    c & mask == d & mask
  }

  lemma MaskSteps(k: nat)
    requires k < 16
    ensures Mask(k + 1) == Mask(k) << 1 && Mask(k) & 0x8000 == 0x8000
  {
  }

  /** The top bit after a division step says whether the generator was subtracted, so a step can be undone. */
  lemma UndoStep(bit: bool, bit': bool, c: bv16, d: bv16, mask: bv16)
    requires mask & 0x8000 == 0x8000
    requires AgreeAbove(DivideBit(bit, c), DivideBit(bit', d), mask)
    ensures AgreeAbove(c, d, mask << 1)
    ensures ((c & 1 == 1) != bit) == ((d & 1 == 1) != bit')
  {
  }

  lemma UndoBit(bit: bool, bit': bool, c: bv16, d: bv16, k: nat)
    requires k < 16 && AgreeAbove(DivideBit(bit, c), DivideBit(bit', d), Mask(k))
    ensures AgreeAbove(c, d, Mask(k + 1)) && (c == d ==> bit == bit')
  {
    hide DivideBit, AgreeAbove, Mask;
    MaskSteps(k);
    UndoStep(bit, bit', c, d, Mask(k));
  }

  lemma LowBitRest(c: bv16, d: bv16)
    requires AgreeAbove(c, d, 0xFFFE) && (c & 1 == 1) == (d & 1 == 1)
    ensures c == d
  {
  }

  /** Two different strings of at most 16 bits leave different registers. */
  lemma {:induction false} ShortStringsDiffer(a: seq<bool>, b: seq<bool>, crc: bv16, k: nat)
    requires |a| == |b| && |a| + k <= 16
    requires AgreeAbove(Divide(a, crc), Divide(b, crc), Mask(k))
    ensures a == b
    decreases |a|
  {
    hide DivideBit, AgreeAbove, Mask;
    if a != [] {
      var n := |a| - 1;
      UndoBit(a[n], b[n], Divide(a[..n], crc), Divide(b[..n], crc), k);
      ShortStringsDiffer(a[..n], b[..n], crc, k + 1);
      assert a == a[..n] + [a[n]] && b == b[..n] + [b[n]];
    }
  }

  lemma StepInjective(bit: bool, c: bv16, d: bv16)
    requires DivideBit(bit, c) == DivideBit(bit, d)
    ensures c == d
  {
    hide DivideBit;
    assert AgreeAbove(DivideBit(bit, c), DivideBit(bit, d), 0xFFFF);
    UndoStep(bit, bit, c, d, 0xFFFF);
    LowBitRest(c, d);
  }

  lemma {:induction false} DivideInjective(bits: seq<bool>, c: bv16, d: bv16)
    requires Divide(bits, c) == Divide(bits, d)
    ensures c == d
    decreases |bits|
  {
    hide DivideBit;
    if bits != [] {
      var n := |bits| - 1;
      StepInjective(bits[n], Divide(bits[..n], c), Divide(bits[..n], d));
      DivideInjective(bits[..n], c, d);
    }
  }

  /** Every error burst of at most 16 consecutive bits changes the remainder, wherever it falls. */
  lemma BurstDetected(before: seq<bool>, a: seq<bool>, b: seq<bool>, after: seq<bool>, crc: bv16)
    requires |a| == |b| <= 16 && a != b
    ensures Divide(before + a + after, crc) != Divide(before + b + after, crc)
  {
    hide DivideBit;
    DivideConcat(before + a, after, crc);
    DivideConcat(before + b, after, crc);
    DivideConcat(before, a, crc);
    DivideConcat(before, b, crc);
    if Divide(before + a + after, crc) == Divide(before + b + after, crc) {
      DivideInjective(after, Divide(before + a, crc), Divide(before + b, crc));
      assert AgreeAbove(Divide(a, Divide(before, crc)), Divide(b, Divide(before, crc)), Mask(0));
      ShortStringsDiffer(a, b, Divide(before, crc), 0);
    }
  }

  /** A register with only the i-th bit set. */
  function Bit(i: nat): bv16
    requires i < 16
  {
    var bits: seq<bv16> := [
      0x0001, 0x0002, 0x0004, 0x0008, 0x0010, 0x0020, 0x0040, 0x0080,
      0x0100, 0x0200, 0x0400, 0x0800, 0x1000, 0x2000, 0x4000, 0x8000];
    bits[i]
  }

  predicate HasBit(x: bv16, bit: bv16) {
    x & bit != 0
  }

  /** Whether the bits of a register from the i-th up hold an odd number of ones. */
  function OddFrom(x: bv16, i: nat): bool
    decreases 16 - i
  {
    if i >= 16 then false else HasBit(x, Bit(i)) != OddFrom(x, i + 1)
  }

  lemma BitsDouble(i: nat)
    requires i < 15
    ensures Bit(i + 1) == Bit(i) << 1 && Bit(i) & 0x8000 == 0
  {
  }

  lemma BitOfHalf(x: bv16, bit: bv16)
    requires bit & 0x8000 == 0
    ensures HasBit(x >> 1, bit) == HasBit(x, bit << 1)
  {
  }

  lemma TopOfHalf(x: bv16)
    ensures !HasBit(x >> 1, Bit(15))
  {
  }

  lemma {:induction false} OddOfHalf(x: bv16, i: nat)
    requires i < 16
    ensures OddFrom(x >> 1, i) == OddFrom(x, i + 1)
    decreases 16 - i
  {
    hide Bit, HasBit;
    if i < 15 {
      BitsDouble(i);
      BitOfHalf(x, Bit(i));
      OddOfHalf(x, i + 1);
    } else {
      TopOfHalf(x);
    }
  }

  lemma BitSubtracted(x: bv16, i: nat)
    requires i < 16
    ensures HasBit(x ^ 0x8408, Bit(i)) == (HasBit(x, Bit(i)) != (i == 3 || i == 10 || i == 15))
  {
    SubtractedAt(x, Bit(i));
  }

  lemma SubtractedAt(x: bv16, bit: bv16)
    requires bit & (bit - 1) == 0
    ensures HasBit(x ^ 0x8408, bit) == (HasBit(x, bit) != (bit == 0x0008 || bit == 0x0400 || bit == 0x8000))
  {
  }

  lemma {:induction false} OddSubtracted(x: bv16, i: nat)
    requires i <= 16
    ensures OddFrom(x ^ 0x8408, i) == (OddFrom(x, i) != (i <= 3 || 10 < i <= 15))
    decreases 16 - i
  {
    hide Bit, HasBit;
    if i < 16 {
      BitSubtracted(x, i);
      OddSubtracted(x, i + 1);
    }
  }

  /** The parity of a register. */
  function Odd(x: bv16): bool {
    OddFrom(x, 0)
  }

  function OddOnes(bits: seq<bool>): bool
    decreases |bits|
  {
    if bits == [] then false else OddOnes(bits[..|bits| - 1]) != bits[|bits| - 1]
  }

  lemma StepParity(bit: bool, crc: bv16)
    ensures Odd(DivideBit(bit, crc)) == (Odd(crc) != bit)
  {
    hide Bit, HasBit;
    OddOfHalf(crc, 0);
    OddSubtracted(crc >> 1, 0);
    LowBit(crc);
  }

  lemma LowBit(x: bv16)
    ensures HasBit(x, Bit(0)) == (x & 1 == 1)
  {
  }

  /** The generator has an even number of terms, so division preserves parity. */
  lemma {:induction false} ParityPreserved(a: seq<bool>, crc: bv16)
    ensures Odd(Divide(a, crc)) == (Odd(crc) != OddOnes(a))
    decreases |a|
  {
    hide DivideBit, Odd;
    if a != [] {
      ParityPreserved(a[..|a| - 1], crc);
      StepParity(a[|a| - 1], Divide(a[..|a| - 1], crc));
    }
  }

  /** Any error that flips an odd number of bits changes the remainder. */
  lemma OddErrorsDetected(a: seq<bool>, b: seq<bool>, crc: bv16)
    requires OddOnes(a) != OddOnes(b)
    ensures Divide(a, crc) != Divide(b, crc)
  {
    hide Odd;
    ParityPreserved(a, crc);
    ParityPreserved(b, crc);
  }

  lemma BitsDetermine(x: bv8, y: bv8)
    ensures Bits(x) == Bits(y) ==> x == y
  {
    if Bits(x) == Bits(y) {
      assert forall i :: 0 <= i < 8 ==> Bits(x)[i] == Bits(y)[i];
      assert Bits(x)[0] == Bits(y)[0] && Bits(x)[1] == Bits(y)[1];
      assert Bits(x)[2] == Bits(y)[2] && Bits(x)[3] == Bits(y)[3];
      assert Bits(x)[4] == Bits(y)[4] && Bits(x)[5] == Bits(y)[5];
      assert Bits(x)[6] == Bits(y)[6] && Bits(x)[7] == Bits(y)[7];
    }
  }

  lemma {:induction false} BitStreamConcat(a: seq<byte>, b: seq<byte>)
    ensures BitStream(a + b) == BitStream(a) + BitStream(b)
    decreases |b|
  {
    hide Bits, ToBits;
    if b == [] {
      assert a + b == a;
    } else {
      assert (a + b)[..|a + b| - 1] == a + b[..|b| - 1];
      BitStreamConcat(a, b[..|b| - 1]);
    }
  }

  lemma {:induction false} BitStreamDetermines(a: seq<byte>, b: seq<byte>)
    requires |a| == |b| && BitStream(a) == BitStream(b)
    ensures a == b
    decreases |a|
  {
    hide Bits, ToBits, FromBits;
    if a != [] {
      var n := |a| - 1;
      var sa, sb := BitStream(a[..n]), BitStream(b[..n]);
      var x, y := Bits(ToBits(a[n])), Bits(ToBits(b[n]));
      assert sa == (sa + x)[..8 * n] && sb == (sb + y)[..8 * n];
      assert x == (sa + x)[8 * n..] && y == (sb + y)[8 * n..];
      BitsDetermine(ToBits(a[n]), ToBits(b[n]));
      assert FromBits(ToBits(a[n])) == FromBits(ToBits(b[n]));
      BitStreamDetermines(a[..n], b[..n]);
      assert a == a[..n] + [a[n]] && b == b[..n] + [b[n]];
    }
  }

  /** The byte form: changing any one or two adjacent bytes changes the checksum. */
  lemma AdjacentBytesDetected(before: seq<byte>, a: seq<byte>, b: seq<byte>, after: seq<byte>, crc: bv16)
    requires |a| == |b| <= 2 && a != b
    ensures AccumulateAll(before + a + after, crc) != AccumulateAll(before + b + after, crc)
  {
    hide Accumulate, DivideBit, Bits, ToBits;
    ChecksumDivides(before + a + after, crc);
    ChecksumDivides(before + b + after, crc);
    BitStreamConcat(before + a, after);
    BitStreamConcat(before + b, after);
    BitStreamConcat(before, a);
    BitStreamConcat(before, b);
    if BitStream(a) == BitStream(b) {
      BitStreamDetermines(a, b);
    }
    BurstDetected(BitStream(before), BitStream(a), BitStream(b), BitStream(after), crc);
  }
}
