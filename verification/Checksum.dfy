/**
  The CRC-8 over a packet: the 256-entry table, the polynomial behind it, and what follows
  for error detection.
 */
module Checksum {

  type Byte = bv8

  /** One line of the source's table; the entry of low nibble 0 is the lowest byte. */
  function TableLine(high: Byte): bv128 {
    if high == 0x0 then 0x41_1F_FD_A3_20_7E_9C_C2_83_DD_3F_61_E2_BC_5E_00
    else if high == 0x1 then 0xDC_82_60_3E_BD_E3_01_5F_1E_40_A2_FC_7F_21_C3_9D
    else if high == 0x2 then 0x62_3C_DE_80_03_5D_BF_E1_A0_FE_1C_42_C1_9F_7D_23
    else if high == 0x3 then 0xFF_A1_43_1D_9E_C0_22_7C_3D_63_81_DF_5C_02_E0_BE
    else if high == 0x4 then 0x07_59_BB_E5_66_38_DA_84_C5_9B_79_27_A4_FA_18_46
    else if high == 0x5 then 0x9A_C4_26_78_FB_A5_47_19_58_06_E4_BA_39_67_85_DB
    else if high == 0x6 then 0x24_7A_98_C6_45_1B_F9_A7_E6_B8_5A_04_87_D9_3B_65
    else if high == 0x7 then 0xB9_E7_05_5B_D8_86_64_3A_7B_25_C7_99_1A_44_A6_F8
    else if high == 0x8 then 0xCD_93_71_2F_AC_F2_10_4E_0F_51_B3_ED_6E_30_D2_8C
    else if high == 0x9 then 0x50_0E_EC_B2_31_6F_8D_D3_92_CC_2E_70_F3_AD_4F_11
    else if high == 0xA then 0xEE_B0_52_0C_8F_D1_33_6D_2C_72_90_CE_4D_13_F1_AF
    else if high == 0xB then 0x73_2D_CF_91_12_4C_AE_F0_B1_EF_0D_53_D0_8E_6C_32
    else if high == 0xC then 0x8B_D5_37_69_EA_B4_56_08_49_17_F5_AB_28_76_94_CA
    else if high == 0xD then 0x16_48_AA_F4_77_29_CB_95_D4_8A_68_36_B5_EB_09_57
    else if high == 0xE then 0xA8_F6_14_4A_C9_97_75_2B_6A_34_D6_88_0B_55_B7_E9
    else 0x35_6B_89_D7_54_0A_E8_B6_F7_A9_4B_15_96_C8_2A_74
  }

  function CrcTable(x: Byte): Byte {
    ((TableLine(x >> 4) >> ((x & 0x0F) as bv128 * 8)) & 0xFF) as bv8
  }

  /** One bit of the reflected shift register for x^8 + x^5 + x^4 + 1. */
  function Shift(x: Byte): Byte {
    (x >> 1) ^ ((0 - (x & 1)) & 0x8C)
  }

  function Shift8(x: Byte): Byte {
    Shift(Shift(Shift(Shift(Shift(Shift(Shift(Shift(x))))))))
  }

  /** The table is that polynomial, worked out for eight bits at a time. */
  lemma TableIsPolynomial(x: Byte)
    ensures CrcTable(x) == Shift8(x)
  {}

  /** Exclusive or under a name, so that longer proofs can hide it. */
  function Plus(x: Byte, y: Byte): Byte {
    x ^ y
  }

  lemma ShiftOfXor(x: Byte, y: Byte)
    ensures Shift(x ^ y) == Shift(x) ^ Shift(y)
  {}

  lemma ShiftLinear(x: Byte, y: Byte)
    ensures Shift(Plus(x, y)) == Plus(Shift(x), Shift(y))
  {
    hide Shift;
    ShiftOfXor(x, y);
  }

  lemma Shift8Linear(x: Byte, y: Byte)
    ensures Shift8(Plus(x, y)) == Plus(Shift8(x), Shift8(y))
  {
    hide Shift, Plus;
    var x1, y1 := Shift(x), Shift(y);
    var x2, y2 := Shift(x1), Shift(y1);
    var x3, y3 := Shift(x2), Shift(y2);
    var x4, y4 := Shift(x3), Shift(y3);
    var x5, y5 := Shift(x4), Shift(y4);
    var x6, y6 := Shift(x5), Shift(y5);
    var x7, y7 := Shift(x6), Shift(y6);
    ShiftLinear(x, y);
    ShiftLinear(x1, y1);
    ShiftLinear(x2, y2);
    ShiftLinear(x3, y3);
    ShiftLinear(x4, y4);
    ShiftLinear(x5, y5);
    ShiftLinear(x6, y6);
    ShiftLinear(x7, y7);
  }

  /** The table respects exclusive or. */
  lemma TableLinear(x: Byte, y: Byte)
    ensures CrcTable(Plus(x, y)) == Plus(CrcTable(x), CrcTable(y))
  {
    hide CrcTable, Shift8, Plus;
    TableIsPolynomial(x);
    TableIsPolynomial(y);
    TableIsPolynomial(Plus(x, y));
    Shift8Linear(x, y);
  }

  /** Only zero maps to zero; with linearity, the table is a permutation. */
  lemma TableKernel(x: Byte)
    ensures CrcTable(x) == 0 <==> x == 0
  {
    hide CrcTable;
    TableIsPolynomial(x);
  }

  /** The running checksum c after the given bytes. */
  function Crc(c: Byte, data: seq<Byte>): Byte {
    if |data| == 0 then c
    else CrcTable(Plus(data[|data| - 1], Crc(c, data[..|data| - 1])))
  }

  lemma CrcEmpty(c: Byte)
    ensures Crc(c, []) == c
  {}

  lemma CrcAppend(c: Byte, data: seq<Byte>, x: Byte)
    ensures Crc(c, data + [x]) == CrcTable(Plus(x, Crc(c, data)))
  {
    hide CrcTable, Plus;
    assert (data + [x])[..|data|] == data;
  }

  function Xor(x: seq<Byte>, y: seq<Byte>): (r: seq<Byte>)
    requires |x| == |y|
    ensures |r| == |x|
    ensures forall i | 0 <= i < |r| :: r[i] == Plus(x[i], y[i])
  {
    seq(|x|, i requires 0 <= i < |x| => Plus(x[i], y[i]))
  }

  lemma Exchange(a: Byte, b: Byte, c: Byte, d: Byte)
    ensures Plus(Plus(a, b), Plus(c, d)) == Plus(Plus(a, c), Plus(b, d))
  {
    assert (a ^ b) ^ (c ^ d) == (a ^ c) ^ (b ^ d);
  }

  lemma PlusZero(a: Byte)
    ensures Plus(0, a) == a == Plus(a, 0)
  {}

  lemma PlusCancels(a: Byte, b: Byte)
    ensures Plus(a, b) == 0 <==> a == b
    ensures Plus(Plus(a, b), b) == a
  {}

  /** The checksum of a difference is the difference of the checksums. */
  lemma {:induction false} CrcLinear(c: Byte, d: Byte, x: seq<Byte>, y: seq<Byte>)
    requires |x| == |y|
    ensures Crc(Plus(c, d), Xor(x, y)) == Plus(Crc(c, x), Crc(d, y))
    decreases |x|
  {
    hide CrcTable, Plus;
    if |x| > 0 {
      var n := |x| - 1;
      CrcLinear(c, d, x[..n], y[..n]);
      assert Xor(x, y)[..n] == Xor(x[..n], y[..n]);
      var cx, cy := Crc(c, x[..n]), Crc(d, y[..n]);
      Exchange(x[n], y[n], cx, cy);
      TableLinear(Plus(x[n], cx), Plus(y[n], cy));
    }
  }

  /** A non-zero running checksum stays non-zero over zero bytes. */
  lemma {:induction false} CrcOfZeros(c: Byte, data: seq<Byte>)
    requires forall i | 0 <= i < |data| :: data[i] == 0
    ensures Crc(c, data) == 0 <==> c == 0
    decreases |data|
  {
    hide CrcTable, Plus;
    if |data| > 0 {
      CrcOfZeros(c, data[..|data| - 1]);
      PlusZero(Crc(c, data[..|data| - 1]));
      TableKernel(Crc(c, data[..|data| - 1]));
    }
  }

  /** A single non-zero byte is never cancelled. */
  lemma {:induction false} CrcOfOneByte(data: seq<Byte>, k: nat)
    requires k < |data| && data[k] != 0
    requires forall i | 0 <= i < |data| && i != k :: data[i] == 0
    ensures Crc(0, data) != 0
    decreases |data|
  {
    hide CrcTable, Plus;
    var n := |data| - 1;
    var c := Crc(0, data[..n]);
    if k < n {
      CrcOfOneByte(data[..n], k);
      PlusZero(c);
      TableKernel(c);
    } else {
      CrcOfZeros(0, data[..n]);
      PlusZero(data[n]);
      TableKernel(data[n]);
    }
  }
}
