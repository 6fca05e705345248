/** The table-driven CRC of quantum/crc.c. */
module CrcTable {
  import opened Crc

  function Row0(lo: bv8): bv8
  {
    match lo
    case 0 => 0x00 case 1 => 0x07 case 2 => 0x0e case 3 => 0x09 case 4 => 0x1c case 5 => 0x1b
    case 6 => 0x12 case 7 => 0x15 case 8 => 0x38 case 9 => 0x3f case 10 => 0x36 case 11 => 0x31
    case 12 => 0x24 case 13 => 0x23 case 14 => 0x2a case _ => 0x2d
  }

  function Row1(lo: bv8): bv8
  {
    match lo
    case 0 => 0x70 case 1 => 0x77 case 2 => 0x7e case 3 => 0x79 case 4 => 0x6c case 5 => 0x6b
    case 6 => 0x62 case 7 => 0x65 case 8 => 0x48 case 9 => 0x4f case 10 => 0x46 case 11 => 0x41
    case 12 => 0x54 case 13 => 0x53 case 14 => 0x5a case _ => 0x5d
  }

  function Row2(lo: bv8): bv8
  {
    match lo
    case 0 => 0xe0 case 1 => 0xe7 case 2 => 0xee case 3 => 0xe9 case 4 => 0xfc case 5 => 0xfb
    case 6 => 0xf2 case 7 => 0xf5 case 8 => 0xd8 case 9 => 0xdf case 10 => 0xd6 case 11 => 0xd1
    case 12 => 0xc4 case 13 => 0xc3 case 14 => 0xca case _ => 0xcd
  }

  function Row3(lo: bv8): bv8
  {
    match lo
    case 0 => 0x90 case 1 => 0x97 case 2 => 0x9e case 3 => 0x99 case 4 => 0x8c case 5 => 0x8b
    case 6 => 0x82 case 7 => 0x85 case 8 => 0xa8 case 9 => 0xaf case 10 => 0xa6 case 11 => 0xa1
    case 12 => 0xb4 case 13 => 0xb3 case 14 => 0xba case _ => 0xbd
  }

  function Row4(lo: bv8): bv8
  {
    match lo
    case 0 => 0xc7 case 1 => 0xc0 case 2 => 0xc9 case 3 => 0xce case 4 => 0xdb case 5 => 0xdc
    case 6 => 0xd5 case 7 => 0xd2 case 8 => 0xff case 9 => 0xf8 case 10 => 0xf1 case 11 => 0xf6
    case 12 => 0xe3 case 13 => 0xe4 case 14 => 0xed case _ => 0xea
  }

  function Row5(lo: bv8): bv8
  {
    match lo
    case 0 => 0xb7 case 1 => 0xb0 case 2 => 0xb9 case 3 => 0xbe case 4 => 0xab case 5 => 0xac
    case 6 => 0xa5 case 7 => 0xa2 case 8 => 0x8f case 9 => 0x88 case 10 => 0x81 case 11 => 0x86
    case 12 => 0x93 case 13 => 0x94 case 14 => 0x9d case _ => 0x9a
  }

  function Row6(lo: bv8): bv8
  {
    match lo
    case 0 => 0x27 case 1 => 0x20 case 2 => 0x29 case 3 => 0x2e case 4 => 0x3b case 5 => 0x3c
    case 6 => 0x35 case 7 => 0x32 case 8 => 0x1f case 9 => 0x18 case 10 => 0x11 case 11 => 0x16
    case 12 => 0x03 case 13 => 0x04 case 14 => 0x0d case _ => 0x0a
  }

  function Row7(lo: bv8): bv8
  {
    match lo
    case 0 => 0x57 case 1 => 0x50 case 2 => 0x59 case 3 => 0x5e case 4 => 0x4b case 5 => 0x4c
    case 6 => 0x45 case 7 => 0x42 case 8 => 0x6f case 9 => 0x68 case 10 => 0x61 case 11 => 0x66
    case 12 => 0x73 case 13 => 0x74 case 14 => 0x7d case _ => 0x7a
  }

  function Row8(lo: bv8): bv8
  {
    match lo
    case 0 => 0x89 case 1 => 0x8e case 2 => 0x87 case 3 => 0x80 case 4 => 0x95 case 5 => 0x92
    case 6 => 0x9b case 7 => 0x9c case 8 => 0xb1 case 9 => 0xb6 case 10 => 0xbf case 11 => 0xb8
    case 12 => 0xad case 13 => 0xaa case 14 => 0xa3 case _ => 0xa4
  }

  function Row9(lo: bv8): bv8
  {
    match lo
    case 0 => 0xf9 case 1 => 0xfe case 2 => 0xf7 case 3 => 0xf0 case 4 => 0xe5 case 5 => 0xe2
    case 6 => 0xeb case 7 => 0xec case 8 => 0xc1 case 9 => 0xc6 case 10 => 0xcf case 11 => 0xc8
    case 12 => 0xdd case 13 => 0xda case 14 => 0xd3 case _ => 0xd4
  }

  function RowA(lo: bv8): bv8
  {
    match lo
    case 0 => 0x69 case 1 => 0x6e case 2 => 0x67 case 3 => 0x60 case 4 => 0x75 case 5 => 0x72
    case 6 => 0x7b case 7 => 0x7c case 8 => 0x51 case 9 => 0x56 case 10 => 0x5f case 11 => 0x58
    case 12 => 0x4d case 13 => 0x4a case 14 => 0x43 case _ => 0x44
  }

  function RowB(lo: bv8): bv8
  {
    match lo
    case 0 => 0x19 case 1 => 0x1e case 2 => 0x17 case 3 => 0x10 case 4 => 0x05 case 5 => 0x02
    case 6 => 0x0b case 7 => 0x0c case 8 => 0x21 case 9 => 0x26 case 10 => 0x2f case 11 => 0x28
    case 12 => 0x3d case 13 => 0x3a case 14 => 0x33 case _ => 0x34
  }

  function RowC(lo: bv8): bv8
  {
    match lo
    case 0 => 0x4e case 1 => 0x49 case 2 => 0x40 case 3 => 0x47 case 4 => 0x52 case 5 => 0x55
    case 6 => 0x5c case 7 => 0x5b case 8 => 0x76 case 9 => 0x71 case 10 => 0x78 case 11 => 0x7f
    case 12 => 0x6a case 13 => 0x6d case 14 => 0x64 case _ => 0x63
  }

  function RowD(lo: bv8): bv8
  {
    match lo
    case 0 => 0x3e case 1 => 0x39 case 2 => 0x30 case 3 => 0x37 case 4 => 0x22 case 5 => 0x25
    case 6 => 0x2c case 7 => 0x2b case 8 => 0x06 case 9 => 0x01 case 10 => 0x08 case 11 => 0x0f
    case 12 => 0x1a case 13 => 0x1d case 14 => 0x14 case _ => 0x13
  }

  function RowE(lo: bv8): bv8
  {
    match lo
    case 0 => 0xae case 1 => 0xa9 case 2 => 0xa0 case 3 => 0xa7 case 4 => 0xb2 case 5 => 0xb5
    case 6 => 0xbc case 7 => 0xbb case 8 => 0x96 case 9 => 0x91 case 10 => 0x98 case 11 => 0x9f
    case 12 => 0x8a case 13 => 0x8d case 14 => 0x84 case _ => 0x83
  }

  function RowF(lo: bv8): bv8
  {
    match lo
    case 0 => 0xde case 1 => 0xd9 case 2 => 0xd0 case 3 => 0xd7 case 4 => 0xc2 case 5 => 0xc5
    case 6 => 0xcc case 7 => 0xcb case 8 => 0xe6 case 9 => 0xe1 case 10 => 0xe8 case 11 => 0xef
    case 12 => 0xfa case 13 => 0xfd case 14 => 0xf4 case _ => 0xf3
  }

  /** The 256 entries, in rows of 16. */
  function Table(i: bv8): bv8
  {
    var lo := i & 0x0f;
    match i & 0xf0
    case 0x00 => Row0(lo)
    case 0x10 => Row1(lo)
    case 0x20 => Row2(lo)
    case 0x30 => Row3(lo)
    case 0x40 => Row4(lo)
    case 0x50 => Row5(lo)
    case 0x60 => Row6(lo)
    case 0x70 => Row7(lo)
    case 0x80 => Row8(lo)
    case 0x90 => Row9(lo)
    case 0xa0 => RowA(lo)
    case 0xb0 => RowB(lo)
    case 0xc0 => RowC(lo)
    case 0xd0 => RowD(lo)
    case 0xe0 => RowE(lo)
    case _ => RowF(lo)
  }

  lemma RowsShift(lo: bv8)
    requires lo < 16
    ensures Row0(lo) == Xor(0x00, Row0(lo))
    ensures Row1(lo) == Xor(0x70, Row0(lo))
    ensures Row2(lo) == Xor(0xe0, Row0(lo))
    ensures Row3(lo) == Xor(0x90, Row0(lo))
    ensures Row4(lo) == Xor(0xc7, Row0(lo))
    ensures Row5(lo) == Xor(0xb7, Row0(lo))
    ensures Row6(lo) == Xor(0x27, Row0(lo))
    ensures Row7(lo) == Xor(0x57, Row0(lo))
    ensures Row8(lo) == Xor(0x89, Row0(lo))
    ensures Row9(lo) == Xor(0xf9, Row0(lo))
    ensures RowA(lo) == Xor(0x69, Row0(lo))
    ensures RowB(lo) == Xor(0x19, Row0(lo))
    ensures RowC(lo) == Xor(0x4e, Row0(lo))
    ensures RowD(lo) == Xor(0x3e, Row0(lo))
    ensures RowE(lo) == Xor(0xae, Row0(lo))
    ensures RowF(lo) == Xor(0xde, Row0(lo))
  {
  }

  lemma FirstRow(lo: bv8)
    requires lo < 16
    ensures Row0(lo) == EightBits(TABLE_POLYNOMIAL, lo)
  {
  }

  lemma FirstColumn()
    ensures EightBits(TABLE_POLYNOMIAL, 0x00) == 0x00
    ensures EightBits(TABLE_POLYNOMIAL, 0x10) == 0x70
    ensures EightBits(TABLE_POLYNOMIAL, 0x20) == 0xe0
    ensures EightBits(TABLE_POLYNOMIAL, 0x30) == 0x90
    ensures EightBits(TABLE_POLYNOMIAL, 0x40) == 0xc7
    ensures EightBits(TABLE_POLYNOMIAL, 0x50) == 0xb7
    ensures EightBits(TABLE_POLYNOMIAL, 0x60) == 0x27
    ensures EightBits(TABLE_POLYNOMIAL, 0x70) == 0x57
    ensures EightBits(TABLE_POLYNOMIAL, 0x80) == 0x89
    ensures EightBits(TABLE_POLYNOMIAL, 0x90) == 0xf9
    ensures EightBits(TABLE_POLYNOMIAL, 0xa0) == 0x69
    ensures EightBits(TABLE_POLYNOMIAL, 0xb0) == 0x19
    ensures EightBits(TABLE_POLYNOMIAL, 0xc0) == 0x4e
    ensures EightBits(TABLE_POLYNOMIAL, 0xd0) == 0x3e
    ensures EightBits(TABLE_POLYNOMIAL, 0xe0) == 0xae
    ensures EightBits(TABLE_POLYNOMIAL, 0xf0) == 0xde
  {
  }

  lemma Halves(i: bv8)
    ensures Xor(i & 0xf0, i & 0x0f) == i && i & 0x0f < 16
    ensures
      || i & 0xf0 == 0x00 || i & 0xf0 == 0x10 || i & 0xf0 == 0x20 || i & 0xf0 == 0x30
      || i & 0xf0 == 0x40 || i & 0xf0 == 0x50 || i & 0xf0 == 0x60 || i & 0xf0 == 0x70
      || i & 0xf0 == 0x80 || i & 0xf0 == 0x90 || i & 0xf0 == 0xa0 || i & 0xf0 == 0xb0
      || i & 0xf0 == 0xc0 || i & 0xf0 == 0xd0 || i & 0xf0 == 0xe0 || i & 0xf0 == 0xf0
  {
  }

  /** Every entry of the table is eight bit steps. */
  lemma TableIsSteps(i: bv8)
    ensures Table(i) == Bits(TABLE_POLYNOMIAL, i, 8)
  {
    hide Row0, Row1, Row2, Row3, Row4, Row5, Row6, Row7, Row8, Row9, RowA, RowB, RowC, RowD, RowE, RowF;
    hide Xor, EightBits, Bits;
    var hi, lo := i & 0xf0, i & 0x0f;
    Halves(i);
    BitsLinear(TABLE_POLYNOMIAL, hi, lo, 8);
    EightAreBits(TABLE_POLYNOMIAL, hi);
    EightAreBits(TABLE_POLYNOMIAL, lo);
    FirstRow(lo);
    FirstColumn();
    RowsShift(lo);
  }

  /** The table loop. */
  method Crc8(data: seq<bv8>) returns (crc: bv8)
    ensures crc == Checksum(TABLE_POLYNOMIAL, data)
  {
    hide Table, Xor;
    crc := 0xff;
    assert data[..|data|] == data;
    for i := 0 to |data|
      invariant crc == Checksum(TABLE_POLYNOMIAL, data[..i])
    {
      TableIsSteps(Xor(crc, data[i]));
      assert data[..i + 1] == data[..i] + [data[i]];
      CrcSnoc(TABLE_POLYNOMIAL, data[..i], data[i]);
      crc := Table(Xor(crc, data[i]));
    }
  }

  const DIGITS: seq<bv8> := [0x31, 0x32, 0x33, 0x34, 0x35, 0x36, 0x37, 0x38, 0x39]

  /** The check values: both codes of the digits 1 to 9. */
  lemma CheckValues()
    ensures Checksum(LOOP_POLYNOMIAL, DIGITS) == 0xF7 && Checksum(TABLE_POLYNOMIAL, DIGITS) == 0xFB
  {
    hide EightBits, Xor, Checksum;
    LoopSteps();
    LoopStepsOn();
    CheckValue(LOOP_POLYNOMIAL, [0xFF, 0x58, 0x60, 0x2D, 0xCB, 0x9D, 0x16, 0xB7, 0x54, 0xF7], 9);
    TableSteps();
    TableStepsOn();
    CheckValue(TABLE_POLYNOMIAL, [0xFF, 0x64, 0xA5, 0xEB, 0x13, 0xF2, 0x52, 0x3C, 0x1C, 0xFB], 9);
    assert DIGITS[..9] == DIGITS;
  }

  lemma {:induction false} CheckValue(poly: bv8, values: seq<bv8>, n: nat)
    requires |values| == 10 && values[0] == 0xFF && n <= 9
    requires forall i :: 0 <= i < 9 ==> EightBits(poly, Xor(values[i], DIGITS[i])) == values[i + 1]
    ensures Checksum(poly, DIGITS[..n]) == values[n]
  {
    hide EightBits, Xor, Bits;
    if n > 0 {
      CheckValue(poly, values, n - 1);
      assert DIGITS[..n] == DIGITS[..n - 1] + [DIGITS[n - 1]];
      CrcSnoc(poly, DIGITS[..n - 1], DIGITS[n - 1]);
      EightAreBits(poly, Xor(values[n - 1], DIGITS[n - 1]));
    }
  }

  lemma LoopSteps()
    ensures EightBits(LOOP_POLYNOMIAL, Xor(0xFF, 0x31)) == 0x58
    ensures EightBits(LOOP_POLYNOMIAL, Xor(0x58, 0x32)) == 0x60
    ensures EightBits(LOOP_POLYNOMIAL, Xor(0x60, 0x33)) == 0x2D
    ensures EightBits(LOOP_POLYNOMIAL, Xor(0x2D, 0x34)) == 0xCB
    ensures EightBits(LOOP_POLYNOMIAL, Xor(0xCB, 0x35)) == 0x9D
  {
  }

  lemma LoopStepsOn()
    ensures EightBits(LOOP_POLYNOMIAL, Xor(0x9D, 0x36)) == 0x16
    ensures EightBits(LOOP_POLYNOMIAL, Xor(0x16, 0x37)) == 0xB7
    ensures EightBits(LOOP_POLYNOMIAL, Xor(0xB7, 0x38)) == 0x54
    ensures EightBits(LOOP_POLYNOMIAL, Xor(0x54, 0x39)) == 0xF7
  {
  }

  lemma TableSteps()
    ensures EightBits(TABLE_POLYNOMIAL, Xor(0xFF, 0x31)) == 0x64
    ensures EightBits(TABLE_POLYNOMIAL, Xor(0x64, 0x32)) == 0xA5
    ensures EightBits(TABLE_POLYNOMIAL, Xor(0xA5, 0x33)) == 0xEB
    ensures EightBits(TABLE_POLYNOMIAL, Xor(0xEB, 0x34)) == 0x13
    ensures EightBits(TABLE_POLYNOMIAL, Xor(0x13, 0x35)) == 0xF2
  {
  }

  lemma TableStepsOn()
    ensures EightBits(TABLE_POLYNOMIAL, Xor(0xF2, 0x36)) == 0x52
    ensures EightBits(TABLE_POLYNOMIAL, Xor(0x52, 0x37)) == 0x3C
    ensures EightBits(TABLE_POLYNOMIAL, Xor(0x3C, 0x38)) == 0x1C
    ensures EightBits(TABLE_POLYNOMIAL, Xor(0x1C, 0x39)) == 0xFB
  {
  }

  /** The two builds compute different codes. */
  lemma BuildsDiffer()
    ensures Checksum(LOOP_POLYNOMIAL, [0xfe]) != Checksum(TABLE_POLYNOMIAL, [0xfe])
  {
    hide Bits;
    CrcSnoc(LOOP_POLYNOMIAL, [], 0xfe);
    CrcSnoc(TABLE_POLYNOMIAL, [], 0xfe);
    assert [] + [0xfe as bv8] == [0xfe];
    assert Xor(0xff, 0xfe) == 1;
    EightAreBits(LOOP_POLYNOMIAL, 1);
    EightAreBits(TABLE_POLYNOMIAL, 1);
  }
}
