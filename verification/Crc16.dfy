// The table-driven CRC16 of cluster/crc16.py, and the polynomial division it stands for.

module Crc16 {
  import opened Bytes

  // The table, eight entries to a row.

  const ROW_0: seq<bv16> := [0x0000, 0x1021, 0x2042, 0x3063, 0x4084, 0x50A5, 0x60C6, 0x70E7]
  const ROW_1: seq<bv16> := [0x8108, 0x9129, 0xA14A, 0xB16B, 0xC18C, 0xD1AD, 0xE1CE, 0xF1EF]
  const ROW_2: seq<bv16> := [0x1231, 0x0210, 0x3273, 0x2252, 0x52B5, 0x4294, 0x72F7, 0x62D6]
  const ROW_3: seq<bv16> := [0x9339, 0x8318, 0xB37B, 0xA35A, 0xD3BD, 0xC39C, 0xF3FF, 0xE3DE]
  const ROW_4: seq<bv16> := [0x2462, 0x3443, 0x0420, 0x1401, 0x64E6, 0x74C7, 0x44A4, 0x5485]
  const ROW_5: seq<bv16> := [0xA56A, 0xB54B, 0x8528, 0x9509, 0xE5EE, 0xF5CF, 0xC5AC, 0xD58D]
  const ROW_6: seq<bv16> := [0x3653, 0x2672, 0x1611, 0x0630, 0x76D7, 0x66F6, 0x5695, 0x46B4]
  const ROW_7: seq<bv16> := [0xB75B, 0xA77A, 0x9719, 0x8738, 0xF7DF, 0xE7FE, 0xD79D, 0xC7BC]
  const ROW_8: seq<bv16> := [0x48C4, 0x58E5, 0x6886, 0x78A7, 0x0840, 0x1861, 0x2802, 0x3823]
  const ROW_9: seq<bv16> := [0xC9CC, 0xD9ED, 0xE98E, 0xF9AF, 0x8948, 0x9969, 0xA90A, 0xB92B]
  const ROW_10: seq<bv16> := [0x5AF5, 0x4AD4, 0x7AB7, 0x6A96, 0x1A71, 0x0A50, 0x3A33, 0x2A12]
  const ROW_11: seq<bv16> := [0xDBFD, 0xCBDC, 0xFBBF, 0xEB9E, 0x9B79, 0x8B58, 0xBB3B, 0xAB1A]
  const ROW_12: seq<bv16> := [0x6CA6, 0x7C87, 0x4CE4, 0x5CC5, 0x2C22, 0x3C03, 0x0C60, 0x1C41]
  const ROW_13: seq<bv16> := [0xEDAE, 0xFD8F, 0xCDEC, 0xDDCD, 0xAD2A, 0xBD0B, 0x8D68, 0x9D49]
  const ROW_14: seq<bv16> := [0x7E97, 0x6EB6, 0x5ED5, 0x4EF4, 0x3E13, 0x2E32, 0x1E51, 0x0E70]
  const ROW_15: seq<bv16> := [0xFF9F, 0xEFBE, 0xDFDD, 0xCFFC, 0xBF1B, 0xAF3A, 0x9F59, 0x8F78]
  const ROW_16: seq<bv16> := [0x9188, 0x81A9, 0xB1CA, 0xA1EB, 0xD10C, 0xC12D, 0xF14E, 0xE16F]
  const ROW_17: seq<bv16> := [0x1080, 0x00A1, 0x30C2, 0x20E3, 0x5004, 0x4025, 0x7046, 0x6067]
  const ROW_18: seq<bv16> := [0x83B9, 0x9398, 0xA3FB, 0xB3DA, 0xC33D, 0xD31C, 0xE37F, 0xF35E]
  const ROW_19: seq<bv16> := [0x02B1, 0x1290, 0x22F3, 0x32D2, 0x4235, 0x5214, 0x6277, 0x7256]
  const ROW_20: seq<bv16> := [0xB5EA, 0xA5CB, 0x95A8, 0x8589, 0xF56E, 0xE54F, 0xD52C, 0xC50D]
  const ROW_21: seq<bv16> := [0x34E2, 0x24C3, 0x14A0, 0x0481, 0x7466, 0x6447, 0x5424, 0x4405]
  const ROW_22: seq<bv16> := [0xA7DB, 0xB7FA, 0x8799, 0x97B8, 0xE75F, 0xF77E, 0xC71D, 0xD73C]
  const ROW_23: seq<bv16> := [0x26D3, 0x36F2, 0x0691, 0x16B0, 0x6657, 0x7676, 0x4615, 0x5634]
  const ROW_24: seq<bv16> := [0xD94C, 0xC96D, 0xF90E, 0xE92F, 0x99C8, 0x89E9, 0xB98A, 0xA9AB]
  const ROW_25: seq<bv16> := [0x5844, 0x4865, 0x7806, 0x6827, 0x18C0, 0x08E1, 0x3882, 0x28A3]
  const ROW_26: seq<bv16> := [0xCB7D, 0xDB5C, 0xEB3F, 0xFB1E, 0x8BF9, 0x9BD8, 0xABBB, 0xBB9A]
  const ROW_27: seq<bv16> := [0x4A75, 0x5A54, 0x6A37, 0x7A16, 0x0AF1, 0x1AD0, 0x2AB3, 0x3A92]
  const ROW_28: seq<bv16> := [0xFD2E, 0xED0F, 0xDD6C, 0xCD4D, 0xBDAA, 0xAD8B, 0x9DE8, 0x8DC9]
  const ROW_29: seq<bv16> := [0x7C26, 0x6C07, 0x5C64, 0x4C45, 0x3CA2, 0x2C83, 0x1CE0, 0x0CC1]
  const ROW_30: seq<bv16> := [0xEF1F, 0xFF3E, 0xCF5D, 0xDF7C, 0xAF9B, 0xBFBA, 0x8FD9, 0x9FF8]
  const ROW_31: seq<bv16> := [0x6E17, 0x7E36, 0x4E55, 0x5E74, 0x2E93, 0x3EB2, 0x0ED1, 0x1EF0]

  // Eight rows to a group.

  const GROUP_0: seq<seq<bv16>> := [ROW_0, ROW_1, ROW_2, ROW_3, ROW_4, ROW_5, ROW_6, ROW_7]
  const GROUP_1: seq<seq<bv16>> := [ROW_8, ROW_9, ROW_10, ROW_11, ROW_12, ROW_13, ROW_14, ROW_15]
  const GROUP_2: seq<seq<bv16>> := [ROW_16, ROW_17, ROW_18, ROW_19, ROW_20, ROW_21, ROW_22, ROW_23]
  const GROUP_3: seq<seq<bv16>> := [ROW_24, ROW_25, ROW_26, ROW_27, ROW_28, ROW_29, ROW_30, ROW_31]

  const CRC16_TABLE: seq<seq<seq<bv16>>> := [GROUP_0, GROUP_1, GROUP_2, GROUP_3]

  // ---------------------------------------------------------------------------------------------
  // Division by x^16 + x^12 + x^5 + 1, bit by bit
  // ---------------------------------------------------------------------------------------------

  const POLYNOMIAL: bv16 := 0x1021

  /** Polynomials over two elements: adding is the exclusive or. */
  function Plus(x: bv16, y: bv16): bv16 { x ^ y }

  function Up(w: bv16): bv16 { w << 1 }

  function HighBit(w: bv16): bv16 { (w >> 15) & 1 }

  /** A bit at the top of the register. */
  function AtTop(bit: bv16): bv16 { bit << 15 }

  /** Twice a remainder, reduced: when a bit falls out at the top, the divisor is subtracted. */
  function Doubled(r: bv16): bv16 {
    if HighBit(r) == 1 then Plus(Up(r), POLYNOMIAL) else Up(r)
  }

  predicate IsBit(bit: bv16) { bit == 0 || bit == 1 }

  predicate AreBits(bits: seq<bv16>) {
    forall k :: 0 <= k < |bits| ==> IsBit(bits[k])
  }

  /** The top n bits of a word, the highest first. */
  function TopBits(w: bv16, n: nat): (bits: seq<bv16>)
    ensures |bits| == n && AreBits(bits)
    decreases n
  {
    if n == 0 then [] else [HighBit(w)] + TopBits(Up(w), n - 1)
  }

  function ByteBits(b: byte): seq<bv16> {
    TopBits((b as bv16) << 8, 8)
  }

  function MessageBits(data: bytes): (bits: seq<bv16>)
    ensures AreBits(bits)
  {
    if data == [] then [] else ByteBits(data[0]) + MessageBits(data[1..])
  }

  const ZEROS: seq<bv16> := [0, 0, 0, 0, 0, 0, 0, 0, 0, 0, 0, 0, 0, 0, 0, 0]

  /** Long division: bring down one bit of the dividend after the other. */
  function Remainder(r: bv16, bits: seq<bv16>): bv16
    decreases |bits|
  {
    if bits == [] then r else Remainder(Plus(Doubled(r), bits[0]), bits[1..])
  }

  /** CRC16 by definition: the remainder of the message times x^16, starting from zero. */
  function Division(data: bytes): bv16 {
    Remainder(0, MessageBits(data) + ZEROS)
  }

  lemma {:induction false} RemainderSplit(r: bv16, a: seq<bv16>, b: seq<bv16>)
    ensures Remainder(r, a + b) == Remainder(Remainder(r, a), b)
    decreases |a|
  {
    hide Plus, Doubled;
    if a == [] {
      assert a + b == b;
    } else {
      assert (a + b)[1..] == a[1..] + b;
      RemainderSplit(Plus(Doubled(r), a[0]), a[1..], b);
    }
  }

  // ---------------------------------------------------------------------------------------------
  // Doubling many times
  // ---------------------------------------------------------------------------------------------

  function Times(r: bv16, n: nat): bv16
    decreases n
  {
    if n == 0 then r else Times(Doubled(r), n - 1)
  }

  lemma Associative(x: bv16, y: bv16, z: bv16)
    ensures Plus(x, Plus(y, z)) == Plus(Plus(x, y), z)
  {
  }

  lemma Commutative(x: bv16, y: bv16)
    ensures Plus(x, y) == Plus(y, x)
  {
  }

  lemma Cancels(x: bv16)
    ensures Plus(x, x) == 0
  {
  }

  lemma PlusZero(r: bv16)
    ensures Plus(r, 0) == r
  {
  }

  lemma UpOfPlus(x: bv16, y: bv16)
    ensures Up(Plus(x, y)) == Plus(Up(x), Up(y))
    ensures HighBit(Plus(x, y)) == 1 <==> (HighBit(x) == 1) != (HighBit(y) == 1)
  {
  }

  /** A divisor on either side comes out; two of them cancel. */
  lemma DivisorComesOut(x: bv16, y: bv16, p: bv16)
    ensures Plus(Plus(x, p), y) == Plus(Plus(x, y), p) == Plus(x, Plus(y, p))
    ensures Plus(Plus(x, p), Plus(y, p)) == Plus(x, y)
  {
    hide Plus;
    Associative(x, p, y);
    Commutative(p, y);
    Associative(x, y, p);
    Associative(Plus(x, p), y, p);
    Associative(Plus(x, y), p, p);
    Cancels(p);
    PlusZero(Plus(x, y));
  }

  lemma DoubledLinear(x: bv16, y: bv16)
    ensures Doubled(Plus(x, y)) == Plus(Doubled(x), Doubled(y))
  {
    hide Plus, Up, HighBit;
    UpOfPlus(x, y);
    DivisorComesOut(Up(x), Up(y), POLYNOMIAL);
  }

  lemma {:induction false} TimesLinear(x: bv16, y: bv16, n: nat)
    ensures Times(Plus(x, y), n) == Plus(Times(x, n), Times(y, n))
    decreases n
  {
    hide Doubled, Plus;
    if n > 0 {
      DoubledLinear(x, y);
      TimesLinear(Doubled(x), Doubled(y), n - 1);
    }
  }

  lemma {:induction false} TimesDoubled(r: bv16, n: nat)
    ensures Times(Doubled(r), n) == Doubled(Times(r, n))
    decreases n
  {
    hide Doubled;
    if n > 0 {
      TimesDoubled(Doubled(r), n - 1);
    }
  }

  lemma {:induction false} RemainderOfZeros(r: bv16, zeros: seq<bv16>)
    requires forall k :: 0 <= k < |zeros| ==> zeros[k] == 0
    ensures Remainder(r, zeros) == Times(r, |zeros|)
    decreases |zeros|
  {
    hide Doubled, Plus;
    if zeros != [] {
      PlusZero(Doubled(r));
      RemainderOfZeros(Doubled(r), zeros[1..]);
    }
  }

  // ---------------------------------------------------------------------------------------------
  // The sixteen zeros never have to be brought down: bits may enter at the top instead
  // ---------------------------------------------------------------------------------------------

  /** The remainder of the message times x^16, bit by bit: each bit is added to the top of the register. */
  function Register(s: bv16, bits: seq<bv16>): bv16
    decreases |bits|
  {
    if bits == [] then s else Register(Doubled(Plus(s, AtTop(bits[0]))), bits[1..])
  }

  lemma {:induction false} RegisterSplit(s: bv16, a: seq<bv16>, b: seq<bv16>)
    ensures Register(s, a + b) == Register(Register(s, a), b)
    decreases |a|
  {
    hide Plus, Doubled, AtTop;
    if a == [] {
      assert a + b == b;
    } else {
      assert (a + b)[1..] == a[1..] + b;
      RegisterSplit(Doubled(Plus(s, AtTop(a[0]))), a[1..], b);
    }
  }

  lemma ShiftedUp(r: bv16)
    requires r < 0x8000
    ensures Doubled(r) == r << 1
  {
  }

  lemma OneSixteenPlacesUp()
    ensures Times(1, 16) == POLYNOMIAL
  {
    assert Times(0x1000, 4) == Times(0x2000, 3) == Times(0x4000, 2) == Times(0x8000, 1) == POLYNOMIAL;
    assert Times(0x0100, 8) == Times(0x0200, 7) == Times(0x0400, 6) == Times(0x0800, 5) == Times(0x1000, 4);
    assert Times(0x0010, 12) == Times(0x0020, 11) == Times(0x0040, 10) == Times(0x0080, 9) == Times(0x0100, 8);
    assert Times(1, 16) == Times(2, 15) == Times(4, 14) == Times(8, 13) == Times(0x0010, 12);
  }

  lemma {:induction false} TimesZero(n: nat)
    ensures Times(0, n) == 0
    decreases n
  {
    if n > 0 {
      assert Doubled(0) == 0;
      TimesZero(n - 1);
    }
  }

  lemma BitSixteenPlacesUp(bit: bv16)
    requires IsBit(bit)
    ensures Times(bit, 16) == Doubled(AtTop(bit))
  {
    OneSixteenPlacesUp();
    TimesZero(16);
    assert Doubled(AtTop(0)) == 0 && Doubled(AtTop(1)) == POLYNOMIAL;
  }

  /** A bit brought down sixteen places early enters at the top. */
  lemma BringDownEarly(r: bv16, bit: bv16)
    requires IsBit(bit)
    ensures Times(Plus(Doubled(r), bit), 16) == Doubled(Plus(Times(r, 16), AtTop(bit)))
  {
    hide Doubled, Times, Plus, AtTop, IsBit;
    BitSixteenPlacesUp(bit);
    TimesLinear(Doubled(r), bit, 16);
    TimesDoubled(r, 16);
    DoubledLinear(Times(r, 16), AtTop(bit));
  }

  lemma {:induction false} RemainderIsRegister(r: bv16, bits: seq<bv16>)
    requires AreBits(bits)
    ensures Times(Remainder(r, bits), 16) == Register(Times(r, 16), bits)
    decreases |bits|
  {
    hide Doubled, Times, Plus, AtTop, IsBit;
    if bits != [] {
      BringDownEarly(r, bits[0]);
      RemainderIsRegister(Plus(Doubled(r), bits[0]), bits[1..]);
    }
  }

  // ---------------------------------------------------------------------------------------------
  // Eight bits at once: the table
  // ---------------------------------------------------------------------------------------------

  function UpBy(w: bv16, n: nat): bv16
    decreases n
  {
    if n == 0 then w else UpBy(Up(w), n - 1)
  }

  /** One doubling consumes the top bit of a waiting word and moves up the rest. */
  lemma ConsumeBit(s: bv16, w: bv16)
    ensures Doubled(Plus(s, w)) == Plus(Doubled(Plus(s, AtTop(HighBit(w)))), Up(w))
  {
    hide Doubled, Plus, AtTop, HighBit, Up;
    var rest := w & 0x7FFF;
    TopAndRest(s, w, rest);
    ShiftedUp(rest);
    DoubledLinear(Plus(s, AtTop(HighBit(w))), rest);
  }

  lemma TopAndRest(s: bv16, w: bv16, rest: bv16)
    requires rest == w & 0x7FFF
    ensures Plus(s, w) == Plus(Plus(s, AtTop(HighBit(w))), rest) && rest < 0x8000 && rest << 1 == Up(w)
  {
    TwoParts(w);
    Associative(s, AtTop(HighBit(w)), rest);
    hide Plus, AtTop, HighBit;
  }

  lemma TwoParts(w: bv16)
    ensures w == Plus(AtTop(HighBit(w)), w & 0x7FFF)
  {
  }

  lemma {:induction false} ConsumeBits(s: bv16, w: bv16, n: nat)
    ensures Times(Plus(s, w), n) == Plus(Register(s, TopBits(w, n)), UpBy(w, n))
    decreases n
  {
    hide Doubled, Plus, AtTop, HighBit, Up;
    if n > 0 {
      var s' := Doubled(Plus(s, AtTop(HighBit(w))));
      ConsumeBit(s, w);
      ConsumeBits(s', Up(w), n - 1);
      assert TopBits(w, n)[1..] == TopBits(Up(w), n - 1);
    }
  }

  lemma ByteIsUsedUp(v: bv16)
    requires v <= 0xFF
    ensures UpBy(v << 8, 8) == 0
  {
    var w := v << 8;
    assert UpBy(w, 8) == UpBy(Up(Up(w)), 6) == UpBy(Up(Up(Up(Up(w)))), 4);
    assert UpBy(w, 8) == UpBy(Up(Up(Up(Up(Up(Up(w)))))), 2);
  }

  /** Entry 2j of the table is entry j doubled; entry 2j + 1 adds the divisor. */
  predicate Half(low: bv16, even: bv16, odd: bv16) {
    even == Doubled(low) && odd == Plus(Doubled(low), POLYNOMIAL)
  }

  /** What a row says about the two rows that hold the entries twice as far on. */
  predicate RowHalves(low: seq<bv16>, first: seq<bv16>, second: seq<bv16>) {
    && |low| == |first| == |second| == 8
    && Half(low[0], first[0], first[1]) && Half(low[1], first[2], first[3])
    && Half(low[2], first[4], first[5]) && Half(low[3], first[6], first[7])
    && Half(low[4], second[0], second[1]) && Half(low[5], second[2], second[3])
    && Half(low[6], second[4], second[5]) && Half(low[7], second[6], second[7])
  }

  lemma Rows0And1()
    ensures RowHalves(ROW_0, ROW_0, ROW_1) && RowHalves(ROW_1, ROW_2, ROW_3)
  {
  }

  lemma Rows2And3()
    ensures RowHalves(ROW_2, ROW_4, ROW_5) && RowHalves(ROW_3, ROW_6, ROW_7)
  {
  }

  lemma Rows4And5()
    ensures RowHalves(ROW_4, ROW_8, ROW_9) && RowHalves(ROW_5, ROW_10, ROW_11)
  {
  }

  lemma Rows6And7()
    ensures RowHalves(ROW_6, ROW_12, ROW_13) && RowHalves(ROW_7, ROW_14, ROW_15)
  {
  }

  lemma Rows8And9()
    ensures RowHalves(ROW_8, ROW_16, ROW_17) && RowHalves(ROW_9, ROW_18, ROW_19)
  {
  }

  lemma Rows10And11()
    ensures RowHalves(ROW_10, ROW_20, ROW_21) && RowHalves(ROW_11, ROW_22, ROW_23)
  {
  }

  lemma Rows12And13()
    ensures RowHalves(ROW_12, ROW_24, ROW_25) && RowHalves(ROW_13, ROW_26, ROW_27)
  {
  }

  lemma Rows14And15()
    ensures RowHalves(ROW_14, ROW_28, ROW_29) && RowHalves(ROW_15, ROW_30, ROW_31)
  {
  }

  predicate GroupHalves(low: seq<seq<bv16>>, first: seq<seq<bv16>>, second: seq<seq<bv16>>) {
    && |low| == |first| == |second| == 8
    && RowHalves(low[0], first[0], first[1]) && RowHalves(low[1], first[2], first[3])
    && RowHalves(low[2], first[4], first[5]) && RowHalves(low[3], first[6], first[7])
    && RowHalves(low[4], second[0], second[1]) && RowHalves(low[5], second[2], second[3])
    && RowHalves(low[6], second[4], second[5]) && RowHalves(low[7], second[6], second[7])
  }

  lemma Group0Halves()
    ensures GroupHalves(GROUP_0, GROUP_0, GROUP_1)
  {
    hide RowHalves, ROW_0, ROW_1, ROW_2, ROW_3, ROW_4, ROW_5, ROW_6, ROW_7, ROW_8, ROW_9, ROW_10, ROW_11, ROW_12,
      ROW_13, ROW_14, ROW_15;
    Rows0And1();
    Rows2And3();
    Rows4And5();
    Rows6And7();
  }

  lemma Group1Halves()
    ensures GroupHalves(GROUP_1, GROUP_2, GROUP_3)
  {
    hide RowHalves, ROW_8, ROW_9, ROW_10, ROW_11, ROW_12, ROW_13, ROW_14, ROW_15,
      ROW_16, ROW_17, ROW_18, ROW_19, ROW_20, ROW_21, ROW_22, ROW_23, ROW_24, ROW_25, ROW_26, ROW_27, ROW_28, ROW_29,
      ROW_30, ROW_31;
    Rows8And9();
    Rows10And11();
    Rows12And13();
    Rows14And15();
  }

  predicate TableShape() {
    |CRC16_TABLE| == 4 && forall g, r :: 0 <= g < 4 && 0 <= r < 8 ==> |CRC16_TABLE[g]| == 8 && |CRC16_TABLE[g][r]| == 8
  }

  lemma TableHasShape()
    ensures TableShape()
  {
    Group0Halves();
    Group1Halves();
    hide Half, GROUP_0, GROUP_1, GROUP_2, GROUP_3;
  }

  function EntryAt(i: int): bv16
    requires 0 <= i < 256
  {
    TableHasShape();
    CRC16_TABLE[i / 64][i / 8 % 8][i % 8]
  }

  lemma RowsHalve(r: nat)
    requires r < 16
    ensures TableShape()
    ensures RowHalves(CRC16_TABLE[r / 8][r % 8], CRC16_TABLE[r / 4][2 * r % 8], CRC16_TABLE[r / 4][(2 * r + 1) % 8])
  {
    TableHasShape();
    Group0Halves();
    Group1Halves();
    hide RowHalves, GROUP_0, GROUP_1, GROUP_2, GROUP_3;
  }

  lemma RowHalf(low: seq<bv16>, first: seq<bv16>, second: seq<bv16>, k: nat)
    requires RowHalves(low, first, second) && k < 8
    ensures Half(low[k], (if k < 4 then first else second)[2 * k % 8],
                 (if k < 4 then first else second)[(2 * k + 1) % 8])
  {
    hide Half;
  }

  lemma GroupOf(j: nat)
    ensures (2 * j + 1) / 64 == 2 * j / 64 == j / 8 / 4
    ensures j / 64 == j / 8 / 8
  {
  }

  lemma RowOf(j: nat)
    ensures 2 * j / 8 == 2 * (j / 8) + if j % 8 < 4 then 0 else 1
    ensures (2 * j + 1) / 8 == 2 * j / 8
  {
  }

  lemma ColumnOf(j: nat)
    ensures 2 * j % 8 == 2 * (j % 8) % 8
    ensures (2 * j + 1) % 8 == (2 * (j % 8) + 1) % 8
  {
  }

  lemma EntriesHalve(j: int)
    requires 0 <= j < 128
    ensures Half(EntryAt(j), EntryAt(2 * j), EntryAt(2 * j + 1))
  {
    hide Half, RowHalves, CRC16_TABLE;
    var r := j / 8;
    RowsHalve(r);
    RowHalf(CRC16_TABLE[r / 8][r % 8], CRC16_TABLE[r / 4][2 * r % 8], CRC16_TABLE[r / 4][(2 * r + 1) % 8], j % 8);
    GroupOf(j);
    RowOf(j);
    ColumnOf(j);
  }

  function TableEntry(x: bv16): bv16
    requires x <= 0xFF
  {
    EntryAt(x as int)
  }

  lemma EntryHalves(x: bv16)
    requires x <= 0xFF
    ensures if x & 1 == 0 then TableEntry(x) == Doubled(TableEntry(x >> 1))
            else TableEntry(x) == Plus(Doubled(TableEntry(x >> 1)), POLYNOMIAL)
  {
    hide Doubled, EntryAt;
    EntriesHalve((x >> 1) as int);
  }

  lemma OddOrEven(x: bv16)
    requires x <= 0xFF
    ensures (x & 1 == 0 && x & 0xFE == x && x << 8 == (x >> 1) << 9) ||
            (x & 1 == 1 && x | 1 == x && x << 8 == Plus((x >> 1) << 9, 0x100))
    ensures Doubled((x >> 1) << 8) == (x >> 1) << 9
  {
  }

  lemma TableStart()
    ensures TableEntry(0) == 0 == Times(0 << 8, 8) && Times(0x100, 8) == POLYNOMIAL
  {
    TimesZero(8);
    assert CRC16_TABLE[0][0][0] == 0;
    assert Times(0x1000, 4) == Times(0x2000, 3) == Times(0x4000, 2) == Times(0x8000, 1) == POLYNOMIAL;
    assert Times(0x0100, 8) == Times(0x0200, 7) == Times(0x0400, 6) == Times(0x0800, 5) == Times(0x1000, 4);
  }

  /** Each entry is what eight doublings make of its index at the top of the register. */
  lemma {:induction false} EntryIsEightDoublings(x: bv16)
    requires x <= 0xFF
    ensures TableEntry(x) == Times(x << 8, 8)
    decreases x
  {
    hide Doubled, Times, TableEntry, Plus;
    TableStart();
    if x != 0 {
      var y := x >> 1;
      EntryHalves(x);
      EntryIsEightDoublings(y);
      OddOrEven(x);
      TimesDoubled(y << 8, 8);
      AddEntry(y << 9);
    }
  }

  lemma AddEntry(z: bv16)
    ensures Times(Plus(z, 0x100), 8) == Plus(Times(z, 8), POLYNOMIAL)
  {
    TableStart();
    TimesLinear(z, 0x100, 8);
    hide Times, Plus;
  }

  // ---------------------------------------------------------------------------------------------
  // The checksum
  // ---------------------------------------------------------------------------------------------

  function Kept(crc: bv16): bv16 { (crc << 8) & 0xFF00 }

  function TableIndex(crc: bv16, v: bv16): (x: bv16)
    ensures x <= 0xFF
  {
    ((crc >> 8) ^ v) & 0xFF
  }

  /** One round of the loop feeds eight bits to the register. */
  lemma OneByte(crc: bv16, b: byte)
    ensures Plus(Kept(crc), TableEntry(TableIndex(crc, b as bv16))) == Register(crc, ByteBits(b))
  {
    hide Doubled, Times, TableEntry, Plus, UpBy, Register, TopBits, Kept, TableIndex;
    var v := b as bv16;
    ByteFits(b);
    var top := TableIndex(crc, v);
    EntryIsEightDoublings(top);
    ConsumeBits(crc, v << 8, 8);
    ByteIsUsedUp(v);
    PlusZero(Register(crc, ByteBits(b)));
    EightDoublings(crc, v);
    Swapped(crc, TableEntry(top));
  }

  lemma EightDoublings(crc: bv16, v: bv16)
    requires v <= 0xFF
    ensures Times(Plus(crc, v << 8), 8) == Plus(Times(TableIndex(crc, v) << 8, 8), (crc & 0xFF) << 8)
  {
    hide Doubled, Times, Plus, TableIndex;
    Parts(crc, v);
    EightLowBits(crc & 0xFF);
    TimesLinear(TableIndex(crc, v) << 8, crc & 0xFF, 8);
  }

  lemma ByteFits(b: byte)
    ensures (b as bv16) <= 0xFF
  {
  }

  lemma Parts(crc: bv16, v: bv16)
    requires v <= 0xFF
    ensures Plus(crc, v << 8) == Plus(TableIndex(crc, v) << 8, crc & 0xFF)
  {
    hide Plus, TableIndex;
    var high, low := (crc >> 8) << 8, crc & 0xFF;
    IndexShifted(crc, v);
    Halves(crc);
    Associative(high, low, v << 8);
    Commutative(low, v << 8);
    Associative(high, v << 8, low);
  }

  lemma IndexShifted(crc: bv16, v: bv16)
    requires v <= 0xFF
    ensures TableIndex(crc, v) << 8 == Plus((crc >> 8) << 8, v << 8)
  {
  }

  lemma Halves(crc: bv16)
    ensures crc == Plus((crc >> 8) << 8, crc & 0xFF)
  {
  }

  lemma Swapped(crc: bv16, e: bv16)
    ensures Plus(Kept(crc), e) == Plus(e, (crc & 0xFF) << 8)
  {
    KeptIsLow(crc);
    Commutative(Kept(crc), e);
    hide Plus, Kept;
  }

  lemma KeptIsLow(crc: bv16)
    ensures Kept(crc) == (crc & 0xFF) << 8
  {
  }

  lemma EightLowBits(low: bv16)
    requires low <= 0xFF
    ensures Times(low, 8) == low << 8
  {
    hide Doubled, Times;
    FourLowBits(low, 4);
    FourLowBits(low << 4, 0);
    NoTimes(low << 8);
  }

  lemma NoTimes(r: bv16)
    ensures Times(r, 0) == r
  {
  }

  lemma FourLowBits(low: bv16, n: nat)
    requires low <= 0xFFF
    ensures Times(low, n + 4) == Times(low << 4, n)
  {
    hide Doubled, Times;
    TwoLowBits(low, n + 2);
    TwoLowBits(low << 2, n);
  }

  lemma TwoLowBits(low: bv16, n: nat)
    requires low <= 0x3FFF
    ensures Times(low, n + 2) == Times(low << 2, n)
  {
    hide Doubled;
    ShiftedUp(low);
    ShiftedUp(low << 1);
  }

  /** The table-driven loop computes the division. */
  method Crc16(data: bytes) returns (crc: bv16)
    ensures crc == Division(data)
  {
    hide Doubled, Times, Register, Plus, TopBits, AtTop, TableEntry, TableIndex, Kept;
    crc := 0;
    for i := 0 to |data|
      invariant Register(0, MessageBits(data)) == Register(crc, MessageBits(data[i..]))
    {
      var b := data[i];
      assert data[i..][0] == b && data[i..][1..] == data[i + 1..];
      OneByte(crc, b);
      RegisterSplit(crc, ByteBits(b), MessageBits(data[i + 1..]));
      crc := Plus(Kept(crc), TableEntry(TableIndex(crc, b as bv16)));
    }
    RegisterIsDivision(data);
    RegisterOfNothing(crc);
    assert data[|data|..] == [];
    crc := crc & 0xFFFF;
  }

  lemma RegisterOfNothing(s: bv16)
    ensures Register(s, MessageBits([])) == s
  {
  }

  lemma RegisterIsDivision(data: bytes)
    ensures Register(0, MessageBits(data)) == Division(data)
  {
    hide Doubled, Times, Register, Plus, TopBits, AtTop, MessageBits, Remainder;
    var bits := MessageBits(data);
    RemainderSplit(0, bits, ZEROS);
    RemainderOfZeros(Remainder(0, bits), ZEROS);
    RemainderIsRegister(0, bits);
    TimesZero(16);
  }

  // ---------------------------------------------------------------------------------------------
  // A known checksum
  // ---------------------------------------------------------------------------------------------

  lemma FeedByte(crc: bv16, b: byte, rest: bytes)
    ensures Register(crc, MessageBits([b] + rest)) ==
            Register(Plus(Kept(crc), TableEntry(TableIndex(crc, b as bv16))), MessageBits(rest))
  {
    hide Plus, Kept, TableEntry, TableIndex, Register, ByteBits;
    OneByte(crc, b);
    assert ([b] + rest)[1..] == rest;
    RegisterSplit(crc, ByteBits(b), MessageBits(rest));
  }

  lemma EntryIs(x: bv16, group: nat, row: nat, column: nat)
    requires x <= 0xFF && x as int == 64 * group + 8 * row + column && group < 4 && row < 8 && column < 8
    ensures |CRC16_TABLE| == 4 && |CRC16_TABLE[group]| == 8 && |CRC16_TABLE[group][row]| == 8
    ensures TableEntry(x) == CRC16_TABLE[group][row][column]
  {
    TableHasShape();
    var i := x as int;
    assert i / 64 == group && i / 8 == 8 * group + row && i / 8 % 8 == row && i % 8 == column;
  }

  lemma EntryOfF()
    ensures TableEntry(0x66) == 0x0C60
  {
    hide TableEntry;
    AsNumber();
    EntryIs(0x66, 1, 4, 6);
    assert CRC16_TABLE[1] == GROUP_1 && GROUP_1[4] == ROW_12 && ROW_12[6] == 0x0C60;
  }

  lemma EntryOfO()
    ensures TableEntry(0x63) == 0x5CC5
  {
    hide TableEntry;
    AsNumber();
    EntryIs(0x63, 1, 4, 3);
    assert CRC16_TABLE[1] == GROUP_1 && GROUP_1[4] == ROW_12 && ROW_12[3] == 0x5CC5;
  }

  lemma EntryOfSecondO()
    ensures TableEntry(0x53) == 0x6A96
  {
    hide TableEntry;
    AsNumber();
    EntryIs(0x53, 1, 2, 3);
    assert CRC16_TABLE[1] == GROUP_1 && GROUP_1[2] == ROW_10 && ROW_10[3] == 0x6A96;
  }

  lemma AsNumber()
    ensures 0x66 as bv16 as int == 102 && 0x63 as bv16 as int == 99 && 0x53 as bv16 as int == 83
  {
  }

  /** The checksum of "foo". */
  lemma KnownChecksum()
    ensures Division([102, 111, 111]) == 0xAF96
  {
    hide Register, MessageBits, TableEntry, Remainder;
    RegisterIsDivision([102, 111, 111]);
    EntryOfF();
    EntryOfO();
    EntryOfSecondO();
    FeedByte(0, 102, [111, 111]);
    FeedByte(0x0C60, 111, [111]);
    FeedByte(0x3CC5, 111, []);
    assert [102] + [111, 111] == [102, 111, 111] && [111] + [111] == [111, 111] && [111] + [] == [111];
    RegisterOfNothing(0xAF96);
  }
}
