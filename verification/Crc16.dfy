/** The checksum that places a key in the cluster: table-driven CRC-16 with polynomial
    x^16 + x^12 + x^5 + 1 (0x1021), initial value 0, most significant bit first.
    The byte-at-a-time loop is proved equal to long division of polynomials over the bits
    of the key, and the error-detecting properties of that remainder are derived from it. */
module Crc16 {
  import opened Words

  // The 256 table entries, eight to a row.
  const ROW_00: seq<bv16> := [0x0000, 0x1021, 0x2042, 0x3063, 0x4084, 0x50a5, 0x60c6, 0x70e7]
  const ROW_01: seq<bv16> := [0x8108, 0x9129, 0xa14a, 0xb16b, 0xc18c, 0xd1ad, 0xe1ce, 0xf1ef]
  const ROW_02: seq<bv16> := [0x1231, 0x0210, 0x3273, 0x2252, 0x52b5, 0x4294, 0x72f7, 0x62d6]
  const ROW_03: seq<bv16> := [0x9339, 0x8318, 0xb37b, 0xa35a, 0xd3bd, 0xc39c, 0xf3ff, 0xe3de]
  const ROW_04: seq<bv16> := [0x2462, 0x3443, 0x0420, 0x1401, 0x64e6, 0x74c7, 0x44a4, 0x5485]
  const ROW_05: seq<bv16> := [0xa56a, 0xb54b, 0x8528, 0x9509, 0xe5ee, 0xf5cf, 0xc5ac, 0xd58d]
  const ROW_06: seq<bv16> := [0x3653, 0x2672, 0x1611, 0x0630, 0x76d7, 0x66f6, 0x5695, 0x46b4]
  const ROW_07: seq<bv16> := [0xb75b, 0xa77a, 0x9719, 0x8738, 0xf7df, 0xe7fe, 0xd79d, 0xc7bc]
  const ROW_08: seq<bv16> := [0x48c4, 0x58e5, 0x6886, 0x78a7, 0x0840, 0x1861, 0x2802, 0x3823]
  const ROW_09: seq<bv16> := [0xc9cc, 0xd9ed, 0xe98e, 0xf9af, 0x8948, 0x9969, 0xa90a, 0xb92b]
  const ROW_10: seq<bv16> := [0x5af5, 0x4ad4, 0x7ab7, 0x6a96, 0x1a71, 0x0a50, 0x3a33, 0x2a12]
  const ROW_11: seq<bv16> := [0xdbfd, 0xcbdc, 0xfbbf, 0xeb9e, 0x9b79, 0x8b58, 0xbb3b, 0xab1a]
  const ROW_12: seq<bv16> := [0x6ca6, 0x7c87, 0x4ce4, 0x5cc5, 0x2c22, 0x3c03, 0x0c60, 0x1c41]
  const ROW_13: seq<bv16> := [0xedae, 0xfd8f, 0xcdec, 0xddcd, 0xad2a, 0xbd0b, 0x8d68, 0x9d49]
  const ROW_14: seq<bv16> := [0x7e97, 0x6eb6, 0x5ed5, 0x4ef4, 0x3e13, 0x2e32, 0x1e51, 0x0e70]
  const ROW_15: seq<bv16> := [0xff9f, 0xefbe, 0xdfdd, 0xcffc, 0xbf1b, 0xaf3a, 0x9f59, 0x8f78]
  const ROW_16: seq<bv16> := [0x9188, 0x81a9, 0xb1ca, 0xa1eb, 0xd10c, 0xc12d, 0xf14e, 0xe16f]
  const ROW_17: seq<bv16> := [0x1080, 0x00a1, 0x30c2, 0x20e3, 0x5004, 0x4025, 0x7046, 0x6067]
  const ROW_18: seq<bv16> := [0x83b9, 0x9398, 0xa3fb, 0xb3da, 0xc33d, 0xd31c, 0xe37f, 0xf35e]
  const ROW_19: seq<bv16> := [0x02b1, 0x1290, 0x22f3, 0x32d2, 0x4235, 0x5214, 0x6277, 0x7256]
  const ROW_20: seq<bv16> := [0xb5ea, 0xa5cb, 0x95a8, 0x8589, 0xf56e, 0xe54f, 0xd52c, 0xc50d]
  const ROW_21: seq<bv16> := [0x34e2, 0x24c3, 0x14a0, 0x0481, 0x7466, 0x6447, 0x5424, 0x4405]
  const ROW_22: seq<bv16> := [0xa7db, 0xb7fa, 0x8799, 0x97b8, 0xe75f, 0xf77e, 0xc71d, 0xd73c]
  const ROW_23: seq<bv16> := [0x26d3, 0x36f2, 0x0691, 0x16b0, 0x6657, 0x7676, 0x4615, 0x5634]
  const ROW_24: seq<bv16> := [0xd94c, 0xc96d, 0xf90e, 0xe92f, 0x99c8, 0x89e9, 0xb98a, 0xa9ab]
  const ROW_25: seq<bv16> := [0x5844, 0x4865, 0x7806, 0x6827, 0x18c0, 0x08e1, 0x3882, 0x28a3]
  const ROW_26: seq<bv16> := [0xcb7d, 0xdb5c, 0xeb3f, 0xfb1e, 0x8bf9, 0x9bd8, 0xabbb, 0xbb9a]
  const ROW_27: seq<bv16> := [0x4a75, 0x5a54, 0x6a37, 0x7a16, 0x0af1, 0x1ad0, 0x2ab3, 0x3a92]
  const ROW_28: seq<bv16> := [0xfd2e, 0xed0f, 0xdd6c, 0xcd4d, 0xbdaa, 0xad8b, 0x9de8, 0x8dc9]
  const ROW_29: seq<bv16> := [0x7c26, 0x6c07, 0x5c64, 0x4c45, 0x3ca2, 0x2c83, 0x1ce0, 0x0cc1]
  const ROW_30: seq<bv16> := [0xef1f, 0xff3e, 0xcf5d, 0xdf7c, 0xaf9b, 0xbfba, 0x8fd9, 0x9ff8]
  const ROW_31: seq<bv16> := [0x6e17, 0x7e36, 0x4e55, 0x5e74, 0x2e93, 0x3eb2, 0x0ed1, 0x1ef0]

  const CRC16_TABLE: seq<seq<bv16>> := [
    ROW_00, ROW_01, ROW_02, ROW_03, ROW_04, ROW_05, ROW_06, ROW_07,
    ROW_08, ROW_09, ROW_10, ROW_11, ROW_12, ROW_13, ROW_14, ROW_15,
    ROW_16, ROW_17, ROW_18, ROW_19, ROW_20, ROW_21, ROW_22, ROW_23,
    ROW_24, ROW_25, ROW_26, ROW_27, ROW_28, ROW_29, ROW_30, ROW_31
  ]

  type Word = w: Bits | |w| == 16 witness Zeros(16)

  const ZERO: Word := Zeros(16)

  /** The divisor without its leading term: x^12 + x^5 + 1, which is 0x1021. */
  const POLYNOMIAL: Word := Zeros(3) + [true] + Zeros(6) + [true] + Zeros(4) + [true]

  // ---- Long division ----

  /** Bring down one more coefficient of the dividend: multiply the remainder by x, add the
      coefficient, and subtract the divisor if the degree reached 16. */
  function Push(w: Word, b: bool): (v: Word) {
    var shifted := w[1..] + [b];
    if w[0] then Add(shifted, POLYNOMIAL) else shifted
  }

  /** Continue a division from remainder `w` over the coefficients `bits`, highest power first. */
  function Divide(w: Word, bits: Bits): Word {
    if bits == [] then w else Push(Divide(w, bits[..|bits| - 1]), bits[|bits| - 1])
  }

  function BitsOf(s: Bytes): (bits: Bits)
    ensures |bits| == 8 * |s|
  {
    if s == [] then [] else BitsOf(s[..|s| - 1]) + Byte(s[|s| - 1])
  }

  /** The checksum of a byte string M: the remainder of M(x) * x^16. */
  function Crc(s: Bytes): Word {
    Divide(ZERO, BitsOf(s) + ZERO)
  }

  lemma {:induction false} DivideConcat(w: Word, p: Bits, q: Bits)
    ensures Divide(w, p + q) == Divide(Divide(w, p), q)
  {
    if q == [] {
      assert p + q == p;
    } else {
      var n := |q| - 1;
      assert (p + q)[..|p + q| - 1] == p + q[..n];
      DivideConcat(w, p, q[..n]);
    }
  }

  lemma PushIsLinear(w: Word, v: Word, b: bool, c: bool)
    ensures Push(Add(w, v), b != c) == Add(Push(w, b), Push(v, c))
  {
  }

  lemma {:induction false} DivideIsLinear(w: Word, v: Word, p: Bits, q: Bits)
    requires |p| == |q|
    ensures Divide(Add(w, v), Add(p, q)) == Add(Divide(w, p), Divide(v, q))
  {
    if p == [] {
    } else {
      var n := |p| - 1;
      DivideIsLinear(w, v, p[..n], q[..n]);
      assert Add(p, q)[..n] == Add(p[..n], q[..n]);
      PushIsLinear(Divide(w, p[..n]), Divide(v, q[..n]), p[n], q[n]);
    }
  }

  /** A dividend of degree below 16 is its own remainder. */
  lemma {:induction false} ShortDividend(bits: Bits)
    requires |bits| <= 16
    ensures Divide(ZERO, bits) == Zeros(16 - |bits|) + bits
  {
    if bits == [] {
    } else {
      ShortDividend(bits[..|bits| - 1]);
    }
  }

  lemma {:induction false} DivideZeros(n: nat)
    ensures Divide(ZERO, Zeros(n)) == ZERO
  {
    if n > 0 {
      assert Zeros(n)[..n - 1] == Zeros(n - 1);
      DivideZeros(n - 1);
    }
  }

  lemma PushIsInjective(w: Word, v: Word, b: bool)
    requires Push(w, b) == Push(v, b)
    ensures w == v
  {
    var x, y := Push(w, b), Push(v, b);
    assert x[15] == (b != w[0]) && y[15] == (b != v[0]);
    forall i | 1 <= i < 16
      ensures w[i] == v[i]
    {
      assert x[i - 1] == y[i - 1];
    }
  }

  lemma {:induction false} DivideIsInjective(w: Word, v: Word, bits: Bits)
    requires Divide(w, bits) == Divide(v, bits)
    ensures w == v
  {
    if bits == [] {
    } else {
      var n := |bits| - 1;
      PushIsInjective(Divide(w, bits[..n]), Divide(v, bits[..n]), bits[n]);
      DivideIsInjective(w, v, bits[..n]);
    }
  }

  // ---- The table ----

  const MASKS: seq<bv16> := [
    0x8000, 0x4000, 0x2000, 0x1000, 0x0800, 0x0400, 0x0200, 0x0100,
    0x0080, 0x0040, 0x0020, 0x0010, 0x0008, 0x0004, 0x0002, 0x0001
  ]

  function Bit(c: bv16, i: nat): bool
    requires i < 16
  {
    Has(c, MASKS[i])
  }

  function Has(c: bv16, mask: bv16): bool {
    c & mask != 0
  }

  /** The bits of a table entry. */
  function WordOf(c: bv16): Word {
    seq(16, i requires 0 <= i < 16 => Bit(c, i))
  }

  function Row(r: nat): (row: seq<bv16>)
    requires r < 32
    ensures |row| == 8
  {
    CRC16_TABLE[r]
  }

  function Entry(i: nat): bv16
    requires i < 256
  {
    Row(i / 8)[i % 8]
  }

  /** Entry number `index` of the table, as a machine word. */
  function Lookup(index: Bits): Word
    requires |index| <= 8
  {
    Power2Increases(|index|, 8);
    WordOf(Entry(ToNat(index)))
  }

  /** Multiplication of a remainder by x. */
  function TimesX(c: bv16): bv16 {
    if c & 0x8000 != 0 then (c << 1) ^ 0x1021 else c << 1
  }

  /** Doubling the index of an entry multiplies the entry by x, and the next index adds the
      polynomial. */
  predicate Follows(entry: bv16, even: bv16, odd: bv16) {
    even == TimesX(entry) && odd == even ^ 0x1021
  }

  predicate Doubles(row: seq<bv16>, even: seq<bv16>, odd: seq<bv16>) {
    && |row| == |even| == |odd| == 8
    && Follows(row[0], even[0], even[1]) && Follows(row[1], even[2], even[3])
    && Follows(row[2], even[4], even[5]) && Follows(row[3], even[6], even[7])
    && Follows(row[4], odd[0], odd[1]) && Follows(row[5], odd[2], odd[3])
    && Follows(row[6], odd[4], odd[5]) && Follows(row[7], odd[6], odd[7])
  }

  lemma RowsDouble0()
    ensures Doubles(ROW_00, ROW_00, ROW_01)
    ensures Doubles(ROW_01, ROW_02, ROW_03)
  {
  }

  lemma TableDoubles0()
    ensures Doubles(Row(0), Row(0), Row(1))
    ensures Doubles(Row(1), Row(2), Row(3))
  {
    hide Doubles;
    RowsDouble0();
  }

  lemma RowsDouble2()
    ensures Doubles(ROW_02, ROW_04, ROW_05)
    ensures Doubles(ROW_03, ROW_06, ROW_07)
  {
  }

  lemma TableDoubles2()
    ensures Doubles(Row(2), Row(4), Row(5))
    ensures Doubles(Row(3), Row(6), Row(7))
  {
    hide Doubles;
    RowsDouble2();
  }

  lemma RowsDouble4()
    ensures Doubles(ROW_04, ROW_08, ROW_09)
    ensures Doubles(ROW_05, ROW_10, ROW_11)
  {
  }

  lemma TableDoubles4()
    ensures Doubles(Row(4), Row(8), Row(9))
    ensures Doubles(Row(5), Row(10), Row(11))
  {
    hide Doubles;
    RowsDouble4();
  }

  lemma RowsDouble6()
    ensures Doubles(ROW_06, ROW_12, ROW_13)
    ensures Doubles(ROW_07, ROW_14, ROW_15)
  {
  }

  lemma TableDoubles6()
    ensures Doubles(Row(6), Row(12), Row(13))
    ensures Doubles(Row(7), Row(14), Row(15))
  {
    hide Doubles;
    RowsDouble6();
  }

  lemma RowsDouble8()
    ensures Doubles(ROW_08, ROW_16, ROW_17)
    ensures Doubles(ROW_09, ROW_18, ROW_19)
  {
  }

  lemma TableDoubles8()
    ensures Doubles(Row(8), Row(16), Row(17))
    ensures Doubles(Row(9), Row(18), Row(19))
  {
    hide Doubles;
    RowsDouble8();
  }

  lemma RowsDouble10()
    ensures Doubles(ROW_10, ROW_20, ROW_21)
    ensures Doubles(ROW_11, ROW_22, ROW_23)
  {
  }

  lemma TableDoubles10()
    ensures Doubles(Row(10), Row(20), Row(21))
    ensures Doubles(Row(11), Row(22), Row(23))
  {
    hide Doubles;
    RowsDouble10();
  }

  lemma RowsDouble12()
    ensures Doubles(ROW_12, ROW_24, ROW_25)
    ensures Doubles(ROW_13, ROW_26, ROW_27)
  {
  }

  lemma TableDoubles12()
    ensures Doubles(Row(12), Row(24), Row(25))
    ensures Doubles(Row(13), Row(26), Row(27))
  {
    hide Doubles;
    RowsDouble12();
  }

  lemma RowsDouble14()
    ensures Doubles(ROW_14, ROW_28, ROW_29)
    ensures Doubles(ROW_15, ROW_30, ROW_31)
  {
  }

  lemma TableDoubles14()
    ensures Doubles(Row(14), Row(28), Row(29))
    ensures Doubles(Row(15), Row(30), Row(31))
  {
    hide Doubles;
    RowsDouble14();
  }

  lemma TableDoubles(r: nat)
    requires r < 16
    ensures Doubles(Row(r), Row(2 * r), Row(2 * r + 1))
  {
    hide Doubles, Row;
    TableDoubles0();
    TableDoubles2();
    TableDoubles4();
    TableDoubles6();
    TableDoubles8();
    TableDoubles10();
    TableDoubles12();
    TableDoubles14();
  }

  lemma EntryDoubles(i: nat)
    requires i < 128
    ensures Follows(Entry(i), Entry(2 * i), Entry(2 * i + 1))
  {
    hide Follows, Row, Doubles;
    var r, k := i / 8, i % 8;
    TableDoubles(r);
    RowDoubles(Row(r), Row(2 * r), Row(2 * r + 1), k);
    if k < 4 {
      DivideByEight(2 * r, 2 * k);
      DivideByEight(2 * r, 2 * k + 1);
    } else {
      DivideByEight(2 * r + 1, 2 * k - 8);
      DivideByEight(2 * r + 1, 2 * k - 7);
    }
  }

  lemma DivideByEight(r: nat, k: nat)
    requires k < 8
    ensures (8 * r + k) / 8 == r && (8 * r + k) % 8 == k
  {
  }

  lemma RowDoubles(row: seq<bv16>, even: seq<bv16>, odd: seq<bv16>, k: nat)
    requires Doubles(row, even, odd) && k < 8
    ensures k < 4 ==> Follows(row[k], even[2 * k], even[2 * k + 1])
    ensures k >= 4 ==> Follows(row[k], odd[2 * k - 8], odd[2 * k - 7])
  {
    hide Follows;
  }

  lemma BitShift(c: bv16, i: nat)
    requires i < 15
    ensures Bit(c << 1, i) == Bit(c, i + 1)
  {
  }

  lemma BitFlip(c: bv16, i: nat)
    requires i < 16
    ensures Bit(c ^ 0x1021, i) == (Bit(c, i) != (i == 3 || i == 10 || i == 15))
  {
  }

  lemma WordShift(c: bv16)
    ensures WordOf(c << 1) == WordOf(c)[1..] + [false]
  {
    var d := WordOf(c << 1);
    forall i: nat | i < 15
      ensures d[i] == WordOf(c)[i + 1]
    {
      hide Bit;
      BitShift(c, i);
    }
    assert !Bit(c << 1, 15);
  }

  lemma WordFlip(c: bv16)
    ensures WordOf(c ^ 0x1021) == Add(WordOf(c), POLYNOMIAL)
  {
    hide Bit;
    var d := WordOf(c ^ 0x1021);
    forall i: nat | i < 16
      ensures d[i] == Add(WordOf(c), POLYNOMIAL)[i]
    {
      BitFlip(c, i);
      assert POLYNOMIAL[i] == (i == 3 || i == 10 || i == 15);
    }
  }

  lemma WordFollows(entry: bv16, even: bv16, odd: bv16)
    requires Follows(entry, even, odd)
    ensures WordOf(even) == Push(WordOf(entry), false)
    ensures WordOf(odd) == Add(WordOf(even), POLYNOMIAL)
  {
    hide WordOf;
    WordShift(entry);
    WordFlip(entry << 1);
    WordFlip(even);
    TopBit(entry);
  }

  lemma TopBit(c: bv16)
    ensures WordOf(c)[0] == (c & 0x8000 != 0)
  {
  }

  /** Every table entry is the remainder of its index times x^16. */
  lemma {:induction false} TableIsDivision(index: Bits)
    requires |index| <= 8
    ensures Lookup(index) == Divide(ZERO, index + ZERO)
  {
    if index == [] {
      assert [] + ZERO == ZERO;
      DivideZeros(16);
      EntryZero();
    } else {
      hide WordOf, Push, Entry, Divide;
      var n := |index| - 1;
      var p := index[..n];
      TableIsDivision(p);
      LookupPush(p);
      PushZeroLater(p);
      PushOneLater(p);
      assert index == p + [index[n]];
    }
  }

  lemma LookupPush(p: Bits)
    requires |p| < 8
    ensures Lookup(p + [false]) == Push(Lookup(p), false)
    ensures Lookup(p + [true]) == Add(Lookup(p + [false]), POLYNOMIAL)
  {
    hide WordOf, Push, Follows, Entry;
    Power2Increases(|p|, 7);
    var e := ToNat(p);
    assert (p + [false])[..|p|] == p && (p + [true])[..|p|] == p;
    EntryDoubles(e);
    WordFollows(Entry(e), Entry(2 * e), Entry(2 * e + 1));
  }

  lemma EntryZero()
    ensures WordOf(Entry(0)) == ZERO
  {
    assert Entry(0) == 0;
    forall i: nat | i < 16
      ensures !Bit(0, i)
    {
    }
  }

  /** Bringing down a zero before or after the sixteen trailing ones is the same. */
  lemma PushZeroLater(p: Bits)
    ensures Divide(ZERO, p + [false] + ZERO) == Push(Divide(ZERO, p + ZERO), false)
  {
    var whole := p + ZERO + [false];
    assert p + [false] + ZERO == whole;
    assert whole[..|whole| - 1] == p + ZERO;
  }

  lemma PushOneLater(p: Bits)
    ensures Divide(ZERO, p + [true] + ZERO) == Add(Divide(ZERO, p + [false] + ZERO), POLYNOMIAL)
  {
    hide Divide;
    var one := Zeros(|p|) + ([true] + ZERO);
    assert Add(ZERO, ZERO) == ZERO;
    assert p + [true] + ZERO == Add(p + [false] + ZERO, one);
    DivideIsLinear(ZERO, ZERO, p + [false] + ZERO, one);
    DivideConcat(ZERO, Zeros(|p|), [true] + ZERO);
    DivideZeros(|p|);
    SixteenthPower();
  }

  /** x^16 reduces to x^12 + x^5 + 1. */
  lemma SixteenthPower()
    ensures Divide(ZERO, [true] + ZERO) == POLYNOMIAL
  {
    var first := [true] + Zeros(15);
    var whole := [true] + ZERO;
    assert whole[..16] == first && !whole[16];
    ShortDividend(first);
    assert Zeros(0) + first == first;
    assert Push(first, false) == POLYNOMIAL;
  }

  // ---- The loop ----

  /** A `char` promoted to a 32-bit `int`: bytes from 0x80 up are negative and sign-extend. */
  function PromoteChar(c: byte): Bits {
    seq(24, _ => Byte(c)[0]) + Byte(c)
  }

  /** The table-driven update, in the 32-bit arithmetic its C++ expression is evaluated in and
      truncated to 16 bits. */
  function TableStep(crc: Word, c: byte): Word {
    var index := Add(Zeros(24) + crc[..8], PromoteChar(c))[24..];
    Add(Zeros(8) + crc + Zeros(8), ZERO + Lookup(index))[16..]
  }

  /** The step for one byte, from the dividend read so far to one byte more. */
  lemma DivideByteStep(m: Bits, c: byte)
    ensures Divide(ZERO, m + Byte(c) + ZERO) == TableStep(Divide(ZERO, m + ZERO), c)
  {
    hide Divide, TableStep;
    AppendByte(m, Byte(c));
    TableStepReduces(Divide(ZERO, m + ZERO), c);
    TableIsDivision(Byte(c));
  }

  /** An update multiplies the remainder by x^8 and adds the entry of the new byte. */
  lemma TableStepReduces(w: Word, c: byte)
    ensures TableStep(w, c) == Add(Divide(w, Zeros(8)), Lookup(Byte(c)))
  {
    hide Divide, TableStep, Lookup;
    TableStepParts(w, c);
    ReduceShifted(w);
    var high, b := w[..8], Byte(c);
    TableIsDivision(high);
    TableIsDivision(b);
    TableIsDivision(Add(high, b));
    assert Add(ZERO, ZERO) == ZERO;
    DivideIsLinear(ZERO, ZERO, high + ZERO, b + ZERO);
    assert Add(high + ZERO, b + ZERO) == Add(high, b) + ZERO;
    AddThree(w[8..] + Zeros(8), Lookup(high), Lookup(b));
  }

  lemma AddThree(a: Word, b: Word, c: Word)
    ensures Add(Add(a, b), c) == Add(a, Add(b, c))
  {
  }

  lemma TableStepParts(crc: Word, c: byte)
    ensures TableStep(crc, c) == Add(crc[8..] + Zeros(8), Lookup(Add(crc[..8], Byte(c))))
  {
    hide Lookup, Byte, Zeros, Add;
    var high, low := crc[..8], crc[8..];
    var sign := seq(24, _ => Byte(c)[0]);
    assert PromoteChar(c) == sign + Byte(c);
    AddAppend(Zeros(24), sign, high, Byte(c));
    var index := Add(high, Byte(c));
    assert Add(Zeros(24) + high, PromoteChar(c))[24..] == index;
    assert Zeros(8) + crc + Zeros(8) == (Zeros(8) + high) + (low + Zeros(8));
    AddAppend(Zeros(8) + high, ZERO, low + Zeros(8), Lookup(index));
    assert Add(Zeros(8) + crc + Zeros(8), ZERO + Lookup(index))[16..] == Add(low + Zeros(8), Lookup(index));
  }

  /** Multiplying a remainder by x^8: the low byte moves up, the high byte is reduced. */
  lemma ReduceShifted(w: Word)
    ensures Divide(w, Zeros(8)) == Add(w[8..] + Zeros(8), Divide(ZERO, w[..8] + ZERO))
  {
    hide Divide;
    ShortDividend(w);
    assert Zeros(0) + w == w;
    DivideConcat(ZERO, w, Zeros(8));
    var top, rest := w[..8] + ZERO, Zeros(8) + (w[8..] + Zeros(8));
    assert w + Zeros(8) == Add(rest, top);
    assert Add(ZERO, ZERO) == ZERO;
    DivideIsLinear(ZERO, ZERO, rest, top);
    DivideConcat(ZERO, Zeros(8), w[8..] + Zeros(8));
    DivideZeros(8);
    ShortDividend(w[8..] + Zeros(8));
    assert Zeros(0) + (w[8..] + Zeros(8)) == w[8..] + Zeros(8);
  }

  lemma AppendByte(m: Bits, b: Bits)
    requires |b| == 8
    ensures Divide(ZERO, m + b + ZERO)
         == Add(Divide(Divide(ZERO, m + ZERO), Zeros(8)), Divide(ZERO, b + ZERO))
  {
    var shifted, last := m + ZERO + Zeros(8), Zeros(|m|) + (b + ZERO);
    assert m + b + ZERO == Add(shifted, last);
    assert Add(ZERO, ZERO) == ZERO;
    DivideIsLinear(ZERO, ZERO, shifted, last);
    DivideConcat(ZERO, m + ZERO, Zeros(8));
    DivideConcat(ZERO, Zeros(|m|), b + ZERO);
    DivideZeros(|m|);
  }

  /** The loop over the bytes of a key computes the remainder of the key's bits followed by
      sixteen zeros, M(x) * x^16 mod (x^16 + x^12 + x^5 + 1). */
  method CRC16(s: Bytes) returns (crc: Word)
    ensures crc == Divide(ZERO, BitsOf(s) + ZERO) == Crc(s)
  {
    hide Divide, TableStep;
    crc := ZERO;
    assert BitsOf([]) + ZERO == ZERO;
    DivideZeros(16);
    for i := 0 to |s|
      invariant crc == Crc(s[..i])
    {
      DivideByteStep(BitsOf(s[..i]), s[i]);
      crc := TableStep(crc, s[i]);
      assert s[..i + 1][..i] == s[..i];
    }
    assert s[..|s|] == s;
  }
}
