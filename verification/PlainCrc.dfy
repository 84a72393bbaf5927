/** The checksum in plain numbers: what one byte leaves, straight from the table, and what a checksum is
    worth. */
module PlainCrc {
  import opened Words
  import opened Crc16

  /** From 0, absorbing a byte leaves the entry of the table with the number of that byte. */
  lemma FirstStepIsEntry(b: byte)
    ensures var w, e := TableStep(ZERO, b), CRC16_TABLE[b / 8][b % 8];
      && w[0] == Has(e, 0x8000) && w[1] == Has(e, 0x4000) && w[2] == Has(e, 0x2000) && w[3] == Has(e, 0x1000)
      && w[4] == Has(e, 0x0800) && w[5] == Has(e, 0x0400) && w[6] == Has(e, 0x0200) && w[7] == Has(e, 0x0100)
      && w[8] == Has(e, 0x0080) && w[9] == Has(e, 0x0040) && w[10] == Has(e, 0x0020) && w[11] == Has(e, 0x0010)
      && w[12] == Has(e, 0x0008) && w[13] == Has(e, 0x0004) && w[14] == Has(e, 0x0002) && w[15] == Has(e, 0x0001)
  {
    EntryBits(Entry(b));
    assert Lookup(Byte(b)) == WordOf(Entry(b)) by {
      ByteBits(b);
    }
    hide Lookup, WordOf, TableStep, Divide, Has;
    TableStepReduces(ZERO, b);
    DivideZeros(8);
  }

  lemma EntryBits(e: bv16)
    ensures var w := WordOf(e);
      && w[0] == Has(e, 0x8000) && w[1] == Has(e, 0x4000) && w[2] == Has(e, 0x2000) && w[3] == Has(e, 0x1000)
      && w[4] == Has(e, 0x0800) && w[5] == Has(e, 0x0400) && w[6] == Has(e, 0x0200) && w[7] == Has(e, 0x0100)
      && w[8] == Has(e, 0x0080) && w[9] == Has(e, 0x0040) && w[10] == Has(e, 0x0020) && w[11] == Has(e, 0x0010)
      && w[12] == Has(e, 0x0008) && w[13] == Has(e, 0x0004) && w[14] == Has(e, 0x0002) && w[15] == Has(e, 0x0001)
  {
    hide Has;
    assert forall i :: 0 <= i < 16 ==> WordOf(e)[i] == Has(e, MASKS[i]);
    hide WordOf;
  }

  /** The checksum of a string of one byte. */
  lemma OneByteDivided(b: byte)
    ensures Crc([b]) == TableStep(ZERO, b)
  {
    hide TableStep, Divide, Byte;
    DivideByteStep([], b);
    DivideZeros(16);
    assert [] + ZERO == ZERO;
    assert [] + Byte(b) == Byte(b);
    assert [b][..0] == [] && BitsOf([b]) == BitsOf([]) + Byte(b);
    assert BitsOf([b]) == Byte(b);
  }

  /** A word as a number. */
  lemma WordValue(w: Word)
    ensures ToNat(w) ==
      32768 * Digit(w[0]) + 16384 * Digit(w[1]) + 8192 * Digit(w[2]) + 4096 * Digit(w[3])
      + 2048 * Digit(w[4]) + 1024 * Digit(w[5]) + 512 * Digit(w[6]) + 256 * Digit(w[7])
      + 128 * Digit(w[8]) + 64 * Digit(w[9]) + 32 * Digit(w[10]) + 16 * Digit(w[11])
      + 8 * Digit(w[12]) + 4 * Digit(w[13]) + 2 * Digit(w[14]) + Digit(w[15])
  {
    hide ToNat, Digit;
    ToNatOfSixteen(w);
    ToNatOfFour(w[..4]);
    ToNatOfFour(w[4..8]);
    ToNatOfFour(w[8..12]);
    ToNatOfFour(w[12..]);
  }

  lemma BitsOf2672()
    ensures
      && !Has(0x2672, 0x8000) && !Has(0x2672, 0x4000) && Has(0x2672, 0x2000) && !Has(0x2672, 0x1000)
      && !Has(0x2672, 0x0800) && Has(0x2672, 0x0400) && Has(0x2672, 0x0200) && !Has(0x2672, 0x0100)
      && !Has(0x2672, 0x0080) && Has(0x2672, 0x0040) && Has(0x2672, 0x0020) && Has(0x2672, 0x0010)
      && !Has(0x2672, 0x0008) && !Has(0x2672, 0x0004) && Has(0x2672, 0x0002) && !Has(0x2672, 0x0001)
  {
  }

  /** The checksum of "1" is 0x2672. */
  lemma KnownChecksum()
    ensures ToNat(Crc([0x31])) == 0x2672
  {
    hide ToNat, Crc, TableStep, Has;
    OneByteDivided(0x31);
    FirstStepIsEntry(0x31);
    BitsOf2672();
    WordValue(Crc([0x31]));
    assert CRC16_TABLE[6][1] == 0x2672;
  }
}
