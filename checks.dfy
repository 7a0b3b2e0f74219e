/** Concrete runs of the record store as written, on a device whose
    high-endurance flash is still erased: the checksum values the firmware
    computes, and what a host write followed by a reboot leaves in RAM. */
module MappingChecks {
  import Nvm
  import opened Mapping

  /** A host mapping that swaps A and B in the normal table. */
  const SWAPPED_AB: seq<bv8> := [2, 1, 3, 4, 5, 6, 8, 7]

  /** Flash as shipped: every word erased. */
  function ErasedFlash(): (m: seq<bv16>)
    ensures |m| == Nvm.FLASH_WORDS
  {
    seq(Nvm.FLASH_WORDS, _ => Nvm.ERASED)
  }

  /** The default record with A and B swapped in the normal table,
      checksum byte `o`. */
  function Swapped(o: bv8): (r: seq<bv8>)
    ensures |r| == MAP_SIZE
  {
    DefaultRecord(o)[NORMAL_TBL := SWAPPED_AB[0]][NORMAL_TBL + 1 := SWAPPED_AB[1]]
  }

  /** What Mapping_Load reads back after Swapped(o) was saved over erased
      flash: bytes 0..31 from the written row, bytes 32..63 still erased. */
  function Reloaded(o: bv8): (r: seq<bv8>)
    ensures |r| == MAP_SIZE
  {
    Swapped(o)[..ROW_WORDS] + seq(MAP_SIZE - ROW_WORDS, _ => 0xFF)
  }

  lemma SwappedRestamped(o: bv8, c: bv8)
    ensures Swapped(o)[CRC := c] == Swapped(c)
  {
    DefaultRestamped(o, c);
    assert Swapped(o)[CRC := c] == DefaultRecord(o)[CRC := c][NORMAL_TBL := SWAPPED_AB[0]][NORMAL_TBL + 1 := SWAPPED_AB[1]];
  }

  /** The checksum chain of the defaults built over an erased checksum byte, bytes 0..7. */
  lemma ErasedDefaults0(r: seq<bv8>, o: bv8)
    requires o == 0xFF && r == DefaultRecord(o)
    ensures Crc(r, 8) == 0x70
  {
    CrcStep(r, 0, 0x00, 0x00, 0x00);
    CrcStep(r, 1, 0x01, 0x00, 0x07);
    CrcStep(r, 2, 0xff, 0x07, 0xe6);
    CrcStep(r, 3, 0x00, 0xe6, 0xbc);
    CrcStep(r, 4, 0x00, 0xbc, 0x3d);
    CrcStep(r, 5, 0x00, 0x3d, 0xb3);
    CrcStep(r, 6, 0x00, 0xb3, 0x10);
    CrcStep(r, 7, 0x00, 0x10, 0x70);
  }

  /** The checksum chain of the defaults built over an erased checksum byte, bytes 8..15. */
  lemma ErasedDefaults8(r: seq<bv8>, o: bv8)
    requires o == 0xFF && r == DefaultRecord(o)
    requires Crc(r, 8) == 0x70
    ensures Crc(r, 16) == 0x55
  {
    CrcStep(r, 8, 0x01, 0x70, 0x50);
    CrcStep(r, 9, 0x02, 0x50, 0xb9);
    CrcStep(r, 10, 0x03, 0xb9, 0x2f);
    CrcStep(r, 11, 0x04, 0x2f, 0xd1);
    CrcStep(r, 12, 0x05, 0xd1, 0x22);
    CrcStep(r, 13, 0x06, 0x22, 0xfc);
    CrcStep(r, 14, 0x08, 0xfc, 0xc2);
    CrcStep(r, 15, 0x07, 0xc2, 0x55);
  }

  /** The checksum chain of the defaults built over an erased checksum byte, bytes 16..23. */
  lemma ErasedDefaults16(r: seq<bv8>, o: bv8)
    requires o == 0xFF && r == DefaultRecord(o)
    requires Crc(r, 16) == 0x55
    ensures Crc(r, 24) == 0xb4
  {
    CrcStep(r, 16, 0x00, 0x55, 0xac);
    CrcStep(r, 17, 0x00, 0xac, 0x4d);
    CrcStep(r, 18, 0x00, 0x4d, 0xe4);
    CrcStep(r, 19, 0x00, 0xe4, 0xb2);
    CrcStep(r, 20, 0x00, 0xb2, 0x17);
    CrcStep(r, 21, 0x00, 0x17, 0x65);
    CrcStep(r, 22, 0x00, 0x65, 0x3c);
    CrcStep(r, 23, 0x00, 0x3c, 0xb4);
  }

  /** The checksum chain of the defaults built over an erased checksum byte, bytes 24..31. */
  lemma ErasedDefaults24(r: seq<bv8>, o: bv8)
    requires o == 0xFF && r == DefaultRecord(o)
    requires Crc(r, 24) == 0xb4
    ensures Crc(r, 32) == 0xb6
  {
    CrcStep(r, 24, 0x01, 0xb4, 0x02);
    CrcStep(r, 25, 0x0b, 0x02, 0x3f);
    CrcStep(r, 26, 0x0c, 0x3f, 0x99);
    CrcStep(r, 27, 0x0d, 0x99, 0xe5);
    CrcStep(r, 28, 0x09, 0xe5, 0x8a);
    CrcStep(r, 29, 0x0a, 0x8a, 0x89);
    CrcStep(r, 30, 0x08, 0x89, 0x8e);
    CrcStep(r, 31, 0x07, 0x8e, 0xb6);
  }

  /** The checksum chain of the defaults built over an erased checksum byte, bytes 32..39. */
  lemma ErasedDefaults32(r: seq<bv8>, o: bv8)
    requires o == 0xFF && r == DefaultRecord(o)
    requires Crc(r, 32) == 0xb6
    ensures Crc(r, 40) == 0x8c
  {
    CrcStep(r, 32, 0x00, 0xb6, 0x0b);
    CrcStep(r, 33, 0x00, 0x0b, 0x31);
    CrcStep(r, 34, 0x00, 0x31, 0x97);
    CrcStep(r, 35, 0x00, 0x97, 0xec);
    CrcStep(r, 36, 0x00, 0xec, 0x8a);
    CrcStep(r, 37, 0x00, 0x8a, 0xbf);
    CrcStep(r, 38, 0x00, 0xbf, 0x34);
    CrcStep(r, 39, 0x00, 0x34, 0x8c);
  }

  /** The checksum chain of the defaults built over an erased checksum byte, bytes 40..47. */
  lemma ErasedDefaults40(r: seq<bv8>, o: bv8)
    requires o == 0xFF && r == DefaultRecord(o)
    requires Crc(r, 40) == 0x8c
    ensures Crc(r, 48) == 0x6b
  {
    CrcStep(r, 40, 0x00, 0x8c, 0xad);
    CrcStep(r, 41, 0x00, 0xad, 0x4a);
    CrcStep(r, 42, 0x00, 0x4a, 0xf1);
    CrcStep(r, 43, 0x00, 0xf1, 0xd9);
    CrcStep(r, 44, 0x00, 0xd9, 0x01);
    CrcStep(r, 45, 0x00, 0x01, 0x07);
    CrcStep(r, 46, 0x00, 0x07, 0x15);
    CrcStep(r, 47, 0x00, 0x15, 0x6b);
  }

  /** The checksum chain of the defaults built over an erased checksum byte, bytes 48..55. */
  lemma ErasedDefaults48(r: seq<bv8>, o: bv8)
    requires o == 0xFF && r == DefaultRecord(o)
    requires Crc(r, 48) == 0x6b
    ensures Crc(r, 56) == 0x1f
  {
    CrcStep(r, 48, 0x00, 0x6b, 0x16);
    CrcStep(r, 49, 0x00, 0x16, 0x62);
    CrcStep(r, 50, 0x00, 0x62, 0x29);
    CrcStep(r, 51, 0x00, 0x29, 0xdf);
    CrcStep(r, 52, 0x00, 0xdf, 0x13);
    CrcStep(r, 53, 0x00, 0x13, 0x79);
    CrcStep(r, 54, 0x00, 0x79, 0x68);
    CrcStep(r, 55, 0x00, 0x68, 0x1f);
  }

  /** The checksum chain of the defaults built over an erased checksum byte, bytes 56..62. */
  lemma ErasedDefaults56(r: seq<bv8>, o: bv8)
    requires o == 0xFF && r == DefaultRecord(o)
    requires Crc(r, 56) == 0x1f
    ensures Crc(r, 63) == 0x2a
  {
    CrcStep(r, 56, 0x00, 0x1f, 0x5d);
    CrcStep(r, 57, 0x00, 0x5d, 0x94);
    CrcStep(r, 58, 0x00, 0x94, 0xe5);
    CrcStep(r, 59, 0x00, 0xe5, 0xb5);
    CrcStep(r, 60, 0x00, 0xb5, 0x02);
    CrcStep(r, 61, 0x00, 0x02, 0x0e);
    CrcStep(r, 62, 0x00, 0x0e, 0x2a);
  }

  /** The defaults built over an erased checksum byte hash to 0x2a. */
  lemma ErasedDefaultsCrc()
    ensures Crc(DefaultRecord(0xFF), CRC_LEN) == 0x2a
  {
    ErasedDefaults0(DefaultRecord(0xFF), 0xFF);
    ErasedDefaults8(DefaultRecord(0xFF), 0xFF);
    ErasedDefaults16(DefaultRecord(0xFF), 0xFF);
    ErasedDefaults24(DefaultRecord(0xFF), 0xFF);
    ErasedDefaults32(DefaultRecord(0xFF), 0xFF);
    ErasedDefaults40(DefaultRecord(0xFF), 0xFF);
    ErasedDefaults48(DefaultRecord(0xFF), 0xFF);
    ErasedDefaults56(DefaultRecord(0xFF), 0xFF);
  }

  /** The checksum chain of the swapped record prepared over checksum byte 0x2a, bytes 0..7. */
  lemma SwappedPrepared0(r: seq<bv8>, o: bv8)
    requires o == 0x2a && r == Swapped(o)
    ensures Crc(r, 8) == 0xf9
  {
    CrcStep(r, 0, 0x00, 0x00, 0x00);
    CrcStep(r, 1, 0x01, 0x00, 0x07);
    CrcStep(r, 2, 0x2a, 0x07, 0xc3);
    CrcStep(r, 3, 0x00, 0xc3, 0x47);
    CrcStep(r, 4, 0x00, 0x47, 0xd2);
    CrcStep(r, 5, 0x00, 0xd2, 0x30);
    CrcStep(r, 6, 0x00, 0x30, 0x90);
    CrcStep(r, 7, 0x00, 0x90, 0xf9);
  }

  /** The checksum chain of the swapped record prepared over checksum byte 0x2a, bytes 8..15. */
  lemma SwappedPrepared8(r: seq<bv8>, o: bv8)
    requires o == 0x2a && r == Swapped(o)
    requires Crc(r, 8) == 0xf9
    ensures Crc(r, 16) == 0x32
  {
    CrcStep(r, 8, 0x02, 0xf9, 0xef);
    CrcStep(r, 9, 0x01, 0xef, 0x84);
    CrcStep(r, 10, 0x03, 0x84, 0x9c);
    CrcStep(r, 11, 0x04, 0x9c, 0xc1);
    CrcStep(r, 12, 0x05, 0xc1, 0x52);
    CrcStep(r, 13, 0x06, 0x52, 0xab);
    CrcStep(r, 14, 0x08, 0xab, 0x60);
    CrcStep(r, 15, 0x07, 0x60, 0x32);
  }

  /** The checksum chain of the swapped record prepared over checksum byte 0x2a, bytes 16..23. */
  lemma SwappedPrepared16(r: seq<bv8>, o: bv8)
    requires o == 0x2a && r == Swapped(o)
    requires Crc(r, 16) == 0x32
    ensures Crc(r, 24) == 0x7f
  {
    CrcStep(r, 16, 0x00, 0x32, 0x9e);
    CrcStep(r, 17, 0x00, 0x9e, 0xd3);
    CrcStep(r, 18, 0x00, 0xd3, 0x37);
    CrcStep(r, 19, 0x00, 0x37, 0x85);
    CrcStep(r, 20, 0x00, 0x85, 0x92);
    CrcStep(r, 21, 0x00, 0x92, 0xf7);
    CrcStep(r, 22, 0x00, 0xf7, 0xcb);
    CrcStep(r, 23, 0x00, 0xcb, 0x7f);
  }

  /** The checksum chain of the swapped record prepared over checksum byte 0x2a, bytes 24..31. */
  lemma SwappedPrepared24(r: seq<bv8>, o: bv8)
    requires o == 0x2a && r == Swapped(o)
    requires Crc(r, 24) == 0x7f
    ensures Crc(r, 32) == 0x78
  {
    CrcStep(r, 24, 0x01, 0x7f, 0x7d);
    CrcStep(r, 25, 0x0b, 0x7d, 0x45);
    CrcStep(r, 26, 0x0c, 0x45, 0xf8);
    CrcStep(r, 27, 0x0d, 0xf8, 0xc5);
    CrcStep(r, 28, 0x09, 0xc5, 0x6a);
    CrcStep(r, 29, 0x0a, 0x6a, 0x27);
    CrcStep(r, 30, 0x08, 0x27, 0xcd);
    CrcStep(r, 31, 0x07, 0xcd, 0x78);
  }

  /** The checksum chain of the swapped record prepared over checksum byte 0x2a, bytes 32..39. */
  lemma SwappedPrepared32(r: seq<bv8>, o: bv8)
    requires o == 0x2a && r == Swapped(o)
    requires Crc(r, 32) == 0x78
    ensures Crc(r, 40) == 0x1d
  {
    CrcStep(r, 32, 0x00, 0x78, 0x6f);
    CrcStep(r, 33, 0x00, 0x6f, 0x0a);
    CrcStep(r, 34, 0x00, 0x0a, 0x36);
    CrcStep(r, 35, 0x00, 0x36, 0x82);
    CrcStep(r, 36, 0x00, 0x82, 0x87);
    CrcStep(r, 37, 0x00, 0x87, 0x9c);
    CrcStep(r, 38, 0x00, 0x9c, 0xdd);
    CrcStep(r, 39, 0x00, 0xdd, 0x1d);
  }

  /** The checksum chain of the swapped record prepared over checksum byte 0x2a, bytes 40..47. */
  lemma SwappedPrepared40(r: seq<bv8>, o: bv8)
    requires o == 0x2a && r == Swapped(o)
    requires Crc(r, 40) == 0x1d
    ensures Crc(r, 48) == 0xf0
  {
    CrcStep(r, 40, 0x00, 0x1d, 0x53);
    CrcStep(r, 41, 0x00, 0x53, 0xbe);
    CrcStep(r, 42, 0x00, 0xbe, 0x33);
    CrcStep(r, 43, 0x00, 0x33, 0x99);
    CrcStep(r, 44, 0x00, 0x99, 0xc6);
    CrcStep(r, 45, 0x00, 0xc6, 0x5c);
    CrcStep(r, 46, 0x00, 0x5c, 0x93);
    CrcStep(r, 47, 0x00, 0x93, 0xf0);
  }

  /** The checksum chain of the swapped record prepared over checksum byte 0x2a, bytes 48..55. */
  lemma SwappedPrepared48(r: seq<bv8>, o: bv8)
    requires o == 0x2a && r == Swapped(o)
    requires Crc(r, 48) == 0xf0
    ensures Crc(r, 56) == 0x3a
  {
    CrcStep(r, 48, 0x00, 0xf0, 0xde);
    CrcStep(r, 49, 0x00, 0xde, 0x14);
    CrcStep(r, 50, 0x00, 0x14, 0x6c);
    CrcStep(r, 51, 0x00, 0x6c, 0x03);
    CrcStep(r, 52, 0x00, 0x03, 0x09);
    CrcStep(r, 53, 0x00, 0x09, 0x3f);
    CrcStep(r, 54, 0x00, 0x3f, 0xbd);
    CrcStep(r, 55, 0x00, 0xbd, 0x3a);
  }

  /** The checksum chain of the swapped record prepared over checksum byte 0x2a, bytes 56..62. */
  lemma SwappedPrepared56(r: seq<bv8>, o: bv8)
    requires o == 0x2a && r == Swapped(o)
    requires Crc(r, 56) == 0x3a
    ensures Crc(r, 63) == 0x21
  {
    CrcStep(r, 56, 0x00, 0x3a, 0xa6);
    CrcStep(r, 57, 0x00, 0xa6, 0x7b);
    CrcStep(r, 58, 0x00, 0x7b, 0x66);
    CrcStep(r, 59, 0x00, 0x66, 0x35);
    CrcStep(r, 60, 0x00, 0x35, 0x8b);
    CrcStep(r, 61, 0x00, 0x8b, 0xb8);
    CrcStep(r, 62, 0x00, 0xb8, 0x21);
  }

  /** The swapped record prepared over checksum byte 0x2a hashes to 0x21. */
  lemma SwappedPreparedCrc()
    ensures Crc(Swapped(0x2a), CRC_LEN) == 0x21
  {
    SwappedPrepared0(Swapped(0x2a), 0x2a);
    SwappedPrepared8(Swapped(0x2a), 0x2a);
    SwappedPrepared16(Swapped(0x2a), 0x2a);
    SwappedPrepared24(Swapped(0x2a), 0x2a);
    SwappedPrepared32(Swapped(0x2a), 0x2a);
    SwappedPrepared40(Swapped(0x2a), 0x2a);
    SwappedPrepared48(Swapped(0x2a), 0x2a);
    SwappedPrepared56(Swapped(0x2a), 0x2a);
  }

  /** The checksum chain of the image read back after the swapped record was saved, bytes 0..7. */
  lemma Reloaded0(r: seq<bv8>, o: bv8)
    requires o == 0x21 && r == Reloaded(o)
    ensures Crc(r, 8) == 0xcd
  {
    CrcStep(r, 0, 0x00, 0x00, 0x00);
    CrcStep(r, 1, 0x01, 0x00, 0x07);
    CrcStep(r, 2, 0x21, 0x07, 0xf2);
    CrcStep(r, 3, 0x00, 0xf2, 0xd0);
    CrcStep(r, 4, 0x00, 0xd0, 0x3e);
    CrcStep(r, 5, 0x00, 0x3e, 0xba);
    CrcStep(r, 6, 0x00, 0xba, 0x2f);
    CrcStep(r, 7, 0x00, 0x2f, 0xcd);
  }

  /** The checksum chain of the image read back after the swapped record was saved, bytes 8..15. */
  lemma Reloaded8(r: seq<bv8>, o: bv8)
    requires o == 0x21 && r == Reloaded(o)
    requires Crc(r, 8) == 0xcd
    ensures Crc(r, 16) == 0x27
  {
    CrcStep(r, 8, 0x02, 0xcd, 0x63);
    CrcStep(r, 9, 0x01, 0x63, 0x29);
    CrcStep(r, 10, 0x03, 0x29, 0xd6);
    CrcStep(r, 11, 0x04, 0xd6, 0x30);
    CrcStep(r, 12, 0x05, 0x30, 0x8b);
    CrcStep(r, 13, 0x06, 0x8b, 0xaa);
    CrcStep(r, 14, 0x08, 0xaa, 0x67);
    CrcStep(r, 15, 0x07, 0x67, 0x27);
  }

  /** The checksum chain of the image read back after the swapped record was saved, bytes 16..23. */
  lemma Reloaded16(r: seq<bv8>, o: bv8)
    requires o == 0x21 && r == Reloaded(o)
    requires Crc(r, 16) == 0x27
    ensures Crc(r, 24) == 0x17
  {
    CrcStep(r, 16, 0x00, 0x27, 0xf5);
    CrcStep(r, 17, 0x00, 0xf5, 0xc5);
    CrcStep(r, 18, 0x00, 0xc5, 0x55);
    CrcStep(r, 19, 0x00, 0x55, 0xac);
    CrcStep(r, 20, 0x00, 0xac, 0x4d);
    CrcStep(r, 21, 0x00, 0x4d, 0xe4);
    CrcStep(r, 22, 0x00, 0xe4, 0xb2);
    CrcStep(r, 23, 0x00, 0xb2, 0x17);
  }

  /** The checksum chain of the image read back after the swapped record was saved, bytes 24..31. */
  lemma Reloaded24(r: seq<bv8>, o: bv8)
    requires o == 0x21 && r == Reloaded(o)
    requires Crc(r, 24) == 0x17
    ensures Crc(r, 32) == 0x52
  {
    CrcStep(r, 24, 0x01, 0x17, 0x62);
    CrcStep(r, 25, 0x0b, 0x62, 0x18);
    CrcStep(r, 26, 0x0c, 0x18, 0x6c);
    CrcStep(r, 27, 0x0d, 0x6c, 0x20);
    CrcStep(r, 28, 0x09, 0x20, 0xdf);
    CrcStep(r, 29, 0x0a, 0xdf, 0x25);
    CrcStep(r, 30, 0x08, 0x25, 0xc3);
    CrcStep(r, 31, 0x07, 0xc3, 0x52);
  }

  /** The checksum chain of the image read back after the swapped record was saved, bytes 32..39. */
  lemma Reloaded32(r: seq<bv8>, o: bv8)
    requires o == 0x21 && r == Reloaded(o)
    requires Crc(r, 32) == 0x52
    ensures Crc(r, 40) == 0x1a
  {
    CrcStep(r, 32, 0xff, 0x52, 0x4a);
    CrcStep(r, 33, 0xff, 0x4a, 0x02);
    CrcStep(r, 34, 0xff, 0x02, 0xfd);
    CrcStep(r, 35, 0xff, 0xfd, 0x0e);
    CrcStep(r, 36, 0xff, 0x0e, 0xd9);
    CrcStep(r, 37, 0xff, 0xd9, 0xf2);
    CrcStep(r, 38, 0xff, 0xf2, 0x23);
    CrcStep(r, 39, 0xff, 0x23, 0x1a);
  }

  /** The checksum chain of the image read back after the swapped record was saved, bytes 40..47. */
  lemma Reloaded40(r: seq<bv8>, o: bv8)
    requires o == 0x21 && r == Reloaded(o)
    requires Crc(r, 40) == 0x1a
    ensures Crc(r, 48) == 0x5e
  {
    CrcStep(r, 40, 0xff, 0x1a, 0xb5);
    CrcStep(r, 41, 0xff, 0xb5, 0xf1);
    CrcStep(r, 42, 0xff, 0xf1, 0x2a);
    CrcStep(r, 43, 0xff, 0x2a, 0x25);
    CrcStep(r, 44, 0xff, 0x25, 0x08);
    CrcStep(r, 45, 0xff, 0x08, 0xcb);
    CrcStep(r, 46, 0xff, 0xcb, 0x8c);
    CrcStep(r, 47, 0xff, 0x8c, 0x5e);
  }

  /** The checksum chain of the image read back after the swapped record was saved, bytes 48..55. */
  lemma Reloaded48(r: seq<bv8>, o: bv8)
    requires o == 0x21 && r == Reloaded(o)
    requires Crc(r, 48) == 0x5e
    ensures Crc(r, 56) == 0xce
  {
    CrcStep(r, 48, 0xff, 0x5e, 0x6e);
    CrcStep(r, 49, 0xff, 0x6e, 0xfe);
    CrcStep(r, 50, 0xff, 0xfe, 0x07);
    CrcStep(r, 51, 0xff, 0x07, 0xe6);
    CrcStep(r, 52, 0xff, 0xe6, 0x4f);
    CrcStep(r, 53, 0xff, 0x4f, 0x19);
    CrcStep(r, 54, 0xff, 0x19, 0xbc);
    CrcStep(r, 55, 0xff, 0xbc, 0xce);
  }

  /** The checksum chain of the image read back after the swapped record was saved, bytes 56..62. */
  lemma Reloaded56(r: seq<bv8>, o: bv8)
    requires o == 0x21 && r == Reloaded(o)
    requires Crc(r, 56) == 0xce
    ensures Crc(r, 63) == 0xe5
  {
    CrcStep(r, 56, 0xff, 0xce, 0x97);
    CrcStep(r, 57, 0xff, 0x97, 0x1f);
    CrcStep(r, 58, 0xff, 0x1f, 0xae);
    CrcStep(r, 59, 0xff, 0xae, 0xb0);
    CrcStep(r, 60, 0xff, 0xb0, 0xea);
    CrcStep(r, 61, 0xff, 0xea, 0x6b);
    CrcStep(r, 62, 0xff, 0x6b, 0xe5);
  }

  /** The image read back hashes to 0xe5. */
  lemma ReloadedCrc()
    ensures Crc(Reloaded(0x21), CRC_LEN) == 0xe5
  {
    Reloaded0(Reloaded(0x21), 0x21);
    Reloaded8(Reloaded(0x21), 0x21);
    Reloaded16(Reloaded(0x21), 0x21);
    Reloaded24(Reloaded(0x21), 0x21);
    Reloaded32(Reloaded(0x21), 0x21);
    Reloaded40(Reloaded(0x21), 0x21);
    Reloaded48(Reloaded(0x21), 0x21);
    Reloaded56(Reloaded(0x21), 0x21);
  }

  /** The golden value: the defaults built over an erased checksum byte
      hash to 0x2a, so a fresh device boots with DefaultRecord(0x2a). */
  lemma ErasedFlashLoadsDefaults()
    ensures Crc(DefaultRecord(0xFF), CRC_LEN) == 0x2a
    ensures !Accepted(FlashImage(ErasedFlash()))
    ensures LoadResult(FlashImage(ErasedFlash())) == DefaultRecord(0x2a)
  {
    var img := FlashImage(ErasedFlash());
    assert img[VER] == LowByte(Nvm.ERASED) == 0xFF;
    ErasedDefaultsCrc();
    StampIs(DefaultRecord(0xFF), 0x2a);
    DefaultRestamped(0xFF, 0x2a);
  }

  /** Saving the swapped tables over the booted defaults stamps 0x21. */
  lemma SwappedSave()
    ensures Saved(DefaultRecord(0x2a), SWAPPED_AB, DEFAULT_SPECIAL) == Swapped(0x21)
  {
    var p := Prepared(DefaultRecord(0x2a), SWAPPED_AB, DEFAULT_SPECIAL);
    forall i | 0 <= i < MAP_SIZE
      ensures p[i] == Swapped(0x2a)[i]
    {
      if NORMAL_TBL <= i < NORMAL_TBL + NUM_BUTTONS {
        assert p[i] == NormalTable(p)[i - NORMAL_TBL];
      } else if SPECIAL_TBL <= i < SPECIAL_TBL + NUM_BUTTONS {
        assert p[i] == SpecialTable(p)[i - SPECIAL_TBL];
        assert DefaultRecord(0x2a)[i] == SpecialTable(DefaultRecord(0x2a))[i - SPECIAL_TBL];
      }
    }
    assert p == Swapped(0x2a);
    SwappedPreparedCrc();
    StampIs(p, 0x21);
    SwappedRestamped(0x2a, 0x21);
  }

  /** Even with the whole record in flash, that save would not load back:
      its new checksum 0x21 differs from the 0x2a it was computed over. */
  lemma SwappedSaveRejected()
    ensures !Accepted(Saved(DefaultRecord(0x2a), SWAPPED_AB, DEFAULT_SPECIAL))
  {
    SwappedSave();
    SavedRevalidatesIff(DefaultRecord(0x2a), SWAPPED_AB, DEFAULT_SPECIAL);
  }

  /** The image read back after that save: bytes 32..63 are erased. */
  lemma ReloadedImage()
    ensures FlashImage(SavedFlash(ErasedFlash(), Swapped(0x21))) == Reloaded(0x21)
  {
    var mem := ErasedFlash();
    SaveReadBack(mem, Swapped(0x21));
    var img := FlashImage(SavedFlash(mem, Swapped(0x21)));
    forall i | 0 <= i < MAP_SIZE
      ensures img[i] == Reloaded(0x21)[i]
    {
      if i >= ROW_WORDS {
        assert img[i] == FlashImage(mem)[i] == LowByte(Nvm.ERASED);
      }
    }
  }

  /** That image fails the check: its checksum over bytes 0..62 is 0xe5,
      not the stored 0x21. */
  lemma ReloadRejected()
    ensures !Accepted(Reloaded(0x21))
  {
    ReloadedCrc();
  }

  /** A fresh device that boots, receives the A/B swap from the host and
      reboots comes up with the default tables again: the saved mapping is
      silently lost. */
  lemma FreshDeviceLosesSavedMap()
    ensures
      var mem0 := ErasedFlash();
      var booted := LoadResult(FlashImage(mem0));
      var saved := Saved(booted, SWAPPED_AB, DEFAULT_SPECIAL);
      var mem1 := SavedFlash(mem0, saved);
      var rebooted := LoadResult(FlashImage(mem1));
      NormalTable(saved) == SWAPPED_AB && !Accepted(FlashImage(mem1)) &&
      NormalTable(rebooted) == DEFAULT_NORMAL && NormalTable(rebooted) != SWAPPED_AB
  {
    var mem0 := ErasedFlash();
    ErasedFlashLoadsDefaults();
    var booted := LoadResult(FlashImage(mem0));
    assert booted == DefaultRecord(0x2a);
    SwappedSave();
    var saved := Saved(booted, SWAPPED_AB, DEFAULT_SPECIAL);
    assert saved == Swapped(0x21);
    ReloadedImage();
    ReloadRejected();
    var img := FlashImage(SavedFlash(mem0, saved));
    assert img == Reloaded(0x21);
    RejectedLoadsDefaults(img);
    assert DEFAULT_NORMAL[0] != SWAPPED_AB[0];
  }

  /** Bytes 32..63 never reach flash: a reserved byte saved as 0 reads
      back as the erased 0xFF. */
  lemma UpperHalfNotPersisted()
    ensures Swapped(0x21)[SPECIAL_RESERVED + 8] == 0
    ensures FlashImage(SavedFlash(ErasedFlash(), Swapped(0x21)))[SPECIAL_RESERVED + 8] == 0xFF
  {
    SaveReadBack(ErasedFlash(), Swapped(0x21));
    assert FlashImage(ErasedFlash())[SPECIAL_RESERVED + 8] == LowByte(Nvm.ERASED);
  }
}
