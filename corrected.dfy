/** The record store as evidently intended: the checksum covers the 63
    bytes other than the checksum byte itself, and the whole 64-byte record
    reaches flash, written as two rows. Mapping holds the store as
    written; the definitions here are the corrections of its two defects. */
module MappingCorrected {
  import Nvm
  import Mapping

  /** The 63 bytes the checksum covers: every byte but byte 2. */
  function Covered(r: seq<bv8>): (c: seq<bv8>)
    requires |r| == Mapping.MAP_SIZE
    ensures |c| == Mapping.CRC_LEN
    ensures forall i :: 0 <= i < Mapping.CRC ==> c[i] == r[i]
    ensures forall i :: Mapping.CRC < i < Mapping.MAP_SIZE ==> c[i - 1] == r[i]
  {
    r[..Mapping.CRC] + r[Mapping.CRC + 1..]
  }

  function Checksum(r: seq<bv8>): bv8
    requires |r| == Mapping.MAP_SIZE
  {
    Mapping.Crc(Covered(r), Mapping.CRC_LEN)
  }

  /** The intended load check. */
  predicate Accepted(r: seq<bv8>)
    requires |r| == Mapping.MAP_SIZE
  {
    r[Mapping.VER] == Mapping.MAP_VER && r[Mapping.CRC] == Checksum(r)
  }

  function Stamp(r: seq<bv8>): (t: seq<bv8>)
    requires |r| == Mapping.MAP_SIZE
    ensures |t| == Mapping.MAP_SIZE && t[Mapping.CRC] == Checksum(r)
    ensures forall i :: 0 <= i < Mapping.MAP_SIZE && i != Mapping.CRC ==> t[i] == r[i]
  {
    r[Mapping.CRC := Checksum(r)]
  }

  /** Mapping_Load with the intended check. */
  function LoadResult(img: seq<bv8>): (r: seq<bv8>)
    requires |img| == Mapping.MAP_SIZE
    ensures |r| == Mapping.MAP_SIZE && Accepted(r)
    ensures Accepted(img) ==> r == img
    ensures !Accepted(img) ==> r == Stamp(Mapping.DefaultRecord(0))
  {
    if Accepted(img) then img
    else
      StampAccepted(Mapping.DefaultRecord(0));
      Stamp(Mapping.DefaultRecord(0))
  }

  /** Mapping_Save's record with the intended checksum. */
  function Saved(r: seq<bv8>, n: seq<bv8>, s: seq<bv8>): (t: seq<bv8>)
    requires |r| == Mapping.MAP_SIZE && |n| == Mapping.NUM_BUTTONS && |s| == Mapping.NUM_BUTTONS
    ensures |t| == Mapping.MAP_SIZE && t[Mapping.REPORT_ID] == 0 && t[Mapping.VER] == Mapping.MAP_VER
    ensures Mapping.NormalTable(t) == n && Mapping.SpecialTable(t) == s
    ensures forall i :: 0 <= i < Mapping.MAP_SIZE && Mapping.Reserved(i) ==> t[i] == r[i]
  {
    Stamp(Mapping.Prepared(r, n, s))
  }

  /** The whole record widened to 64 flash words. */
  function RowImage(r: seq<bv8>): (w: seq<bv16>)
    requires |r| == Mapping.MAP_SIZE
    ensures |w| == Mapping.MAP_SIZE && forall i :: 0 <= i < Mapping.MAP_SIZE ==> w[i] == Mapping.RowWord(r[i])
  {
    seq(Mapping.MAP_SIZE, i requires 0 <= i < Mapping.MAP_SIZE => Mapping.RowWord(r[i]))
  }

  /** The flash after saving `r` as two rows: each row erased, then written
      with its half of the image. */
  function SavedFlash(mem: seq<bv16>, r: seq<bv8>): (m: seq<bv16>)
    requires |mem| == Nvm.FLASH_WORDS && |r| == Mapping.MAP_SIZE
    ensures |m| == Nvm.FLASH_WORDS
  {
    var w := RowImage(r);
    var first := Nvm.RowWritten(Nvm.ErasePage(mem, Mapping.HEF), Mapping.HEF, w[..Nvm.ROW_WORDS]);
    var second := Mapping.HEF + Nvm.ROW_WORDS;
    Nvm.RowWritten(Nvm.ErasePage(first, second), second, w[Nvm.ROW_WORDS..])
  }

  /** Overwriting the checksum byte leaves the covered bytes alone. */
  lemma CoveredIgnoresChecksum(r: seq<bv8>, c: bv8)
    requires |r| == Mapping.MAP_SIZE
    ensures Covered(r[Mapping.CRC := c]) == Covered(r)
    ensures Checksum(r[Mapping.CRC := c]) == Checksum(r)
  {
    assert Covered(r[Mapping.CRC := c]) == Covered(r);
  }

  /** Stamping always yields a record the intended check accepts. */
  lemma StampAccepted(t: seq<bv8>)
    requires |t| == Mapping.MAP_SIZE && t[Mapping.VER] == Mapping.MAP_VER
    ensures Accepted(Stamp(t))
  {
    CoveredIgnoresChecksum(t, Checksum(t));
  }

  /** Changing any single byte of an accepted record, the checksum byte and
      byte 63 included, makes the intended check reject it. */
  lemma DetectsAnySingleByte(r: seq<bv8>, j: nat, v: bv8)
    requires |r| == Mapping.MAP_SIZE && Accepted(r)
    requires j < Mapping.MAP_SIZE && v != r[j]
    ensures !Accepted(r[j := v])
  {
    var e := r[j := v];
    if j == Mapping.CRC {
      CoveredIgnoresChecksum(r, v);
    } else {
      var k := if j < Mapping.CRC then j else j - 1;
      assert Covered(e) == Covered(r)[k := v];
      Mapping.CrcDetectsOneByte(Covered(r), k, v, Mapping.CRC_LEN);
    }
  }

  /** Byte `i` of the first row read back after the two-row save. */
  lemma ReadBackLow(mem: seq<bv16>, r: seq<bv8>, i: nat)
    requires |mem| == Nvm.FLASH_WORDS && |r| == Mapping.MAP_SIZE && i < Nvm.ROW_WORDS
    ensures Mapping.FlashImage(SavedFlash(mem, r))[i] == r[i]
  {
    var w := RowImage(r);
    var erased := Nvm.ErasePage(mem, Mapping.HEF);
    var first := Nvm.RowWritten(erased, Mapping.HEF, w[..Nvm.ROW_WORDS]);
    var second := Mapping.HEF + Nvm.ROW_WORDS;
    var erased2 := Nvm.ErasePage(first, second);
    assert first[Mapping.HEF + i] == w[..Nvm.ROW_WORDS][i] & Nvm.WORD_MASK;
    assert erased2[Mapping.HEF + i] == first[Mapping.HEF + i];
    assert SavedFlash(mem, r)[Mapping.HEF + i] == erased2[Mapping.HEF + i];
  }

  /** Byte `i` of the second row read back after the two-row save. */
  lemma ReadBackHigh(mem: seq<bv16>, r: seq<bv8>, i: nat)
    requires |mem| == Nvm.FLASH_WORDS && |r| == Mapping.MAP_SIZE && Nvm.ROW_WORDS <= i < Mapping.MAP_SIZE
    ensures Mapping.FlashImage(SavedFlash(mem, r))[i] == r[i]
  {
    var w := RowImage(r);
    var second := Mapping.HEF + Nvm.ROW_WORDS;
    var k := i - Nvm.ROW_WORDS;
    assert w[Nvm.ROW_WORDS..][k] == w[i];
    assert SavedFlash(mem, r)[second + k] == w[Nvm.ROW_WORDS..][k] & Nvm.WORD_MASK;
    assert Mapping.HEF + i == second + k;
  }

  /** Reading back after the two-row save gives the whole record. */
  lemma SaveReadBack(mem: seq<bv16>, r: seq<bv8>)
    requires |mem| == Nvm.FLASH_WORDS && |r| == Mapping.MAP_SIZE
    ensures Mapping.FlashImage(SavedFlash(mem, r)) == r
  {
    var img := Mapping.FlashImage(SavedFlash(mem, r));
    forall i | 0 <= i < Mapping.MAP_SIZE
      ensures img[i] == r[i]
    {
      if i < Nvm.ROW_WORDS {
        ReadBackLow(mem, r, i);
      } else {
        ReadBackHigh(mem, r, i);
      }
    }
  }

  /** The round trip the store is meant to provide: whatever the flash held
      before, a save followed by a load gives back the saved record, with
      the host's tables and the old reserved bytes. */
  lemma SaveLoadRoundTrip(mem: seq<bv16>, r: seq<bv8>, n: seq<bv8>, s: seq<bv8>)
    requires |mem| == Nvm.FLASH_WORDS && |r| == Mapping.MAP_SIZE
    requires |n| == Mapping.NUM_BUTTONS && |s| == Mapping.NUM_BUTTONS
    ensures LoadResult(Mapping.FlashImage(SavedFlash(mem, Saved(r, n, s)))) == Saved(r, n, s)
    ensures Mapping.NormalTable(LoadResult(Mapping.FlashImage(SavedFlash(mem, Saved(r, n, s))))) == n
    ensures Mapping.SpecialTable(LoadResult(Mapping.FlashImage(SavedFlash(mem, Saved(r, n, s))))) == s
  {
    SaveReadBack(mem, Saved(r, n, s));
    StampAccepted(Mapping.Prepared(r, n, s));
  }

  /** The covered bytes of the default record, byte by byte. */
  function CoveredDefaults(o: bv8): (c: seq<bv8>)
    ensures |c| == Mapping.CRC_LEN
  {
    seq(Mapping.CRC_LEN, i => if i < Mapping.CRC then Mapping.DefaultAt(o, i) else Mapping.DefaultAt(o, i + 1))
  }

  /** The checksum chain of the default record's covered bytes, bytes 0..7. */
  lemma DefaultCovered0(r: seq<bv8>, o: bv8)
    requires o == 0 && r == CoveredDefaults(o)
    ensures Mapping.Crc(r, 8) == 0xd8
  {
    Mapping.CrcStep(r, 0, 0x00, 0x00, 0x00);
    Mapping.CrcStep(r, 1, 0x01, 0x00, 0x07);
    Mapping.CrcStep(r, 2, 0x00, 0x07, 0x15);
    Mapping.CrcStep(r, 3, 0x00, 0x15, 0x6b);
    Mapping.CrcStep(r, 4, 0x00, 0x6b, 0x16);
    Mapping.CrcStep(r, 5, 0x00, 0x16, 0x62);
    Mapping.CrcStep(r, 6, 0x00, 0x62, 0x29);
    Mapping.CrcStep(r, 7, 0x01, 0x29, 0xd8);
  }

  /** The checksum chain of the default record's covered bytes, bytes 8..15. */
  lemma DefaultCovered8(r: seq<bv8>, o: bv8)
    requires o == 0 && r == CoveredDefaults(o)
    requires Mapping.Crc(r, 8) == 0xd8
    ensures Mapping.Crc(r, 16) == 0x8b
  {
    Mapping.CrcStep(r, 8, 0x02, 0xd8, 0x08);
    Mapping.CrcStep(r, 9, 0x03, 0x08, 0x31);
    Mapping.CrcStep(r, 10, 0x04, 0x31, 0x8b);
    Mapping.CrcStep(r, 11, 0x05, 0x8b, 0xa3);
    Mapping.CrcStep(r, 12, 0x06, 0xa3, 0x72);
    Mapping.CrcStep(r, 13, 0x08, 0x72, 0x61);
    Mapping.CrcStep(r, 14, 0x07, 0x61, 0x35);
    Mapping.CrcStep(r, 15, 0x00, 0x35, 0x8b);
  }

  /** The checksum chain of the default record's covered bytes, bytes 16..23. */
  lemma DefaultCovered16(r: seq<bv8>, o: bv8)
    requires o == 0 && r == CoveredDefaults(o)
    requires Mapping.Crc(r, 16) == 0x8b
    ensures Mapping.Crc(r, 24) == 0x15
  {
    Mapping.CrcStep(r, 16, 0x00, 0x8b, 0xb8);
    Mapping.CrcStep(r, 17, 0x00, 0xb8, 0x21);
    Mapping.CrcStep(r, 18, 0x00, 0x21, 0xe7);
    Mapping.CrcStep(r, 19, 0x00, 0xe7, 0xbb);
    Mapping.CrcStep(r, 20, 0x00, 0xbb, 0x28);
    Mapping.CrcStep(r, 21, 0x00, 0x28, 0xd8);
    Mapping.CrcStep(r, 22, 0x00, 0xd8, 0x06);
    Mapping.CrcStep(r, 23, 0x01, 0x06, 0x15);
  }

  /** The checksum chain of the default record's covered bytes, bytes 24..31. */
  lemma DefaultCovered24(r: seq<bv8>, o: bv8)
    requires o == 0 && r == CoveredDefaults(o)
    requires Mapping.Crc(r, 24) == 0x15
    ensures Mapping.Crc(r, 32) == 0x45
  {
    Mapping.CrcStep(r, 24, 0x0b, 0x15, 0x5a);
    Mapping.CrcStep(r, 25, 0x0c, 0x5a, 0xa5);
    Mapping.CrcStep(r, 26, 0x0d, 0xa5, 0x51);
    Mapping.CrcStep(r, 27, 0x09, 0x51, 0x8f);
    Mapping.CrcStep(r, 28, 0x0a, 0x8f, 0x92);
    Mapping.CrcStep(r, 29, 0x08, 0x92, 0xcf);
    Mapping.CrcStep(r, 30, 0x07, 0xcf, 0x76);
    Mapping.CrcStep(r, 31, 0x00, 0x76, 0x45);
  }

  /** The checksum chain of the default record's covered bytes, bytes 32..39. */
  lemma DefaultCovered32(r: seq<bv8>, o: bv8)
    requires o == 0 && r == CoveredDefaults(o)
    requires Mapping.Crc(r, 32) == 0x45
    ensures Mapping.Crc(r, 40) == 0x83
  {
    Mapping.CrcStep(r, 32, 0x00, 0x45, 0xdc);
    Mapping.CrcStep(r, 33, 0x00, 0xdc, 0x1a);
    Mapping.CrcStep(r, 34, 0x00, 0x1a, 0x46);
    Mapping.CrcStep(r, 35, 0x00, 0x46, 0xd5);
    Mapping.CrcStep(r, 36, 0x00, 0xd5, 0x25);
    Mapping.CrcStep(r, 37, 0x00, 0x25, 0xfb);
    Mapping.CrcStep(r, 38, 0x00, 0xfb, 0xef);
    Mapping.CrcStep(r, 39, 0x00, 0xef, 0x83);
  }

  /** The checksum chain of the default record's covered bytes, bytes 40..47. */
  lemma DefaultCovered40(r: seq<bv8>, o: bv8)
    requires o == 0 && r == CoveredDefaults(o)
    requires Mapping.Crc(r, 40) == 0x83
    ensures Mapping.Crc(r, 48) == 0x8a
  {
    Mapping.CrcStep(r, 40, 0x00, 0x83, 0x80);
    Mapping.CrcStep(r, 41, 0x00, 0x80, 0x89);
    Mapping.CrcStep(r, 42, 0x00, 0x89, 0xb6);
    Mapping.CrcStep(r, 43, 0x00, 0xb6, 0x0b);
    Mapping.CrcStep(r, 44, 0x00, 0x0b, 0x31);
    Mapping.CrcStep(r, 45, 0x00, 0x31, 0x97);
    Mapping.CrcStep(r, 46, 0x00, 0x97, 0xec);
    Mapping.CrcStep(r, 47, 0x00, 0xec, 0x8a);
  }

  /** The checksum chain of the default record's covered bytes, bytes 48..55. */
  lemma DefaultCovered48(r: seq<bv8>, o: bv8)
    requires o == 0 && r == CoveredDefaults(o)
    requires Mapping.Crc(r, 48) == 0x8a
    ensures Mapping.Crc(r, 56) == 0x01
  {
    Mapping.CrcStep(r, 48, 0x00, 0x8a, 0xbf);
    Mapping.CrcStep(r, 49, 0x00, 0xbf, 0x34);
    Mapping.CrcStep(r, 50, 0x00, 0x34, 0x8c);
    Mapping.CrcStep(r, 51, 0x00, 0x8c, 0xad);
    Mapping.CrcStep(r, 52, 0x00, 0xad, 0x4a);
    Mapping.CrcStep(r, 53, 0x00, 0x4a, 0xf1);
    Mapping.CrcStep(r, 54, 0x00, 0xf1, 0xd9);
    Mapping.CrcStep(r, 55, 0x00, 0xd9, 0x01);
  }

  /** The checksum chain of the default record's covered bytes, bytes 56..62. */
  lemma DefaultCovered56(r: seq<bv8>, o: bv8)
    requires o == 0 && r == CoveredDefaults(o)
    requires Mapping.Crc(r, 56) == 0x01
    ensures Mapping.Crc(r, 63) == 0xdf
  {
    Mapping.CrcStep(r, 56, 0x00, 0x01, 0x07);
    Mapping.CrcStep(r, 57, 0x00, 0x07, 0x15);
    Mapping.CrcStep(r, 58, 0x00, 0x15, 0x6b);
    Mapping.CrcStep(r, 59, 0x00, 0x6b, 0x16);
    Mapping.CrcStep(r, 60, 0x00, 0x16, 0x62);
    Mapping.CrcStep(r, 61, 0x00, 0x62, 0x29);
    Mapping.CrcStep(r, 62, 0x00, 0x29, 0xdf);
  }

  /** The covered bytes of the default record hash to 0xdf. */
  lemma CoveredDefaultsCrc()
    ensures Mapping.Crc(CoveredDefaults(0), Mapping.CRC_LEN) == 0xdf
  {
    DefaultCovered0(CoveredDefaults(0), 0);
    DefaultCovered8(CoveredDefaults(0), 0);
    DefaultCovered16(CoveredDefaults(0), 0);
    DefaultCovered24(CoveredDefaults(0), 0);
    DefaultCovered32(CoveredDefaults(0), 0);
    DefaultCovered40(CoveredDefaults(0), 0);
    DefaultCovered48(CoveredDefaults(0), 0);
    DefaultCovered56(CoveredDefaults(0), 0);
  }

  lemma CoveredDefaultsAgree(c: seq<bv8>)
    requires c == Covered(Mapping.DefaultRecord(0))
    ensures c == CoveredDefaults(0)
  {
    forall i | 0 <= i < Mapping.CRC_LEN
      ensures c[i] == CoveredDefaults(0)[i]
    {
    }
  }

  /** The intended checksum of the default record does not depend on the
      byte found in flash: it is always 0xdf. */
  lemma DefaultChecksum(o: bv8)
    ensures Checksum(Mapping.DefaultRecord(o)) == 0xdf
  {
    Mapping.DefaultRestamped(0, o);
    CoveredIgnoresChecksum(Mapping.DefaultRecord(0), o);
    var c := Covered(Mapping.DefaultRecord(0));
    CoveredDefaultsAgree(c);
    CoveredDefaultsCrc();
  }
}
