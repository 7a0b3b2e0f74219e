/** The button-map record store: a 64-byte record in RAM, its CRC-8,
    the packing into 14-bit flash words, loading from and saving to the
    high-endurance flash row, the usage lookup and the 64-byte feature
    report exchanged with the host. The store follows mapping.c as
    written; MappingCorrected holds the definitions the code evidently
    intended where the two differ. */
module Mapping {
  import Nvm

  /** sizeof(map): the record is 64 bytes. */
  const MAP_SIZE: nat := 64
  /** The CRC is taken over sizeof(map) - 1 bytes, from offset 0. */
  const CRC_LEN: nat := 63
  const NUM_BUTTONS: nat := 8
  const MAP_VER: bv8 := 0x01
  /** High-endurance flash row 0, where the record lives. */
  const HEF_ADDR: bv16 := 0x1F80
  const HEF: nat := 0x1F80
  const ROW_WORDS: nat := 32

  /** Byte offsets of the record's fields. */
  const REPORT_ID: nat := 0
  const VER: nat := 1
  const CRC: nat := 2
  const GLOBAL_RESERVED: nat := 3
  const NORMAL_TBL: nat := 8
  const NORMAL_RESERVED: nat := 16
  const SPECIAL_TBL: nat := 24
  const SPECIAL_RESERVED: nat := 32
  const FUTURE_RESERVED: nat := 40

  /** Physical button indices into either table. */
  const PHYS_BTN_A: nat := 0
  const PHYS_BTN_B: nat := 1
  const PHYS_BTN_X: nat := 2
  const PHYS_BTN_Y: nat := 3
  const PHYS_BTN_L: nat := 4
  const PHYS_BTN_R: nat := 5
  const PHYS_BTN_START: nat := 6
  const PHYS_BTN_SELECT: nat := 7

  /** The factory tables, in PHYS_BTN order: SFC layout and Switch-like layout. */
  const DEFAULT_NORMAL: seq<bv8> := [1, 2, 3, 4, 5, 6, 8, 7]
  const DEFAULT_SPECIAL: seq<bv8> := [1, 11, 12, 13, 9, 10, 8, 7]

  // ---------------------------------------------------------------------
  // CRC-8, polynomial 0x07, seed 0, MSB first, no final XOR

  /** One of the eight inner rounds: shift left, folding the polynomial in
      when bit 7 falls out. */
  function Shift(c: bv8): bv8
  {
    if c & 0x80 != 0 then (c << 1) ^ 0x07 else c << 1
  }

  function Rounds(c: bv8, n: nat): bv8
  {
    if n == 0 then c else Shift(Rounds(c, n - 1))
  }

  /** The CRC register after taking in byte `b`. */
  function Update(c: bv8, b: bv8): bv8
  {
    Shift(Shift(Shift(Shift(Shift(Shift(Shift(Shift(c ^ b))))))))
  }

  /** crc8(d, n): the CRC of the first `n` bytes of `d`. */
  function Crc(d: seq<bv8>, n: nat): bv8
    requires n <= |d|
  {
    if n == 0 then 0 else Update(Crc(d, n - 1), d[n - 1])
  }

  lemma UpdateIsEightRounds(c: bv8, b: bv8)
    ensures Update(c, b) == Rounds(c ^ b, 8)
  {
    var x := c ^ b;
    assert Rounds(x, 1) == Shift(x);
    assert Rounds(x, 2) == Shift(Rounds(x, 1));
    assert Rounds(x, 3) == Shift(Rounds(x, 2));
    assert Rounds(x, 4) == Shift(Rounds(x, 3));
    assert Rounds(x, 5) == Shift(Rounds(x, 4));
    assert Rounds(x, 6) == Shift(Rounds(x, 5));
    assert Rounds(x, 7) == Shift(Rounds(x, 6));
    assert Rounds(x, 8) == Shift(Rounds(x, 7));
  }

  /** crc8 as the firmware computes it: the byte count `l` counts down
      while `d` advances, and each byte is folded in with eight rounds. */
  method Crc8(d: array<bv8>, l: bv8) returns (c: bv8)
    requires l as int <= d.Length
    ensures c == Crc(d[..], l as int)
  {
    c := 0;
    var n := l as int;   // bytes still to take
    var k := 0;          // how far d has advanced
    while n != 0
      invariant 0 <= n && n + k == l as int
      invariant c == Crc(d[..], k)
    {
      n := n - 1;
      ghost var before := c;
      c := c ^ d[k];
      k := k + 1;
      for i := 0 to 8
        invariant c == Rounds(before ^ d[k - 1], i)
      {
        c := Shift(c);
      }
      UpdateIsEightRounds(before, d[k - 1]);
      CrcStep(d[..], k - 1, d[k - 1], before, c);
    }
  }

  /** One byte further along a CRC computation. */
  lemma CrcStep(s: seq<bv8>, n: nat, b: bv8, c: bv8, v: bv8)
    requires n < |s| && s[n] == b && Crc(s, n) == c && Update(c, b) == v
    ensures Crc(s, n + 1) == v
  {
  }

  /** A round can be undone: its bit 0 tells whether bit 7 was set. */
  lemma ShiftInjective(a: bv8, b: bv8)
    requires Shift(a) == Shift(b)
    ensures a == b
  {
  }

  lemma UpdateInjectiveInByte(c: bv8, a: bv8, b: bv8)
    requires Update(c, a) == Update(c, b)
    ensures a == b
  {
    var x0, y0 := c ^ a, c ^ b;
    var x1, y1 := Shift(x0), Shift(y0);
    var x2, y2 := Shift(x1), Shift(y1);
    var x3, y3 := Shift(x2), Shift(y2);
    var x4, y4 := Shift(x3), Shift(y3);
    var x5, y5 := Shift(x4), Shift(y4);
    var x6, y6 := Shift(x5), Shift(y5);
    var x7, y7 := Shift(x6), Shift(y6);
    ShiftInjective(x7, y7);
    ShiftInjective(x6, y6);
    ShiftInjective(x5, y5);
    ShiftInjective(x4, y4);
    ShiftInjective(x3, y3);
    ShiftInjective(x2, y2);
    ShiftInjective(x1, y1);
    ShiftInjective(x0, y0);
  }

  lemma UpdateInjectiveInRegister(a: bv8, b: bv8, x: bv8)
    requires Update(a, x) == Update(b, x)
    ensures a == b
  {
    UpdateInjectiveInByte(x, a, b);
  }

  /** The CRC of `n` bytes depends on those bytes only. */
  lemma {:induction false} CrcPrefix(d: seq<bv8>, e: seq<bv8>, n: nat)
    requires n <= |d| && n <= |e| && d[..n] == e[..n]
    ensures Crc(d, n) == Crc(e, n)
  {
    if n > 0 {
      assert d[..n - 1] == d[..n][..n - 1] == e[..n][..n - 1] == e[..n - 1];
      assert d[n - 1] == d[..n][n - 1];
      CrcPrefix(d, e, n - 1);
    }
  }

  /** Changing one covered byte always changes the CRC. */
  lemma {:induction false} CrcDetectsOneByte(d: seq<bv8>, j: nat, v: bv8, n: nat)
    requires j < n <= |d| && v != d[j]
    ensures Crc(d[j := v], n) != Crc(d, n)
  {
    var e := d[j := v];
    if n == j + 1 {
      assert d[..j] == e[..j];
      CrcPrefix(d, e, j);
      if Crc(e, n) == Crc(d, n) {
        UpdateInjectiveInByte(Crc(d, j), e[j], d[j]);
      }
    } else {
      CrcDetectsOneByte(d, j, v, n - 1);
      if Crc(e, n) == Crc(d, n) {
        UpdateInjectiveInRegister(Crc(e, n - 1), Crc(d, n - 1), d[n - 1]);
      }
    }
  }

  /** The CRC register stays 0 over zero bytes. */
  lemma {:induction false} CrcOfZeros(d: seq<bv8>, n: nat)
    requires n <= |d| && forall i :: 0 <= i < n ==> d[i] == 0
    ensures Crc(d, n) == 0
  {
    if n > 0 {
      CrcOfZeros(d, n - 1);
    }
  }

  // ---------------------------------------------------------------------
  // The record as a byte sequence

  /** The normal and special tables of a record. */
  function NormalTable(r: seq<bv8>): (t: seq<bv8>)
    requires |r| == MAP_SIZE
    ensures |t| == NUM_BUTTONS && forall i :: 0 <= i < NUM_BUTTONS ==> t[i] == r[NORMAL_TBL + i]
  {
    r[NORMAL_TBL..NORMAL_TBL + NUM_BUTTONS]
  }

  function SpecialTable(r: seq<bv8>): (t: seq<bv8>)
    requires |r| == MAP_SIZE
    ensures |t| == NUM_BUTTONS && forall i :: 0 <= i < NUM_BUTTONS ==> t[i] == r[SPECIAL_TBL + i]
  {
    r[SPECIAL_TBL..SPECIAL_TBL + NUM_BUTTONS]
  }

  /** Offsets of the reserved bytes: global, normal, special and future. */
  predicate Reserved(i: int)
  {
    GLOBAL_RESERVED <= i < NORMAL_TBL || NORMAL_RESERVED <= i < SPECIAL_TBL || SPECIAL_RESERVED <= i < MAP_SIZE
  }

  /** Byte `i` of the record Mapping_Load builds when validation fails,
      `o` being the checksum byte as read (it is not overwritten before
      the new checksum is taken). */
  function DefaultAt(o: bv8, i: int): bv8
  {
    if i == VER then MAP_VER
    else if i == CRC then o
    else if NORMAL_TBL <= i < NORMAL_TBL + NUM_BUTTONS then DEFAULT_NORMAL[i - NORMAL_TBL]
    else if SPECIAL_TBL <= i < SPECIAL_TBL + NUM_BUTTONS then DEFAULT_SPECIAL[i - SPECIAL_TBL]
    else 0
  }

  function DefaultRecord(o: bv8): (r: seq<bv8>)
    ensures |r| == MAP_SIZE && r[REPORT_ID] == 0 && r[VER] == MAP_VER && r[CRC] == o
    ensures NormalTable(r) == DEFAULT_NORMAL && SpecialTable(r) == DEFAULT_SPECIAL
    ensures forall i :: 0 <= i < MAP_SIZE && Reserved(i) ==> r[i] == 0
  {
    seq(MAP_SIZE, i => DefaultAt(o, i))
  }

  /** Default records differ only in their checksum byte. */
  lemma DefaultRestamped(o: bv8, c: bv8)
    ensures DefaultRecord(o)[CRC := c] == DefaultRecord(c)
  {
    var d, e := DefaultRecord(o)[CRC := c], DefaultRecord(c);
    forall i | 0 <= i < MAP_SIZE
      ensures d[i] == e[i]
    {
    }
  }

  /** Stores the checksum of bytes 0..62 into byte 2, as Mapping_Load and
      Mapping_Save do: the byte being overwritten is itself hashed. */
  function Stamp(r: seq<bv8>): (t: seq<bv8>)
    requires |r| == MAP_SIZE
    ensures |t| == MAP_SIZE && t[CRC] == Crc(r, CRC_LEN)
    ensures forall i :: 0 <= i < MAP_SIZE && i != CRC ==> t[i] == r[i]
  {
    r[CRC := Crc(r, CRC_LEN)]
  }

  lemma StampIs(r: seq<bv8>, c: bv8)
    requires |r| == MAP_SIZE && c == Crc(r, CRC_LEN)
    ensures Stamp(r) == r[CRC := c]
  {
  }

  /** The check of Mapping_Load: version 1 and byte 2 equal to the CRC of
      bytes 0..62 as read, byte 2 included, byte 63 not. */
  predicate Accepted(r: seq<bv8>)
    requires |r| == MAP_SIZE
  {
    r[VER] == MAP_VER && r[CRC] == Crc(r, CRC_LEN)
  }

  /** The record Mapping_Load leaves in RAM after reading `img`. */
  function LoadResult(img: seq<bv8>): (r: seq<bv8>)
    requires |img| == MAP_SIZE
    ensures |r| == MAP_SIZE && r[VER] == MAP_VER
    ensures Accepted(img) ==> r == img
    ensures !Accepted(img) ==> r == Stamp(DefaultRecord(img[CRC]))
  {
    if Accepted(img) then img else Stamp(DefaultRecord(img[CRC]))
  }

  /** A rejected image loads the default tables. */
  lemma RejectedLoadsDefaults(img: seq<bv8>)
    requires |img| == MAP_SIZE && !Accepted(img)
    ensures NormalTable(LoadResult(img)) == DEFAULT_NORMAL && SpecialTable(LoadResult(img)) == DEFAULT_SPECIAL
  {
    var d := DefaultRecord(img[CRC]);
    var r := Stamp(d);
    assert NormalTable(r) == NormalTable(d);
    assert SpecialTable(r) == SpecialTable(d);
  }

  /** The record Mapping_Save leaves in RAM, from record `r` and tables
      `n` and `s`: tables copied in, report id 0, version 1, reserved
      bytes kept, then stamped. */
  function Prepared(r: seq<bv8>, n: seq<bv8>, s: seq<bv8>): (t: seq<bv8>)
    requires |r| == MAP_SIZE && |n| == NUM_BUTTONS && |s| == NUM_BUTTONS
    ensures |t| == MAP_SIZE && t[REPORT_ID] == 0 && t[VER] == MAP_VER && t[CRC] == r[CRC]
    ensures NormalTable(t) == n && SpecialTable(t) == s
    ensures forall i :: 0 <= i < MAP_SIZE && Reserved(i) ==> t[i] == r[i]
  {
    seq(MAP_SIZE, i requires 0 <= i < MAP_SIZE =>
      if i == REPORT_ID then 0
      else if i == VER then MAP_VER
      else if NORMAL_TBL <= i < NORMAL_TBL + NUM_BUTTONS then n[i - NORMAL_TBL]
      else if SPECIAL_TBL <= i < SPECIAL_TBL + NUM_BUTTONS then s[i - SPECIAL_TBL]
      else r[i])
  }

  function Saved(r: seq<bv8>, n: seq<bv8>, s: seq<bv8>): (t: seq<bv8>)
    requires |r| == MAP_SIZE && |n| == NUM_BUTTONS && |s| == NUM_BUTTONS
    ensures |t| == MAP_SIZE && t[REPORT_ID] == 0 && t[VER] == MAP_VER
    ensures t[CRC] == Crc(Prepared(r, n, s), CRC_LEN)
    ensures NormalTable(t) == n && SpecialTable(t) == s
    ensures forall i :: 0 <= i < MAP_SIZE && Reserved(i) ==> t[i] == r[i]
  {
    Stamp(Prepared(r, n, s))
  }

  /** The 64-byte feature report sent to the host: the record with byte 0
      forced to the report id 0. */
  function FeatureReport(r: seq<bv8>): (f: seq<bv8>)
    requires |r| == MAP_SIZE
    ensures |f| == MAP_SIZE && f[REPORT_ID] == 0
    ensures forall i :: 0 < i < MAP_SIZE ==> f[i] == r[i]
  {
    [0] + r[1..]
  }

  /** Stamping validates exactly when the new checksum equals the old
      byte 2 it was computed over. */
  lemma StampAcceptedIff(t: seq<bv8>)
    requires |t| == MAP_SIZE && t[VER] == MAP_VER
    ensures Accepted(Stamp(t)) <==> Crc(t, CRC_LEN) == t[CRC]
  {
    var c := Crc(t, CRC_LEN);
    if c == t[CRC] {
      assert Stamp(t) == t;
    } else {
      CrcDetectsOneByte(t, CRC, c, CRC_LEN);
    }
  }

  /** A record Mapping_Save stamps passes Mapping_Load's check if and only
      if its new checksum happens to equal the checksum byte it replaced. */
  lemma SavedRevalidatesIff(r: seq<bv8>, n: seq<bv8>, s: seq<bv8>)
    requires |r| == MAP_SIZE && |n| == NUM_BUTTONS && |s| == NUM_BUTTONS
    ensures Accepted(Saved(r, n, s)) <==> Saved(r, n, s)[CRC] == r[CRC]
  {
    StampAcceptedIff(Prepared(r, n, s));
  }

  /** Changing any one byte of an accepted record other than the checksum
      byte and byte 63 makes Mapping_Load reject it. */
  lemma SingleByteCorruptionDetected(r: seq<bv8>, j: nat, v: bv8)
    requires |r| == MAP_SIZE && Accepted(r)
    requires j < CRC_LEN && j != CRC && v != r[j]
    ensures !Accepted(r[j := v])
  {
    CrcDetectsOneByte(r, j, v, CRC_LEN);
  }

  /** Byte 63 is outside the checksum: any value there is accepted. */
  lemma LastByteUnchecked(r: seq<bv8>, v: bv8)
    requires |r| == MAP_SIZE && Accepted(r)
    ensures Accepted(r[MAP_SIZE - 1 := v])
  {
    var e := r[MAP_SIZE - 1 := v];
    assert r[..CRC_LEN] == e[..CRC_LEN];
    CrcPrefix(r, e, CRC_LEN);
  }

  /** Writing back a report read from the device (bytes 8..15 and 24..31
      unchanged) saves the same tables and reserved bytes, and only
      re-stamps the checksum. */
  lemma EchoRestamps(r: seq<bv8>)
    requires |r| == MAP_SIZE && r[REPORT_ID] == 0 && r[VER] == MAP_VER
    ensures Saved(r, FeatureReport(r)[NORMAL_TBL..NORMAL_TBL + NUM_BUTTONS],
                  FeatureReport(r)[SPECIAL_TBL..SPECIAL_TBL + NUM_BUTTONS]) == Stamp(r)
  {
    var f := FeatureReport(r);
    var n, s := f[NORMAL_TBL..NORMAL_TBL + NUM_BUTTONS], f[SPECIAL_TBL..SPECIAL_TBL + NUM_BUTTONS];
    var p := Prepared(r, n, s);
    forall i | 0 <= i < MAP_SIZE
      ensures p[i] == r[i]
    {
      if NORMAL_TBL <= i < NORMAL_TBL + NUM_BUTTONS {
        assert n[i - NORMAL_TBL] == f[i];
      } else if SPECIAL_TBL <= i < SPECIAL_TBL + NUM_BUTTONS {
        assert s[i - SPECIAL_TBL] == f[i];
      }
    }
    assert p == r;
  }

  // ---------------------------------------------------------------------
  // The record in flash

  /** Byte `b` widened to a flash word, the unused high bits padded with 0x3F. */
  function RowWord(b: bv8): (w: bv16)
    ensures LowByte(w) == b && w & 0x3F00 == 0x3F00 && w & Nvm.WORD_MASK == w
  {
    0x3F00 | b as bv16
  }

  /** (uint8_t)(data & 0x00FF): the byte Mapping_Load keeps of a flash word. */
  function LowByte(w: bv16): bv8
  {
    (w & 0x00FF) as bv8
  }

  /** rowBuf after map_to_rowbuf on record `r`: the 32 words of the buffer
      hold bytes 0..31; bytes 32..63 fall outside it. */
  function RowImage(r: seq<bv8>): (w: seq<bv16>)
    requires |r| == MAP_SIZE
    ensures |w| == ROW_WORDS && forall i :: 0 <= i < ROW_WORDS ==> w[i] == RowWord(r[i])
  {
    seq(ROW_WORDS, i requires 0 <= i < ROW_WORDS => RowWord(r[i]))
  }

  /** The bytes Mapping_Load reads: the low bytes of the 64 words from HEF_ADDR. */
  function FlashImage(mem: seq<bv16>): (img: seq<bv8>)
    requires |mem| == Nvm.FLASH_WORDS
    ensures |img| == MAP_SIZE && forall i :: 0 <= i < MAP_SIZE ==> img[i] == LowByte(mem[HEF + i])
  {
    seq(MAP_SIZE, i requires 0 <= i < MAP_SIZE => LowByte(mem[HEF + i]))
  }

  /** The flash after Mapping_Save stores record `r`: the row at HEF_ADDR
      erased, then written with rowBuf. */
  function SavedFlash(mem: seq<bv16>, r: seq<bv8>): (m: seq<bv16>)
    requires |mem| == Nvm.FLASH_WORDS && |r| == MAP_SIZE
    ensures |m| == Nvm.FLASH_WORDS
  {
    Nvm.RowWritten(Nvm.ErasePage(mem, HEF), HEF, RowImage(r))
  }

  /** Reading back after a save gives the saved bytes 0..31 and, for bytes
      32..63, whatever the next flash row already held. */
  lemma SaveReadBack(mem: seq<bv16>, r: seq<bv8>)
    requires |mem| == Nvm.FLASH_WORDS && |r| == MAP_SIZE
    ensures FlashImage(SavedFlash(mem, r)) == r[..ROW_WORDS] + FlashImage(mem)[ROW_WORDS..]
  {
    var img, m := FlashImage(SavedFlash(mem, r)), Nvm.ErasePage(mem, HEF);
    var w := RowImage(r);
    forall i | 0 <= i < MAP_SIZE
      ensures img[i] == (r[..ROW_WORDS] + FlashImage(mem)[ROW_WORDS..])[i]
    {
      if i < ROW_WORDS {
        assert SavedFlash(mem, r)[HEF + i] == w[i] & Nvm.WORD_MASK;
      } else {
        assert SavedFlash(mem, r)[HEF + i] == m[HEF + i] == mem[HEF + i];
      }
    }
  }

  /** The events of Mapping_Save's flash sequence for record `r`: key set,
      erase, wait, the 32 latch loads of the row, wait, key cleared, all
      with interrupts disabled. */
  function SaveEvents(r: seq<bv8>): (e: seq<Nvm.Event>)
    requires |r| == MAP_SIZE
    ensures |e| == ROW_WORDS + 5
  {
    [Nvm.Event(Nvm.SetKey(Nvm.UNLOCK_KEY), false), Nvm.Event(Nvm.Erase(HEF_ADDR, false), false),
     Nvm.Event(Nvm.BusyWait, false)] +
    Nvm.LatchEvents(HEF, RowImage(r), ROW_WORDS, false) +
    [Nvm.Event(Nvm.BusyWait, false), Nvm.Event(Nvm.ClearKey, false)]
  }

  /** The discipline of the save sequence: every flash operation runs with
      interrupts disabled, the key is presented first and cleared last, the
      erase precedes every latch load, and only the final load programs. */
  lemma SaveEventsOrdered(r: seq<bv8>)
    requires |r| == MAP_SIZE
    ensures forall k :: 0 <= k < |SaveEvents(r)| ==> !SaveEvents(r)[k].interruptsEnabled
    ensures SaveEvents(r)[0].op == Nvm.SetKey(Nvm.UNLOCK_KEY)
    ensures SaveEvents(r)[|SaveEvents(r)| - 1].op == Nvm.ClearKey
    ensures forall k :: 0 <= k < |SaveEvents(r)| && SaveEvents(r)[k].op.LatchLoad? ==>
      exists j :: 0 <= j < k && SaveEvents(r)[j].op == Nvm.Erase(HEF_ADDR, false)
    ensures forall k :: 0 <= k < |SaveEvents(r)| && SaveEvents(r)[k].op.LatchLoad? ==>
      (SaveEvents(r)[k].op.program <==> k == ROW_WORDS + 2)
    ensures forall k :: 0 <= k < |SaveEvents(r)| && (SaveEvents(r)[k].op.Erase? || SaveEvents(r)[k].op.LatchLoad?) ==>
      !SaveEvents(r)[k].op.gieAtUnlock
  {
    var e := SaveEvents(r);
    var l := Nvm.LatchEvents(HEF, RowImage(r), ROW_WORDS, false);
    assert forall k :: 3 <= k < ROW_WORDS + 3 ==> e[k] == l[k - 3];
    assert e[1].op == Nvm.Erase(HEF_ADDR, false);
  }

  lemma CrcLenByte()
    ensures (CRC_LEN as bv8) as int == CRC_LEN
  {
  }

  /** HEF_ADDR is the start of its flash row. */
  lemma HefRowStart()
    ensures Nvm.PageAddressGet(HEF_ADDR) == HEF_ADDR && Nvm.PageOffsetGet(HEF_ADDR) == 0
    ensures HEF_ADDR as int == HEF && HEF + MAP_SIZE <= Nvm.FLASH_WORDS
  {
  }

  /** The flash word of record byte `i`. */
  lemma HefWord(i: bv16)
    requires i as int < MAP_SIZE
    ensures (HEF_ADDR + i) as int == HEF + i as int && HEF_ADDR + i < Nvm.PROGMEM_SIZE
    ensures (i + 1) as int == i as int + 1
  {
  }

  // ---------------------------------------------------------------------
  // The store

  class Store {
    /** The RAM working copy `map`. */
    const record: array<bv8>
    /** The 32-word row buffer handed to FLASH_RowWrite. */
    const rowBuf: array<bv16>
    /** The flash driver and the flash behind it. */
    const nvm: Nvm.Driver

    ghost predicate Valid()
      reads nvm
    {
      record.Length == MAP_SIZE && rowBuf.Length == ROW_WORDS && nvm.Valid()
    }

    /** The record and the row buffer start zeroed, as C statics do. */
    constructor (driver: Nvm.Driver)
      requires driver.Valid()
      ensures Valid() && nvm == driver && fresh(record) && fresh(rowBuf)
      ensures forall i :: 0 <= i < MAP_SIZE ==> record[i] == 0
    {
      record := new bv8[MAP_SIZE](_ => 0);
      rowBuf := new bv16[ROW_WORDS](_ => 0);
      nvm := driver;
    }

    /** Mapping_Load: reads the 64 bytes from flash, keeps them if the
        version and checksum check passes, and otherwise installs the
        default tables with cleared reserved bytes and a fresh checksum.
        The flash is only read. */
    method Load()
      requires Valid()
      modifies record
      ensures Valid()
      ensures record[..] == LoadResult(FlashImage(nvm.mem))
    {
      ReadRecord();
      CrcLenByte();
      ghost var img := record[..];
      var valid := record[VER] == MAP_VER;
      if valid {
        var c := Crc8(record, CRC_LEN as bv8);
        valid := record[CRC] == c;
      }
      assert valid == Accepted(img);
      if !valid {
        InstallDefaults();
        ghost var defaults := record[..];
        var c := Crc8(record, CRC_LEN as bv8);
        assert c == Crc(defaults, CRC_LEN);
        record[CRC] := c;
        assert record[..] == defaults[CRC := c];
        StampIs(defaults, c);
      }
      assert record[..] == LoadResult(img);
    }

    /** The read loop of Mapping_Load: byte i is the low byte of the flash
        word at HEF_ADDR + i. */
    method ReadRecord()
      requires Valid()
      modifies record
      ensures record[..] == FlashImage(nvm.mem)
    {
      HefRowStart();
      var i: bv16 := 0;
      while i < 64
        invariant i as int <= MAP_SIZE
        invariant forall k :: 0 <= k < i as int ==> record[k] == LowByte(nvm.mem[HEF + k])
      {
        HefWord(i);
        ReadByte(i);
        i := i + 1;
      }
    }

    /** One iteration of the read loop: byte `i` from flash word HEF_ADDR + i. */
    method ReadByte(i: bv16)
      requires Valid() && i as int < MAP_SIZE
      modifies record
      ensures record[..] == old(record[..])[i as int := LowByte(nvm.mem[HEF + i as int])]
    {
      HefWord(i);
      var data := nvm.Read(HEF_ADDR + i);
      record[i] := (data & 0x00FF) as bv8;
    }

    /** The default branch of Mapping_Load up to the checksum: both tables,
        report id, the four reserved areas and the version. Byte 2 keeps
        the value read. */
    method InstallDefaults()
      requires Valid()
      modifies record
      ensures record[..] == DefaultRecord(old(record[CRC]))
    {
      forall i | 0 <= i < NUM_BUTTONS {
        record[NORMAL_TBL + i] := DEFAULT_NORMAL[i];
      }
      forall i | 0 <= i < NUM_BUTTONS {
        record[SPECIAL_TBL + i] := DEFAULT_SPECIAL[i];
      }
      record[REPORT_ID] := 0x00;
      Clear(GLOBAL_RESERVED, NORMAL_TBL);
      Clear(NORMAL_RESERVED, SPECIAL_TBL);
      Clear(SPECIAL_RESERVED, FUTURE_RESERVED);
      Clear(FUTURE_RESERVED, MAP_SIZE);

      record[VER] := MAP_VER;
      assert record[..] == DefaultRecord(old(record[CRC]));
    }

    /** memset of record bytes `from` up to `to` to zero. */
    method Clear(from: nat, to: nat)
      requires Valid() && from <= to <= MAP_SIZE
      modifies record
      ensures forall i :: 0 <= i < MAP_SIZE ==> record[i] == if from <= i < to then 0 else old(record[i])
    {
      forall i | from <= i < to {
        record[i] := 0;
      }
    }

    /** Mapping_Save: copies the two tables into the record, sets report
        id and version, stamps the checksum, packs the row buffer and runs
        the flash sequence with interrupts disabled, restoring GIE at the
        end. The driver's status results are not looked at. */
    method Save(normalTbl: array<bv8>, specialTbl: array<bv8>)
      requires Valid() && normalTbl.Length >= NUM_BUTTONS && specialTbl.Length >= NUM_BUTTONS
      requires normalTbl != record && specialTbl != record
      modifies record, rowBuf, nvm
      ensures Valid()
      ensures record[..] == Saved(old(record[..]), old(normalTbl[..NUM_BUTTONS]), old(specialTbl[..NUM_BUTTONS]))
      ensures rowBuf[..] == RowImage(record[..])
      ensures nvm.mem == SavedFlash(old(nvm.mem), record[..])
      ensures nvm.trace == old(nvm.trace) + SaveEvents(record[..])
      ensures nvm.gie == old(nvm.gie) && nvm.UnlockKey() == 0 && !nvm.IsBusy()
      ensures nvm.wrerr == old(nvm.wrerr)
    {
      StampTables(normalTbl, specialTbl);
      MapToRowBuf();
      WriteRow();
    }

    /** The flash half of Mapping_Save: the row buffer goes to the row at
        HEF_ADDR inside the interrupt-masked, key-protected sequence. */
    method WriteRow()
      requires Valid()
      modifies nvm
      ensures Valid()
      ensures nvm.mem == Nvm.RowWritten(Nvm.ErasePage(old(nvm.mem), HEF), HEF, rowBuf[..])
      ensures nvm.trace == old(nvm.trace) + [Nvm.Event(Nvm.SetKey(Nvm.UNLOCK_KEY), false),
        Nvm.Event(Nvm.Erase(HEF_ADDR, false), false), Nvm.Event(Nvm.BusyWait, false)] +
        Nvm.LatchEvents(HEF, rowBuf[..], ROW_WORDS, false) +
        [Nvm.Event(Nvm.BusyWait, false), Nvm.Event(Nvm.ClearKey, false)]
      ensures nvm.gie == old(nvm.gie) && nvm.UnlockKey() == 0 && !nvm.IsBusy()
      ensures nvm.wrerr == old(nvm.wrerr)
    {
      var gie := nvm.gie;
      nvm.gie := false;
      EraseRow();
      ProgramRow();
      nvm.gie := gie;
    }

    /** Key set, erase of the row at HEF_ADDR and the wait for it, with
        interrupts off. */
    method EraseRow()
      requires Valid() && !nvm.gie
      modifies nvm
      ensures Valid() && nvm.RowErased(HEF)
      ensures nvm.mem == Nvm.ErasePage(old(nvm.mem), HEF)
      ensures nvm.trace == old(nvm.trace) + [Nvm.Event(Nvm.SetKey(Nvm.UNLOCK_KEY), false),
        Nvm.Event(Nvm.Erase(HEF_ADDR, false), false), Nvm.Event(Nvm.BusyWait, false)]
      ensures !nvm.gie && nvm.UnlockKey() == Nvm.UNLOCK_KEY && nvm.wrerr == old(nvm.wrerr)
    {
      HefRowStart();
      nvm.UnlockKeySet(Nvm.UNLOCK_KEY);
      var erased := nvm.PageErase(HEF_ADDR);
      nvm.AwaitIdle();
    }

    /** The row write from rowBuf, the wait for it and the key clear, with
        interrupts off. */
    method ProgramRow()
      requires Valid() && !nvm.gie && nvm.RowErased(HEF) && nvm.UnlockKey() == Nvm.UNLOCK_KEY
      modifies nvm
      ensures Valid()
      ensures nvm.mem == Nvm.RowWritten(old(nvm.mem), HEF, rowBuf[..])
      ensures nvm.trace == old(nvm.trace) + Nvm.LatchEvents(HEF, rowBuf[..], ROW_WORDS, false) +
        [Nvm.Event(Nvm.BusyWait, false), Nvm.Event(Nvm.ClearKey, false)]
      ensures !nvm.gie && nvm.UnlockKey() == 0 && !nvm.IsBusy() && nvm.wrerr == old(nvm.wrerr)
    {
      HefRowStart();
      var written := nvm.RowWrite(HEF_ADDR, rowBuf);
      nvm.AwaitIdle();
      nvm.UnlockKeyClear();
      assert rowBuf[..ROW_WORDS] == rowBuf[..];
    }

    /** The RAM half of Mapping_Save: the two memcpy calls, report id,
        version and checksum. */
    method StampTables(normalTbl: array<bv8>, specialTbl: array<bv8>)
      requires Valid() && normalTbl.Length >= NUM_BUTTONS && specialTbl.Length >= NUM_BUTTONS
      requires normalTbl != record && specialTbl != record
      modifies record
      ensures record[..] == Saved(old(record[..]), old(normalTbl[..NUM_BUTTONS]), old(specialTbl[..NUM_BUTTONS]))
    {
      ghost var r := record[..];
      ghost var n, s := normalTbl[..NUM_BUTTONS], specialTbl[..NUM_BUTTONS];
      forall i | 0 <= i < NUM_BUTTONS {
        record[NORMAL_TBL + i] := normalTbl[i];
      }
      forall i | 0 <= i < NUM_BUTTONS {
        record[SPECIAL_TBL + i] := specialTbl[i];
      }
      record[REPORT_ID] := 0x00;
      record[VER] := MAP_VER;
      ghost var prepared := record[..];
      assert prepared == Prepared(r, n, s);
      CrcLenByte();
      var c := Crc8(record, CRC_LEN as bv8);
      record[CRC] := c;
      assert record[..] == prepared[CRC := c];
      StampIs(prepared, c);
      assert record[..] == Saved(r, n, s);
    }

    /** Mapping_GetUsage: the usage a physical button has in the normal
        table (mode 0) or the special table (any other mode); 0 for an
        index past the eight buttons. */
    function GetUsage(physBtn: bv8, mode: bv8): (u: bv8)
      reads record
      requires record.Length == MAP_SIZE
      ensures physBtn as int >= NUM_BUTTONS ==> u == 0
      ensures physBtn as int < NUM_BUTTONS && mode == 0 ==> u == NormalTable(record[..])[physBtn]
      ensures physBtn as int < NUM_BUTTONS && mode != 0 ==> u == SpecialTable(record[..])[physBtn]
    {
      if physBtn as int >= NUM_BUTTONS then 0
      else if mode == 0 then record[NORMAL_TBL + physBtn as int]
      else record[SPECIAL_TBL + physBtn as int]
    }

    /** Mapping_SetFromFeatureReport: a report shorter than 64 bytes is
        ignored; otherwise bytes 8..15 and 24..31 are saved as the normal
        and special tables. `length` is the number of valid bytes in
        `featureReport`. */
    method SetFromFeatureReport(featureReport: array<bv8>, length: bv16)
      requires Valid() && featureReport != record && length as int <= featureReport.Length
      modifies record, rowBuf, nvm
      ensures Valid()
      ensures length < 64 ==> unchanged(record, rowBuf, nvm)
      ensures length >= 64 ==>
        record[..] == Saved(old(record[..]), old(featureReport[NORMAL_TBL..NORMAL_TBL + NUM_BUTTONS]),
                            old(featureReport[SPECIAL_TBL..SPECIAL_TBL + NUM_BUTTONS])) &&
        rowBuf[..] == RowImage(record[..]) &&
        nvm.mem == SavedFlash(old(nvm.mem), record[..]) &&
        nvm.trace == old(nvm.trace) + SaveEvents(record[..]) &&
        nvm.UnlockKey() == 0 && !nvm.IsBusy()
      ensures nvm.gie == old(nvm.gie) && nvm.wrerr == old(nvm.wrerr)
    {
      if length < 64 {
        return;
      }
      var newNormalMapping := CopyTable(featureReport, NORMAL_TBL);
      var newSpecialMapping := CopyTable(featureReport, SPECIAL_TBL);
      assert newNormalMapping[..NUM_BUTTONS] == newNormalMapping[..];
      assert newSpecialMapping[..NUM_BUTTONS] == newSpecialMapping[..];
      Save(newNormalMapping, newSpecialMapping);
    }

    /** One of the two byte-by-byte copy loops of
        Mapping_SetFromFeatureReport, into a fresh table. */
    static method CopyTable(featureReport: array<bv8>, from: nat) returns (table: array<bv8>)
      requires from + NUM_BUTTONS <= featureReport.Length
      ensures fresh(table) && table[..] == featureReport[from..from + NUM_BUTTONS]
    {
      table := new bv8[NUM_BUTTONS];
      for i := 0 to NUM_BUTTONS
        invariant forall k :: 0 <= k < i ==> table[k] == featureReport[from + k]
      {
        table[i] := featureReport[from + i];
      }
    }

    /** Mapping_GetAsFeatureReport: the whole record copied out, byte 0
        forced to the report id 0. */
    method GetAsFeatureReport(featureReport: array<bv8>)
      requires Valid() && featureReport.Length >= MAP_SIZE && featureReport != record
      modifies featureReport
      ensures featureReport[..MAP_SIZE] == FeatureReport(record[..])
      ensures featureReport[MAP_SIZE..] == old(featureReport[MAP_SIZE..])
    {
      forall i | 0 <= i < MAP_SIZE {
        featureReport[i] := record[i];
      }
      featureReport[REPORT_ID] := 0x00;
      assert featureReport[..MAP_SIZE] == FeatureReport(record[..]);
    }

    /** map_to_rowbuf: fills the row buffer with erased words, then widens
        each record byte into a word. The loop runs over all 64 bytes; an
        index past the 32-word buffer has no word to write in this model. */
    method MapToRowBuf()
      requires Valid()
      modifies rowBuf
      ensures rowBuf[..] == RowImage(record[..])
    {
      for i := 0 to ROW_WORDS
        invariant forall k :: 0 <= k < i ==> rowBuf[k] == Nvm.ERASED
      {
        rowBuf[i] := 0x3FFF;
      }
      for b := 0 to MAP_SIZE
        invariant forall k :: 0 <= k < ROW_WORDS ==>
          rowBuf[k] == if k < b then RowWord(record[k]) else Nvm.ERASED
      {
        if b < rowBuf.Length {
          rowBuf[b] := 0x3F00 | record[b] as bv16;
        }
      }
    }
  }
}
