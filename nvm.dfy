/** The program-memory (flash) driver of the PIC16 part: page address
    arithmetic, the unlock key kept in two bytes, page erase, row write
    through the write latches, and word read. The flash is an abstract
    sequence of 14-bit words; the PMCON/PMADR/PMDAT registers are folded
    into the fields below. */
module Nvm {

  /** PROGMEM_PAGE_SIZE: words in one flash page (row). */
  const PROGMEM_PAGE_SIZE: bv16 := 32
  /** PROGMEM_SIZE: words of program flash. */
  const PROGMEM_SIZE: bv16 := 0x2000
  /** UNLOCK_KEY: the key the callers present before an erase or write. */
  const UNLOCK_KEY: bv16 := 0xAA55

  /** The same two sizes as indices into the flash sequence. */
  const ROW_WORDS: nat := 32
  const FLASH_WORDS: nat := 0x2000

  /** A flash word holds 14 bits; an erased word reads as all ones. */
  const WORD_MASK: bv16 := 0x3FFF
  const ERASED: bv16 := 0x3FFF

  datatype Status = NvmOk | NvmError

  /** FLASH_PageAddressGet: the first word of the page holding `address`. */
  function PageAddressGet(address: bv16): (r: bv16)
    ensures r & (PROGMEM_PAGE_SIZE - 1) == 0 && r < PROGMEM_SIZE
    ensures r <= address && (address < PROGMEM_SIZE ==> address - r < PROGMEM_PAGE_SIZE)
  {
    address & ((PROGMEM_SIZE - 1) ^ (PROGMEM_PAGE_SIZE - 1))
  }

  /** FLASH_PageOffsetGet: the position of `address` inside its page. */
  function PageOffsetGet(address: bv16): (r: bv16)
    ensures r < PROGMEM_PAGE_SIZE
    ensures address < PROGMEM_SIZE ==> PageAddressGet(address) + r == address
  {
    address & (PROGMEM_PAGE_SIZE - 1)
  }

  /** Taking the page start twice changes nothing, and a page start has offset 0. */
  lemma PageAddressIdempotent(address: bv16)
    ensures PageAddressGet(PageAddressGet(address)) == PageAddressGet(address)
    ensures PageOffsetGet(PageAddressGet(address)) == 0
  {
  }

  /** A row-aligned flash address, seen as an index. */
  lemma RowAlignedAsInt(a: bv16)
    requires PageOffsetGet(a) == 0 && a < PROGMEM_SIZE
    ensures a as int % ROW_WORDS == 0 && a as int + ROW_WORDS <= FLASH_WORDS
  {
  }

  /** Inside an aligned row, an address's latch is its distance from the row start. */
  lemma LatchIndex(row: int, k: int)
    requires row % ROW_WORDS == 0 && 0 <= k < ROW_WORDS
    ensures (row + k) % ROW_WORDS == k
  {
  }

  lemma AndErased(d: bv16)
    ensures ERASED & d == d & WORD_MASK
  {
  }

  lemma MaskIdempotent(d: bv16)
    ensures (d & WORD_MASK) & WORD_MASK == d & WORD_MASK
  {
  }

  /** What the driver does to the flash and the key, in order. Each event
      also records the global interrupt enable bit at the moment the
      driver routine was entered; an erase or a latch load also records
      it at the moment of its unlock sequence and WR (`gieAtUnlock`). */
  datatype Op =
    | SetKey(key: bv16)
    | ClearKey
    | Erase(address: bv16, gieAtUnlock: bool)
    | LatchLoad(word: int, data: bv16, program: bool, gieAtUnlock: bool)
    | BusyWait
  datatype Event = Event(op: Op, interruptsEnabled: bool)

  /** Every word of `mem` fits in 14 bits. */
  ghost predicate Words(mem: seq<bv16>)
  {
    forall a :: 0 <= a < |mem| ==> mem[a] & WORD_MASK == mem[a]
  }

  /** The row starting at `row` is erased. */
  ghost predicate ErasedIn(mem: seq<bv16>, row: int)
  {
    forall a :: row <= a < row + ROW_WORDS && 0 <= a < |mem| ==> mem[a] == ERASED
  }

  /** The flash after erasing the page that starts at `page`. */
  function ErasePage(mem: seq<bv16>, page: int): (r: seq<bv16>)
    ensures |r| == |mem|
    ensures forall a :: 0 <= a < |r| ==> r[a] == (if page <= a < page + ROW_WORDS then ERASED else mem[a])
  {
    seq(|mem|, a requires 0 <= a < |mem| => if page <= a < page + ROW_WORDS then ERASED else mem[a])
  }

  /** The flash after programming an erased row at `row` with `data`:
      each word keeps the 14 bits a flash word has. */
  function RowWritten(mem: seq<bv16>, row: int, data: seq<bv16>): (r: seq<bv16>)
    requires |data| == ROW_WORDS
    ensures |r| == |mem|
    ensures forall a :: 0 <= a < |r| && !(row <= a < row + ROW_WORDS) ==> r[a] == mem[a]
    ensures forall k :: 0 <= k < ROW_WORDS && 0 <= row + k < |r| ==> r[row + k] == data[k] & WORD_MASK
  {
    seq(|mem|, a requires 0 <= a < |mem| =>
      if row <= a < row + ROW_WORDS then data[a - row] & WORD_MASK else mem[a])
  }

  /** The flash after programming the row at `row` from the latches `l`:
      a flash cell can only go from 1 to 0, so each word of the row becomes
      the AND of its old value and its latch. */
  function Programmed(mem: seq<bv16>, row: int, l: seq<bv16>): (r: seq<bv16>)
    requires |l| == ROW_WORDS
    ensures |r| == |mem|
  {
    seq(|mem|, a requires 0 <= a < |mem| =>
      if row <= a < row + ROW_WORDS then mem[a] & l[a - row] else mem[a])
  }

  lemma ProgramErasedAt(mem: seq<bv16>, row: int, l: seq<bv16>, a: int)
    requires |l| == ROW_WORDS && ErasedIn(mem, row) && 0 <= a < |mem|
    ensures Programmed(mem, row, l)[a] == RowWritten(mem, row, l)[a]
  {
    if row <= a < row + ROW_WORDS {
      AndErased(l[a - row]);
    }
  }

  /** Programming an erased row stores the 14 bits of each latch. */
  lemma ProgramErased(mem: seq<bv16>, row: int, l: seq<bv16>)
    requires |l| == ROW_WORDS && ErasedIn(mem, row)
    ensures Programmed(mem, row, l) == RowWritten(mem, row, l)
  {
    forall a | 0 <= a < |mem|
      ensures Programmed(mem, row, l)[a] == RowWritten(mem, row, l)[a]
    {
      ProgramErasedAt(mem, row, l, a);
    }
  }

  /** Writing a row keeps every word within 14 bits. */
  lemma WrittenWords(mem: seq<bv16>, row: int, l: seq<bv16>)
    requires |l| == ROW_WORDS && Words(mem)
    ensures Words(RowWritten(mem, row, l))
  {
    var w := RowWritten(mem, row, l);
    forall a | 0 <= a < |w|
      ensures w[a] & WORD_MASK == w[a]
    {
      if row <= a < row + ROW_WORDS {
        MaskIdempotent(l[a - row]);
      }
    }
  }

  /** The first `n` latch loads FLASH_RowWrite performs for a row at
      `row`: one per word, at consecutive addresses, the last word of the
      row (and only it) programming the row. */
  function LatchEvents(row: int, data: seq<bv16>, n: nat, ie: bool): (r: seq<Event>)
    requires n <= |data| && n <= ROW_WORDS
    ensures |r| == n
    ensures forall i :: 0 <= i < n ==>
      r[i].interruptsEnabled == ie && r[i].op.LatchLoad? &&
      r[i].op.word == row + i && r[i].op.data == data[i] &&
      (r[i].op.program <==> i == ROW_WORDS - 1) && !r[i].op.gieAtUnlock
  {
    seq(n, i requires 0 <= i < n => Event(LatchLoad(row + i, data[i], i == ROW_WORDS - 1, false), ie))
  }

  lemma LatchEventsStep(row: int, data: seq<bv16>, n: nat, ie: bool)
    requires n < |data| && n < ROW_WORDS
    ensures LatchEvents(row, data, n + 1, ie) ==
      LatchEvents(row, data, n, ie) + [Event(LatchLoad(row + n, data[n], n + 1 == ROW_WORDS, false), ie)]
  {
  }

  class Driver {
    /** Program flash, one 14-bit word per address. */
    var mem: seq<bv16>
    /** The row write latches, indexed by the low five address bits. */
    var latches: seq<bv16>
    /** unlockKeyLow / unlockKeyHigh: the two key bytes written to PMCON2. */
    var unlockKeyLow: bv8
    var unlockKeyHigh: bv8
    /** INTCON.GIE, the global interrupt enable bit. */
    var gie: bool
    /** PMCON1.WR, PMCON1.RD and PMCON1.WRERR. */
    var wr: bool
    var rd: bool
    var wrerr: bool
    /** Every key, erase, latch and wait operation performed so far. */
    ghost var trace: seq<Event>

    ghost predicate Valid()
      reads this
    {
      |mem| == FLASH_WORDS && |latches| == ROW_WORDS && Words(mem)
    }

    /** The unlock key as the driver holds it. */
    function UnlockKey(): bv16
      reads this
    {
      (unlockKeyHigh as bv16 << 8) | unlockKeyLow as bv16
    }

    /** A row whose words are all erased. */
    ghost predicate RowErased(row: int)
      reads this
    {
      ErasedIn(mem, row)
    }

    constructor (image: seq<bv16>, interruptsEnabled: bool)
      requires |image| == FLASH_WORDS
      requires forall a :: 0 <= a < |image| ==> image[a] & WORD_MASK == image[a]
      ensures Valid() && mem == image && gie == interruptsEnabled
      ensures UnlockKey() == 0 && !wr && !rd && !wrerr && trace == []
    {
      mem := image;
      latches := seq(ROW_WORDS, _ => ERASED);
      unlockKeyLow, unlockKeyHigh := 0, 0;
      gie := interruptsEnabled;
      wr, rd, wrerr := false, false, false;
      trace := [];
    }

    /** NVM_IsBusy: a read, write or erase is in progress. */
    predicate IsBusy()
      reads this
    {
      wr || rd
    }

    /** NVM_StatusGet: the status of the last write or erase. */
    function StatusGet(): (s: Status)
      reads this
      ensures s == NvmError <==> wrerr
    {
      if wrerr then NvmError else NvmOk
    }

    /** NVM_StatusClear. */
    method StatusClear()
      modifies this`wrerr
      ensures !wrerr
    {
      wrerr := false;
    }

    /** NVM_Initialize: clears the error status. */
    method Initialize()
      modifies this`wrerr
      ensures !wrerr && StatusGet() == NvmOk
    {
      StatusClear();
    }

    /** NVM_UnlockKeySet: splits the key into its high and low byte. */
    method UnlockKeySet(unlockKey: bv16)
      modifies this`unlockKeyLow, this`unlockKeyHigh, this`trace
      ensures UnlockKey() == unlockKey
      ensures trace == old(trace) + [Event(SetKey(unlockKey), gie)]
    {
      unlockKeyHigh := (unlockKey >> 8) as bv8;
      unlockKeyLow := (unlockKey & 0xFF) as bv8;
      trace := trace + [Event(SetKey(unlockKey), gie)];
    }

    /** NVM_UnlockKeyClear. */
    method UnlockKeyClear()
      modifies this`unlockKeyLow, this`unlockKeyHigh, this`trace
      ensures unlockKeyHigh == 0 && unlockKeyLow == 0 && UnlockKey() == 0
      ensures trace == old(trace) + [Event(ClearKey, gie)]
    {
      unlockKeyHigh := 0x00;
      unlockKeyLow := 0x00;
      trace := trace + [Event(ClearKey, gie)];
    }

    /** FLASH_Read: the word at `address`. The routine masks interrupts
        around the read and restores GIE, and RD is cleared by the hardware
        before it returns, so no field changes. The routine takes any 16-bit
        address; the model asks for one inside the 0x2000 words of flash,
        which the one caller (the read loop of Mapping_Load) always gives. */
    method Read(address: bv16) returns (data: bv16)
      requires Valid() && address < PROGMEM_SIZE
      ensures data == mem[address as int] && data & WORD_MASK == data
    {
      data := mem[address as int];
    }

    /** FLASH_PageErase: loads `address` into PMADR and erases, with the key
        held by the driver, the row holding it (the hardware ignores the
        offset bits), then restores GIE. */
    method PageErase(address: bv16) returns (status: Status)
      requires Valid() && UnlockKey() == UNLOCK_KEY
      modifies this`mem, this`gie, this`wr, this`trace
      ensures Valid()
      ensures mem == ErasePage(old(mem), PageAddressGet(address) as int)
      ensures RowErased(PageAddressGet(address) as int)
      ensures gie == old(gie) && wr
      ensures trace == old(trace) + [Event(Erase(address, false), old(gie))]
      ensures status == StatusGet()
    {
      var globalInterruptBitValue := gie;
      gie := false;
      var page := PageAddressGet(address);
      // unlock sequence: PMCON2 = unlockKeyLow, unlockKeyHigh; WR = 1
      mem := ErasePage(mem, page as int);
      wr := true;
      trace := trace + [Event(Erase(address, gie), globalInterruptBitValue)];
      gie := globalInterruptBitValue;
      status := if wrerr then NvmError else NvmOk;
    }

    /** FLASH_RowWrite: loads the 32 words of `dataBuffer` into the write
        latches at consecutive addresses from `address`; the last load
        clears LWLO so that its unlock sequence programs the row. The
        preconditions are those the driver documents: one row of data, a
        row-aligned address, an erased row and the unlock key set. */
    method RowWrite(address: bv16, dataBuffer: array<bv16>) returns (status: Status)
      requires Valid() && dataBuffer.Length >= ROW_WORDS
      requires address < PROGMEM_SIZE && PageOffsetGet(address) == 0
      requires RowErased(address as int)
      requires UnlockKey() == UNLOCK_KEY
      modifies this`mem, this`latches, this`gie, this`wr, this`trace
      ensures Valid()
      ensures mem == RowWritten(old(mem), address as int, dataBuffer[..ROW_WORDS])
      ensures gie == old(gie) && wr
      ensures trace == old(trace) + LatchEvents(address as int, dataBuffer[..ROW_WORDS], ROW_WORDS, old(gie))
      ensures status == StatusGet()
    {
      RowAlignedAsInt(address);
      var row := address as int;
      ghost var mem0, trace0, buf := mem, trace, dataBuffer[..ROW_WORDS];
      var flashDataCount := ROW_WORDS;
      var globalInterruptBitValue := gie;
      var lwlo := true;   // load write latches only
      var next := row;
      var p := 0;   // how far dataBuffer has advanced
      while flashDataCount > 0
        invariant 0 <= flashDataCount <= ROW_WORDS && p == ROW_WORDS - flashDataCount
        invariant next == row + p && lwlo == (flashDataCount > 0)
        invariant Loading(row, buf, p, mem0, trace0, globalInterruptBitValue)
        invariant p > 0 ==> wr
      {
        flashDataCount := flashDataCount - 1;
        var here := next;
        next := next + 1;
        var data := dataBuffer[p];
        p := p + 1;
        if flashDataCount == 0 {
          lwlo := false;
        }
        LoadWord(row, here, data, !lwlo, buf, mem0, trace0, globalInterruptBitValue);
      }
      WrittenWords(mem0, row, buf);
      status := if wrerr then NvmError else NvmOk;
    }

    /** The state of FLASH_RowWrite after `p` of the 32 words of `buf`
        went to the latches, the row at `row` being programmed with the
        last one. */
    ghost predicate Loading(row: int, buf: seq<bv16>, p: nat,
                            mem0: seq<bv16>, trace0: seq<Event>, ie: bool)
      reads this
    {
      |buf| == ROW_WORDS && p <= ROW_WORDS && row % ROW_WORDS == 0 &&
      0 <= row && row + ROW_WORDS <= FLASH_WORDS &&
      |mem0| == FLASH_WORDS && Words(mem0) && ErasedIn(mem0, row) &&
      |latches| == ROW_WORDS && gie == ie &&
      (forall k :: 0 <= k < p ==> latches[k] == buf[k]) &&
      (p < ROW_WORDS ==> mem == mem0) &&
      (p == ROW_WORDS ==> mem == RowWritten(mem0, row, buf)) &&
      trace == trace0 + LatchEvents(row, buf, p, ie)
    }

    /** One pass of the FLASH_RowWrite loop, for the word `data` at address
        `word`, the `p`-th of the row. */
    method LoadWord(row: int, word: int, data: bv16, program: bool, ghost buf: seq<bv16>,
                    ghost mem0: seq<bv16>, ghost trace0: seq<Event>, ghost ie: bool)
      requires row <= word < row + ROW_WORDS
      requires Loading(row, buf, word - row, mem0, trace0, ie) && data == buf[word - row]
      requires program <==> word - row == ROW_WORDS - 1
      modifies this`mem, this`latches, this`gie, this`wr, this`trace
      ensures Loading(row, buf, word - row + 1, mem0, trace0, ie) && wr
    {
      ghost var p := word - row;
      LatchIndex(row, p);
      LatchEventsStep(row, buf, p, ie);
      LoadLatch(word, data, program);
      if program {
        assert latches == buf;
        Program(row);
      }
    }

    /** One pass of the FLASH_RowWrite loop after PMADR and PMDAT are
        loaded: interrupts off, the unlock sequence and WR, interrupts
        restored. With `program` unset the word only lands in its latch. */
    method LoadLatch(word: int, data: bv16, program: bool)
      requires |latches| == ROW_WORDS
      modifies this`latches, this`gie, this`wr, this`trace
      ensures latches == old(latches)[word % ROW_WORDS := data]
      ensures gie == old(gie) && wr
      ensures trace == old(trace) + [Event(LatchLoad(word, data, program, false), old(gie))]
    {
      var globalInterruptBitValue := gie;
      gie := false;
      // unlock sequence: PMCON2 = unlockKeyLow, unlockKeyHigh; WR = 1
      latches := latches[word % ROW_WORDS := data];
      wr := true;
      trace := trace + [Event(LatchLoad(word, data, program, gie), globalInterruptBitValue)];
      gie := globalInterruptBitValue;
    }

    /** Programming the row at `row` from the latches. */
    method Program(row: int)
      requires |latches| == ROW_WORDS && Words(mem) && ErasedIn(mem, row)
      modifies this`mem
      ensures mem == RowWritten(old(mem), row, latches) && Words(mem)
    {
      ProgramErased(mem, row, latches);
      WrittenWords(mem, row, latches);
      mem := Programmed(mem, row, latches);
    }

    /** The busy wait `while (NVM_IsBusy());` of a caller: the self-timed
        erase or write finishes, the hardware clears WR and RD, and the
        wait ends. */
    method AwaitIdle()
      modifies this`wr, this`rd, this`trace
      ensures !IsBusy()
      ensures trace == old(trace) + [Event(BusyWait, gie)]
    {
      wr, rd := false, false;
      trace := trace + [Event(BusyWait, gie)];
    }
  }
}
