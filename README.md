# SFC USB gamepad firmware: button map store, report translation, flash driver

This project models the core of a PIC16 firmware that turns an SFC
controller into a USB HID gamepad, and proves properties of that model. The
core has three parts.

- **The flash driver** (`Nvm`, nvm.dfy) has these pieces:
  - page address and page offset arithmetic;
  - the two-byte unlock key;
  - page erase and the 32-word row write through the write latches;
  - the one-word read.

  Program flash is a sequence of 14-bit words. The `Driver` class holds that
  sequence, the latches and the WR, RD, WRERR and GIE bits. A ghost trace
  records every key, erase, latch and wait operation in order, with the
  interrupt enable bit on entry to the routine; an erase or a latch load
  also records the bit at its unlock sequence and WR. `NVM_IsBusy` is the predicate
  `Driver.IsBusy`, true exactly when WR or RD is set.
- **The button map store** (`Mapping`, mapping.dfy) covers these operations:
  - the 64-byte record `map`;
  - its CRC-8 (polynomial 0x07, seed 0, MSB first, no final XOR);
  - `map_to_rowbuf`, `Mapping_Load` and `Mapping_Save` against the driver;
  - the usage lookup;
  - the 64-byte feature report the host reads and writes.

  The `Store` class holds the record and the row buffer as arrays, and it
  models the code as written. `MappingChecks` (checks.dfy) works through a
  fresh device concretely. `MappingCorrected` (corrected.dfy) holds the
  definitions the code evidently intended (see Findings).
- **The gamepad application** (`DeviceGamepad`, gamepad.dfy) covers:
  - the `flags` bitfield (2-bit crosskey mode and 1-bit table selector);
  - the table-driven loop that ORs a usage bit into the two button bytes
    for each pressed button;
  - the D-pad interpretation as analog X/Y, hat switch or Z/Rz;
  - the two hold-for-250-ticks gestures that switch modes.

  Button levels and the Timer0 tick flag are inputs. Act takes them as a
  `Buttons` value; a gesture takes them as a finite trace of `Sample`s, one
  per evaluation of its button condition.

Each operation has a reference definition, and the lemmas connect the two:
- **The button bytes.** They are the encoding of the set of usages that
  pressed buttons select (`BitmapEncodes`). So they do not depend on which
  buttons select a usage or in what order.
- **The gestures.** They are counted by a phase machine (`Run`). It shows
  that every switch costs 250 held ticks and that one hold switches at most
  once.
- **Load and save.** They are functions on byte sequences. Lemmas state
  exactly when a saved record passes the load check.

Three points of the code shape the model, and the model keeps each as
written.
- **Checksum coverage.** The load check (mapping.c:80) compares byte 2 with
  the CRC of bytes 0..62, so the CRC covers byte 2 itself and leaves out
  byte 63 (`Mapping.Accepted`, `Mapping.LastByteUnchecked`).
- **Saved bytes.** Mapping_Load reads 64 words back (mapping.c:73-77), but
  Mapping_Save programs one 32-word row (mapping.c:139), so only bytes
  0..31 reach flash.
- **Fallback checksum.** On the fallback path, byte 2 keeps the value read
  from flash while the new checksum is computed over it (mapping.c:111,
  `Mapping.DefaultRecord`).

The D-pad modes agree on direction (`DirectionsAgree`) with one exception:
left and right held together, with neither up nor down. The hat reports
East, while the X axis and the Z axis report left.

## Model

| member | source | states |
|---|---|---|
| Nvm.PageAddressGet | software/project_SFC_gamepad.X/mcc_generated_files/nvm/src/nvm.c:203-206 | the result is row-aligned (a multiple of 32), below 0x2000, not above the address, and for addresses in flash less than one row below it |
| Nvm.PageOffsetGet | software/project_SFC_gamepad.X/mcc_generated_files/nvm/src/nvm.c:208-211 | the offset is below 32, and page start plus offset gives back every address in flash |
| Nvm.PageAddressIdempotent | software/project_SFC_gamepad.X/mcc_generated_files/nvm/src/nvm.c:203-211 | taking the page start twice changes nothing, and a page start has offset 0 |
| Nvm.RowWritten | software/project_SFC_gamepad.X/mcc_generated_files/nvm/src/nvm.c:120-147 | a row write changes only the 32 words of its row, each to the 14 bits of its data word |
| Nvm.ProgramErased | software/project_SFC_gamepad.X/mcc_generated_files/nvm/src/nvm.c:131-143 | programming an erased row (cells only go from 1 to 0) stores exactly the 14 bits of each latch |
| Nvm.WrittenWords | software/project_SFC_gamepad.X/mcc_generated_files/nvm/src/nvm.c:120-147 | a row write keeps every flash word within 14 bits |
| Nvm.LatchEvents | software/project_SFC_gamepad.X/mcc_generated_files/nvm/src/nvm.c:120-147 | the loads of a row write go to consecutive addresses from the row start, carry the buffer's words in order, and only the 32nd programs the row |
| Nvm.Driver.StatusGet | software/project_SFC_gamepad.X/mcc_generated_files/nvm/src/nvm.c:53-63 | NVM_ERROR exactly when WRERR is set |
| Nvm.Driver.IsBusy | software/project_SFC_gamepad.X/mcc_generated_files/nvm/src/nvm.c:48-51 | true exactly when WR or RD is set; Driver.AwaitIdle, the model of the callers' busy wait, ends with it false |
| Nvm.Driver.StatusClear | software/project_SFC_gamepad.X/mcc_generated_files/nvm/src/nvm.c:65-68 | WRERR is cleared and nothing else changes |
| Nvm.Driver.Initialize | software/project_SFC_gamepad.X/mcc_generated_files/nvm/src/nvm.c:43-46 | afterwards the status reads NVM_OK |
| Nvm.Driver.UnlockKeySet | software/project_SFC_gamepad.X/mcc_generated_files/nvm/src/nvm.c:70-74 | high byte times 256 plus low byte equals the key given, and the key presentation is logged |
| Nvm.Driver.UnlockKeyClear | software/project_SFC_gamepad.X/mcc_generated_files/nvm/src/nvm.c:76-80 | both key bytes are zero |
| Nvm.Driver.Read | software/project_SFC_gamepad.X/mcc_generated_files/nvm/src/nvm.c:82-102 | returns the 14-bit word stored at the address and changes no state |
| Nvm.Driver.PageErase | software/project_SFC_gamepad.X/mcc_generated_files/nvm/src/nvm.c:162-201 | with the unlock key set, the whole row holding the address reads erased and all other words are kept; the erase is logged with GIE 0 at its unlock sequence and WR; GIE is back at its entry value; the status is WRERR's |
| Nvm.Driver.RowWrite | software/project_SFC_gamepad.X/mcc_generated_files/nvm/src/nvm.c:104-160 | for an erased, row-aligned row with the key set, exactly the 32 words from the address become the buffer's words (14 bits each) and nothing else changes; the 32 latch loads are logged in order with GIE as on entry; GIE is restored |
| Nvm.Driver.LoadLatch | software/project_SFC_gamepad.X/mcc_generated_files/nvm/src/nvm.c:137-146 | one latch takes the word, the load is logged with GIE 0 at its unlock sequence and WR, and GIE ends as it began |
| Nvm.Driver.AwaitIdle | software/project_SFC_gamepad.X/mapping.c:138-140 | after the caller's busy wait the driver is no longer busy |
| Mapping.Crc8 | software/project_SFC_gamepad.X/mapping.c:45-54 | the counted-down loop computes the byte-wise CRC of the first `l` bytes: seed 0, each byte XORed in and then shifted through eight rounds with polynomial 0x07 |
| Mapping.Crc | software/project_SFC_gamepad.X/mapping.c:45-54 | the reference CRC-8 the loop is proved against: seed 0, then per byte an XOR followed by eight MSB-first rounds with polynomial 0x07, with no final XOR |
| Mapping.UpdateIsEightRounds | software/project_SFC_gamepad.X/mapping.c:48-51 | taking in a byte is the XOR followed by exactly eight rounds |
| Mapping.CrcOfZeros | software/project_SFC_gamepad.X/mapping.c:45-54 | the CRC of any run of zero bytes is 0 |
| Mapping.CrcPrefix | software/project_SFC_gamepad.X/mapping.c:45-54 | the CRC of n bytes depends on those n bytes only |
| Mapping.CrcDetectsOneByte | software/project_SFC_gamepad.X/mapping.c:45-54 | changing any single byte among those hashed always changes the CRC |
| Mapping.DefaultRecord | software/project_SFC_gamepad.X/mapping.c:84-110 | the fallback record has normal table [1,2,3,4,5,6,8,7] and special table [1,11,12,13,9,10,8,7] in PHYS_BTN order, report id 0, version 1, and every reserved byte 0, while byte 2 keeps the value read |
| Mapping.Accepted | software/project_SFC_gamepad.X/mapping.c:80 | the load check: version 1 and byte 2 equal to the CRC of bytes 0..62 as read; its partners StampAcceptedIff, SavedRevalidatesIff and SingleByteCorruptionDetected state when it holds |
| Mapping.RejectedLoadsDefaults | software/project_SFC_gamepad.X/mapping.c:80-101 | whatever a rejected image holds, the load gives the default normal and special tables |
| Mapping.Stamp | software/project_SFC_gamepad.X/mapping.c:128 | byte 2 becomes the CRC of bytes 0..62 taken while it still holds its old value; no other byte changes |
| Mapping.LoadResult | software/project_SFC_gamepad.X/mapping.c:79-112 | an image passing the version and checksum check is kept unchanged; any other image is replaced by the stamped defaults; either way the version is 1 |
| Mapping.Prepared | software/project_SFC_gamepad.X/mapping.c:122-127 | before stamping, the tables are the ones given, report id is 0, version is 1, and byte 2 and every reserved byte are as before |
| Mapping.Saved | software/project_SFC_gamepad.X/mapping.c:120-128 | the saved record has the given tables, report id 0 and version 1, keeps every reserved byte, and has in byte 2 the CRC of the prepared record with the old byte 2 |
| Mapping.StampAcceptedIff | software/project_SFC_gamepad.X/mapping.c:80 | a stamped record passes the load check if and only if its new checksum equals the byte 2 it was computed over |
| Mapping.SavedRevalidatesIff | software/project_SFC_gamepad.X/mapping.c:120-128 | a saved record passes the load check exactly when its new checksum happens to equal the checksum byte it replaced |
| Mapping.SingleByteCorruptionDetected | software/project_SFC_gamepad.X/mapping.c:80 | changing one byte of an accepted record other than byte 2 or byte 63 makes the load check fail |
| Mapping.LastByteUnchecked | software/project_SFC_gamepad.X/mapping.c:80 | byte 63 is outside the checksum: an accepted record stays accepted whatever byte 63 holds |
| Mapping.FeatureReport | software/project_SFC_gamepad.X/mapping.c:196-202 | the report is 64 bytes, byte 0 is report id 0 and bytes 1..63 are the record's |
| Mapping.EchoRestamps | software/project_SFC_gamepad.X/mapping.c:166-202 | writing back a report just read from the device saves the same tables and reserved bytes and only re-stamps the checksum |
| Mapping.RowWord | software/project_SFC_gamepad.X/mapping.c:63 | a packed word has high bits 0x3F, fits in 14 bits, and its low byte is the byte packed |
| Mapping.RowImage | software/project_SFC_gamepad.X/mapping.c:56-65 | each of the 32 words of the row buffer is the padded word of record bytes 0..31 |
| Mapping.FlashImage | software/project_SFC_gamepad.X/mapping.c:73-77 | record byte i is the low byte of the flash word at HEF_ADDR + i, for all 64 bytes |
| Mapping.SaveReadBack | software/project_SFC_gamepad.X/mapping.c:131-139 | reading back after a save gives the saved bytes 0..31 and, for bytes 32..63, what the next flash row already held |
| Mapping.SaveEventsOrdered | software/project_SFC_gamepad.X/mapping.c:134-142 | every flash operation of a save runs with interrupts disabled, every erase and latch load also unlocks with them disabled, the key is presented first and cleared last, the erase precedes every latch load, and only the final load programs |
| Mapping.HefRowStart | software/project_SFC_gamepad.X/mapping.c:34 | HEF_ADDR is a fixed point of the page-start function (offset 0), and the 64 words from it lie in flash |
| Mapping.Store.constructor | software/project_SFC_gamepad.X/mapping.c:13-37 | the record and the row buffer are fresh arrays of 64 bytes and 32 words, and the record starts zeroed |
| Mapping.Store.Load | software/project_SFC_gamepad.X/mapping.c:71-113 | the record becomes the load result of the flash image at HEF_ADDR; flash is never written |
| Mapping.Store.ReadRecord | software/project_SFC_gamepad.X/mapping.c:73-77 | the record becomes the flash image, byte by byte from the low bytes of the words |
| Mapping.Store.ReadByte | software/project_SFC_gamepad.X/mapping.c:75-76 | exactly byte i changes, to the low byte of the word at HEF_ADDR + i |
| Mapping.Store.InstallDefaults | software/project_SFC_gamepad.X/mapping.c:84-110 | the record becomes the default record over the checksum byte found |
| Mapping.Store.Clear | software/project_SFC_gamepad.X/mapping.c:105-108 | exactly the bytes in the range become 0 |
| Mapping.Store.Save | software/project_SFC_gamepad.X/mapping.c:120-143 | the saved record, its packed 32-word row in flash at HEF_ADDR after an erase, the ordered event log, GIE restored, key cleared, not busy |
| Mapping.Store.StampTables | software/project_SFC_gamepad.X/mapping.c:122-128 | the RAM half of the save: the record becomes the saved record |
| Mapping.Store.WriteRow | software/project_SFC_gamepad.X/mapping.c:134-142 | the flash half: erase then write of the row buffer at HEF_ADDR with interrupts off, then GIE restored and the key cleared |
| Mapping.Store.EraseRow | software/project_SFC_gamepad.X/mapping.c:136-138 | the key set, the row at HEF_ADDR erased and awaited |
| Mapping.Store.ProgramRow | software/project_SFC_gamepad.X/mapping.c:139-141 | the row buffer written to the erased row, awaited, the key cleared |
| Mapping.Store.GetUsage | software/project_SFC_gamepad.X/mapping.c:151-159 | 0 for a button index of 8 or more, the normal table's entry for mode 0, the special table's for any other mode |
| Mapping.Store.SetFromFeatureReport | software/project_SFC_gamepad.X/mapping.c:166-190 | a report shorter than 64 bytes leaves the record, the row buffer and every driver field unchanged; otherwise the record is saved with report bytes 8..15 and 24..31 as the tables (no other report byte matters), the row buffer holds its row image, the flash and the trace are those of Save, the key is cleared and the driver is idle; GIE and WRERR end as they began |
| Mapping.Store.CopyTable | software/project_SFC_gamepad.X/mapping.c:179-186 | the new table holds the report's eight bytes from the offset |
| Mapping.Store.GetAsFeatureReport | software/project_SFC_gamepad.X/mapping.c:196-202 | the first 64 bytes of the buffer are the feature report of the record; the record and the rest of the buffer are unchanged |
| Mapping.Store.MapToRowBuf | software/project_SFC_gamepad.X/mapping.c:56-65 | the row buffer becomes the packed image of bytes 0..31 |
| MappingChecks.ErasedFlashLoadsDefaults | software/project_SFC_gamepad.X/mapping.c:71-112 | on erased flash the image is rejected, and the defaults built over the erased checksum byte 0xFF are stamped 0x2a |
| MappingChecks.SwappedSave | software/project_SFC_gamepad.X/mapping.c:120-128 | saving the A/B swap over those defaults stamps checksum 0x21 |
| MappingChecks.SwappedSaveRejected | software/project_SFC_gamepad.X/mapping.c:128 | that saved record fails the load check even with all 64 bytes in flash |
| MappingChecks.ReloadedImage | software/project_SFC_gamepad.X/mapping.c:56-65 | the image read back after that save has bytes 32..63 still erased |
| MappingChecks.ReloadRejected | software/project_SFC_gamepad.X/mapping.c:80 | that image fails the load check |
| MappingChecks.FreshDeviceLosesSavedMap | software/project_SFC_gamepad.X/mapping.c:71-143 | a fresh device that boots, receives a new normal table and reboots comes up with the default table again |
| MappingChecks.UpperHalfNotPersisted | software/project_SFC_gamepad.X/mapping.c:62-63 | a reserved byte at offset 40 saved as 0 reads back as the erased 0xFF |
| MappingCorrected.Covered | software/project_SFC_gamepad.X/mapping.c:80 | the intended checksum input: the 63 bytes other than byte 2, in order |
| MappingCorrected.LoadResult | software/project_SFC_gamepad.X/mapping.c:79-112 | with the intended check, an accepted image is kept and any other yields stamped defaults; the result always passes the check |
| MappingCorrected.Saved | software/project_SFC_gamepad.X/mapping.c:120-128 | the intended save keeps the given tables, report id 0, version 1 and the reserved bytes |
| MappingCorrected.CoveredIgnoresChecksum | software/project_SFC_gamepad.X/mapping.c:128 | overwriting byte 2 changes neither the covered bytes nor the intended checksum |
| MappingCorrected.StampAccepted | software/project_SFC_gamepad.X/mapping.c:128 | with the intended checksum every stamped record passes the check |
| MappingCorrected.DetectsAnySingleByte | software/project_SFC_gamepad.X/mapping.c:80 | changing any one of the 64 bytes of an accepted record, byte 2 and byte 63 included, makes the intended check fail |
| MappingCorrected.RowImage | software/project_SFC_gamepad.X/mapping.c:56-65 | the intended packing widens all 64 bytes |
| MappingCorrected.SaveReadBack | software/project_SFC_gamepad.X/mapping.c:131-139 | writing the image as two rows reads back the whole record |
| MappingCorrected.SaveLoadRoundTrip | software/project_SFC_gamepad.X/mapping.c:71-143 | whatever flash held before, save then load gives back the saved record with the host's tables |
| MappingCorrected.DefaultChecksum | software/project_SFC_gamepad.X/mapping.c:111 | the intended checksum of the defaults is 0xdf whatever byte was found in flash |
| DeviceGamepad.DefinedTest | software/project_SFC_gamepad.X/my_app_device_gamepad.c:117 | the loop's test rejects exactly usage 0 and usages 15 and above |
| DeviceGamepad.UsageLayout | software/project_SFC_gamepad.X/my_app_device_gamepad.c:40-78 | usages 1..8 select bit u-1 of byte 0 and usages 9..14 bit u-9 of byte 1 |
| DeviceGamepad.MaskUnique | software/project_SFC_gamepad.X/my_app_device_gamepad.c:40-78 | no two defined usages share a bit |
| DeviceGamepad.SelectedUsages | software/project_SFC_gamepad.X/my_app_device_gamepad.c:113-122 | a usage is selected exactly when some pressed button among those looked at maps to it and it is defined |
| DeviceGamepad.IsPhysPressed | software/project_SFC_gamepad.X/my_app_device_gamepad.c:81-94 | an index outside the eight physical buttons never reads pressed |
| DeviceGamepad.PhysIndicesDistinct | software/project_SFC_gamepad.X/my_app_device_gamepad.c:81-94 | the eight indices read eight different buttons: what they read determines A, B, X, Y, L, R, Start and Select |
| DeviceGamepad.EncodeAdd | software/project_SFC_gamepad.X/my_app_device_gamepad.c:119-121 | one OR of the loop on the bytes adds that usage to the encoded set |
| DeviceGamepad.EncodeBit | software/project_SFC_gamepad.X/my_app_device_gamepad.c:40-78 | a usage's bit in the encoding is set exactly when the usage is in the set |
| DeviceGamepad.EncodeInjective | software/project_SFC_gamepad.X/my_app_device_gamepad.c:40-78 | two sets of defined usages with the same encoding are equal |
| DeviceGamepad.BitmapEncodes | software/project_SFC_gamepad.X/my_app_device_gamepad.c:113-122 | after any prefix of buttons, the two bytes are the encoding of the usages selected so far |
| DeviceGamepad.BitmapBit | software/project_SFC_gamepad.X/my_app_device_gamepad.c:113-122 | after the loop, a defined usage's bit is set exactly when some pressed button maps to it |
| DeviceGamepad.BitmapHighBitsClear | software/project_SFC_gamepad.X/my_app_device_gamepad.c:55 | bits 6 and 7 of the second byte are never set |
| DeviceGamepad.BitmapDependsOnUsagesOnly | software/project_SFC_gamepad.X/my_app_device_gamepad.c:113-122 | two button states and tables give the same bytes exactly when they select the same usages, so order and duplicates do not matter |
| DeviceGamepad.IgnoredEntry | software/project_SFC_gamepad.X/my_app_device_gamepad.c:114-117 | the entry of a button that contributes nothing can be replaced by any other such entry without changing the bytes |
| DeviceGamepad.DirectionsAgree | software/project_SFC_gamepad.X/my_app_device_gamepad.c:138-186 | X/Y and Z/Rz point the same way, and the hat's compass vector matches the axes unless left and right are both held with neither up nor down |
| DeviceGamepad.HatBijective | software/project_SFC_gamepad.X/my_app_device_gamepad.c:159-177 | each hat value comes from exactly its own presses, an input without an opposite pair is recovered from its value, and NULL means nothing is pressed |
| DeviceGamepad.GestureNeedsTicks | software/project_SFC_gamepad.X/my_app_device_gamepad.c:223-245 | each switch costs 250 ticks with the pair held, so a release before 250 ticks changes nothing |
| DeviceGamepad.GestureFires | software/project_SFC_gamepad.X/my_app_device_gamepad.c:230-237 | holding the pair from entry through 250 ticks switches |
| DeviceGamepad.GestureOncePerHold | software/project_SFC_gamepad.X/my_app_device_gamepad.c:230-237 | without a release, one call switches at most once |
| DeviceGamepad.AdvancedCycles | software/project_SFC_gamepad.X/my_app_device_gamepad.c:258-262 | k advances take a mode 0..2 to (mode + k) mod 3, and mode 3 stays 3 |
| DeviceGamepad.Gamepad.constructor | software/project_SFC_gamepad.X/my_app_device_gamepad.c:27-34 | both flags start at 0 |
| DeviceGamepad.Gamepad.Init | software/project_SFC_gamepad.X/my_app_device_gamepad.c:96-99 | crosskey mode 0 and table selector 0 |
| DeviceGamepad.Gamepad.ChangeSWModeButtonStart | software/project_SFC_gamepad.X/my_app_device_gamepad.c:223-245 | the table selector is flipped once per switch the phase machine counts for Start+R; the crosskey mode is not touched |
| DeviceGamepad.Gamepad.ChangeSWModeButtonSelect | software/project_SFC_gamepad.X/my_app_device_gamepad.c:247-273 | the crosskey mode is advanced once per switch counted for Start+L; the table selector is not touched |
| DeviceGamepad.Gamepad.Act | software/project_SFC_gamepad.X/my_app_device_gamepad.c:101-196 | the button bytes are the bitmap of the pressed buttons' usages from the active table, and the directional fields are those of the crosskey mode |
| DeviceGamepad.Gamepad.SetButtons | software/project_SFC_gamepad.X/my_app_device_gamepad.c:113-122 | from zeroed bytes, the loop over the eight buttons yields the bitmap |
| DeviceGamepad.Gamepad.MapButton | software/project_SFC_gamepad.X/my_app_device_gamepad.c:114-121 | one pass extends the bitmap by one button |
| DeviceGamepad.Gamepad.SetBit | software/project_SFC_gamepad.X/my_app_device_gamepad.c:119-121 | the table lookup and the OR set exactly the usage's bit |
| DeviceGamepad.Gamepad.SetDirections | software/project_SFC_gamepad.X/my_app_device_gamepad.c:125-192 | mode 0: X and Y with left and up winning; mode 1: the hat by priority NW, NE, SW, SE, N, E, S, W, else NULL; mode 2: Z and Rz; mode 3: all neutral; every other field neutral |

## Left out

- demo_src/usb_events.c, the USB event and control-transfer plumbing, is not part of this model. Its two calls appear here as `GetAsFeatureReport` on a caller's buffer and `SetFromFeatureReport` with a length.
- Register-level effects are folded into the driver's fields and the event trace: the PMCON1, PMCON2, PMADR and PMDAT writes, and the CFGS, WREN and FREE bits. LWLO appears only as the "program" mark on a latch load.
- Storage faults are not modelled. No operation sets WRERR, so the NVM_ERROR results are reachable only through a status already set. Mapping_Save ignores the driver's results, as the code does.
- Erase and row write take effect as soon as WR is set. A busy wait (`Driver.AwaitIdle`) ends at once, so the self-timed duration is not modelled.
- A power loss between the erase and the write is not modelled, because a save here runs to completion.
- Interrupts and concurrency are not modelled, including a save from interrupt context that races the report poll. GIE is a boolean the routines save and restore.
- FLASH_RowWrite and FLASH_PageErase take the unlock key as a precondition, as the driver documents. What the hardware does with a wrong key is not modelled.
- Timer0 is an input: the tick flag is a field of each sample. The reload value and the real 4 ms period are left out.
- The HAT_SWITCH_* codes come from app_device_joystick.h, which is not part of this model. The hat is a datatype whose `Null` value stands for HAT_SWITCH_NULL.
- INPUT_CONTROLS is modelled as two button bytes and five directional fields, not as the C union over one byte buffer.
- Lines 198-221 of my_app_device_gamepad.c hold a ChangeSWMode that is commented out, so it is not modelled.
- Gamepad.ChangeSWModeButtonStart: the trace is finite and its end reads as a release. A call that never returns, because the pair is held forever, is not modelled. The same holds for Gamepad.ChangeSWModeButtonSelect.
- Nvm.Driver.Read: FLASH_Read takes any 16-bit address; the model requires one inside the 0x2000 words of flash, which the read loop of Mapping_Load always passes. What the part returns for an address past flash is not modelled.
- Mapping.Store.MapToRowBuf: the C loop writes rowBuf[32..63] past the end of the buffer. In C that is undefined and overwrites neighbouring RAM; the model drops those writes (see Findings).

## Findings

| source | as written | input that shows it | evidently intended | confidence | as-written member | corrected member |
|---|---|---|---|---|---|---|
| software/project_SFC_gamepad.X/mapping.c:128 | Mapping_Save takes the CRC of bytes 0..62 while byte 2 still holds the old checksum, and Mapping_Load then checks byte 2 against the CRC over the new value | fresh device: the boot stamps the defaults 0x2a; the host saves normal table [2,1,3,4,5,6,8,7]; the new stamp is 0x21, and the record fails the load check | the checksum covers the 63 bytes other than byte 2, so every saved record loads back | not executed | MappingChecks.SwappedSaveRejected | MappingCorrected.StampAccepted |
| software/project_SFC_gamepad.X/mapping.c:62-63 | map_to_rowbuf runs b up to 63 over a 32-word rowBuf, and FLASH_RowWrite programs one 32-word row, so bytes 32..63 never reach flash | the same save over erased flash: byte 40, saved as 0, reads back 0xFF, and after a reboot the device has the default tables again | all 64 bytes are packed into 64 words and written as two rows, so a save followed by a load returns the record | not executed | MappingChecks.FreshDeviceLosesSavedMap | MappingCorrected.SaveLoadRoundTrip |
